/** What a command is for: the other half of safety. What is let go really goes, what is asked for is
    granted exactly when it should be, and a change leaves its trace. */
module Effects {
  import opened Wrappers
  import opened Tables
  import opened Policies
  import opened Services
  import opened Lifecycle
  import opened Accounting
  import opened Runs
  import opened Theorems
  import opened Purges

  // ---- staging ----

  /** Room for a new blob: a limit of zero means no limit. */
  predicate Fits(db: Db, size: nat) {
    db.storageLimit == 0 || db.used + size <= db.storageLimit
  }

  /** On a sound vault a stage is accepted exactly when the file may be that large and either the blob
      is new and fits, or a row of the same size is there that nothing refers to. */
  lemma StageAcceptedExactly(db: Db, now: nat, b: BlobId, size: nat)
    requires Sound(db, now)
    ensures StageDecisionFor(db, now, b, size).StageAccepted?
            <==> && (db.maxFileSize == 0 || size <= db.maxFileSize)
                 && (if b in db.blobs
                     then db.blobs[b].size == size && !db.blobs[b].state.Live? && !Retained(db.versions, b, now)
                     else Fits(db, size))
  {
  }

  /** The answer to any other stage names the first thing in its way. */
  lemma StageAnswers(db: Db, now: nat, b: BlobId, size: nat)
    requires Sound(db, now)
    ensures var d := StageDecisionFor(db, now, b, size);
            var pinned := b in db.blobs && Pinned(db.entries, db.versions, b, now);
            && (d.FileTooLarge? <==> db.maxFileSize > 0 && size > db.maxFileSize)
            && (d.BlobAlreadyLive? <==> !d.FileTooLarge? && pinned)
            && (d.BlobSizeChanged? <==> !d.FileTooLarge? && !pinned && b in db.blobs && db.blobs[b].size != size)
            && (d.BlobSizeChanged? ==> d.previous == db.blobs[b].size)
            && (d.QuotaExceeded? <==> !d.FileTooLarge? && b !in db.blobs && !Fits(db, size))
            && (d.StageAccepted? ==> d.delta == if b in db.blobs then 0 else size)
  {
    StageNeverPauses(db, now, b, size);
  }

  /** Even where the lifecycle is broken, a stage pauses the vault only over a row that is staged, pinned
      and an hour old, and for a reason that a repair recognises as its own. */
  lemma StagePausesExactly(db: Db, now: nat, b: BlobId, size: nat)
    ensures var d := StageDecisionFor(db, now, b, size);
            && (d.StagePaused? <==> && b in db.blobs && db.blobs[b].state.Staged?
                                    && Pinned(db.entries, db.versions, b, now)
                                    && db.blobs[b].createdAt + 60 * 60 * 1000 <= now)
            && (d.StagePaused? ==> STALE_STAGED_BLOB_PAUSE_PREFIX <= d.reason)
  {
  }

  /** An accepted stage gives the blob a staged row that may not be collected before its grace period
      ends, keeping size and creation time of a row that was there; a refused one changes no row. */
  lemma StagedRow(w: World, now: nat, b: BlobId, size: nat, w': World, o: StageOutcome)
    requires (w', o) == StageBlob(w, now, b, size)
    ensures if o == Decided(StageDecisionFor(w.db, now, b, size)) && o.decision.StageAccepted?
            then && w'.db == w.db.(blobs := w'.db.blobs, used := w'.db.used)
                 && w'.db.blobs.Keys == w.db.blobs.Keys + {b}
                 && (forall c | c in w.db.blobs && c != b :: w'.db.blobs[c] == w.db.blobs[c])
                 && w'.db.blobs[b].state.Staged? && w'.db.blobs[b].uploadedAt == now
                 && w'.db.blobs[b].deleteAfter == Some(now + w.grace)
                 && w'.db.blobs[b].size == (if b in w.db.blobs then w.db.blobs[b].size else size)
                 && w'.db.blobs[b].createdAt == (if b in w.db.blobs then w.db.blobs[b].createdAt else now)
            else w'.db.blobs == w.db.blobs && w'.db.used == w.db.used
    ensures o.StageRefusedPaused? <==> w.db.pause.Some?
  {
  }

  // ---- explicit deletion ----

  /** A deletion is answered by what it did: refused or pinned, nothing; failed, no row; done, the blob
      is gone with its row and its bytes. */
  lemma DeletedBlob(w: World, now: nat, b: BlobId, faults: Faults, w': World)
    requires w' == DeleteBlob(w, now, b, faults) && Counted(w.db)
    ensures var pinned := b in w.db.blobs && Pinned(w.db.entries, w.db.versions, b, now);
            match DeleteAnswerOf(w, now, b, faults)
            case DeleteRefusedPaused => w.db.pause.Some? && w'.db == w.db && w'.objects == w.objects
            case KeptPinned => w.db.pause.None? && pinned && w'.db == w.db && w'.objects == w.objects
            case DeleteFailed =>
              w.db.pause.None? && !pinned && (faults.threw || b in faults.failed) && w'.db == w.db
            case DeleteDone =>
              && w.db.pause.None? && !pinned && !faults.threw && b !in faults.failed
              && b !in w'.db.blobs && b !in w'.objects && w'.db.blobs == w.db.blobs - {b} && Counted(w'.db)
    ensures w.objects - w'.objects <= {b}
  {
    DeleteRecordCounted(w.db, b);
    assert Confirmed({b}, faults) == if faults.threw || b in faults.failed then {} else {b};
  }

  // ---- committing ----

  /** A replaced blob without another current reference is garbage from that moment on, exactly while
      no unexpired version keeps it. */
  lemma ReplacedBecomesGarbage(db: Db, ctx: Context, m: Mutation, b: BlobId, t: nat, db': Db)
    requires Sound(db, ctx.now) && Decide(db, ctx, m).Apply? && db' == ApplyMutation(db, ctx, m, Decide(db, ctx, m))
    requires m.entryId in db.entries && db.entries[m.entryId].content == Upsert(b) && m.content != Upsert(b)
    requires !CurrentRef(db'.entries, b) && t >= ctx.now
    ensures SqlCollectible(db', b, t) <==> !Retained(db'.versions, b, t)
  {
    assert CurrentRef(db.entries, b);
    assert Pinned(db.entries, db.versions, b, ctx.now);
    RetiredRow(db, ctx, m, b, db');
  }

  lemma RetiredRow(db: Db, ctx: Context, m: Mutation, b: BlobId, db': Db)
    requires Decide(db, ctx, m).Apply? && db' == ApplyMutation(db, ctx, m, Decide(db, ctx, m))
    requires m.entryId in db.entries && db.entries[m.entryId].content == Upsert(b) && m.content != Upsert(b)
    requires !CurrentRef(db'.entries, b) && b in db.blobs
    ensures b in db'.blobs && db'.blobs[b].state.PendingDelete? && db'.blobs[b].deleteAfter == Some(ctx.now)
  {
  }

  /** The five-minute bucket a moment falls into. */
  ghost predicate InBucket(start: nat, now: nat) {
    start <= now < start + 5 * 60 * 1000 && start % (5 * 60 * 1000) == 0
  }

  /** The version is a sample of the mutation's content, kept for the retention window. */
  ghost predicate Samples(row: VersionRow, db: Db, ctx: Context, m: Mutation) {
    && row.content == m.content && row.metadata == m.metadata && row.sourceRevision == m.baseRevision + 1
    && row.capturedAt == ctx.now && row.expiresAt == ctx.now + db.retentionDays * DAY_IN_MS
    && row.author == ctx.author
  }

  /** An applied change of an existing entry, not a restore and not a delete, leaves an automatic
      version of that entry in the current five-minute bucket; if there was none, it is the change. */
  lemma ChangeIsSampled(db: Db, ctx: Context, m: Mutation, db': Db) returns (v: VersionId)
    requires Decide(db, ctx, m).Apply? && db' == ApplyMutation(db, ctx, m, Decide(db, ctx, m))
    requires IdsFresh(db) && m.content.Upsert? && !ctx.restoring && m.entryId in db.entries && m.baseRevision > 0
    ensures v in db'.versions && db'.versions[v].entryId == m.entryId && db'.versions[v].reason == Auto
    ensures db'.versions[v].bucketStart.Some? && InBucket(db'.versions[v].bucketStart.value, ctx.now)
    ensures v in db.versions || Samples(db'.versions[v], db, ctx, m)
  {
    var row := AutoVersion(db, ctx, m, m.baseRevision + 1, Some(BucketStart(ctx.now)));
    if BucketTaken(db.versions, row) {
      v :| v in db.versions && db.versions[v].entryId == row.entryId
           && db.versions[v].reason == row.reason && db.versions[v].bucketStart == row.bucketStart;
      assert v in db'.versions && db'.versions[v] == db.versions[v];
    } else {
      assert db.nextId !in db.versions;
      v := db.nextId;
      assert db'.versions[v] == row;
    }
  }

  /** No other history comes of a mutation: a version that is new is the sample of a change, or keeps what
      a delete or a restore replaced. In particular the first mutation of an entry leaves none. */
  lemma NewHistory(db: Db, ctx: Context, m: Mutation, db': Db, v: VersionId)
    requires db' == CommitOne(db, ctx, m).0 && v in db'.versions && v !in db.versions
    ensures m.entryId in db.entries && db'.versions[v].entryId == m.entryId
    ensures if ctx.restoring || m.content.Delete?
            then && db'.versions[v].content == db.entries[m.entryId].content
                 && db'.versions[v].reason == if m.content.Delete? then BeforeDelete else BeforeRestore
            else db'.versions[v].reason == Auto && Samples(db'.versions[v], db, ctx, m)
    ensures forall u | u in db'.versions && u !in db.versions :: u == v
  {
  }

  // ---- collecting ----

  /** A collection drops every version that has expired, and no other. */
  lemma CollectionExpires(w: World, now: nat, faults: Faults, v: VersionId)
    ensures v in RunGc(w, now, true, faults).0.db.versions
            <==> v in w.db.versions && w.db.versions[v].expiresAt > now
  {
  }

  /** Under suspension a collection touches neither tables nor objects, and is due again in an hour. */
  lemma SuspendedCollectsNothing(w: World, now: nat, faults: Faults, w': World, o: GcOutcome)
    requires (w', o) == RunGc(w, now, false, faults)
    ensures w' == w.(clock := now) && o == GcSuspended(now + 60 * 60 * 1000)
  {
  }

  /** A collection fails exactly if the store leaves one of its keys unconfirmed; failed or not, a row it
      takes is garbage by then, and so is every object it takes. */
  lemma OnlyGarbageCollected(w: World, now: nat, faults: Faults, b: BlobId, w': World, o: GcOutcome)
    requires (w', o) == RunGc(w, now, true, faults)
    ensures o.GcFailed? <==> exists c :: c in GcKeys(Expire(w.db, now), now) && (faults.threw || c in faults.failed)
    ensures b in w.db.blobs && b !in w'.db.blobs ==> SqlCollectible(w.db, b, now) && b !in w'.objects
    ensures b in w.objects && b !in w'.objects ==> SqlCollectible(w.db, b, now)
  {
    var keys := GcKeys(Expire(w.db, now), now);
    GcKeysCollectible(Expire(w.db, now), now);
    ExpiryKeepsCollectible(w.db, now, b);
    KeysConfirmed(keys, faults);
    assert w'.db.blobs.Keys >= w.db.blobs.Keys - Confirmed(keys, faults);
    assert w'.objects >= w.objects - keys;
  }

  lemma KeysConfirmed(keys: set<BlobId>, faults: Faults)
    ensures Confirmed(keys, faults) == keys <==> !exists c :: c in keys && (faults.threw || c in faults.failed)
  {
    if c :| c in keys && (faults.threw || c in faults.failed) {
      assert c !in Confirmed(keys, faults);
    }
  }

  // ---- purging ----

  /** After an immediate collection that the store does not obstruct, a released blob's row is still
      there exactly if something pins it, or it is a fresh stage still in its grace period. */
  lemma PurgedBlobsGo(db: Db, objects: set<BlobId>, now: nat, ids: set<BlobId>, b: BlobId)
    requires b in ids && b in db.blobs
    ensures var marked := MarkAll(Expire(db, now), ids, now);
            var (db', objects') := Collect(marked, objects, PurgedKeys(marked, ids, now), NO_FAULTS, now);
            && (b in db'.blobs <==>
                  || Pinned(marked.entries, marked.versions, b, now)
                  || (db.blobs[b].state.Staged? && !SqlCollectible(Expire(db, now), b, now)))
            && (b !in db'.blobs ==> b !in objects')
  {
    var expired := Expire(db, now);
    var marked := MarkAll(expired, ids, now);
    MarkedCollectible(expired, ids, now, b);
    ConfirmedCollected(marked, objects, PurgedKeys(marked, ids, now), now);
  }

  /** Marking what a purge released puts no deadline off: an unpinned blob that is not staged is due for
      deletion from now on, or from the earlier deadline it had, and every other row stays as it is. */
  lemma MarkNeverDelays(db: Db, ids: set<BlobId>, now: nat, b: BlobId)
    requires b in db.blobs
    ensures var row, marked := db.blobs[b], MarkAll(db, ids, now).blobs;
            && b in marked
            && if b in ids && !row.state.Staged? && !Pinned(db.entries, db.versions, b, now)
               then && marked[b].state.PendingDelete? && marked[b].size == row.size
                    && marked[b].deleteAfter == (if row.deleteAfter.Some? && row.deleteAfter.value <= now
                                                 then row.deleteAfter else Some(now))
               else marked[b] == row
  {
  }

  lemma MarkedCollectible(db: Db, ids: set<BlobId>, now: nat, b: BlobId)
    requires b in ids && b in db.blobs
    ensures SqlCollectible(MarkAll(db, ids, now), b, now)
            <==> !Pinned(db.entries, db.versions, b, now)
                 && (db.blobs[b].state.Staged? ==> SqlCollectible(db, b, now))
  {
  }

  /** The command collects at once: after a purge that sharing allows and the store does not obstruct, a
      blob that only purged history kept has lost its row and its object. */
  lemma PurgeCollectsAtOnce(w: World, now: nat, rs: seq<PurgeRequest>, b: BlobId, w': World)
    requires Sound(w.db, now) && w.db.pause.None? && w' == PurgeDeletedEntries(w, now, true, rs, NO_FAULTS).0
    requires b in w.db.blobs && !w.db.blobs[b].state.Staged? && !CurrentRef(w.db.entries, b)
    requires exists v :: v in w.db.versions && w.db.versions[v].content == Upsert(b)
                         && w.db.versions[v].entryId in Purged(w.db, now, rs)
    requires forall v | v in w.db.versions && w.db.versions[v].content == Upsert(b)
                        && w.db.versions[v].expiresAt > now :: w.db.versions[v].entryId in Purged(w.db, now, rs)
    ensures b !in w'.db.blobs && b !in w'.objects
  {
    PurgeExactly(w.db, now, rs);
    var acc := PurgeFold(w.db, now, rs);
    assert b in acc.candidates;
    PurgedBlobsGo(acc.db, w.objects, now, acc.candidates, b);
    CollectsPurged(w.(clock := now, db := acc.db), now, acc.candidates, w');
  }

  lemma CollectsPurged(w: World, now: nat, ids: set<BlobId>, w': World)
    requires w' == CollectPurged(w, now, true, ids, NO_FAULTS) && ids != {}
    ensures var marked := MarkAll(Expire(w.db, now), ids, now);
            (w'.db, w'.objects) == Collect(marked, w.objects, PurgedKeys(marked, ids, now), NO_FAULTS, now)
  {
    var marked := MarkAll(Expire(w.db, now), ids, now);
    var (db, objects) := Collect(marked, w.objects, PurgedKeys(marked, ids, now), NO_FAULTS, now);
    SchedulingKeepsTables(w.(db := db, objects := objects), now);
  }
}
