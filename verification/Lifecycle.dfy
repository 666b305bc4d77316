/** The blob lifecycle: which rows exist, in which state, and who pins them. Each lemma is one
    command's share of the invariant that Runs.dfy carries over every run. */
module Lifecycle {
  import opened Wrappers
  import opened Tables
  import opened Services

  /** A blob is live exactly while a current entry references it, and exactly then has no deadline. */
  ghost predicate LiveExact(entries: Entries, blobs: Blobs) {
    forall b | b in blobs ::
      && (blobs[b].state.Live? <==> CurrentRef(entries, b))
      && (blobs[b].state.Live? <==> blobs[b].deleteAfter.None?)
  }

  /** No staged blob is pinned by unexpired history. */
  ghost predicate StagedFree(versions: Versions, blobs: Blobs, now: nat) {
    forall b | b in blobs && blobs[b].state.Staged? :: !Retained(versions, b, now)
  }

  ghost predicate RowsPresent(entries: Entries, versions: Versions, blobs: Blobs, now: nat) {
    forall b | Pinned(entries, versions, b, now) :: b in blobs
  }

  ghost predicate ObjectsPresent(entries: Entries, versions: Versions, objects: set<BlobId>, now: nat) {
    forall b | Pinned(entries, versions, b, now) :: b in objects
  }

  ghost predicate Sound(db: Db, now: nat) {
    && LiveExact(db.entries, db.blobs)
    && StagedFree(db.versions, db.blobs, now)
    && RowsPresent(db.entries, db.versions, db.blobs, now)
  }

  ghost predicate Stored(db: Db, objects: set<BlobId>, now: nat) {
    ObjectsPresent(db.entries, db.versions, objects, now)
  }

  // ---- time and version expiry only ever unpin ----

  lemma RetainedEarlier(versions: Versions, b: BlobId, now: nat, later: nat)
    requires now <= later && Retained(versions, b, later)
    ensures Retained(versions, b, now)
  {
    var v :| v in versions && versions[v].content == Upsert(b) && versions[v].expiresAt > later;
  }

  lemma FewerVersions(db: Db, versions: Versions, objects: set<BlobId>, now: nat, later: nat)
    requires Sound(db, now) && now <= later
    requires forall v | v in versions :: v in db.versions && versions[v] == db.versions[v]
    ensures Sound(db.(versions := versions), later)
    ensures Stored(db, objects, now) ==> Stored(db.(versions := versions), objects, later)
  {
    forall b | Retained(versions, b, later) ensures Retained(db.versions, b, now) {
      var v :| v in versions && versions[v].content == Upsert(b) && versions[v].expiresAt > later;
      assert db.versions[v].content == Upsert(b);
    }
    forall b | Pinned(db.entries, versions, b, later) ensures Pinned(db.entries, db.versions, b, now) {
    }
  }

  lemma Later(db: Db, objects: set<BlobId>, now: nat, later: nat)
    requires Sound(db, now) && now <= later
    ensures Sound(db, later)
    ensures Stored(db, objects, now) ==> Stored(db, objects, later)
  {
    FewerVersions(db, db.versions, objects, now, later);
    assert db.(versions := db.versions) == db;
  }

  // ---- staging ----

  lemma StageSound(db: Db, now: nat, b: BlobId, size: nat, deleteAfter: nat)
    requires Sound(db, now)
    ensures Sound(StageBlobRecord(db, now, b, size, deleteAfter), now)
  {
    if StageDecisionFor(db, now, b, size).StageAccepted? {
      assert Pinned(db.entries, db.versions, b, now) ==> b in db.blobs;
    }
  }

  /** A staged blob is never pinned, so staging never pauses the vault. */
  lemma StageNeverPauses(db: Db, now: nat, b: BlobId, size: nat)
    requires Sound(db, now)
    ensures !StageDecisionFor(db, now, b, size).StagePaused?
  {
  }

  // ---- deleting rows ----

  lemma FewerRows(db: Db, doomed: set<BlobId>, used: nat, now: nat)
    requires Sound(db, now)
    requires forall b | b in doomed :: !Pinned(db.entries, db.versions, b, now)
    ensures Sound(db.(blobs := db.blobs - doomed, used := used), now)
  {
    var blobs := db.blobs - doomed;
    assert forall b | b in blobs :: b in db.blobs && blobs[b] == db.blobs[b];
    forall b | Pinned(db.entries, db.versions, b, now) ensures b in blobs {
      assert b in db.blobs;
    }
  }

  /** Deletion re-evaluates collectability, so even a list drawn up at an earlier time is safe. */
  lemma DeleteRowsSound(db: Db, ids: set<BlobId>, listedAt: nat, now: nat)
    requires Sound(db, now) && listedAt <= now
    ensures Sound(DeleteCollectibleRows(db, ids, listedAt), now)
  {
    var doomed := set b | b in ids && SqlCollectible(db, b, listedAt);
    forall b | b in doomed ensures !Pinned(db.entries, db.versions, b, now) {
      if Retained(db.versions, b, now) { RetainedEarlier(db.versions, b, listedAt, now); }
    }
    FewerRows(db, doomed, DeleteCollectibleRows(db, ids, listedAt).used, now);
  }

  // ---- committing one mutation ----

  lemma InsertedVersion(versions: Versions, id: VersionId, row: VersionRow, b: BlobId, now: nat)
    ensures Retained(InsertVersion(versions, id, row), b, now)
            ==> Retained(versions, b, now) || row.content == Upsert(b)
    ensures Retained(versions, b, now) ==> Retained(InsertVersion(versions, id, row), b, now)
  {
    var grown := InsertVersion(versions, id, row);
    if Retained(grown, b, now) {
      var v :| v in grown && grown[v].content == Upsert(b) && grown[v].expiresAt > now;
      assert v != id ==> v in versions && versions[v] == grown[v];
    }
    if Retained(versions, b, now) {
      var v :| v in versions && versions[v].content == Upsert(b) && versions[v].expiresAt > now;
      assert v in grown && grown[v] == versions[v];
    }
  }

  /** What one applied mutation can pin: what was pinned, what it replaces, what it installs. */
  lemma AppliedPins(db: Db, ctx: Context, m: Mutation, b: BlobId)
    requires Decide(db, ctx, m).Apply?
    ensures var db' := ApplyMutation(db, ctx, m, Decide(db, ctx, m));
            && (Retained(db'.versions, b, ctx.now)
                ==> Retained(db.versions, b, ctx.now) || CurrentRef(db.entries, b) || m.content == Upsert(b))
            && (CurrentRef(db'.entries, b) ==> CurrentRef(db.entries, b) || m.content == Upsert(b))
            && (m.content == Upsert(b) ==> CurrentRef(db'.entries, b))
            && (CurrentRef(db.entries, b)
                ==> CurrentRef(db'.entries, b)
                    || (m.entryId in db.entries && db.entries[m.entryId].content == Upsert(b)))
  {
    var d := Decide(db, ctx, m);
    var db' := ApplyMutation(db, ctx, m, d);
    var captured := db.versions;
    var nextId := db.nextId;
    if d.forcedHistory.Some? && m.entryId in db.entries {
      var row := HistoryBefore(db, ctx, m, d.forcedHistory.value);
      InsertedVersion(db.versions, db.nextId, row, b, ctx.now);
      captured := InsertVersion(db.versions, db.nextId, row);
      nextId := nextId + 1;
    }
    if d.captureAuto {
      InsertedVersion(captured, nextId, AutoVersion(db, ctx, m, d.revision, d.bucket), b, ctx.now);
    }
    assert db'.entries[m.entryId].content == m.content;
    if CurrentRef(db'.entries, b) {
      var e :| e in db'.entries && db'.entries[e].content == Upsert(b);
      assert e != m.entryId ==> e in db.entries && db.entries[e].content == Upsert(b);
    }
    if CurrentRef(db.entries, b) {
      var e :| e in db.entries && db.entries[e].content == Upsert(b);
      assert e != m.entryId ==> e in db'.entries && db'.entries[e].content == Upsert(b);
    }
  }

  lemma ApplySound(db: Db, ctx: Context, m: Mutation)
    requires Sound(db, ctx.now)
    requires Decide(db, ctx, m).Apply? && Blocked(db, ctx, m.content).None?
    ensures var db' := ApplyMutation(db, ctx, m, Decide(db, ctx, m));
            && Sound(db', ctx.now)
            && (Stored(db, ctx.objects, ctx.now) ==> Stored(db', ctx.objects, ctx.now))
  {
    var db' := ApplyMutation(db, ctx, m, Decide(db, ctx, m));
    assert db'.blobs.Keys == db.blobs.Keys;
    forall b
      ensures Pinned(db'.entries, db'.versions, b, ctx.now)
              ==> Pinned(db.entries, db.versions, b, ctx.now) || m.content == Upsert(b)
    {
      AppliedPins(db, ctx, m, b);
    }
    forall b | b in db'.blobs
      ensures db'.blobs[b].state.Live? <==> CurrentRef(db'.entries, b)
      ensures db'.blobs[b].state.Live? <==> db'.blobs[b].deleteAfter.None?
      ensures db'.blobs[b].state.Staged? ==> !Retained(db'.versions, b, ctx.now)
    {
      AppliedPins(db, ctx, m, b);
    }
  }

  lemma CommitOneSound(db: Db, ctx: Context, m: Mutation)
    requires Sound(db, ctx.now)
    ensures Sound(CommitOne(db, ctx, m).0, ctx.now)
    ensures Stored(db, ctx.objects, ctx.now) ==> Stored(CommitOne(db, ctx, m).0, ctx.objects, ctx.now)
  {
    if Decide(db, ctx, m).Apply? && Blocked(db, ctx, m.content).None? {
      ApplySound(db, ctx, m);
    }
  }

  lemma {:induction false} BatchSound(db: Db, ctx: Context, ms: seq<Mutation>)
    requires Sound(db, ctx.now)
    ensures Sound(BatchFold(db, ctx, ms).db, ctx.now)
    ensures Stored(db, ctx.objects, ctx.now) ==> Stored(BatchFold(db, ctx, ms).db, ctx.objects, ctx.now)
  {
    if ms != [] {
      BatchSound(db, ctx, ms[..|ms| - 1]);
      CommitOneSound(BatchFold(db, ctx, ms[..|ms| - 1]).db, ctx, ms[|ms| - 1]);
    }
  }

  // ---- purging ----

  lemma MarkSound(db: Db, ids: set<BlobId>, now: nat)
    requires Sound(db, now)
    ensures Sound(MarkAll(db, ids, now), now)
  {
  }

  lemma {:induction false} PurgeSound(db: Db, objects: set<BlobId>, now: nat, rs: seq<PurgeRequest>)
    requires Sound(db, now)
    ensures Sound(PurgeFold(db, now, rs).db, now)
    ensures Stored(db, objects, now) ==> Stored(PurgeFold(db, now, rs).db, objects, now)
  {
    if rs != [] {
      PurgeSound(db, objects, now, rs[..|rs| - 1]);
      var before := PurgeFold(db, now, rs[..|rs| - 1]).db;
      FewerVersions(before, DeleteEntryVersions(before.versions, rs[|rs| - 1].entryId), objects, now, now);
    }
  }

  // ---- repair ----

  /** What one repair step does to a staged row that nothing pins. */
  lemma RepairStepShape(s: RepairState, now: nat, b: BlobId, faults: Faults, s': RepairState)
    requires b in s.db.blobs && s.db.blobs[b].state.Staged? && !Pinned(s.db.entries, s.db.versions, b, now)
    requires s' == RepairStep(s, now, b, faults)
    ensures s'.db == DeleteBlobRecord(s.db, b) && s'.objects == ObjectsAfterDelete(s.objects, {b}, faults)
    ensures s'.issue == if faults.threw || b in faults.failed then Some(BlobStorageDeleteFailed) else s.issue
  {
    assert Confirmed({b}, faults) == if faults.threw || b in faults.failed then {} else {b};
  }

  /** Deleting one unpinned row, and at most its own object. */
  lemma DeleteRecordSound(db: Db, objects: set<BlobId>, b: BlobId, objects': set<BlobId>, now: nat, db': Db)
    requires Sound(db, now) && !Pinned(db.entries, db.versions, b, now) && objects - {b} <= objects'
    requires db' == DeleteBlobRecord(db, b)
    ensures Sound(db', now)
    ensures Stored(db, objects, now) ==> Stored(db', objects', now)
  {
    if b in db.blobs {
      FewerRows(db, {b}, db'.used, now);
      assert db' == db.(blobs := db.blobs - {b}, used := db'.used);
    }
  }
}
