/** The coordinator as the program runs it: an object whose methods read and write its tables one
    statement at a time. Each method is proved to do what the command functions of Services say. */
module CoordinatorObject {
  import opened Wrappers
  import opened Tables
  import opened Policies
  import opened Services
  import opened Sums
  import opened JobTable
  import opened Runs
  import opened CoordinatorLemmas

  class Coordinator {
    const vaultId: string
    const grace: nat

    var entries: Entries
    var versions: Versions
    var blobs: Blobs
    var cursor: nat
    var used: nat
    var storageLimit: nat
    var maxFileSize: nat
    var retentionDays: nat
    var pause: Option<Pause>
    var nextId: nat
    var objects: set<BlobId>
    var jobs: Jobs
    var clock: nat
    var scheduledFlushAt: Option<nat>

    function Rows(): Db
      reads this
    {
      Db(vaultId, entries, versions, blobs, cursor, used, storageLimit, maxFileSize, retentionDays, pause, nextId)
    }

    /** The object's abstract value. */
    ghost function View(): World
      reads this
    {
      World(Rows(), objects, jobs, clock, grace, scheduledFlushAt)
    }

    /** `ensureVaultState` on a vault without a state row. */
    constructor (vaultId: string, grace: nat, storageLimit: nat, maxFileSize: nat, retentionDays: nat,
        objects: set<BlobId>, now: nat)
      ensures Initial(View())
      ensures View().db.vaultId == vaultId && View().objects == objects && View().clock == now && View().grace == grace
    {
      this.vaultId, this.grace := vaultId, grace;
      entries, versions, blobs := map[], map[], map[];
      cursor, used, nextId := 0, 0, 0;
      this.storageLimit, this.maxFileSize, this.retentionDays := storageLimit, maxFileSize, retentionDays;
      pause := None;
      this.objects := objects;
      jobs := map[];
      clock := now;
      scheduledFlushAt := None;
    }

    // ---- staging ----

    method StageBlobRecord(now: nat, b: BlobId, size: nat, deleteAfter: nat) returns (outcome: StageOutcome)
      modifies this`blobs, this`used, this`pause
      ensures outcome == if old(pause).Some? then StageRefusedPaused
          else Decided(StageDecisionFor(old(Rows()), now, b, size))
      ensures Rows() == if old(pause).Some? then old(Rows())
                        else Services.StageBlobRecord(old(Rows()), now, b, size, deleteAfter)
    {
      if pause.Some? { return StageRefusedPaused; }
      var blob := Get(blobs, b);
      var pinned := if blob.Some? then Pinned(entries, versions, b, now) else false;
      var decision := DecideBlobStage(b, size, now, blob, pinned, used, storageLimit, maxFileSize);
      if decision.StagePaused? {
        pause := PauseSync(pause, now, decision.reason);
      }
      if decision.StageAccepted? {
        blobs := PersistStage(blobs, b, size, now, deleteAfter);
        if decision.delta > 0 { used := used + decision.delta; }
      }
      outcome := Decided(decision);
    }

    method StageBlob(now: nat, b: BlobId, size: nat) returns (outcome: StageOutcome)
      modifies this
      ensures (View(), outcome) == Services.StageBlob(old(View()), now, b, size)
    {
      clock := now;
      outcome := StageBlobRecord(now, b, size, now + grace);
      if outcome.Decided? && outcome.decision.StageAccepted? {
        jobs := Defer(jobs, BlobGc, now + grace);
      }
    }

    /** Refused, with nothing touched, for another vault's upload. */
    method AbortStagedBlob(now: nat, vault: string, b: BlobId) returns (mismatch: bool)
      modifies this`jobs, this`clock
      ensures View() == Services.AbortStagedBlob(old(View()), now, vault, b)
      ensures mismatch <==> vault != vaultId
    {
      clock := now;
      if vault != vaultId { return true; }
      if b in blobs && blobs[b].state.Staged? && blobs[b].deleteAfter.Some? {
        var deadline := blobs[b].deleteAfter.value;
        jobs := Defer(jobs, BlobGc, if now < deadline then deadline else now);
      }
      mismatch := false;
    }

    method ScheduleFlush(now: nat)
      modifies this`jobs, this`scheduledFlushAt
      ensures View() == Services.ScheduleFlush(old(View()), now)
    {
      var flushAt := now + FLUSH_DELAY_MS;
      if scheduledFlushAt.Some? && scheduledFlushAt.value <= flushAt { return; }
      jobs := Defer(jobs, HealthSummaryFlush, flushAt);
      scheduledFlushAt := Some(flushAt);
    }

    method DeleteBlob(now: nat, b: BlobId, faults: Faults) returns (answer: DeleteAnswer)
      modifies this
      ensures View() == Services.DeleteBlob(old(View()), now, b, faults)
      ensures answer == DeleteAnswerOf(old(View()), now, b, faults)
    {
      clock := now;
      if pause.Some? { return DeleteRefusedPaused; }
      var blob := Get(blobs, b);
      if blob.Some? && Pinned(entries, versions, b, now) { return KeptPinned; }
      var removed := DeleteObject(b, faults);
      if !removed { return DeleteFailed; }
      if blob.Some? {
        blobs := blobs - {b};
        used := Release(used, blob.value.size);
        ScheduleFlush(now);
      }
      answer := DeleteDone;
    }

    /** One object; the answer is whether the store confirmed the deletion. */
    method DeleteObject(b: BlobId, faults: Faults) returns (confirmed: bool)
      modifies this`objects
      ensures objects == ObjectsAfterDelete(old(objects), {b}, faults)
      ensures confirmed <==> Confirmed({b}, faults) != {}
    {
      confirmed := !faults.threw && b !in faults.failed;
      assert confirmed ==> b in Confirmed({b}, faults);
      assert !confirmed ==> Confirmed({b}, faults) == {};
      if confirmed || b in faults.gone { objects := objects - {b}; }
    }

    // ---- committing ----

    /** `entry_versions` insert that ignores a conflicting row; the identifier is spent either way. */
    method InsertEntryVersion(row: VersionRow)
      modifies this`versions, this`nextId
      ensures versions == InsertVersion(old(versions), old(nextId), row) && nextId == old(nextId) + 1
    {
      versions := InsertVersion(versions, nextId, row);
      nextId := nextId + 1;
    }

    /** The row the mutation replaces is preserved, the new row written, and a sample of it taken. */
    method WriteEntry(ghost ctx: Context, now: nat, author: Author, m: Mutation, d: MutationDecision, newCursor: nat)
      requires d.Apply? && ctx.now == now && ctx.author == author && newCursor > 0
      modifies this`entries, this`versions, this`nextId
      ensures Rows().(cursor := newCursor)
              == ApplyMutation(old(Rows()).(cursor := newCursor - 1), ctx, m, d).(blobs := blobs)
    {
      ghost var db := Rows().(cursor := newCursor - 1);
      var current := Get(entries, m.entryId);
      var expiresAt := now + retentionDays * DAY_IN_MS;
      if d.forcedHistory.Some? && current.Some? {
        InsertEntryVersion(VersionRow(m.entryId, current.value.revision, current.value.content, current.value.metadata,
                                      d.forcedHistory.value, None, now, expiresAt, author));
      }
      entries := entries[m.entryId := EntryRow(d.revision, m.content, m.metadata, newCursor, now, author,
          m.mutationId)];
      assert entries == db.entries[m.entryId := NewRow(db, ctx, m, d.revision)];
      if d.captureAuto {
        InsertEntryVersion(VersionRow(m.entryId, d.revision, m.content, m.metadata, Auto, d.bucket, now, expiresAt,
            author));
      }
    }

    /** A replaced reference that was the last current one starts its blob's retirement. */
    method RetireReplaced(replaced: Option<EntryRow>, content: Content, now: nat)
      modifies this`blobs
      ensures blobs == Retire(old(blobs), entries, replaced, content, now)
    {
      if replaced.Some? && replaced.value.content.Upsert? && replaced.value.content != content
         && !CurrentRef(entries, replaced.value.content.blobId) {
        blobs := UpdateState(blobs, replaced.value.content.blobId, PendingDelete, Some(now));
      }
    }

    /** The writes of one applied mutation; the cursor itself is saved when the batch ends. */
    method WriteMutation(ghost ctx: Context, now: nat, author: Author, m: Mutation, d: MutationDecision, newCursor: nat)
      requires d.Apply? && ctx.now == now && ctx.author == author && ctx.grace == grace && newCursor > 0
      modifies this`entries, this`versions, this`blobs, this`nextId
      ensures Rows().(cursor := newCursor) == ApplyMutation(old(Rows()).(cursor := newCursor - 1), ctx, m, d)
    {
      var current := Get(entries, m.entryId);
      if m.content.Upsert? && m.content.blobId in blobs && blobs[m.content.blobId].state.PendingDelete? {
        blobs := UpdateState(blobs, m.content.blobId, Staged, Some(now + grace));
      }
      assert blobs == Rescue(old(blobs), ctx, m.content);
      WriteEntry(ctx, now, author, m, d, newCursor);
      if m.content.Upsert? {
        blobs := UpdateState(blobs, m.content.blobId, Live, None);
      }
      assert blobs == MakeLive(Rescue(old(blobs), ctx, m.content), m.content);
      RetireReplaced(current, m.content, now);
    }

    method CommitMutations(now: nat, session: Session, restoring: bool, ms: seq<Mutation>)
        returns (outcome: CommitOutcome)
      modifies this
      ensures (View(), outcome) == Services.CommitMutations(old(View()), now, session, restoring, ms)
    {
      clock := now;
      var unavailable := set m | m in ms && m.content.Upsert? && m.content.blobId !in objects :: m.content.blobId;
      if pause.Some? { return CommitRefusedPaused; }
      outcome := CommitTransaction(ContextOf(View(), now, session, restoring), now, session, restoring, ms,
          unavailable);
      if outcome.Committed? && outcome.broadcast.Some? {
        ScheduleNext(now);
        ScheduleFlush(now);
      }
    }

    /** Where the cursor stands while a batch is being applied. */
    function Position(nextCursor: Option<nat>): nat
      reads this`cursor
    {
      if nextCursor.Some? then nextCursor.value else cursor
    }

    /** One mutation that does not repeat an id. No result means the session belongs to another vault. */
    method CommitNext(ghost ctx: Context, now: nat, session: Session, restoring: bool, m: Mutation,
                      unavailable: set<BlobId>, nextCursor: Option<nat>)
        returns (result: Option<MutationResult>, next: Option<nat>)
      requires ctx == ContextOf(View(), now, session, restoring)
      requires m.content.Upsert? ==> (m.content.blobId in unavailable <==> m.content.blobId !in objects)
      requires nextCursor.Some? ==> session.vaultId == vaultId
      modifies this`entries, this`versions, this`blobs, this`nextId
      ensures var (db, r) := CommitOne(old(Rows()).(cursor := Position(nextCursor)), ctx, m);
              if result.Some? then Rows().(cursor := Position(next)) == db && result.value == r
              else session.vaultId != vaultId && db.cursor == Position(nextCursor) + 1
      ensures next == nextCursor || (next == Some(Position(nextCursor) + 1) && session.vaultId == vaultId)
    {
      next := nextCursor;
      var current := Get(entries, m.entryId);
      var d := DecideEntryMutation(current, m.mutationId, m.baseRevision, m.content,
                                   if restoring then Some(BeforeRestore) else None, now);
      if d.Idempotent? {
        result := Some(Accepted(m.mutationId, current.value.updatedSeq, m.entryId, current.value.revision));
      } else if d.StaleRevision? {
        result := Some(Rejected(m.mutationId, m.entryId, StaleBase(d.expected, d.received)));
      } else if m.content.Upsert? && m.content.blobId in unavailable {
        result := Some(Rejected(m.mutationId, m.entryId, BlobNotFound));
      } else if m.content.Upsert? && m.content.blobId !in blobs {
        result := Some(Rejected(m.mutationId, m.entryId, BlobNotStaged));
      } else if nextCursor.None? && session.vaultId != vaultId {
        result := None;
      } else {
        next := Some(Position(nextCursor) + 1);
        WriteMutation(ctx, now, session.author, m, d, next.value);
        result := Some(Accepted(m.mutationId, next.value, m.entryId, d.revision));
      }
    }

    /** What a throw inside a transaction does to the rows a commit writes. */
    method Rollback(before: Db)
      requires Rows() == before.(entries := entries, versions := versions, blobs := blobs, nextId := nextId)
      modifies this`entries, this`versions, this`blobs, this`nextId
      ensures Rows() == before
    {
      entries, versions, blobs, nextId := before.entries, before.versions, before.blobs, before.nextId;
    }

    /** The transaction: it keeps nothing when the session belongs to another vault. */
    method CommitTransaction(ghost ctx: Context, now: nat, session: Session, restoring: bool, ms: seq<Mutation>,
                             unavailable: set<BlobId>) returns (outcome: CommitOutcome)
      requires pause.None? && ctx == ContextOf(View(), now, session, restoring)
      requires forall m | m in ms && m.content.Upsert? ::
                 m.content.blobId in unavailable <==> m.content.blobId !in objects
      modifies this`entries, this`versions, this`blobs, this`nextId, this`cursor
      ensures (Rows(), outcome) == CommitDb(old(Rows()), session, ctx, ms)
    {
      var before := Rows();
      var nextCursor: Option<nat> := None;
      var highestResponse: Option<nat> := None;
      var results: seq<MutationResult> := [];
      var seen: set<string> := {};
      for i := 0 to |ms|
        invariant cursor == before.cursor
        invariant nextCursor.Some? ==> nextCursor.value > cursor && session.vaultId == vaultId
        invariant highestResponse == HighestCursor(results)
        invariant Batch(Rows().(cursor := Position(nextCursor)), results, seen) == BatchFold(before, ctx, ms[..i])
      {
        FoldOneMore(before, ctx, ms, i);
        var m := ms[i];
        var result := Rejected(m.mutationId, m.entryId, DuplicateMutationId);
        if m.mutationId !in seen {
          seen := seen + {m.mutationId};
          var decided, next := CommitNext(ctx, now, session, restoring, m, unavailable, nextCursor);
          if decided.None? {
            CursorGrows(before, ctx, ms, i + 1);
            Rollback(before);
            return VaultMismatch;
          }
          result, nextCursor := decided.value, next;
        }
        HighestSnoc(results, result);
        if result.Accepted? && (highestResponse.None? || highestResponse.value < result.cursor) {
          highestResponse := Some(result.cursor);
        }
        results := results + [result];
      }
      assert ms[..|ms|] == ms;
      if highestResponse.None? && session.vaultId != vaultId {
        Rollback(before);
        return VaultMismatch;
      }
      outcome := Committed(results, if highestResponse.Some? then highestResponse.value else cursor, nextCursor);
      if nextCursor.Some? { cursor := nextCursor.value; }
    }

    // ---- garbage collection ----

    method ScheduleNext(now: nat)
      modifies this`jobs
      ensures View() == Services.ScheduleNext(old(View()), now)
    {
      var next := ReadNextGcAt(Rows(), now);
      if next.Some? { jobs := Defer(jobs, BlobGc, next.value); }
    }

    /** The counter follows the rows a delete returned. */
    method AccountForDeleted(deleted: Blobs)
      modifies this`used
      ensures used == Release(old(used), Total(Sizes(deleted)))
    {
      var todo, bytes := deleted, 0;
      while todo != map[]
        invariant used == old(used)
        invariant bytes + Total(Sizes(todo)) == Total(Sizes(deleted))
        decreases todo.Keys
      {
        var b :| b in todo;
        SizesWithout(todo, b);
        bytes := bytes + todo[b].size;
        todo := todo - {b};
      }
      assert Total(Sizes(todo)) == 0 by { assert Sizes(todo) == map[]; }
      if bytes > 0 { used := Release(used, bytes); }
    }

    method DeleteCollectibleRecords(ids: set<BlobId>, now: nat)
      modifies this`blobs, this`used
      ensures Rows() == DeleteCollectibleRows(old(Rows()), ids, now)
    {
      var doomed := set b | b in ids && SqlCollectible(Rows(), b, now);
      var deleted := Restrict(blobs, doomed);
      blobs := blobs - doomed;
      AccountForDeleted(deleted);
    }

    /** Objects first; then the rows of those whose deletion the store confirmed. */
    method DeleteCollectibleBatch(keys: set<BlobId>, faults: Faults, now: nat) returns (failed: bool)
      modifies this`blobs, this`used, this`objects
      ensures (Rows(), objects) == Collect(old(Rows()), old(objects), keys, faults, now)
      ensures failed <==> Confirmed(keys, faults) != keys
    {
      if keys == {} {
        DeletingNothing(Rows(), now);
        assert Confirmed(keys, faults) == {};
        assert ObjectsAfterDelete(objects, keys, faults) == objects;
        return false;
      }
      objects := ObjectsAfterDelete(objects, keys, faults);
      if faults.threw {
        DeletingNothing(Rows(), now);
        return true;
      }
      var failedKeys := keys * faults.failed;
      var succeeded := keys - failedKeys;
      assert succeeded == Confirmed(keys, faults);
      DeleteCollectibleRecords(succeeded, now);
      return failedKeys != {};
    }

    /** The due page of the query, checked row by row against the policy. */
    method ListDue(now: nat) returns (collectible: set<BlobId>)
      ensures collectible == GcKeys(Rows(), now)
    {
      var due := ListCollectible(Rows(), now, GC_BATCH_SIZE);
      ListedAreCollectible(Rows(), now);
      collectible := set b | b in due && PolicyCollectible(Rows(), b, now);
    }

    /** `scheduleNextGc` is off when the maintenance alarm, which reschedules the job itself, is the caller. */
    method RunGc(now: nat, mayCollect: bool, faults: Faults, scheduleNextGc: bool) returns (outcome: GcOutcome)
      modifies this
      ensures var (w, o) := Services.RunGc(old(View()), now, mayCollect, faults);
              outcome == o && View() == w.(jobs := JobsAfterGc(w.jobs, o, scheduleNextGc))
    {
      clock := now;
      if !mayCollect {
        jobs := Defer(jobs, BlobGc, now + SUSPENDED_RETRY_MS);
        return GcSuspended(now + SUSPENDED_RETRY_MS);
      }
      versions := ExpireVersions(versions, now);
      assert Rows() == Expire(old(Rows()), now);
      var collectible := ListDue(now);
      var failed := DeleteCollectibleBatch(collectible, faults, now);
      if failed { return GcFailed; }
      outcome := FinishGc(now, scheduleNextGc);
    }

    /** After a completed collection: its next time, and a health flush as soon as possible. */
    method FinishGc(now: nat, scheduleNextGc: bool) returns (outcome: GcOutcome)
      modifies this`jobs
      ensures outcome == GcDone(ReadNextGcAt(old(Rows()), now))
      ensures jobs == JobsAfterGc(Defer(old(jobs), HealthSummaryFlush, now), outcome, scheduleNextGc)
    {
      var next := ReadNextGcAt(Rows(), now);
      if scheduleNextGc && next.Some? {
        DefersCommute(jobs, next.value, now);
        jobs := Defer(jobs, BlobGc, next.value);
      }
      jobs := Defer(jobs, HealthSummaryFlush, now);
      outcome := GcDone(next);
    }

    /** A collection someone asked for outside the alarm. */
    method DirectGc(now: nat, mayCollect: bool, faults: Faults)
      modifies this
      ensures View() == Services.DirectGc(old(View()), now, mayCollect, faults)
    {
      var _ := RunGc(now, mayCollect, faults, true);
    }

    /** The alarm runs the job if it is due, and moves or removes it by what the handler answers. */
    method AlarmGc(now: nat, mayCollect: bool, faults: Faults)
      modifies this
      ensures View() == Services.AlarmGc(old(View()), now, mayCollect, faults)
    {
      if BlobGc !in jobs || jobs[BlobGc].dueAt > now {
        clock := now;
        return;
      }
      var retryCount := jobs[BlobGc].retryCount;
      var outcome := RunGc(now, mayCollect, faults, false);
      match outcome
      case GcSuspended(retryAt) => jobs := Reschedule(jobs, BlobGc, retryAt);
      case GcFailed => jobs := RescheduleFailed(jobs, BlobGc, retryCount, now);
      case GcDone(next) =>
        if next.None? { jobs := jobs - {BlobGc}; }
        else { jobs := Reschedule(jobs, BlobGc, next.value); }
    }

    /** Marks each released blob and keeps those that can go at once. */
    method MarkPurged(ids: set<BlobId>, now: nat) returns (keys: set<BlobId>)
      modifies this`blobs
      ensures Rows() == MarkAll(old(Rows()), ids, now)
      ensures keys == PurgedKeys(Rows(), ids, now)
    {
      ghost var before := Rows();
      var todo := ids;
      keys := {};
      MarkNone(before, now);
      while todo != {}
        invariant todo <= ids
        invariant Rows() == MarkAll(before, ids - todo, now)
        invariant keys == PurgedKeys(Rows(), ids - todo, now)
        decreases todo
      {
        var b :| b in todo;
        MarkOneMore(before, ids - todo, b, now);
        assert ids - todo + {b} == ids - (todo - {b});
        if b in blobs {
          blobs := blobs[b := MarkUnpinned(Rows(), b, now)];
        }
        if SqlCollectible(Rows(), b, now) && PolicyCollectible(Rows(), b, now) {
          keys := keys + {b};
        }
        todo := todo - {b};
      }
      assert ids - todo == ids;
    }

    method CollectPurged(now: nat, mayCollect: bool, ids: set<BlobId>, faults: Faults)
      modifies this
      ensures View() == Services.CollectPurged(old(View()), now, mayCollect, ids, faults)
    {
      if !mayCollect || ids == {} { return; }
      versions := ExpireVersions(versions, now);
      assert Rows() == Expire(old(Rows()), now);
      var keys := MarkPurged(ids, now);
      var _ := DeleteCollectibleBatch(keys, faults, now);
      ScheduleNext(now);
      ScheduleFlush(now);
    }

    // ---- purge, restore, pause, policy, repair ----

    method PurgeDeletedEntries(now: nat, mayCollect: bool, rs: seq<PurgeRequest>, faults: Faults)
        returns (results: seq<PurgeDecision>)
      modifies this
      ensures (View(), results) == Services.PurgeDeletedEntries(old(View()), now, mayCollect, rs, faults)
    {
      clock := now;
      ghost var before := Rows();
      var candidates: set<BlobId> := {};
      results := [];
      for i := 0 to |rs|
        invariant View() == old(View()).(clock := now, db := Rows())
        invariant pause == before.pause && (i > 0 ==> pause.None?)
        invariant PurgeBatch(Rows(), results, candidates) == PurgeFold(before, now, rs[..i])
      {
        assert rs[..i + 1][..i] == rs[..i];
        if pause.Some? { return []; }
        var decision := PurgeDecisionFor(Rows(), now, rs[i]);
        if decision.PurgeAccepted? {
          candidates := candidates + ListBlobIds(versions, rs[i].entryId);
          versions := DeleteEntryVersions(versions, rs[i].entryId);
        }
        results := results + [decision];
      }
      assert rs[..|rs|] == rs;
      CollectPurged(now, mayCollect, candidates, faults);
    }

    /** The checks a restore must pass before it is committed. */
    method CheckRestore(now: nat, r: Restore) returns (refusal: Option<RestoreOutcome>)
      ensures refusal == RestoreRefusal(Rows(), now, r)
    {
      var current := Get(entries, r.entryId);
      if current.None? { return Some(RestoreNotFound); }
      var target := Get(versions, r.versionId);
      if target.None? || target.value.entryId != r.entryId
         || target.value.capturedAt + retentionDays * DAY_IN_MS < now {
        return Some(RestoreNotFound);
      }
      if current.value.revision != r.baseRevision {
        return Some(RestoreStale(current.value.revision, r.baseRevision));
      }
      if target.value.content != r.content { return Some(VersionMismatch); }
      return None;
    }

    method RestoreEntryVersion(now: nat, session: Session, r: Restore, mutationId: string)
        returns (outcome: RestoreOutcome)
      modifies this
      ensures (View(), outcome) == Services.RestoreEntryVersion(old(View()), now, session, r, mutationId)
    {
      clock := now;
      var refusal := CheckRestore(now, r);
      if refusal.Some? { return refusal.value; }
      var fromRevision := versions[r.versionId].sourceRevision;
      var committed := CommitMutations(now, session, true, [RestoreMutation(r, mutationId)]);
      if committed.Committed? && |committed.results| == 1 && committed.results[0].Accepted? {
        outcome := Restored(fromRevision, committed.results[0].cursor, committed.results[0].revision);
      } else {
        outcome := RestoreFailed(committed);
      }
    }

    /** The first loop of a batch restore: check each request, collecting mutations for those that pass. */
    method PlanBatch(now: nat, rs: seq<DrawnRestore>) returns (p: RestorePlan)
      ensures p == PlanRestores(Rows(), now, rs)
    {
      var items: seq<RestoreItem>, indexes: seq<nat>, sources: seq<nat>, mutations: seq<Mutation> := [], [], [], [];
      for i := 0 to |rs|
        invariant RestorePlan(items, indexes, sources, mutations) == PlanRestores(Rows(), now, rs[..i])
      {
        assert rs[..i + 1][..i] == rs[..i];
        var r := rs[i].restore;
        var refusal := CheckRestore(now, r);
        if refusal.Some? {
          items := items + [ItemRefused(refusal.value)];
        } else {
          indexes := indexes + [|items|];
          sources := sources + [versions[r.versionId].sourceRevision];
          items := items + [ItemPending];
          mutations := mutations + [Mutation(rs[i].mutationId, r.entryId, r.content, r.baseRevision, r.metadata)];
        }
      }
      assert rs[..|rs|] == rs;
      p := RestorePlan(items, indexes, sources, mutations);
    }

    /** Plan, commit the whole plan as one batch, and write each answer over the item it belongs to. */
    method RestoreEntryVersions(now: nat, session: Session, rs: seq<DrawnRestore>)
        returns (outcome: RestoreBatchOutcome)
      modifies this
      ensures (View(), outcome) == Services.RestoreEntryVersions(old(View()), now, session, rs)
    {
      clock := now;
      var p := PlanBatch(now, rs);
      if |p.mutations| == 0 { return NothingToRestore(p.items, cursor); }
      var committed := CommitMutations(now, session, true, p.mutations);
      if !committed.Committed? || |committed.results| > |p.indexes| { return BatchFailed(committed); }
      var items := Merge(p, committed.results);
      outcome := BatchRestored(items, committed.cursor, committed.broadcast);
    }

    /** The second loop: each answer over the item it belongs to. */
    method Merge(p: RestorePlan, results: seq<MutationResult>) returns (items: seq<RestoreItem>)
      requires |results| <= |p.indexes| == |p.sources|
      ensures items == MergeResults(p.items, p, results)
    {
      items := p.items;
      for i := 0 to |results|
        invariant items == MergeResults(p.items, p, results[..i])
      {
        assert results[..i + 1][..i] == results[..i];
        var k := p.indexes[i];
        if k < |items| {
          items := items[k := ItemOf(results[i], p.sources[i])];
        }
      }
      assert results[..|results|] == results;
    }

    method SetSyncPause(now: nat, reason: Option<string>) returns (outcome: PauseOutcome)
      modifies this`pause, this`clock
      ensures (View(), outcome) == Services.SetSyncPause(old(View()), now, reason)
    {
      clock := now;
      if pause.Some? && !(MANUAL_SYNC_PAUSE_PREFIX <= pause.value.reason) { return RepairRequired; }
      if reason.None? {
        pause := None;
      } else {
        pause := PauseSync(pause, now, MANUAL_SYNC_PAUSE_PREFIX + reason.value);
      }
      outcome := PauseState(pause);
    }

    method ApplyVaultPolicy(now: nat, newStorageLimit: nat, newMaxFileSize: nat, newRetentionDays: nat)
      modifies this
      ensures View() == Services.ApplyVaultPolicy(old(View()), now, newStorageLimit, newMaxFileSize, newRetentionDays)
    {
      clock := now;
      storageLimit, maxFileSize, retentionDays := newStorageLimit, newMaxFileSize, newRetentionDays;
      ScheduleFlush(now);
    }

    /** `deleteUnreferencedStagedBlob`: refused for a row that is not staged or is pinned. */
    method DeleteUnreferencedStaged(b: BlobId, now: nat) returns (referenced: bool, deleted: bool)
      modifies this`blobs, this`used
      ensures referenced <==> b in old(blobs) && (!old(blobs)[b].state.Staged? || Pinned(entries, versions, b, now))
      ensures deleted <==> b in old(blobs) && !referenced
      ensures Rows() == if referenced then old(Rows()) else DeleteBlobRecord(old(Rows()), b)
    {
      if b !in blobs { return false, false; }
      if !blobs[b].state.Staged? || Pinned(entries, versions, b, now) { return true, false; }
      var size := blobs[b].size;
      blobs := blobs - {b};
      used := Release(used, size);
      return false, true;
    }

    method RepairSyncState(now: nat, faults: Faults) returns (result: RepairResult)
      modifies this
      ensures (View(), result) == Services.RepairSyncState(old(View()), now, faults)
    {
      clock := now;
      var stale := ListStaleStaged(blobs, now);
      if pause.Some? && !(STALE_STAGED_BLOB_PAUSE_PREFIX <= pause.value.reason) {
        return ManualRepairRequired(pause, 0, |stale|, None, UnsupportedPauseReason);
      }
      if |stale| > MAX_REPAIRABLE { return ManualRepairRequired(pause, 0, |stale|, None, RepairLimitExceeded); }
      var deletedCount, issue := DropStale(stale, now, faults);
      var remaining := |ListStaleStaged(blobs, now)|;
      var nextGcAt := ReadNextGcAt(Rows(), now);
      jobs := Defer(jobs, BlobGc, now);
      if issue.Some? || remaining > 0 {
        return ManualRepairRequired(pause, deletedCount, remaining, nextGcAt,
                                    if issue.Some? then issue.value else ReferencedStagedBlob);
      }
      result := if pause.Some? || deletedCount > 0 then RepairedOk(deletedCount, nextGcAt) else NotPaused(nextGcAt);
      pause := None;
    }

    method DropStale(stale: seq<BlobId>, now: nat, faults: Faults)
        returns (deletedCount: nat, issue: Option<RepairIssue>)
      modifies this`blobs, this`used, this`objects
      ensures RepairState(Rows(), objects, deletedCount, issue)
              == RepairFold(RepairState(old(Rows()), old(objects), 0, None), now, stale, faults)
    {
      ghost var start := RepairState(Rows(), objects, 0, None);
      deletedCount, issue := 0, None;
      for i := 0 to |stale|
        invariant RepairState(Rows(), objects, deletedCount, issue) == RepairFold(start, now, stale[..i], faults)
      {
        assert stale[..i + 1][..i] == stale[..i];
        var referenced, deleted := DeleteUnreferencedStaged(stale[i], now);
        if referenced {
          issue := Some(ReferencedStagedBlob);
        } else {
          var confirmed := DeleteObject(stale[i], faults);
          if !confirmed {
            issue := Some(BlobStorageDeleteFailed);
          } else if deleted {
            deletedCount := deletedCount + 1;
          }
        }
      }
      assert stale[..|stale|] == stale;
    }

    /** Whatever else asks for a health flush: a socket that opens, a device that detaches. */
    method TouchHealth(now: nat)
      modifies this
      ensures View() == Services.ScheduleFlush(old(View()).(clock := now), now)
    {
      clock := now;
      ScheduleFlush(now);
    }

    /** The alarm runs the flush if it is due, and moves, removes or retries it by what happened. */
    method AlarmFlush(now: nat, outcome: FlushOutcome)
      modifies this
      ensures View() == Services.AlarmFlush(old(View()), now, outcome)
    {
      clock := now;
      if HealthSummaryFlush !in jobs || jobs[HealthSummaryFlush].dueAt > now { return; }
      var retryCount := jobs[HealthSummaryFlush].retryCount;
      match outcome
      case NothingToReport => jobs := jobs - {HealthSummaryFlush};
      case Reported(next) =>
        scheduledFlushAt := next;
        if next.Some? {
          jobs := Defer(jobs, HealthSummaryFlush, next.value);
          jobs := Reschedule(jobs, HealthSummaryFlush, next.value);
        } else {
          jobs := jobs - {HealthSummaryFlush};
        }
      case ReportFailed =>
        scheduledFlushAt := None;
        jobs := RescheduleFailed(jobs, HealthSummaryFlush, retryCount, now);
    }

    /** One command under the vault's lock; uploads put their object in place between commands. */
    method Serve(now: nat, c: Command)
      modifies this
      ensures View() == Exec(old(View()), now, c)
      ensures Inv(old(View())) && old(clock) <= now ==> Inv(View())
    {
      ghost var before := View();
      Dispatch(now, c);
      if Inv(before) && before.clock <= now {
        ExecInv(before, now, c, View());
      }
    }

    method Dispatch(now: nat, c: Command)
      modifies this
      ensures View() == Exec(old(View()), now, c)
    {
      if c.Stage? || c.AbortStage? || c.Upload? || c.DeleteOne? {
        DispatchBlob(now, c);
      } else if c.Commit? || c.RestoreOne? || c.RestoreMany? || c.Purge? {
        DispatchEntry(now, c);
      } else {
        DispatchUpkeep(now, c);
      }
    }

    method DispatchBlob(now: nat, c: Command)
      requires c.Stage? || c.AbortStage? || c.Upload? || c.DeleteOne?
      modifies this
      ensures View() == Exec(old(View()), now, c)
    {
      match c
      case Stage(b, size) => var _ := StageBlob(now, b, size);
      case AbortStage(vault, b) => var _ := AbortStagedBlob(now, vault, b);
      case Upload(b) => clock, objects := now, objects + {b};
      case DeleteOne(b, faults) => var _ := DeleteBlob(now, b, faults);
    }

    method DispatchEntry(now: nat, c: Command)
      requires c.Commit? || c.RestoreOne? || c.RestoreMany? || c.Purge?
      modifies this
      ensures View() == Exec(old(View()), now, c)
    {
      match c
      case Commit(session, restoring, ms) => var _ := CommitMutations(now, session, restoring, ms);
      case RestoreOne(session, r, id) => var _ := RestoreEntryVersion(now, session, r, id);
      case RestoreMany(session, rs) => var _ := RestoreEntryVersions(now, session, rs);
      case Purge(mayCollect, rs, faults) => var _ := PurgeDeletedEntries(now, mayCollect, rs, faults);
    }

    method DispatchUpkeep(now: nat, c: Command)
      requires c.Alarm? || c.CollectNow? || c.Repair? || c.SetPause? || c.SetPolicy? || c.HealthTouched?
          || c.HealthAlarm?
      modifies this
      ensures View() == Exec(old(View()), now, c)
    {
      match c
      case Alarm(mayCollect, faults) => AlarmGc(now, mayCollect, faults);
      case CollectNow(mayCollect, faults) => DirectGc(now, mayCollect, faults);
      case Repair(faults) => var _ := RepairSyncState(now, faults);
      case SetPause(reason) => var _ := SetSyncPause(now, reason);
      case SetPolicy(limit, maxFile, days) => ApplyVaultPolicy(now, limit, maxFile, days);
      case HealthTouched => TouchHealth(now);
      case HealthAlarm(outcome) => AlarmFlush(now, outcome);
    }
  }
}
