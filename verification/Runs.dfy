/** Every run of the coordinator: atomic commands at a clock that never goes back, with uploads
    arriving between them. */
module Runs {
  import opened Wrappers
  import opened Tables
  import opened Services
  import opened Ordering
  import opened Lifecycle
  import opened Accounting
  import opened JobTable

  datatype Command =
    | Stage(blobId: BlobId, size: nat)
    | AbortStage(vaultId: string, blobId: BlobId)
    | Upload(blobId: BlobId)
    | DeleteOne(blobId: BlobId, faults: Faults)
    | Commit(session: Session, restoring: bool, mutations: seq<Mutation>)
    | RestoreOne(session: Session, restore: Restore, mutationId: string)
    | RestoreMany(session: Session, restores: seq<DrawnRestore>)
    | Purge(mayCollect: bool, requests: seq<PurgeRequest>, faults: Faults)
    | Alarm(mayCollect: bool, faults: Faults)
    | CollectNow(mayCollect: bool, faults: Faults)
    | Repair(faults: Faults)
    | SetPause(reason: Option<string>)
    | SetPolicy(storageLimit: nat, maxFileSize: nat, retentionDays: nat)
    | HealthTouched
    | HealthAlarm(outcome: FlushOutcome)

  datatype Event = Event(delay: nat, command: Command)

  ghost function Exec(w: World, now: nat, c: Command): World {
    match c
    case Stage(b, size) => StageBlob(w, now, b, size).0
    case AbortStage(vaultId, b) => AbortStagedBlob(w, now, vaultId, b)
    case Upload(b) => w.(clock := now, objects := w.objects + {b})
    case DeleteOne(b, faults) => DeleteBlob(w, now, b, faults)
    case Commit(session, restoring, ms) => CommitMutations(w, now, session, restoring, ms).0
    case RestoreOne(session, r, id) => RestoreEntryVersion(w, now, session, r, id).0
    case RestoreMany(session, rs) => RestoreEntryVersions(w, now, session, rs).0
    case Purge(mayCollect, rs, faults) => PurgeDeletedEntries(w, now, mayCollect, rs, faults).0
    case Alarm(mayCollect, faults) => AlarmGc(w, now, mayCollect, faults)
    case CollectNow(mayCollect, faults) => DirectGc(w, now, mayCollect, faults)
    case Repair(faults) => RepairSyncState(w, now, faults).0
    case SetPause(reason) => SetSyncPause(w, now, reason).0
    case SetPolicy(limit, maxFile, days) => ApplyVaultPolicy(w, now, limit, maxFile, days)
    case HealthTouched => ScheduleFlush(w.(clock := now), now)
    case HealthAlarm(outcome) => AlarmFlush(w, now, outcome)
  }

  function TimeOf(w: World, ev: Event): nat {
    w.clock + ev.delay
  }

  ghost function Step(w: World, ev: Event): World {
    Exec(w, TimeOf(w, ev), ev.command)
  }

  ghost function Run(w: World, evs: seq<Event>): World {
    if evs == [] then w
    else Step(Run(w, evs[..|evs| - 1]), evs[|evs| - 1])
  }

  /** A vault whose coordinator state row has just been inserted; the object store may hold anything. */
  ghost predicate Initial(w: World) {
    && w.db.entries == map[] && w.db.versions == map[] && w.db.blobs == map[]
    && w.db.cursor == 0 && w.db.used == 0 && w.db.pause.None?
    && w.jobs == map[] && w.flushAt.None?
  }

  ghost predicate TablesInv(db: Db, objects: set<BlobId>, now: nat) {
    Sound(db, now) && Stored(db, objects, now) && Bookkept(db)
  }

  ghost predicate Inv(w: World) {
    TablesInv(w.db, w.objects, w.clock)
  }

  // ---- one lemma per command ----

  lemma LaterInv(db: Db, objects: set<BlobId>, now: nat, later: nat)
    requires TablesInv(db, objects, now) && now <= later
    ensures TablesInv(db, objects, later)
  {
    Later(db, objects, now, later);
  }

  lemma StageShape(db: Db, now: nat, b: BlobId, size: nat, deleteAfter: nat, db': Db)
    requires db' == StageBlobRecord(db, now, b, size, deleteAfter)
    ensures db'.entries == db.entries && db'.versions == db.versions && db'.cursor == db.cursor
    ensures db'.nextId == db.nextId
  {
  }

  lemma StageDbInv(db: Db, objects: set<BlobId>, now: nat, b: BlobId, size: nat, deleteAfter: nat, db': Db)
    requires TablesInv(db, objects, now) && db' == StageBlobRecord(db, now, b, size, deleteAfter)
    ensures TablesInv(db', objects, now)
  {
    StageSound(db, now, b, size, deleteAfter);
    StageCounted(db, now, b, size, deleteAfter);
    StageShape(db, now, b, size, deleteAfter, db');
  }

  lemma StageInv(w: World, now: nat, b: BlobId, size: nat, w': World)
    requires TablesInv(w.db, w.objects, now) && w' == StageBlob(w, now, b, size).0
    ensures Inv(w') && w'.clock == now
  {
    if w.db.pause.None? {
      StageDbInv(w.db, w.objects, now, b, size, now + w.grace, w'.db);
    }
  }

  lemma CommitDbInv(db: Db, session: Session, ctx: Context, ms: seq<Mutation>)
    requires TablesInv(db, ctx.objects, ctx.now)
    ensures TablesInv(CommitDb(db, session, ctx, ms).0, ctx.objects, ctx.now)
  {
    BatchSound(db, ctx, ms);
    BatchBookkept(db, ctx, ms);
  }

  lemma CommitInv(w: World, now: nat, session: Session, restoring: bool, ms: seq<Mutation>)
    requires TablesInv(w.db, w.objects, now)
    ensures Inv(CommitMutations(w, now, session, restoring, ms).0)
    ensures CommitMutations(w, now, session, restoring, ms).0.clock == now
  {
    CommitDbInv(w.db, session, ContextOf(w, now, session, restoring), ms);
  }

  lemma DeleteRecordInv(db: Db, objects: set<BlobId>, b: BlobId, objects': set<BlobId>, now: nat, db': Db)
    requires TablesInv(db, objects, now) && !Pinned(db.entries, db.versions, b, now) && objects - {b} <= objects'
    requires db' == DeleteBlobRecord(db, b)
    ensures TablesInv(db', objects', now)
  {
    DeleteRecordSound(db, objects, b, objects', now, db');
    DeleteRecordCounted(db, b);
  }

  lemma ObjectGone(db: Db, objects: set<BlobId>, b: BlobId, objects': set<BlobId>, now: nat)
    requires TablesInv(db, objects, now) && !Pinned(db.entries, db.versions, b, now) && objects - {b} <= objects'
    ensures TablesInv(db, objects', now)
  {
  }

  lemma DeleteInv(w: World, now: nat, b: BlobId, faults: Faults, w': World)
    requires TablesInv(w.db, w.objects, now) && w' == DeleteBlob(w, now, b, faults)
    ensures Inv(w') && w'.clock == now
  {
    if w.db.pause.None? && !(b in w.db.blobs && Pinned(w.db.entries, w.db.versions, b, now)) {
      var objects := ObjectsAfterDelete(w.objects, {b}, faults);
      assert !Pinned(w.db.entries, w.db.versions, b, now);
      ObjectGone(w.db, w.objects, b, objects, now);
      DeleteRecordInv(w.db, w.objects, b, objects, now, DeleteBlobRecord(w.db, b));
      assert w'.objects == objects && (w'.db == w.db || w'.db == DeleteBlobRecord(w.db, b));
    }
  }

  lemma CollectInv(db: Db, objects: set<BlobId>, keys: set<BlobId>, faults: Faults, now: nat)
    requires TablesInv(db, objects, now)
    requires forall b | b in keys :: SqlCollectible(db, b, now)
    ensures TablesInv(Collect(db, objects, keys, faults, now).0, Collect(db, objects, keys, faults, now).1, now)
  {
    DeleteRowsSound(db, Confirmed(keys, faults), now, now);
    DeleteRowsCounted(db, Confirmed(keys, faults), now);
  }

  lemma ExpireInv(db: Db, objects: set<BlobId>, now: nat)
    requires TablesInv(db, objects, now)
    ensures TablesInv(Expire(db, now), objects, now)
  {
    FewerVersions(db, ExpireVersions(db.versions, now), objects, now, now);
  }

  lemma GcKeysCollectible(db: Db, now: nat)
    ensures forall b | b in GcKeys(db, now) :: SqlCollectible(db, b, now)
    ensures |GcKeys(db, now)| <= GC_BATCH_SIZE
  {
    SelectIsPage(CollectibleIds(db, now), DeadlineRank(db.blobs), GC_BATCH_SIZE);
    SetOfSeq(ListCollectible(db, now, GC_BATCH_SIZE));
  }

  lemma {:induction false} SetOfSeq(s: seq<string>)
    ensures |set x | x in s| <= |s|
    ensures (forall i, j | 0 <= i < j < |s| :: s[i] != s[j]) ==> |set x | x in s| == |s|
  {
    if s != [] {
      SetOfSeq(s[1..]);
      assert (set x | x in s) == {s[0]} + (set x | x in s[1..]);
    }
  }

  lemma GcInv(w: World, now: nat, mayCollect: bool, faults: Faults)
    requires TablesInv(w.db, w.objects, now)
    ensures var w' := RunGc(w, now, mayCollect, faults).0;
            Inv(w') && w'.clock == now && Get(w'.jobs, BlobGc) == Get(w.jobs, BlobGc)
  {
    if mayCollect {
      var expired := Expire(w.db, now);
      ExpireInv(w.db, w.objects, now);
      GcKeysCollectible(expired, now);
      CollectInv(expired, w.objects, GcKeys(expired, now), faults, now);
    }
  }

  lemma AlarmInv(w: World, now: nat, mayCollect: bool, faults: Faults)
    requires TablesInv(w.db, w.objects, now)
    ensures Inv(AlarmGc(w, now, mayCollect, faults)) && AlarmGc(w, now, mayCollect, faults).clock == now
  {
    GcInv(w, now, mayCollect, faults);
  }

  lemma DirectInv(w: World, now: nat, mayCollect: bool, faults: Faults)
    requires TablesInv(w.db, w.objects, now)
    ensures Inv(DirectGc(w, now, mayCollect, faults)) && DirectGc(w, now, mayCollect, faults).clock == now
  {
    GcInv(w, now, mayCollect, faults);
  }

  lemma MarkInv(db: Db, objects: set<BlobId>, ids: set<BlobId>, now: nat)
    requires TablesInv(db, objects, now)
    ensures TablesInv(MarkAll(db, ids, now), objects, now)
  {
    MarkSound(db, ids, now);
    MarkCounted(db, ids, now);
  }

  /** The tables after an immediate collection. */
  lemma PurgedTablesInv(db: Db, objects: set<BlobId>, now: nat, ids: set<BlobId>, faults: Faults)
    requires TablesInv(db, objects, now)
    ensures var marked := MarkAll(Expire(db, now), ids, now);
            var (db', objects') := Collect(marked, objects, PurgedKeys(marked, ids, now), faults, now);
            TablesInv(db', objects', now)
  {
    ExpireInv(db, objects, now);
    MarkInv(Expire(db, now), objects, ids, now);
    var marked := MarkAll(Expire(db, now), ids, now);
    CollectInv(marked, objects, PurgedKeys(marked, ids, now), faults, now);
  }

  lemma SchedulingKeepsTables(w: World, now: nat)
    ensures ScheduleNext(w, now) == w.(jobs := ScheduleNext(w, now).jobs)
    ensures var w' := ScheduleFlush(ScheduleNext(w, now), now);
            w' == w.(jobs := w'.jobs, flushAt := w'.flushAt)
  {
  }

  lemma CollectPurgedInv(w: World, now: nat, mayCollect: bool, ids: set<BlobId>, faults: Faults, w': World)
    requires Inv(w) && w.clock == now && w' == CollectPurged(w, now, mayCollect, ids, faults)
    ensures Inv(w') && w'.clock == now
  {
    if mayCollect && ids != {} {
      PurgedTablesInv(w.db, w.objects, now, ids, faults);
      var marked := MarkAll(Expire(w.db, now), ids, now);
      var (db, objects) := Collect(marked, w.objects, PurgedKeys(marked, ids, now), faults, now);
      SchedulingKeepsTables(w.(db := db, objects := objects), now);
    }
  }

  lemma PurgeInv(w: World, now: nat, mayCollect: bool, rs: seq<PurgeRequest>, faults: Faults, w': World)
    requires TablesInv(w.db, w.objects, now) && w' == PurgeDeletedEntries(w, now, mayCollect, rs, faults).0
    ensures Inv(w') && w'.clock == now
  {
    if w.db.pause.None? || rs == [] {
      PurgeSound(w.db, w.objects, now, rs);
      PurgeBookkept(w.db, now, rs);
      var acc := PurgeFold(w.db, now, rs);
      CollectPurgedInv(w.(clock := now, db := acc.db), now, mayCollect, acc.candidates, faults, w');
    }
  }

  lemma RepairStepInv(s: RepairState, now: nat, b: BlobId, faults: Faults, s': RepairState)
    requires TablesInv(s.db, s.objects, now) && b in s.db.blobs && s.db.blobs[b].state.Staged?
    requires s' == RepairStep(s, now, b, faults)
    ensures TablesInv(s'.db, s'.objects, now)
    ensures s'.db.blobs == s.db.blobs - {b} && s'.db.entries == s.db.entries && s'.db.versions == s.db.versions
    ensures s'.db.pause == s.db.pause
    ensures s'.issue == if faults.threw || b in faults.failed then Some(BlobStorageDeleteFailed) else s.issue
  {
    assert !Pinned(s.db.entries, s.db.versions, b, now);
    RepairStepShape(s, now, b, faults, s');
    DeleteRecordInv(s.db, s.objects, b, s'.objects, now, s'.db);
  }

  ghost predicate AnyFails(ids: seq<BlobId>, faults: Faults) {
    exists b :: b in ids && (faults.threw || b in faults.failed)
  }

  lemma OneMoreFails(front: seq<BlobId>, last: BlobId, faults: Faults)
    ensures AnyFails(front + [last], faults) <==> AnyFails(front, faults) || faults.threw || last in faults.failed
  {
    var ids := front + [last];
    assert forall b :: b in ids <==> b in front || b == last;
    if b :| b in front && (faults.threw || b in faults.failed) {
      assert b in ids;
    }
    if faults.threw || last in faults.failed {
      assert last in ids;
    }
  }

  lemma OneMoreListed(ids: seq<BlobId>, front: seq<BlobId>, last: BlobId)
    requires ids != [] && front == ids[..|ids| - 1] && last == ids[|ids| - 1]
    requires forall i, j | 0 <= i < j < |ids| :: ids[i] != ids[j]
    ensures ids == front + [last] && last !in (set b | b in front)
    ensures (set b | b in ids) == (set b | b in front) + {last}
  {
    assert ids == front + [last];
  }

  /** While repair works down its list, the blobs still to come stay staged and unpinned. */
  lemma {:induction false} RepairInv(s: RepairState, now: nat, ids: seq<BlobId>, faults: Faults, s': RepairState)
    requires TablesInv(s.db, s.objects, now) && s' == RepairFold(s, now, ids, faults)
    requires forall i | 0 <= i < |ids| :: ids[i] in s.db.blobs && s.db.blobs[ids[i]].state.Staged?
    requires forall i, j | 0 <= i < j < |ids| :: ids[i] != ids[j]
    ensures TablesInv(s'.db, s'.objects, now)
    ensures s'.db.blobs == s.db.blobs - (set b | b in ids)
    ensures s'.db.entries == s.db.entries && s'.db.versions == s.db.versions && s'.db.pause == s.db.pause
    ensures s'.issue == if AnyFails(ids, faults) then Some(BlobStorageDeleteFailed) else s.issue
  {
    if ids != [] {
      var front, last := ids[..|ids| - 1], ids[|ids| - 1];
      var mid := RepairFold(s, now, front, faults);
      RepairInv(s, now, front, faults, mid);
      OneMoreFails(front, last, faults);
      OneMoreListed(ids, front, last);
      assert mid.db.blobs[last] == s.db.blobs[last];
      RepairStepInv(mid, now, last, faults, s');
    }
  }

  /** Repair's list names staged rows, none of them twice. */
  lemma StaleListed(blobs: Blobs, now: nat)
    ensures var stale := ListStaleStaged(blobs, now);
            && (forall i | 0 <= i < |stale| :: stale[i] in blobs && blobs[stale[i]].state.Staged?)
            && (forall i, j | 0 <= i < j < |stale| :: stale[i] != stale[j])
  {
    SelectIsPage(StaleIds(blobs, now), CreationRank(blobs), MAX_REPAIRABLE + 1);
  }

  lemma PauseLifted(db: Db, objects: set<BlobId>, now: nat)
    requires TablesInv(db, objects, now)
    ensures TablesInv(db.(pause := None), objects, now)
  {
  }

  lemma RepairListInv(db: Db, objects: set<BlobId>, now: nat, faults: Faults, s: RepairState)
    requires TablesInv(db, objects, now)
    requires s == RepairFold(RepairState(db, objects, 0, None), now, ListStaleStaged(db.blobs, now), faults)
    ensures TablesInv(s.db, s.objects, now) && TablesInv(s.db.(pause := None), s.objects, now)
  {
    StaleListed(db.blobs, now);
    RepairInv(RepairState(db, objects, 0, None), now, ListStaleStaged(db.blobs, now), faults, s);
    PauseLifted(s.db, s.objects, now);
  }

  lemma RepairCommandInv(w: World, now: nat, faults: Faults, w': World)
    requires TablesInv(w.db, w.objects, now) && w' == RepairSyncState(w, now, faults).0
    ensures Inv(w') && w'.clock == now
  {
    var stale := ListStaleStaged(w.db.blobs, now);
    RepairListInv(w.db, w.objects, now, faults, RepairFold(RepairState(w.db, w.objects, 0, None), now, stale, faults));
  }

  lemma RestoreInv(w: World, now: nat, session: Session, r: Restore, id: string)
    requires TablesInv(w.db, w.objects, now)
    ensures var w' := RestoreEntryVersion(w, now, session, r, id).0;
            Inv(w') && w'.clock == now
  {
    CommitInv(w, now, session, true, [Mutation(id, r.entryId, r.content, r.baseRevision, r.metadata)]);
  }

  lemma RestoreManyInv(w: World, now: nat, session: Session, rs: seq<DrawnRestore>, w': World)
    requires TablesInv(w.db, w.objects, now) && w' == RestoreEntryVersions(w, now, session, rs).0
    ensures Inv(w') && w'.clock == now
  {
    CommitInv(w, now, session, true, PlanRestores(w.db, now, rs).mutations);
  }

  lemma HealthInv(w: World, now: nat, outcome: FlushOutcome)
    requires TablesInv(w.db, w.objects, now)
    ensures Inv(AlarmFlush(w, now, outcome)) && AlarmFlush(w, now, outcome).clock == now
    ensures Inv(ScheduleFlush(w.(clock := now), now)) && ScheduleFlush(w.(clock := now), now).clock == now
  {
  }

  lemma PauseInv(w: World, now: nat, reason: Option<string>)
    requires TablesInv(w.db, w.objects, now)
    ensures Inv(SetSyncPause(w, now, reason).0) && SetSyncPause(w, now, reason).0.clock == now
  {
  }

  lemma PolicyInv(w: World, now: nat, limit: nat, maxFile: nat, days: nat)
    requires TablesInv(w.db, w.objects, now)
    ensures Inv(ApplyVaultPolicy(w, now, limit, maxFile, days))
  {
  }

  lemma UploadInv(w: World, now: nat, b: BlobId)
    requires TablesInv(w.db, w.objects, now)
    ensures Inv(w.(clock := now, objects := w.objects + {b}))
  {
  }

  lemma AbortInv(w: World, now: nat, vaultId: string, b: BlobId)
    requires TablesInv(w.db, w.objects, now)
    ensures Inv(AbortStagedBlob(w, now, vaultId, b)) && AbortStagedBlob(w, now, vaultId, b).clock == now
  {
  }

  /** Commands that leave entries, versions, blob rows and counters alone. */
  predicate Quiet(c: Command) {
    c.AbortStage? || c.Upload? || c.SetPause? || c.SetPolicy? || c.HealthTouched? || c.HealthAlarm?
  }

  lemma QuietTables(w: World, now: nat, c: Command, w': World)
    requires Quiet(c) && w' == Exec(w, now, c)
    ensures w'.db == w.db.(pause := w'.db.pause, storageLimit := w'.db.storageLimit, maxFileSize := w'.db.maxFileSize,
                           retentionDays := w'.db.retentionDays)
    ensures !c.SetPause? ==> w'.db.pause == w.db.pause
    ensures !c.SetPolicy? ==> w'.db.retentionDays == w.db.retentionDays
  {
    match c
    case AbortStage(vaultId, b) =>
    case Upload(b) =>
    case SetPause(reason) =>
    case SetPolicy(limit, maxFile, days) =>
    case HealthTouched =>
    case HealthAlarm(outcome) =>
  }

  lemma ExecInv(w: World, now: nat, c: Command, w': World)
    requires Inv(w) && w.clock <= now && w' == Exec(w, now, c)
    ensures Inv(w') && w'.clock == now
  {
    LaterInv(w.db, w.objects, w.clock, now);
    match c
    case Stage(b, size) => StageInv(w, now, b, size, w');
    case AbortStage(vaultId, b) => AbortInv(w, now, vaultId, b);
    case Upload(b) => UploadInv(w, now, b);
    case DeleteOne(b, faults) => DeleteInv(w, now, b, faults, w');
    case Commit(session, restoring, ms) => CommitInv(w, now, session, restoring, ms);
    case RestoreOne(session, r, id) => RestoreInv(w, now, session, r, id);
    case RestoreMany(session, rs) => RestoreManyInv(w, now, session, rs, w');
    case Purge(mayCollect, rs, faults) => PurgeInv(w, now, mayCollect, rs, faults, w');
    case Alarm(mayCollect, faults) => AlarmInv(w, now, mayCollect, faults);
    case CollectNow(mayCollect, faults) => DirectInv(w, now, mayCollect, faults);
    case Repair(faults) => RepairCommandInv(w, now, faults, w');
    case SetPause(reason) => PauseInv(w, now, reason);
    case SetPolicy(limit, maxFile, days) => PolicyInv(w, now, limit, maxFile, days);
    case HealthTouched => HealthInv(w, now, NothingToReport);
    case HealthAlarm(outcome) => HealthInv(w, now, outcome);
  }

  lemma StepInv(w: World, ev: Event)
    requires Inv(w)
    ensures Inv(Step(w, ev)) && Step(w, ev).clock == w.clock + ev.delay
  {
    ExecInv(w, TimeOf(w, ev), ev.command, Step(w, ev));
  }

  lemma StepClock(w: World, ev: Event)
    requires Inv(w)
    ensures Step(w, ev).clock == w.clock + ev.delay
  {
    StepInv(w, ev);
  }

  lemma {:induction false} RunInv(w: World, evs: seq<Event>)
    requires Inv(w)
    ensures Inv(Run(w, evs))
    ensures Run(w, evs).clock >= w.clock
  {
    if evs != [] {
      RunInv(w, evs[..|evs| - 1]);
      StepInv(Run(w, evs[..|evs| - 1]), evs[|evs| - 1]);
    }
  }

  lemma InitialInv(w: World)
    requires Initial(w)
    ensures Inv(w)
  {
    assert Sizes(w.db.blobs) == map[] && Revisions(w.db.entries) == map[];
  }
}
