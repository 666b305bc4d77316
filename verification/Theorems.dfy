/** Results about every reachable state of the coordinator. */
module Theorems {
  import opened Wrappers
  import opened Tables
  import opened Policies
  import opened Services
  import opened Ordering
  import opened Sums
  import opened Lifecycle
  import opened Accounting
  import opened Runs
  import opened Evolution

  /** No dangling ciphertext: after any run, and at any later moment, whatever a current entry or an
      unexpired version refers to has a row and a stored object. */
  lemma {:induction false} NoDanglingCiphertext(w: World, evs: seq<Event>, b: BlobId, t: nat)
    requires Initial(w) && t >= Run(w, evs).clock
    requires Pinned(Run(w, evs).db.entries, Run(w, evs).db.versions, b, t)
    ensures b in Run(w, evs).db.blobs && b in Run(w, evs).objects
  {
    InitialInv(w);
    RunInv(w, evs);
    LaterInv(Run(w, evs).db, Run(w, evs).objects, Run(w, evs).clock, t);
  }

  /** In every reachable state: live iff currently referenced iff without a deadline, and a staged
      blob is pinned by nothing. */
  lemma BlobLifecycle(w: World, evs: seq<Event>, b: BlobId)
    requires Initial(w) && b in Run(w, evs).db.blobs
    ensures var w' := Run(w, evs); var row := w'.db.blobs[b];
            && (row.state.Live? <==> CurrentRef(w'.db.entries, b))
            && (row.state.Live? <==> row.deleteAfter.None?)
            && (row.state.Staged? ==> !Pinned(w'.db.entries, w'.db.versions, b, w'.clock))
  {
    InitialInv(w);
    RunInv(w, evs);
  }

  /** Used bytes are the sum of all row sizes, and the cursor is the sum of all revisions. */
  lemma CountersAreSums(w: World, evs: seq<Event>)
    requires Initial(w)
    ensures var db := Run(w, evs).db;
            db.used == Total(Sizes(db.blobs)) && db.cursor == Total(Revisions(db.entries))
  {
    InitialInv(w);
    RunInv(w, evs);
  }

  /** Sequence numbers identify entries and never exceed the cursor. */
  lemma SequenceNumbersDistinct(w: World, evs: seq<Event>, e: EntryId, f: EntryId)
    requires Initial(w)
    requires e in Run(w, evs).db.entries && f in Run(w, evs).db.entries
    ensures var db := Run(w, evs).db;
            && 1 <= db.entries[e].updatedSeq <= db.cursor
            && (e != f ==> db.entries[e].updatedSeq != db.entries[f].updatedSeq)
  {
    InitialInv(w);
    RunInv(w, evs);
  }

  // ---- usage and the limit ----

  lemma TotalShrinks(m: map<string, nat>, m': map<string, nat>)
    requires m'.Keys <= m.Keys && forall k | k in m' :: m'[k] == m[k]
    ensures Total(m') <= Total(m)
  {
    TotalSplit(m, m'.Keys);
    assert (map k | k in m && k in m'.Keys :: m[k]) == m';
  }

  lemma StageWithinLimit(w: World, now: nat, b: BlobId, size: nat)
    ensures var db := StageBlob(w, now, b, size).0.db;
            db.used > w.db.used ==> db.storageLimit == 0 || db.used <= db.storageLimit
  {
  }

  lemma OnlyStagingAddsRows(w: World, now: nat, c: Command, w': World)
    requires Bookkept(w.db) && w' == Exec(w, now, c) && !c.Stage?
    ensures w'.db.blobs.Keys <= w.db.blobs.Keys && SameSizes(w.db.blobs, w'.db.blobs)
  {
    match c
    case AbortStage(vaultId, b) => QuietTables(w, now, c, w');
    case Upload(b) => QuietTables(w, now, c, w');
    case DeleteOne(b, faults) => DeleteChanges(w, now, b, faults, w');
    case Commit(session, restoring, ms) => CommitChanges(w, now, session, restoring, ms, w');
    case RestoreOne(session, r, id) => RestoreChanges(w, now, session, r, id, w');
    case RestoreMany(session, rs) => RestoreManyChanges(w, now, session, rs, w');
    case Purge(mayCollect, rs, faults) => PurgeCommandChanges(w, now, mayCollect, rs, faults, w');
    case Alarm(mayCollect, faults) => AlarmChanges(w, now, mayCollect, faults, w');
    case CollectNow(mayCollect, faults) => DirectChanges(w, now, mayCollect, faults, w');
    case Repair(faults) => RepairCommandChanges(w, now, faults, w');
    case SetPause(reason) => QuietTables(w, now, c, w');
    case SetPolicy(limit, maxFile, days) => QuietTables(w, now, c, w');
    case HealthTouched => QuietTables(w, now, c, w');
    case HealthAlarm(outcome) => QuietTables(w, now, c, w');
  }

  /** No command raises usage above a non-zero current limit, also after the limit was lowered. */
  lemma {:induction false} UsageNeverRaisedAboveLimit(w: World, now: nat, c: Command, w': World)
    requires Inv(w) && Inv(w') && w' == Exec(w, now, c)
    ensures w'.db.used > w.db.used ==> w'.db.storageLimit == 0 || w'.db.used <= w'.db.storageLimit
  {
    if c.Stage? {
      StageWithinLimit(w, now, c.blobId, c.size);
    } else {
      OnlyStagingAddsRows(w, now, c, w');
      TotalShrinks(Sizes(w.db.blobs), Sizes(w'.db.blobs));
    }
  }

  // ---- replays ----

  /** A mutation whose base revision has been passed changes nothing, whatever batch it arrives in. */
  lemma StaleStep(acc: Batch, ctx: Context, m: Mutation)
    requires m.entryId in acc.db.entries && acc.db.entries[m.entryId].revision > m.baseRevision
    ensures BatchStep(acc, ctx, m).db == acc.db
  {
  }

  lemma {:induction false} StaleBatch(db: Db, ctx: Context, ms: seq<Mutation>)
    requires forall i | 0 <= i < |ms| ::
               ms[i].entryId in db.entries && db.entries[ms[i].entryId].revision > ms[i].baseRevision
    ensures BatchFold(db, ctx, ms).db == db
  {
    if ms != [] {
      StaleBatch(db, ctx, ms[..|ms| - 1]);
      StaleStep(BatchFold(db, ctx, ms[..|ms| - 1]), ctx, ms[|ms| - 1]);
    }
  }

  /** The entry is past the mutation's base revision as soon as the mutation has been applied. */
  ghost predicate AppliedIn(db: Db, ctx: Context, ms: seq<Mutation>, i: nat)
    requires i < |ms|
  {
    var acc := BatchFold(db, ctx, ms[..i]);
    && ms[i].mutationId !in acc.seen
    && Decide(acc.db, ctx, ms[i]).Apply? && Blocked(acc.db, ctx, ms[i].content).None?
  }

  lemma {:induction false} AppliedAdvances(db: Db, ctx: Context, ms: seq<Mutation>, i: nat)
    requires i < |ms| && Bookkept(db) && AppliedIn(db, ctx, ms, i)
    ensures var db' := BatchFold(db, ctx, ms).db;
            ms[i].entryId in db'.entries && db'.entries[ms[i].entryId].revision > ms[i].baseRevision
  {
    var front := ms[..|ms| - 1];
    if i == |ms| - 1 {
      ApplyShape(BatchFold(db, ctx, front).db, ctx, ms[i]);
    } else {
      assert front[..i] == ms[..i];
      AppliedAdvances(db, ctx, front, i);
      BatchBookkept(db, ctx, front);
      var mid := BatchFold(db, ctx, front).db;
      CommitOneChanges(mid, ctx, ms[|ms| - 1], CommitOne(mid, ctx, ms[|ms| - 1]).0);
    }
  }

  lemma CommitAdvances(w: World, now: nat, session: Session, restoring: bool, ms: seq<Mutation>, i: nat, w': World)
    requires Bookkept(w.db) && i < |ms| && w' == CommitMutations(w, now, session, restoring, ms).0
    requires AppliedIn(w.db, ContextOf(w, now, session, restoring), ms, i)
    requires w.db.pause.None? && session.vaultId == w.db.vaultId
    ensures ms[i].entryId in w'.db.entries && w'.db.entries[ms[i].entryId].revision > ms[i].baseRevision
  {
    AppliedAdvances(w.db, ContextOf(w, now, session, restoring), ms, i);
  }

  /** Bases once passed stay passed, so later batches naming them change nothing. */
  lemma PassedStaysPassed(w: World, evs: seq<Event>, e: EntryId, base: nat, ctx: Context, again: seq<Mutation>)
    requires Inv(w) && e in w.db.entries && w.db.entries[e].revision > base
    requires forall j | 0 <= j < |again| :: again[j].entryId == e && again[j].baseRevision <= base
    ensures BatchFold(Run(w, evs).db, ctx, again).db == Run(w, evs).db
  {
    RunEvolves(w, evs);
    StaleBatch(Run(w, evs).db, ctx, again);
  }

  /** Inside the batch too: after position `i` no position applies the same or an older base. */
  lemma NotAppliedTwice(db: Db, ctx: Context, ms: seq<Mutation>, i: nat, j: nat)
    requires Bookkept(db) && i < j < |ms| && AppliedIn(db, ctx, ms, i)
    requires ms[j].entryId == ms[i].entryId && ms[j].baseRevision <= ms[i].baseRevision
    ensures !AppliedIn(db, ctx, ms, j)
  {
    var front := ms[..j];
    assert front[..i] == ms[..i] && front[i] == ms[i];
    AppliedAdvances(db, ctx, front, i);
  }

  /** Replay safety and "applied at most once": once any mutation of a batch has been applied, no later
      position of the batch and no later batch applies a mutation to that entry with the same or an
      older base revision. */
  lemma AppliedOnce(w: World, now: nat, session: Session, restoring: bool, ms: seq<Mutation>, i: nat,
                    evs: seq<Event>, ctx: Context, again: seq<Mutation>)
    requires Inv(w) && w.clock <= now && i < |ms|
    requires AppliedIn(w.db, ContextOf(w, now, session, restoring), ms, i)
    requires w.db.pause.None? && session.vaultId == w.db.vaultId
    requires forall j | 0 <= j < |again| ::
               again[j].entryId == ms[i].entryId && again[j].baseRevision <= ms[i].baseRevision
    ensures var w' := Run(CommitMutations(w, now, session, restoring, ms).0, evs);
            BatchFold(w'.db, ctx, again).db == w'.db
    ensures forall j | i < j < |ms| && ms[j].entryId == ms[i].entryId && ms[j].baseRevision <= ms[i].baseRevision ::
              !AppliedIn(w.db, ContextOf(w, now, session, restoring), ms, j)
  {
    var first := CommitMutations(w, now, session, restoring, ms).0;
    LaterInv(w.db, w.objects, w.clock, now);
    CommitInv(w, now, session, restoring, ms);
    CommitAdvances(w, now, session, restoring, ms, i, first);
    PassedStaysPassed(first, evs, ms[i].entryId, ms[i].baseRevision, ctx, again);
    forall j | i < j < |ms| && ms[j].entryId == ms[i].entryId && ms[j].baseRevision <= ms[i].baseRevision
      ensures !AppliedIn(w.db, ContextOf(w, now, session, restoring), ms, j)
    {
      NotAppliedTwice(w.db, ContextOf(w, now, session, restoring), ms, i, j);
    }
  }

  // ---- pauses and repair ----

  /** Only an operator ever pauses a vault. */
  ghost predicate ManualOnly(w: World) {
    w.db.pause.Some? ==> MANUAL_SYNC_PAUSE_PREFIX <= w.db.pause.value.reason
  }

  lemma {:induction false} PurgeKeepsPause(db: Db, now: nat, rs: seq<PurgeRequest>)
    ensures PurgeFold(db, now, rs).db.pause == db.pause
  {
    if rs != [] { PurgeKeepsPause(db, now, rs[..|rs| - 1]); }
  }

  lemma {:induction false} BatchKeepsPause(db: Db, ctx: Context, ms: seq<Mutation>)
    ensures BatchFold(db, ctx, ms).db.pause == db.pause
  {
    if ms != [] { BatchKeepsPause(db, ctx, ms[..|ms| - 1]); }
  }

  lemma {:induction false} RepairKeepsPause(s: RepairState, now: nat, ids: seq<BlobId>, faults: Faults)
    ensures RepairFold(s, now, ids, faults).db.pause == s.db.pause
  {
    if ids != [] { RepairKeepsPause(s, now, ids[..|ids| - 1], faults); }
  }

  lemma CommitKeepsPause(w: World, now: nat, session: Session, restoring: bool, ms: seq<Mutation>)
    ensures CommitMutations(w, now, session, restoring, ms).0.db.pause == w.db.pause
  {
    BatchKeepsPause(w.db, ContextOf(w, now, session, restoring), ms);
  }

  lemma StageKeepsPause(w: World, now: nat, b: BlobId, size: nat)
    requires Sound(w.db, now)
    ensures StageBlob(w, now, b, size).0.db.pause == w.db.pause
  {
    StageNeverPauses(w.db, now, b, size);
  }

  lemma PurgeCommandKeepsPause(
      w: World, now: nat, mayCollect: bool, rs: seq<PurgeRequest>, faults: Faults, w': World)
    requires w' == PurgeDeletedEntries(w, now, mayCollect, rs, faults).0
    ensures w'.db.pause == w.db.pause
  {
    PurgeKeepsPause(w.db, now, rs);
  }

  lemma GcKeepsPause(w: World, now: nat, mayCollect: bool, faults: Faults)
    ensures AlarmGc(w, now, mayCollect, faults).db.pause == w.db.pause
    ensures DirectGc(w, now, mayCollect, faults).db.pause == w.db.pause
  {
    assert RunGc(w, now, mayCollect, faults).0.db.pause == w.db.pause;
  }

  lemma RepairOnlyLifts(w: World, now: nat, faults: Faults, w': World)
    requires w' == RepairSyncState(w, now, faults).0
    ensures w'.db.pause == w.db.pause || w'.db.pause.None?
  {
    RepairKeepsPause(RepairState(w.db, w.objects, 0, None), now, ListStaleStaged(w.db.blobs, now), faults);
  }

  lemma ManualKept(w: World, now: nat, c: Command, w': World)
    requires Sound(w.db, now) && ManualOnly(w) && w' == Exec(w, now, c)
    ensures ManualOnly(w')
  {
    match c
    case Stage(b, size) => StageKeepsPause(w, now, b, size);
    case AbortStage(vaultId, b) => QuietTables(w, now, c, w');
    case Upload(b) => QuietTables(w, now, c, w');
    case DeleteOne(b, faults) =>
    case Commit(session, restoring, ms) => CommitKeepsPause(w, now, session, restoring, ms);
    case RestoreOne(session, r, id) =>
      RestoreIsCommit(w, now, session, r, id);
      CommitKeepsPause(w, now, session, true, [RestoreMutation(r, id)]);
    case RestoreMany(session, rs) =>
      RestoreManyIsCommit(w, now, session, rs);
      CommitKeepsPause(w, now, session, true, PlanRestores(w.db, now, rs).mutations);
    case Purge(mayCollect, rs, faults) => PurgeCommandKeepsPause(w, now, mayCollect, rs, faults, w');
    case Alarm(mayCollect, faults) => GcKeepsPause(w, now, mayCollect, faults);
    case CollectNow(mayCollect, faults) => GcKeepsPause(w, now, mayCollect, faults);
    case Repair(faults) => RepairOnlyLifts(w, now, faults, w');
    case SetPause(reason) =>
    case SetPolicy(limit, maxFile, days) => QuietTables(w, now, c, w');
    case HealthTouched => QuietTables(w, now, c, w');
    case HealthAlarm(outcome) => QuietTables(w, now, c, w');
  }

  lemma {:induction false} PausesAreManual(w: World, evs: seq<Event>)
    requires Initial(w)
    ensures ManualOnly(Run(w, evs))
  {
    if evs != [] {
      var front, last := evs[..|evs| - 1], evs[|evs| - 1];
      PausesAreManual(w, front);
      SoundLater(w, front, last);
      var mid := Run(w, front);
      ManualKept(mid, TimeOf(mid, last), last.command, Step(mid, last));
    }
  }

  lemma SoundLater(w: World, evs: seq<Event>, next: Event)
    requires Initial(w)
    ensures Sound(Run(w, evs).db, TimeOf(Run(w, evs), next))
  {
    InitialInv(w);
    RunInv(w, evs);
    var w' := Run(w, evs);
    LaterInv(w'.db, w'.objects, w'.clock, TimeOf(w', next));
  }

  /** Repair in a reachable state: it asks for manual work exactly when the vault is paused, more than
      the limit is stale, or the store fails on a stale blob; it never meets a referenced staged blob;
      and otherwise it leaves nothing stale. A refusal at the start changes no table and names no next
      collection; every other answer names the one the tables it leaves call for. */
  lemma RepairOutcome(w: World, now: nat, faults: Faults)
    requires TablesInv(w.db, w.objects, now) && ManualOnly(w)
    ensures var stale := ListStaleStaged(w.db.blobs, now);
            var (w', result) := RepairSyncState(w, now, faults);
            && (result.ManualRepairRequired?
                <==> w.db.pause.Some? || |stale| > MAX_REPAIRABLE || AnyFails(stale, faults))
            && (result.ManualRepairRequired? ==> result.issue != ReferencedStagedBlob)
            && (!result.ManualRepairRequired? ==> StaleIds(w'.db.blobs, now) == {})
            && (if w.db.pause.Some? || |stale| > MAX_REPAIRABLE then w'.db == w.db && result.nextGcAt.None?
                else result.nextGcAt == ReadNextGcAt(w'.db, now))
  {
    var stale := ListStaleStaged(w.db.blobs, now);
    assert MANUAL_SYNC_PAUSE_PREFIX[0] != STALE_STAGED_BLOB_PAUSE_PREFIX[0];
    if w.db.pause.None? && |stale| <= MAX_REPAIRABLE {
      RepairClears(w, now, stale, faults);
      RepairNamesNextGc(w, now, faults);
    }
  }

  lemma RepairNamesNextGc(w: World, now: nat, faults: Faults)
    requires w.db.pause.None? && |ListStaleStaged(w.db.blobs, now)| <= MAX_REPAIRABLE
    ensures var (w', result) := RepairSyncState(w, now, faults);
            result.nextGcAt == ReadNextGcAt(w'.db, now)
  {
    var s := RepairFold(RepairState(w.db, w.objects, 0, None), now, ListStaleStaged(w.db.blobs, now), faults);
    PauseDoesNotDelayGc(s.db, now);
  }

  lemma PauseDoesNotDelayGc(db: Db, now: nat)
    ensures ReadNextGcAt(db.(pause := None), now) == ReadNextGcAt(db, now)
  {
    assert ReadGcDeadlines(db.(pause := None), now) == ReadGcDeadlines(db, now);
  }

  lemma RepairClears(w: World, now: nat, stale: seq<BlobId>, faults: Faults)
    requires TablesInv(w.db, w.objects, now)
    requires stale == ListStaleStaged(w.db.blobs, now) && |stale| <= MAX_REPAIRABLE
    ensures var s := RepairFold(RepairState(w.db, w.objects, 0, None), now, stale, faults);
            && StaleIds(s.db.blobs, now) == {} && ListStaleStaged(s.db.blobs, now) == []
            && s.issue == (if AnyFails(stale, faults) then Some(BlobStorageDeleteFailed) else None)
  {
    SelectIsPage(StaleIds(w.db.blobs, now), CreationRank(w.db.blobs), MAX_REPAIRABLE + 1);
    StaleListed(w.db.blobs, now);
    var s := RepairFold(RepairState(w.db, w.objects, 0, None), now, stale, faults);
    RepairInv(RepairState(w.db, w.objects, 0, None), now, stale, faults, s);
    assert StaleIds(s.db.blobs, now) == {};
  }

  // ---- collection makes progress ----

  const NO_FAULTS := Faults(false, {}, {})

  lemma ConfirmedCollected(db: Db, objects: set<BlobId>, keys: set<BlobId>, now: nat)
    requires forall b | b in keys :: SqlCollectible(db, b, now)
    ensures Collect(db, objects, keys, NO_FAULTS, now).0.blobs == db.blobs - keys
    ensures Collect(db, objects, keys, NO_FAULTS, now).1 == objects - keys
  {
    assert Confirmed(keys, NO_FAULTS) == keys;
    assert (set b | b in keys && SqlCollectible(db, b, now)) == keys;
  }

  lemma GcRemovesPage(w: World, now: nat)
    ensures var w', keys := RunGc(w, now, true, NO_FAULTS).0, GcKeys(Expire(w.db, now), now);
            w'.db.blobs == w.db.blobs - keys && w'.objects == w.objects - keys
  {
    var expired := Expire(w.db, now);
    GcKeysCollectible(expired, now);
    ConfirmedCollected(expired, w.objects, GcKeys(expired, now), now);
  }

  lemma PageComesFirst(db: Db, now: nat, b: BlobId, r: BlobId)
    requires SqlCollectible(db, b, now) && b !in GcKeys(db, now) && r in GcKeys(db, now)
    ensures SqlCollectible(db, r, now) && db.blobs[r].deleteAfter.value <= db.blobs[b].deleteAfter.value
    ensures |ListCollectible(db, now, GC_BATCH_SIZE)| == GC_BATCH_SIZE
  {
    var due, rank := ListCollectible(db, now, GC_BATCH_SIZE), DeadlineRank(db.blobs);
    SelectIsPage(CollectibleIds(db, now), rank, GC_BATCH_SIZE);
    GcKeysCollectible(db, now);
    var i :| 0 <= i < |due| && due[i] == r;
    assert Before(rank, due[i], b);
  }

  /** A collection the store does not obstruct removes a page of rows with their objects, and leaves a
      collectible blob only behind a full page of blobs whose deadlines are no later. */
  lemma CollectionReclaims(w: World, now: nat, b: BlobId)
    requires SqlCollectible(Expire(w.db, now), b, now)
    ensures var w', keys := RunGc(w, now, true, NO_FAULTS).0, GcKeys(Expire(w.db, now), now);
            && w'.db.blobs == w.db.blobs - keys && w'.objects == w.objects - keys
            && (b in w'.db.blobs ==> |ListCollectible(Expire(w.db, now), now, GC_BATCH_SIZE)| == GC_BATCH_SIZE)
            && (b in w'.db.blobs ==>
                  forall r | r in keys :: SqlCollectible(Expire(w.db, now), r, now)
                    && Expire(w.db, now).blobs[r].deleteAfter.value <= Expire(w.db, now).blobs[b].deleteAfter.value)
  {
    var expired := Expire(w.db, now);
    GcRemovesPage(w, now);
    SelectIsPage(CollectibleIds(expired, now), DeadlineRank(expired.blobs), GC_BATCH_SIZE);
    if b !in GcKeys(expired, now) {
      forall r | r in GcKeys(expired, now)
        ensures SqlCollectible(expired, r, now)
            && expired.blobs[r].deleteAfter.value <= expired.blobs[b].deleteAfter.value
      {
        PageComesFirst(expired, now, b, r);
      }
    }
  }

  // ---- collecting a backlog ----

  /** One collection that nothing obstructs. */
  ghost predicate Collects(w: World, now: nat, w': World) {
    w' == RunGc(w, now, true, NO_FAULTS).0
  }

  lemma ExpiryKeepsCollectible(db: Db, now: nat, b: BlobId)
    ensures SqlCollectible(Expire(db, now), b, now) <==> SqlCollectible(db, b, now)
  {
    var versions := Expire(db, now).versions;
    if Retained(db.versions, b, now) {
      var v :| v in db.versions && db.versions[v].content == Upsert(b) && db.versions[v].expiresAt > now;
      assert v in versions && versions[v].content == Upsert(b);
    }
  }

  lemma GcTables(w: World, now: nat, w': World)
    requires w' == RunGc(w, now, true, NO_FAULTS).0
    ensures w'.db.entries == w.db.entries && w'.db.versions == Expire(w.db, now).versions
    ensures w'.db.blobs == w.db.blobs - GcKeys(Expire(w.db, now), now)
  {
    GcRemovesPage(w, now);
  }

  lemma BacklogLeft(db: Db, keys: set<BlobId>, now: nat, db': Db)
    requires db'.entries == db.entries && db'.versions == db.versions && db'.blobs == db.blobs - keys
    ensures CollectibleIds(db', now) == CollectibleIds(db, now) - keys
  {
  }

  ghost function Backlog(w: World, now: nat): nat {
    |CollectibleIds(w.db, now)|
  }

  function AfterPages(backlog: nat, n: nat): nat {
    if backlog <= n * GC_BATCH_SIZE then 0 else backlog - n * GC_BATCH_SIZE
  }

  /** One collection takes a page of the backlog, or all of it. */
  lemma OnePage(w: World, now: nat, w': World)
    requires Collects(w, now, w')
    ensures Backlog(w', now) == AfterPages(Backlog(w, now), 1)
  {
    var expired := Expire(w.db, now);
    forall b ensures b in CollectibleIds(expired, now) <==> b in CollectibleIds(w.db, now) {
      ExpiryKeepsCollectible(w.db, now, b);
    }
    assert CollectibleIds(expired, now) == CollectibleIds(w.db, now);
    GcTables(w, now, w');
    BacklogLeft(expired, GcKeys(expired, now), now, w'.db);
    PageSize(expired, now);
  }

  lemma PageSize(db: Db, now: nat)
    ensures var ids, keys := CollectibleIds(db, now), GcKeys(db, now);
            keys <= ids && |ids - keys| == AfterPages(|ids|, 1)
  {
    var ids, keys, due := CollectibleIds(db, now), GcKeys(db, now), ListCollectible(db, now, GC_BATCH_SIZE);
    SelectIsPage(ids, DeadlineRank(db.blobs), GC_BATCH_SIZE);
    SetOfSeq(due);
  }

  /** Progress: collections at one moment work off the backlog a page at a time, so that as many as
      there are pages leave nothing collectible. */
  lemma {:induction false} BacklogCleared(ws: seq<World>, now: nat, n: nat)
    requires n < |ws| && forall i | 0 <= i < n :: Collects(ws[i], now, ws[i + 1])
    ensures Backlog(ws[n], now) == AfterPages(Backlog(ws[0], now), n)
  {
    if n > 0 {
      BacklogCleared(ws, now, n - 1);
      OnePage(ws[n - 1], now, ws[n]);
      NextPage(Backlog(ws[0], now), n);
    }
  }

  lemma NextPage(backlog: nat, n: nat)
    requires n > 0
    ensures AfterPages(AfterPages(backlog, n - 1), 1) == AfterPages(backlog, n)
  {
  }
}
