/** What pauses, policies, repairs and the next collection time come to. */
module Upkeep {
  import opened Wrappers
  import opened Tables
  import opened Policies
  import opened Services
  import opened Ordering
  import opened JobTable
  import opened Lifecycle
  import opened Accounting
  import opened Runs
  import opened Evolution
  import opened Theorems
  import opened Commits

  // ---- pauses ----

  /** The operator's word counts: in a reachable state asking for no pause ends it, and asking for one
      pauses an unpaused vault from now on, for the operator's reason, while a pause that is there
      already keeps its reason and its time. The answer is the pause there is. */
  lemma PauseFollowsOperator(w: World, now: nat, reason: Option<string>, w': World, o: PauseOutcome)
    requires ManualOnly(w) && (w', o) == SetSyncPause(w, now, reason)
    ensures o == PauseState(w'.db.pause) && w'.db == w.db.(pause := w'.db.pause)
    ensures reason.None? ==> w'.db.pause.None?
    ensures reason.Some? && w.db.pause.Some? ==> w'.db.pause == w.db.pause
    ensures reason.Some? && w.db.pause.None? ==>
              w'.db.pause == Some(Pause(now, MANUAL_SYNC_PAUSE_PREFIX + reason.value))
  {
  }

  /** A pause the operator did not set is not the operator's to end or to change. */
  lemma OtherPausesKept(w: World, now: nat, reason: Option<string>, w': World, o: PauseOutcome)
    requires !ManualOnly(w) && (w', o) == SetSyncPause(w, now, reason)
    ensures o.RepairRequired? && w'.db == w.db
  {
  }

  /** A policy replaces exactly the two limits and the retention window. */
  lemma PolicyApplied(w: World, now: nat, storageLimit: nat, maxFileSize: nat, days: nat, w': World)
    requires w' == ApplyVaultPolicy(w, now, storageLimit, maxFileSize, days)
    ensures w'.db.storageLimit == storageLimit && w'.db.maxFileSize == maxFileSize && w'.db.retentionDays == days
    ensures w.db == w'.db.(storageLimit := w.db.storageLimit, maxFileSize := w.db.maxFileSize,
                           retentionDays := w.db.retentionDays)
    ensures w'.objects == w.objects
  {
  }

  /** What a paused vault lets a command do: no entry changes, no blob gets a row, no history is added,
      and none is lost before it expires. */
  ghost predicate StandsStill(db: Db, db': Db, now: nat) {
    && db'.entries == db.entries && db'.cursor == db.cursor && db'.blobs.Keys <= db.blobs.Keys
    && (forall v | v in db'.versions :: v in db.versions && db'.versions[v] == db.versions[v])
    && (forall v | v in db.versions && db.versions[v].expiresAt > now :: v in db'.versions)
  }

  lemma PausedCommit(w: World, now: nat, session: Session, restoring: bool, ms: seq<Mutation>)
    requires w.db.pause.Some?
    ensures CommitMutations(w, now, session, restoring, ms) == (w.(clock := now), CommitRefusedPaused)
  {
  }

  lemma PausedCollects(w: World, now: nat, mayCollect: bool, faults: Faults)
    ensures StandsStill(w.db, AlarmGc(w, now, mayCollect, faults).db, now)
    ensures StandsStill(w.db, DirectGc(w, now, mayCollect, faults).db, now)
  {
    var ran := RunGc(w, now, mayCollect, faults).0;
    assert StandsStill(w.db, ran.db, now);
  }

  lemma {:induction false} RepairKeepsVersions(s: RepairState, now: nat, ids: seq<BlobId>, faults: Faults)
    ensures var s' := RepairFold(s, now, ids, faults);
            s'.db.versions == s.db.versions && s'.db.cursor == s.db.cursor && s'.db.blobs.Keys <= s.db.blobs.Keys
  {
    if ids != [] { RepairKeepsVersions(s, now, ids[..|ids| - 1], faults); }
  }

  lemma PausedRepairs(w: World, now: nat, faults: Faults)
    ensures StandsStill(w.db, RepairSyncState(w, now, faults).0.db, now)
  {
    var s, stale := RepairState(w.db, w.objects, 0, None), ListStaleStaged(w.db.blobs, now);
    RepairKeepsVersions(s, now, stale, faults);
    RepairFoldEntries(s, now, stale, faults);
  }

  /** A paused vault stands still: whatever the command, collection and repair included. */
  lemma PausedStandsStill(w: World, now: nat, c: Command, w': World)
    requires w.db.pause.Some? && w' == Exec(w, now, c)
    ensures StandsStill(w.db, w'.db, now)
  {
    match c
    case Stage(b, size) =>
    case DeleteOne(b, faults) =>
    case Commit(session, restoring, ms) => PausedCommit(w, now, session, restoring, ms);
    case RestoreOne(session, r, id) => PausedCommit(w, now, session, true, [RestoreMutation(r, id)]);
    case RestoreMany(session, rs) => PausedCommit(w, now, session, true, PlanRestores(w.db, now, rs).mutations);
    case Purge(mayCollect, rs, faults) => PausedPurge(w, now, mayCollect, rs, faults);
    case Alarm(mayCollect, faults) => PausedCollects(w, now, mayCollect, faults);
    case CollectNow(mayCollect, faults) => PausedCollects(w, now, mayCollect, faults);
    case Repair(faults) => PausedRepairs(w, now, faults);
    case _ => QuietTables(w, now, c, w');
  }

  lemma PausedPurge(w: World, now: nat, mayCollect: bool, rs: seq<PurgeRequest>, faults: Faults)
    requires w.db.pause.Some?
    ensures PurgeDeletedEntries(w, now, mayCollect, rs, faults).0.db == w.db
  {
    if rs == [] { assert PurgeFold(w.db, now, rs).candidates == {}; }
  }

  // ---- the next collection ----

  /** Something to collect, or to look at again, from the moment `d`: a version that expires then, a stage
      whose grace period ends then, or a blob with that deadline that nothing refers to. */
  ghost predicate WorkFrom(db: Db, now: nat, d: nat) {
    || (exists v :: v in db.versions && db.versions[v].expiresAt == d)
    || (exists b :: && b in db.blobs && db.blobs[b].deleteAfter == Some(d) && !db.blobs[b].state.Live?
                    && ((db.blobs[b].state.Staged? && d > now)
                        || (!CurrentRef(db.entries, b) && !Retained(db.versions, b, now))))
  }

  /** The next collection is for the first such moment, or now if that has passed, and there is one
      exactly if there is such a moment. */
  lemma NextGcExact(db: Db, now: nat)
    ensures var next := ReadNextGcAt(db, now);
            && (next.Some? <==> exists d: nat :: WorkFrom(db, now, d))
            && (next.Some? ==>
                  && (exists d: nat :: WorkFrom(db, now, d) && next.value == if d <= now then now else d)
                  && forall d: nat | WorkFrom(db, now, d) :: next.value <= if d <= now then now else d)
  {
    var deadlines := ReadGcDeadlines(db, now);
    forall d: nat ensures d in deadlines <==> WorkFrom(db, now, d) {
      DeadlineIsWork(db, now, d);
    }
    if deadlines != {} {
      assert MinOf(deadlines) in deadlines;
      assert WorkFrom(db, now, MinOf(deadlines));
    } else {
      assert forall d: nat :: d !in deadlines;
    }
  }

  lemma DeadlineIsWork(db: Db, now: nat, d: nat)
    ensures d in ReadGcDeadlines(db, now) <==> WorkFrom(db, now, d)
  {
  }

  // ---- repairs ----

  lemma {:induction false} RepairCounts(s: RepairState, now: nat, ids: seq<BlobId>, faults: Faults)
    requires TablesInv(s.db, s.objects, now)
    requires forall i | 0 <= i < |ids| :: ids[i] in s.db.blobs && s.db.blobs[ids[i]].state.Staged?
    requires forall i, j | 0 <= i < j < |ids| :: ids[i] != ids[j]
    ensures RepairFold(s, now, ids, faults).deleted == s.deleted + |Taken(ids, faults)|
  {
    if ids != [] {
      var front, last := ids[..|ids| - 1], ids[|ids| - 1];
      var mid := RepairFold(s, now, front, faults);
      RepairCounts(s, now, front, faults);
      RepairInv(s, now, front, faults, mid);
      OneMoreListed(ids, front, last);
      OneMoreTaken(ids, front, last, faults);
      assert mid.db.blobs[last] == s.db.blobs[last];
      OneMoreRepaired(mid, now, last, faults);
    }
  }

  /** The blobs of the list whose objects the store deleted. */
  function Taken(ids: seq<BlobId>, faults: Faults): set<BlobId> {
    set b | b in ids && !faults.threw && b !in faults.failed
  }

  lemma OneMoreTaken(ids: seq<BlobId>, front: seq<BlobId>, last: BlobId, faults: Faults)
    requires ids == front + [last] && last !in (set b | b in front)
    ensures |Taken(ids, faults)| == |Taken(front, faults)| + if faults.threw || last in faults.failed then 0 else 1
  {
    assert Taken(ids, faults) == Taken(front, faults) + if faults.threw || last in faults.failed then {} else {last};
  }

  lemma OneMoreRepaired(s: RepairState, now: nat, b: BlobId, faults: Faults)
    requires Sound(s.db, now) && b in s.db.blobs && s.db.blobs[b].state.Staged?
    ensures RepairStep(s, now, b, faults).deleted == s.deleted + if faults.threw || b in faults.failed then 0 else 1
  {
    assert !Pinned(s.db.entries, s.db.versions, b, now);
    assert Confirmed({b}, faults) == if faults.threw || b in faults.failed then {} else {b};
  }

  /** Staged for an hour or more. */
  predicate Stale(row: BlobRow, now: nat) {
    row.state.Staged? && row.createdAt + 60 * 60 * 1000 <= now
  }

  /** A pause that a stale staged blob is the reason of, which is the one a repair may lift. */
  predicate Repairable(pause: Option<Pause>) {
    pause.None? || STALE_STAGED_BLOB_PAUSE_PREFIX <= pause.value.reason
  }

  /** A repair takes exactly the rows staged for an hour, up to a hundred. It reports how many objects the
      store let it take; if the store failed on none the pause is lifted, and it says `repaired` exactly
      if there was a pause or something to take. */
  lemma RepairReports(w: World, now: nat, faults: Faults, w': World, result: RepairResult)
    requires TablesInv(w.db, w.objects, now) && Repairable(w.db.pause)
    requires (w', result) == RepairSyncState(w, now, faults) && |StaleIds(w.db.blobs, now)| <= MAX_REPAIRABLE
    ensures forall b | b in w.db.blobs :: b in w'.db.blobs <==> !Stale(w.db.blobs[b], now)
    ensures var taken := |Taken(ListStaleStaged(w.db.blobs, now), faults)|;
            match result
            case ManualRepairRequired(pause, deleted, remaining, _, _) =>
              && pause == w.db.pause == w'.db.pause && deleted == taken && remaining == 0
              && AnyFails(ListStaleStaged(w.db.blobs, now), faults)
            case RepairedOk(deleted, _) => deleted == taken && w'.db.pause.None? && (taken > 0 || w.db.pause.Some?)
            case NotPaused(_) => taken == 0 && w.db.pause.None? && w'.db.pause.None?
  {
    var stale, s := ListStaleStaged(w.db.blobs, now), RepairState(w.db, w.objects, 0, None);
    StaleListed(w.db.blobs, now);
    StaleAll(w.db.blobs, now);
    RepairCounts(s, now, stale, faults);
    RepairClears(w, now, stale, faults);
    RepairInv(s, now, stale, faults, RepairFold(s, now, stale, faults));
  }

  /** It asks for a collection at once, unless it has refused at the start. */
  lemma RepairSchedules(w: World, now: nat, faults: Faults, w': World)
    requires Repairable(w.db.pause) && |ListStaleStaged(w.db.blobs, now)| <= MAX_REPAIRABLE
    requires w' == RepairSyncState(w, now, faults).0
    ensures BlobGc in w'.jobs && w'.jobs[BlobGc].dueAt < now + GC_BUCKET_MS
  {
    ScheduledWithinBucket(BlobGc, now);
  }

  /** A list within the limit names every stale row. */
  lemma StaleAll(blobs: Blobs, now: nat)
    requires |StaleIds(blobs, now)| <= MAX_REPAIRABLE
    ensures var stale := ListStaleStaged(blobs, now);
            |stale| <= MAX_REPAIRABLE && (set b | b in stale) == StaleIds(blobs, now)
  {
    var stale, ids := ListStaleStaged(blobs, now), StaleIds(blobs, now);
    SelectIsPage(ids, CreationRank(blobs), MAX_REPAIRABLE + 1);
    SetOfSeq(stale);
    Subset((set b | b in stale), ids);
  }

  lemma Subset(a: set<BlobId>, b: set<BlobId>)
    requires a <= b
    ensures |a| <= |b|
  {
    assert b == a + (b - a);
  }
}
