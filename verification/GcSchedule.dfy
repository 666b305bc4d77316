/** Garbage collection is never forgotten: whatever can become collectible is covered by a job. */
module GcSchedule {
  import opened Wrappers
  import opened Tables
  import opened Services
  import opened Ordering
  import opened JobTable
  import opened Lifecycle
  import opened Induction
  import opened Runs
  import opened Evolution

  /** A blob that is collectible at `t` in the current tables is preceded by, or follows within
      `slack`, a due collection. Left alone, the tables make a blob collectible from some time on. */
  ghost predicate Covered(db: Db, jobs: Jobs, clock: nat, slack: nat) {
    forall b, t | t >= clock && SqlCollectible(db, b, t) :: BlobGc in jobs && jobs[BlobGc].dueAt < t + slack
  }

  /** No blob becomes collectible, at any time from `clock` on, that would not have before. */
  ghost predicate NoNewGarbage(db: Db, db': Db, clock: nat) {
    forall b, t | t >= clock && SqlCollectible(db', b, t) :: SqlCollectible(db, b, t)
  }

  ghost predicate NoLater(jobs: Jobs, jobs': Jobs) {
    BlobGc in jobs ==> BlobGc in jobs' && jobs'[BlobGc].dueAt <= jobs[BlobGc].dueAt
  }

  lemma CoverKept(db: Db, jobs: Jobs, clock: nat, db': Db, jobs': Jobs, now: nat, slack: nat)
    requires Covered(db, jobs, clock, slack) && clock <= now
    requires NoNewGarbage(db, db', now) && NoLater(jobs, jobs')
    ensures Covered(db', jobs', now, slack)
  {
  }

  lemma DeferNoLater(jobs: Jobs, dueAt: nat)
    ensures NoLater(jobs, Defer(jobs, BlobGc, dueAt))
    ensures BlobGc in Defer(jobs, BlobGc, dueAt) && Defer(jobs, BlobGc, dueAt)[BlobGc].dueAt < dueAt + GC_BUCKET_MS
  {
    ScheduledWithinBucket(BlobGc, dueAt);
  }

  /** Before a blob becomes collectible, one of the deadlines the scheduler reads has passed. */
  lemma DeadlinePrecedes(db: Db, b: BlobId, now: nat, t: nat)
    requires now <= t && SqlCollectible(db, b, t)
    ensures exists d :: d in ReadGcDeadlines(db, now) && d <= t
  {
    var deadline := db.blobs[b].deleteAfter.value;
    if Retained(db.versions, b, now) {
      var v :| v in db.versions && db.versions[v].content == Upsert(b) && db.versions[v].expiresAt > now;
      assert db.versions[v].expiresAt <= t;
      assert db.versions[v].expiresAt in ReadGcDeadlines(db, now);
    } else {
      assert Unreferenced(db, b, now);
      assert deadline in ReadGcDeadlines(db, now);
    }
  }

  /** The next collection time is not after any moment at which something becomes collectible. */
  lemma NextGcPrecedes(db: Db, b: BlobId, now: nat, t: nat)
    requires now <= t && SqlCollectible(db, b, t)
    ensures ReadNextGcAt(db, now).Some? && ReadNextGcAt(db, now).value <= t
  {
    DeadlinePrecedes(db, b, now, t);
  }

  lemma ScheduledCovers(db: Db, jobs: Jobs, now: nat, slack: nat)
    requires slack >= GC_BUCKET_MS
    requires ReadNextGcAt(db, now).Some?
             ==> BlobGc in jobs && jobs[BlobGc].dueAt < ReadNextGcAt(db, now).value + GC_BUCKET_MS
    ensures Covered(db, jobs, now, slack)
  {
    forall b, t | t >= now && SqlCollectible(db, b, t)
      ensures BlobGc in jobs && jobs[BlobGc].dueAt < t + slack
    {
      NextGcPrecedes(db, b, now, t);
    }
  }

  lemma ScheduleNextCovers(w: World, now: nat, slack: nat)
    requires slack >= GC_BUCKET_MS
    ensures Covered(ScheduleNext(w, now).db, ScheduleNext(w, now).jobs, now, slack)
  {
    var next := ReadNextGcAt(w.db, now);
    if next.Some? { DeferNoLater(w.jobs, next.value); }
    ScheduledCovers(w.db, ScheduleNext(w, now).jobs, now, slack);
  }

  // ---- one lemma per command ----

  ghost predicate CoveredWorld(w: World, slack: nat) {
    Covered(w.db, w.jobs, w.clock, slack)
  }

  lemma Unchanged(db: Db, db': Db, now: nat)
    requires db'.blobs == db.blobs && db'.entries == db.entries && db'.versions == db.versions
    ensures NoNewGarbage(db, db', now)
  {
  }

  lemma ExpiryKeeps(versions: Versions, b: BlobId, now: nat, t: nat)
    requires now <= t
    ensures Retained(versions, b, t) ==> Retained(ExpireVersions(versions, now), b, t)
  {
    if Retained(versions, b, t) {
      var v :| v in versions && versions[v].content == Upsert(b) && versions[v].expiresAt > t;
      assert v in ExpireVersions(versions, now);
    }
  }

  lemma RowsRemoved(db: Db, db': Db, now: nat)
    requires db'.versions == ExpireVersions(db.versions, now) || db'.versions == db.versions
    requires db'.entries == db.entries
    requires forall b | b in db'.blobs :: b in db.blobs && db'.blobs[b] == db.blobs[b]
    ensures NoNewGarbage(db, db', now)
  {
    forall b, t | t >= now && SqlCollectible(db', b, t) ensures SqlCollectible(db, b, t) {
      if db'.versions != db.versions { ExpiryKeeps(db.versions, b, now, t); }
    }
  }

  lemma StageCovered(w: World, now: nat, b: BlobId, size: nat, slack: nat, w': World)
    requires CoveredWorld(w, slack) && w.clock <= now && slack >= GC_BUCKET_MS && w' == StageBlob(w, now, b, size).0
    ensures CoveredWorld(w', slack)
  {
    if w.db.pause.None? && StageDecisionFor(w.db, now, b, size).StageAccepted? {
      DeferNoLater(w.jobs, now + w.grace);
      forall o, t | t >= now && SqlCollectible(w'.db, o, t)
        ensures BlobGc in w'.jobs && w'.jobs[BlobGc].dueAt < t + slack
      {
        if o != b {
          assert w'.db.blobs[o] == w.db.blobs[o];
          assert SqlCollectible(w.db, o, t);
        }
      }
    } else {
      CoverKept(w.db, w.jobs, w.clock, w'.db, w'.jobs, now, slack);
    }
  }

  lemma {:induction false} NothingApplied(db: Db, ctx: Context, ms: seq<Mutation>)
    ensures BatchFold(db, ctx, ms).db.cursor >= db.cursor
    ensures BatchFold(db, ctx, ms).db.cursor == db.cursor ==> BatchFold(db, ctx, ms).db == db
  {
    if ms != [] { NothingApplied(db, ctx, ms[..|ms| - 1]); }
  }

  lemma CommitCovered(w: World, now: nat, session: Session, restoring: bool, ms: seq<Mutation>, slack: nat, w': World)
    requires CoveredWorld(w, slack) && w.clock <= now && slack >= GC_BUCKET_MS
    requires w' == CommitMutations(w, now, session, restoring, ms).0
    ensures CoveredWorld(w', slack)
  {
    var ctx := ContextOf(w, now, session, restoring);
    var (db, outcome) := CommitDb(w.db, session, ctx, ms);
    NothingApplied(w.db, ctx, ms);
    if outcome.Committed? && outcome.broadcast.Some? {
      ScheduleNextCovers(w.(db := db, clock := now), now, slack);
    } else {
      assert db == w.db;
      CoverKept(w.db, w.jobs, w.clock, w'.db, w'.jobs, now, slack);
    }
  }

  lemma {:induction false} NothingPurged(db: Db, now: nat, rs: seq<PurgeRequest>)
    ensures PurgeFold(db, now, rs).candidates == {} ==> PurgeFold(db, now, rs).db == db
  {
    if rs != [] {
      NothingPurged(db, now, rs[..|rs| - 1]);
      var acc := PurgeFold(db, now, rs[..|rs| - 1]);
      var e := rs[|rs| - 1].entryId;
      if PurgeDecisionFor(acc.db, now, rs[|rs| - 1]).PurgeAccepted? {
        var v :| v in acc.db.versions && acc.db.versions[v].entryId == e && acc.db.versions[v].content.Upsert?;
        assert acc.db.versions[v].content.blobId in ListBlobIds(acc.db.versions, e);
      }
    }
  }

  lemma PurgeCovered(w: World, now: nat, rs: seq<PurgeRequest>, faults: Faults, slack: nat, w': World)
    requires CoveredWorld(w, slack) && w.clock <= now && slack >= GC_BUCKET_MS
    requires w' == PurgeDeletedEntries(w, now, true, rs, faults).0
    ensures CoveredWorld(w', slack)
  {
    NothingPurged(w.db, now, rs);
    var acc := PurgeFold(w.db, now, rs);
    if (w.db.pause.Some? && rs != []) || acc.candidates == {} {
      CoverKept(w.db, w.jobs, w.clock, w'.db, w'.jobs, now, slack);
    } else {
      var marked := MarkAll(Expire(acc.db, now), acc.candidates, now);
      var (db, objects) := Collect(marked, w.objects, PurgedKeys(marked, acc.candidates, now), faults, now);
      ScheduleNextCovers(w.(clock := now, db := db, objects := objects), now, slack);
    }
  }

  /** A collection leaves fewer rows, and history that expired by its own time. */
  lemma GcLeavesLess(w: World, now: nat, mayCollect: bool, faults: Faults)
    ensures var w' := RunGc(w, now, mayCollect, faults).0;
            NoNewGarbage(w.db, w'.db, now) && Get(w'.jobs, BlobGc) == Get(w.jobs, BlobGc) && w'.clock == now
  {
    var w' := RunGc(w, now, mayCollect, faults).0;
    RowsRemoved(w.db, w'.db, now);
  }

  lemma AlarmCovered(w: World, now: nat, mayCollect: bool, faults: Faults, slack: nat, w': World)
    requires CoveredWorld(w, slack) && w.clock <= now && slack >= GC_BUCKET_MS
    requires !mayCollect ==> slack >= SUSPENDED_RETRY_MS + GC_BUCKET_MS
    requires w' == AlarmGc(w, now, mayCollect, faults)
    ensures CoveredWorld(w', slack)
  {
    if BlobGc !in w.jobs || w.jobs[BlobGc].dueAt > now {
      CoverKept(w.db, w.jobs, w.clock, w'.db, w'.jobs, now, slack);
    } else {
      var (ran, outcome) := RunGc(w, now, mayCollect, faults);
      GcLeavesLess(w, now, mayCollect, faults);
      match outcome
      case GcSuspended(retryAt) => ScheduledWithinBucket(BlobGc, retryAt);
      case GcFailed => RetryDelayBounds(w.jobs[BlobGc].retryCount + 1);
      case GcDone(next) =>
        if next.Some? { ScheduledWithinBucket(BlobGc, next.value); }
        ScheduledCovers(w'.db, w'.jobs, now, slack);
    }
  }

  lemma DirectCovered(w: World, now: nat, mayCollect: bool, faults: Faults, slack: nat, w': World)
    requires CoveredWorld(w, slack) && w.clock <= now && slack >= GC_BUCKET_MS
    requires w' == DirectGc(w, now, mayCollect, faults)
    ensures CoveredWorld(w', slack)
  {
    var (ran, outcome) := RunGc(w, now, mayCollect, faults);
    GcLeavesLess(w, now, mayCollect, faults);
    if outcome.GcSuspended? {
      DeferNoLater(w.jobs, outcome.retryAt);
    } else if outcome.GcDone? && outcome.nextGcAt.Some? {
      DeferNoLater(w.jobs, outcome.nextGcAt.value);
    }
    CoverKept(w.db, w.jobs, w.clock, w'.db, w'.jobs, now, slack);
  }

  lemma {:induction false} RepairLeavesLess(s: RepairState, now: nat, ids: seq<BlobId>, faults: Faults)
    ensures var s' := RepairFold(s, now, ids, faults);
            && s'.db.entries == s.db.entries && s'.db.versions == s.db.versions
            && forall b | b in s'.db.blobs :: b in s.db.blobs && s'.db.blobs[b] == s.db.blobs[b]
  {
    if ids != [] { RepairLeavesLess(s, now, ids[..|ids| - 1], faults); }
  }

  lemma RepairCovered(w: World, now: nat, faults: Faults, slack: nat, w': World)
    requires CoveredWorld(w, slack) && w.clock <= now && w' == RepairSyncState(w, now, faults).0
    ensures CoveredWorld(w', slack)
  {
    RepairLeavesLess(RepairState(w.db, w.objects, 0, None), now, ListStaleStaged(w.db.blobs, now), faults);
    DeferNoLater(w.jobs, now);
    RowsRemoved(w.db, w'.db, now);
    CoverKept(w.db, w.jobs, w.clock, w'.db, w'.jobs, now, slack);
  }

  lemma DeleteCovered(w: World, now: nat, b: BlobId, faults: Faults, slack: nat, w': World)
    requires CoveredWorld(w, slack) && w.clock <= now && w' == DeleteBlob(w, now, b, faults)
    ensures CoveredWorld(w', slack)
  {
    RowsRemoved(w.db, w'.db, now);
    CoverKept(w.db, w.jobs, w.clock, w'.db, w'.jobs, now, slack);
  }

  lemma AbortCovered(w: World, now: nat, vaultId: string, b: BlobId, slack: nat, w': World)
    requires CoveredWorld(w, slack) && w.clock <= now && w' == AbortStagedBlob(w, now, vaultId, b)
    ensures CoveredWorld(w', slack)
  {
    if b in w.db.blobs && w.db.blobs[b].deleteAfter.Some? {
      var deadline := w.db.blobs[b].deleteAfter.value;
      DeferNoLater(w.jobs, if now < deadline then deadline else now);
    }
    CoverKept(w.db, w.jobs, w.clock, w'.db, w'.jobs, now, slack);
  }

  // ---- purges while sharing is suspended ----

  /** Nothing current refers to the row and it has a deadline: only time and history keep it. */
  ghost predicate Retired(db: Db, b: BlobId) {
    b in db.blobs && !db.blobs[b].state.Live? && db.blobs[b].deleteAfter.Some? && !CurrentRef(db.entries, b)
  }

  /** The first moment from `now` on at which the deadline and every version of the blob have passed. */
  ghost function FirstCollectible(db: Db, b: BlobId, now: nat): nat
    requires Retired(db, b)
  {
    var history := Latest(set v | v in db.versions && db.versions[v].content == Upsert(b) :: db.versions[v].expiresAt);
    var deadline := db.blobs[b].deleteAfter.value;
    if now >= deadline && now >= history then now else if deadline >= history then deadline else history
  }

  lemma RetainedUntil(versions: Versions, b: BlobId, t: nat)
    ensures Retained(versions, b, t)
            <==> t < Latest(set v | v in versions && versions[v].content == Upsert(b) :: versions[v].expiresAt)
  {
    var times := set v | v in versions && versions[v].content == Upsert(b) :: versions[v].expiresAt;
    if Retained(versions, b, t) {
      var v :| v in versions && versions[v].content == Upsert(b) && versions[v].expiresAt > t;
      assert versions[v].expiresAt in times;
    }
  }

  /** Left alone, a retired blob is collectible from its first moment on, and no other blob ever is. */
  lemma CollectibleFrom(db: Db, b: BlobId, now: nat, t: nat)
    requires now <= t
    ensures SqlCollectible(db, b, t) <==> Retired(db, b) && FirstCollectible(db, b, now) <= t
  {
    RetainedUntil(db.versions, b, t);
  }

  ghost predicate DueBefore(jobs: Jobs, t: nat) {
    BlobGc in jobs && jobs[BlobGc].dueAt < t
  }

  /** Coverage, row by row. */
  lemma CoveredByRows(db: Db, jobs: Jobs, now: nat, slack: nat)
    ensures Covered(db, jobs, now, slack)
            <==> forall b | Retired(db, b) :: DueBefore(jobs, FirstCollectible(db, b, now) + slack)
  {
    if Covered(db, jobs, now, slack) {
      forall b | Retired(db, b) ensures DueBefore(jobs, FirstCollectible(db, b, now) + slack) {
        CollectibleFrom(db, b, now, FirstCollectible(db, b, now));
      }
    }
    forall b, t | t >= now && SqlCollectible(db, b, t) ensures Retired(db, b) && FirstCollectible(db, b, now) <= t {
      CollectibleFrom(db, b, now, t);
    }
  }

  ghost predicate LosesHistory(db: Db, db': Db, b: BlobId) {
    exists v :: v in db.versions && db.versions[v].content == Upsert(b) && v !in db'.versions
  }

  /** Each retired blob whose history the purge drops either keeps other history until its first
      collectible moment, or has a collection due before the new one plus the slack. */
  ghost predicate HarmlessPurge(db: Db, jobs: Jobs, now: nat, rs: seq<PurgeRequest>, slack: nat) {
    var db' := PurgeFold(db, now, rs).db;
    forall b | Retired(db, b) && Retired(db', b) && LosesHistory(db, db', b) ::
      || FirstCollectible(db', b, now) == FirstCollectible(db, b, now)
      || DueBefore(jobs, FirstCollectible(db', b, now) + slack)
  }

  lemma {:induction false} PurgeOnlyDrops(db: Db, now: nat, rs: seq<PurgeRequest>)
    ensures var db' := PurgeFold(db, now, rs).db;
            && db'.blobs == db.blobs && db'.entries == db.entries
            && forall v | v in db'.versions :: v in db.versions && db'.versions[v] == db.versions[v]
  {
    if rs != [] { PurgeOnlyDrops(db, now, rs[..|rs| - 1]); }
  }

  lemma KeptHistory(db: Db, db': Db, b: BlobId, now: nat)
    requires Retired(db, b) && db'.blobs == db.blobs && db'.entries == db.entries && !LosesHistory(db, db', b)
    requires forall v | v in db'.versions :: v in db.versions && db'.versions[v] == db.versions[v]
    ensures Retired(db', b) && FirstCollectible(db', b, now) == FirstCollectible(db, b, now)
  {
    assert (set v | v in db'.versions && db'.versions[v].content == Upsert(b) :: db'.versions[v].expiresAt)
           == (set v | v in db.versions && db.versions[v].content == Upsert(b) :: db.versions[v].expiresAt);
  }

  /** A purge made while sharing is suspended collects and schedules nothing. On a covered, unpaused
      vault it keeps coverage if and only if it is harmless. */
  lemma SuspendedPurgeCoveredIff(w: World, now: nat, rs: seq<PurgeRequest>, faults: Faults, slack: nat, w': World)
    requires CoveredWorld(w, slack) && w.clock <= now && w.db.pause.None?
    requires w' == PurgeDeletedEntries(w, now, false, rs, faults).0
    ensures CoveredWorld(w', slack) <==> HarmlessPurge(w.db, w.jobs, now, rs, slack)
  {
    PurgeOnlyDrops(w.db, now, rs);
    var db' := PurgeFold(w.db, now, rs).db;
    assert w'.db == db' && w'.jobs == w.jobs && w'.clock == now;
    assert Covered(w.db, w.jobs, now, slack);
    CoveredByRows(w.db, w.jobs, now, slack);
    CoveredByRows(db', w.jobs, now, slack);
    forall b | Retired(db', b) ensures Retired(w.db, b) {
    }
    forall b | Retired(w.db, b) && !LosesHistory(w.db, db', b)
      ensures Retired(db', b) && FirstCollectible(db', b, now) == FirstCollectible(w.db, b, now)
    {
      KeptHistory(w.db, db', b, now);
    }
  }

  // ---- whole runs ----

  /** How far a job may trail: half an hour, and an hour more where sharing suspends a collection. */
  ghost predicate SlackFits(c: Command, slack: nat) {
    slack >= GC_BUCKET_MS && (c.Alarm? && !c.mayCollect ==> slack >= SUSPENDED_RETRY_MS + GC_BUCKET_MS)
  }

  /** A purge made while sharing is suspended, and not refused, must be harmless. */
  ghost predicate Harmless(w: World, now: nat, c: Command, slack: nat) {
    c.Purge? && !c.mayCollect && w.db.pause.None? ==> HarmlessPurge(w.db, w.jobs, now, c.requests, slack)
  }

  lemma RestoreOneCovered(w: World, now: nat, session: Session, r: Restore, id: string, slack: nat, w': World)
    requires CoveredWorld(w, slack) && w.clock <= now && slack >= GC_BUCKET_MS
    requires w' == RestoreEntryVersion(w, now, session, r, id).0
    ensures CoveredWorld(w', slack)
  {
    RestoreIsCommit(w, now, session, r, id);
    if w' == w.(clock := now) {
      CoverKept(w.db, w.jobs, w.clock, w'.db, w'.jobs, now, slack);
    } else {
      CommitCovered(w, now, session, true, [RestoreMutation(r, id)], slack, w');
    }
  }

  lemma RestoreManyCovered(w: World, now: nat, session: Session, rs: seq<DrawnRestore>, slack: nat, w': World)
    requires CoveredWorld(w, slack) && w.clock <= now && slack >= GC_BUCKET_MS
    requires w' == RestoreEntryVersions(w, now, session, rs).0
    ensures CoveredWorld(w', slack)
  {
    RestoreManyIsCommit(w, now, session, rs);
    if w' == w.(clock := now) {
      CoverKept(w.db, w.jobs, w.clock, w'.db, w'.jobs, now, slack);
    } else {
      CommitCovered(w, now, session, true, PlanRestores(w.db, now, rs).mutations, slack, w');
    }
  }

  /** Pauses, limits and health flushes touch neither tables nor the collection job. */
  lemma TablesKeptCovered(w: World, now: nat, slack: nat, w': World)
    requires CoveredWorld(w, slack) && w.clock <= now && w'.clock == now
    requires w'.db.blobs == w.db.blobs && w'.db.entries == w.db.entries && w'.db.versions == w.db.versions
    requires Get(w'.jobs, BlobGc) == Get(w.jobs, BlobGc)
    ensures CoveredWorld(w', slack)
  {
    Unchanged(w.db, w'.db, now);
    CoverKept(w.db, w.jobs, w.clock, w'.db, w'.jobs, now, slack);
  }

  lemma ExecCoveredOther(w: World, now: nat, c: Command, slack: nat, w': World)
    requires CoveredWorld(w, slack) && w.clock <= now && SlackFits(c, slack) && w' == Exec(w, now, c)
    requires !c.Purge?
    ensures CoveredWorld(w', slack)
  {
    match c
    case Stage(b, size) => StageCovered(w, now, b, size, slack, w');
    case AbortStage(vaultId, b) => AbortCovered(w, now, vaultId, b, slack, w');
    case Upload(b) => TablesKeptCovered(w, now, slack, w');
    case DeleteOne(b, faults) => DeleteCovered(w, now, b, faults, slack, w');
    case Commit(session, restoring, ms) => CommitCovered(w, now, session, restoring, ms, slack, w');
    case RestoreOne(session, r, id) => RestoreOneCovered(w, now, session, r, id, slack, w');
    case RestoreMany(session, rs) => RestoreManyCovered(w, now, session, rs, slack, w');
    case Alarm(mayCollect, faults) => AlarmCovered(w, now, mayCollect, faults, slack, w');
    case CollectNow(mayCollect, faults) => DirectCovered(w, now, mayCollect, faults, slack, w');
    case Repair(faults) => RepairCovered(w, now, faults, slack, w');
    case SetPause(reason) => TablesKeptCovered(w, now, slack, w');
    case SetPolicy(limit, maxFile, days) => TablesKeptCovered(w, now, slack, w');
    case HealthTouched => TablesKeptCovered(w, now, slack, w');
    case HealthAlarm(outcome) => TablesKeptCovered(w, now, slack, w');
  }

  /** Every command keeps coverage, except a purge under suspension, which does exactly if harmless. */
  lemma ExecCovered(w: World, now: nat, c: Command, slack: nat, w': World)
    requires CoveredWorld(w, slack) && w.clock <= now && SlackFits(c, slack) && w' == Exec(w, now, c)
    ensures CoveredWorld(w', slack) <==> Harmless(w, now, c, slack)
  {
    match c
    case Purge(mayCollect, rs, faults) =>
      if mayCollect {
        PurgeCovered(w, now, rs, faults, slack, w');
      } else if w.db.pause.None? {
        SuspendedPurgeCoveredIff(w, now, rs, faults, slack, w');
      } else {
        PausedPurgeCovered(w, now, rs, faults, slack, w');
      }
    case _ => ExecCoveredOther(w, now, c, slack, w');
  }

  lemma PausedPurgeCovered(w: World, now: nat, rs: seq<PurgeRequest>, faults: Faults, slack: nat, w': World)
    requires CoveredWorld(w, slack) && w.clock <= now && w.db.pause.Some?
    requires w' == PurgeDeletedEntries(w, now, false, rs, faults).0
    ensures CoveredWorld(w', slack)
  {
    assert w'.db == w.db && w'.jobs == w.jobs;
    CoverKept(w.db, w.jobs, w.clock, w'.db, w'.jobs, now, slack);
  }

  ghost predicate HarmlessAt(w: World, evs: seq<Event>, i: nat, slack: nat)
    requires i < |evs|
  {
    Harmless(Run(w, evs[..i]), TimeOf(Run(w, evs[..i]), evs[i]), evs[i].command, slack)
  }

  lemma StepCovered(w: World, ev: Event, slack: nat)
    requires CoveredWorld(w, slack) && SlackFits(ev.command, slack)
    ensures CoveredWorld(Step(w, ev), slack) <==> Harmless(w, TimeOf(w, ev), ev.command, slack)
  {
    ExecCovered(w, TimeOf(w, ev), ev.command, slack, Step(w, ev));
  }

  /** Coverage after the first `i` commands. */
  ghost predicate CoveredAt(w: World, evs: seq<Event>, i: nat, slack: nat)
    requires i <= |evs|
  {
    CoveredWorld(Run(w, evs[..i]), slack)
  }

  lemma NextCovered(w: World, evs: seq<Event>, i: nat, slack: nat)
    requires i < |evs| && CoveredAt(w, evs, i, slack) && SlackFits(evs[i].command, slack)
    ensures CoveredAt(w, evs, i + 1, slack) <==> HarmlessAt(w, evs, i, slack)
  {
    assert evs[..i + 1][..i] == evs[..i];
    StepCovered(Run(w, evs[..i]), evs[i], slack);
  }

  ghost predicate AllCovered(w: World, evs: seq<Event>, n: nat, slack: nat)
    requires n <= |evs|
  {
    forall i | 0 <= i <= n :: CoveredAt(w, evs, i, slack)
  }

  ghost predicate AllHarmless(w: World, evs: seq<Event>, n: nat, slack: nat)
    requires n <= |evs|
  {
    forall i | 0 <= i < n :: HarmlessAt(w, evs, i, slack)
  }

  /** Coverage holds throughout the first `n` commands of a run if and only if every purge made under
      suspension among them is harmless where it happens. */
  lemma {:induction false} CoveredThroughoutIff(w: World, evs: seq<Event>, n: nat, slack: nat)
    requires n <= |evs| && CoveredAt(w, evs, 0, slack)
    requires forall i | 0 <= i < |evs| :: SlackFits(evs[i].command, slack)
    ensures AllCovered(w, evs, n, slack) <==> AllHarmless(w, evs, n, slack)
  {
    forall i | 0 <= i < n && CoveredAt(w, evs, i, slack)
      ensures CoveredAt(w, evs, i + 1, slack) <==> HarmlessAt(w, evs, i, slack)
    {
      NextCovered(w, evs, i, slack);
    }
    var covered := (i: nat) => i <= |evs| && CoveredAt(w, evs, i, slack);
    var harmless := (i: nat) => i < |evs| && HarmlessAt(w, evs, i, slack);
    HoldsThroughoutIff(covered, harmless, n);
    assert forall i | 0 <= i <= n :: covered(i) <==> CoveredAt(w, evs, i, slack);
    assert forall i | 0 <= i < n :: harmless(i) <==> HarmlessAt(w, evs, i, slack);
  }

  /** In every reachable state: if some blob is collectible at time `t` in the tables as they stand,
      a collection is scheduled and due before max(t, time of the last command) plus the slack. Failed
      collections are covered too; of the purges made under suspension only harmful ones are not. */
  lemma {:induction false} GcNeverForgotten(w: World, evs: seq<Event>, slack: nat, b: BlobId, t: nat)
    requires Initial(w) && forall i | 0 <= i < |evs| :: SlackFits(evs[i].command, slack)
    requires AllHarmless(w, evs, |evs|, slack)
    requires SqlCollectible(Run(w, evs).db, b, t)
    ensures var w' := Run(w, evs);
            BlobGc in w'.jobs && w'.jobs[BlobGc].dueAt < (if t < w'.clock then w'.clock else t) + slack
  {
    assert evs[..0] == [];
    CoveredThroughoutIff(w, evs, |evs|, slack);
    assert CoveredAt(w, evs, |evs|, slack) && evs[..|evs|] == evs;
    var w' := Run(w, evs);
    if t < w'.clock {
      CollectibleLater(w'.db, b, t, w'.clock);
    }
  }

  lemma CollectibleLater(db: Db, b: BlobId, t: nat, later: nat)
    requires SqlCollectible(db, b, t) && t <= later
    ensures SqlCollectible(db, b, later)
  {
    if Retained(db.versions, b, later) { RetainedEarlier(db.versions, b, t, later); }
  }
}
