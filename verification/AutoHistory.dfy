/** Sampled history is bounded: one automatic version per entry and five-minute bucket. */
module AutoHistory {
  import opened Wrappers
  import opened Tables
  import opened Policies
  import opened Services
  import opened Runs
  import opened Evolution

  const BUCKETS_PER_DAY: nat := 288

  ghost predicate IsAuto(versions: Versions, v: VersionId, e: EntryId)
    requires v in versions
  {
    versions[v].reason == Auto && versions[v].entryId == e
  }

  /** Automatic versions sit in the bucket they were captured in, expire within `d` days, and no two
      of one entry share a bucket. */
  ghost predicate Sampled(db: Db, now: nat, d: nat) {
    && db.retentionDays <= d
    && (forall v | v in db.versions && db.versions[v].reason == Auto ::
          && db.versions[v].bucketStart == Some(BucketStart(db.versions[v].capturedAt))
          && db.versions[v].capturedAt <= now
          && db.versions[v].expiresAt <= db.versions[v].capturedAt + d * DAY_IN_MS)
    && (forall u, v | u in db.versions && v in db.versions && u != v
          && db.versions[u].reason == Auto && db.versions[v].reason == Auto
          && db.versions[u].entryId == db.versions[v].entryId ::
          db.versions[u].bucketStart != db.versions[v].bucketStart)
  }

  ghost predicate RetentionAtMost(evs: seq<Event>, d: nat) {
    forall i | 0 <= i < |evs| && evs[i].command.SetPolicy? :: evs[i].command.retentionDays <= d
  }

  lemma ExpiryBound(days: nat, d: nat)
    requires days <= d
    ensures days * DAY_IN_MS <= d * DAY_IN_MS
  {
  }

  lemma InsertSampled(db: Db, now: nat, d: nat, id: VersionId, row: VersionRow, db': Db)
    requires Sampled(db, now, d)
    requires row.reason == Auto ==> row.bucketStart == Some(BucketStart(row.capturedAt)) && row.capturedAt == now
                                    && row.expiresAt <= now + d * DAY_IN_MS
    requires db'.versions == InsertVersion(db.versions, id, row) && db'.retentionDays == db.retentionDays
    ensures Sampled(db', now, d)
  {
  }

  lemma CommitOneSampled(db: Db, ctx: Context, m: Mutation, d: nat, db': Db)
    requires Sampled(db, ctx.now, d) && db' == CommitOne(db, ctx, m).0
    ensures Sampled(db', ctx.now, d)
  {
    var decision := Decide(db, ctx, m);
    if decision.Apply? && Blocked(db, ctx, m.content).None? {
      ExpiryBound(db.retentionDays, d);
      var mid, id := db, db.nextId;
      if decision.forcedHistory.Some? && m.entryId in db.entries {
        var row := HistoryBefore(db, ctx, m, decision.forcedHistory.value);
        mid := db.(versions := InsertVersion(db.versions, id, row));
        InsertSampled(db, ctx.now, d, id, row, mid);
        id := id + 1;
      }
      if decision.captureAuto {
        InsertSampled(mid, ctx.now, d, id, AutoVersion(db, ctx, m, decision.revision, decision.bucket), db');
      } else {
        assert db'.versions == mid.versions;
      }
    }
  }

  lemma {:induction false} BatchSampled(db: Db, ctx: Context, ms: seq<Mutation>, d: nat)
    requires Sampled(db, ctx.now, d)
    ensures Sampled(BatchFold(db, ctx, ms).db, ctx.now, d)
  {
    if ms != [] {
      var mid := BatchFold(db, ctx, ms[..|ms| - 1]).db;
      BatchSampled(db, ctx, ms[..|ms| - 1], d);
      CommitOneSampled(mid, ctx, ms[|ms| - 1], d, CommitOne(mid, ctx, ms[|ms| - 1]).0);
    }
  }

  lemma CommitSampled(w: World, now: nat, session: Session, restoring: bool, ms: seq<Mutation>, d: nat, w': World)
    requires Sampled(w.db, now, d) && w' == CommitMutations(w, now, session, restoring, ms).0
    ensures Sampled(w'.db, now, d)
  {
    BatchSampled(w.db, ContextOf(w, now, session, restoring), ms, d);
  }

  ghost predicate NoNewVersions(db: Db, db': Db) {
    && (forall v | v in db'.versions :: v in db.versions && db'.versions[v] == db.versions[v])
    && db'.retentionDays == db.retentionDays
  }

  lemma {:induction false} PurgeRemoves(db: Db, now: nat, rs: seq<PurgeRequest>, db': Db)
    requires db' == PurgeFold(db, now, rs).db
    ensures NoNewVersions(db, db')
  {
    if rs != [] {
      PurgeRemoves(db, now, rs[..|rs| - 1], PurgeFold(db, now, rs[..|rs| - 1]).db);
    }
  }

  lemma {:induction false} RepairRemoves(s: RepairState, now: nat, ids: seq<BlobId>, faults: Faults)
    ensures NoNewVersions(s.db, RepairFold(s, now, ids, faults).db)
  {
    if ids != [] { RepairRemoves(s, now, ids[..|ids| - 1], faults); }
  }

  lemma PurgeCommandRemoves(w: World, now: nat, mayCollect: bool, rs: seq<PurgeRequest>, faults: Faults)
    ensures NoNewVersions(w.db, PurgeDeletedEntries(w, now, mayCollect, rs, faults).0.db)
  {
    PurgeRemoves(w.db, now, rs, PurgeFold(w.db, now, rs).db);
  }

  lemma GcRemoves(w: World, now: nat, mayCollect: bool, faults: Faults)
    ensures NoNewVersions(w.db, RunGc(w, now, mayCollect, faults).0.db)
  {
  }

  lemma RepairCommandRemoves(w: World, now: nat, faults: Faults)
    ensures NoNewVersions(w.db, RepairSyncState(w, now, faults).0.db)
  {
    RepairRemoves(RepairState(w.db, w.objects, 0, None), now, ListStaleStaged(w.db.blobs, now), faults);
  }

  lemma StageAddsNoVersion(w: World, now: nat, b: BlobId, size: nat)
    ensures NoNewVersions(w.db, StageBlob(w, now, b, size).0.db)
  {
  }

  lemma DeleteRemoves(w: World, now: nat, b: BlobId, faults: Faults)
    ensures NoNewVersions(w.db, DeleteBlob(w, now, b, faults).db)
  {
  }

  lemma JobGcRemoves(w: World, now: nat, mayCollect: bool, faults: Faults)
    ensures NoNewVersions(w.db, AlarmGc(w, now, mayCollect, faults).db)
    ensures NoNewVersions(w.db, DirectGc(w, now, mayCollect, faults).db)
  {
    GcRemoves(w, now, mayCollect, faults);
  }

  lemma OthersRemove(w: World, now: nat, c: Command, w': World)
    requires w' == Exec(w, now, c) && !c.Commit? && !c.RestoreOne? && !c.RestoreMany? && !c.SetPolicy?
    ensures NoNewVersions(w.db, w'.db)
  {
    match c
    case Stage(b, size) => StageAddsNoVersion(w, now, b, size);
    case AbortStage(vaultId, b) => QuietTables(w, now, c, w');
    case Upload(b) => QuietTables(w, now, c, w');
    case DeleteOne(b, faults) => DeleteRemoves(w, now, b, faults);
    case Purge(mayCollect, rs, faults) => PurgeCommandRemoves(w, now, mayCollect, rs, faults);
    case Alarm(mayCollect, faults) => JobGcRemoves(w, now, mayCollect, faults);
    case CollectNow(mayCollect, faults) => JobGcRemoves(w, now, mayCollect, faults);
    case Repair(faults) => RepairCommandRemoves(w, now, faults);
    case SetPause(reason) => QuietTables(w, now, c, w');
    case HealthTouched => QuietTables(w, now, c, w');
    case HealthAlarm(outcome) => QuietTables(w, now, c, w');
  }

  lemma ExecSampled(w: World, now: nat, c: Command, d: nat, w': World)
    requires Sampled(w.db, now, d) && w' == Exec(w, now, c)
    requires c.SetPolicy? ==> c.retentionDays <= d
    ensures Sampled(w'.db, now, d)
  {
    if c.Commit? {
      CommitSampled(w, now, c.session, c.restoring, c.mutations, d, w');
    } else if c.RestoreOne? {
      RestoreIsCommit(w, now, c.session, c.restore, c.mutationId);
      if w'.db != w.db {
        CommitSampled(w, now, c.session, true, [RestoreMutation(c.restore, c.mutationId)], d, w');
      }
    } else if c.RestoreMany? {
      RestoreManyIsCommit(w, now, c.session, c.restores);
      if w'.db != w.db {
        CommitSampled(w, now, c.session, true, PlanRestores(w.db, now, c.restores).mutations, d, w');
      }
    } else if c.SetPolicy? {
      assert w'.db.versions == w.db.versions;
    } else {
      OthersRemove(w, now, c, w');
    }
  }

  lemma {:induction false} RunSampled(w: World, evs: seq<Event>, d: nat)
    requires Sampled(w.db, w.clock, d) && RetentionAtMost(evs, d) && Inv(w)
    ensures Sampled(Run(w, evs).db, Run(w, evs).clock, d)
  {
    if evs != [] {
      var front, last := evs[..|evs| - 1], evs[|evs| - 1];
      RunSampled(w, front, d);
      RunInv(w, front);
      var mid := Run(w, front);
      StepClock(mid, last);
      SampledLater(mid.db, mid.clock, TimeOf(mid, last), d);
      ExecSampled(mid, TimeOf(mid, last), last.command, d, Step(mid, last));
    }
  }

  lemma SampledLater(db: Db, now: nat, later: nat, d: nat)
    requires Sampled(db, now, d) && now <= later
    ensures Sampled(db, later, d)
  {
  }

  // ---- counting ----

  lemma {:induction false} InjectiveCount(s: set<VersionId>, f: map<VersionId, int>, lo: int, n: nat)
    requires s <= f.Keys
    requires forall v | v in s :: lo <= f[v] < lo + n
    requires forall u, v | u in s && v in s && u != v :: f[u] != f[v]
    ensures |s| <= n
  {
    if n > 0 {
      if v :| v in s && f[v] == lo + n - 1 {
        InjectiveCount(s - {v}, f, lo, n - 1);
      } else {
        InjectiveCount(s, f, lo, n - 1);
      }
    }
  }

  function BucketIndex(t: nat): nat {
    t / AUTO_VERSION_BUCKET_MS
  }

  /** A window of `d` days, open at its start, touches at most 288 d + 1 buckets. */
  lemma WindowBuckets(captured: nat, now: nat, d: nat)
    requires captured <= now < captured + d * DAY_IN_MS
    ensures BucketIndex(now) as int - BUCKETS_PER_DAY * d <= BucketIndex(captured) <= BucketIndex(now)
  {
    assert DAY_IN_MS == BUCKETS_PER_DAY * AUTO_VERSION_BUCKET_MS;
    assert d * DAY_IN_MS == (BUCKETS_PER_DAY * d) * AUTO_VERSION_BUCKET_MS;
    DivShift(captured, BUCKETS_PER_DAY * d);
    DivMonotone(captured, now);
    DivMonotone(now, captured + (BUCKETS_PER_DAY * d) * AUTO_VERSION_BUCKET_MS);
  }

  lemma DivMonotone(a: nat, b: nat)
    requires a <= b
    ensures BucketIndex(a) <= BucketIndex(b)
  {
  }

  lemma DivShift(a: nat, k: nat)
    ensures BucketIndex(a + k * AUTO_VERSION_BUCKET_MS) == BucketIndex(a) + k
  {
  }

  ghost function UnexpiredAuto(versions: Versions, e: EntryId, now: nat): set<VersionId> {
    set v | v in versions && IsAuto(versions, v, e) && versions[v].expiresAt > now
  }

  /** However many commits occur, an entry has at most 288 d + 1 unexpired automatic versions while
      the retention setting never exceeds `d` days. */
  lemma {:induction false} AutoHistoryBounded(w: World, evs: seq<Event>, d: nat, e: EntryId, now: nat)
    requires Initial(w) && w.db.retentionDays <= d && RetentionAtMost(evs, d)
    requires Run(w, evs).clock <= now
    ensures |UnexpiredAuto(Run(w, evs).db.versions, e, now)| <= BUCKETS_PER_DAY * d + 1
  {
    InitialInv(w);
    RunSampled(w, evs, d);
    SampledBounded(Run(w, evs).db, now, d, e);
  }

  lemma SampledBounded(db: Db, now: nat, d: nat, e: EntryId)
    requires Sampled(db, now, d)
    ensures |UnexpiredAuto(db.versions, e, now)| <= BUCKETS_PER_DAY * d + 1
  {
    var s := UnexpiredAuto(db.versions, e, now);
    var f := map v | v in s :: BucketIndex(db.versions[v].capturedAt) as int;
    forall v | v in s
      ensures BucketIndex(now) as int - BUCKETS_PER_DAY * d <= f[v] <= BucketIndex(now)
    {
      WindowBuckets(db.versions[v].capturedAt, now, d);
    }
    forall u, v | u in s && v in s && u != v ensures f[u] != f[v] {
      assert db.versions[u].bucketStart != db.versions[v].bucketStart;
    }
    InjectiveCount(s, f, BucketIndex(now) as int - BUCKETS_PER_DAY * d, BUCKETS_PER_DAY * d + 1);
  }
}
