/** What the commands ask of the scheduler: collections no earlier than they are needed, retries, and a
    health flush within ten minutes of every change. */
module Scheduling {
  import opened Wrappers
  import opened Tables
  import opened Services
  import opened Ordering
  import opened JobTable
  import opened Induction
  import opened Runs

  // ---- collections ----

  /** The job is due when it was, or at the half hour that follows `at`, whichever is earlier. */
  ghost predicate BroughtTo(before: Jobs, after: Jobs, key: JobKey, at: nat) {
    && key in after
    && (if key in before && before[key].dueAt <= ScheduledDueAt(key, at) then after[key] == before[key]
        else after[key].dueAt == ScheduledDueAt(key, at)
             && after[key].retryCount == if key in before then before[key].retryCount else 0)
  }

  ghost predicate SameJob(before: Jobs, after: Jobs, key: JobKey) {
    Get(after, key) == Get(before, key)
  }

  /** An accepted stage, and the compensation of a failed upload, ask for a collection when the blob's
      grace period ends; any other stage asks for nothing. */
  lemma StageSchedules(w: World, now: nat, b: BlobId, size: nat, w': World, o: StageOutcome)
    requires (w', o) == StageBlob(w, now, b, size)
    ensures if o.Decided? && o.decision.StageAccepted? then BroughtTo(w.jobs, w'.jobs, BlobGc, now + w.grace)
            else w'.jobs == w.jobs
  {
  }

  lemma AbortSchedules(w: World, now: nat, vaultId: string, b: BlobId, w': World)
    requires w' == AbortStagedBlob(w, now, vaultId, b)
    ensures w' == w.(clock := now, jobs := w'.jobs)
    ensures if vaultId == w.db.vaultId && b in w.db.blobs
               && w.db.blobs[b].state.Staged? && w.db.blobs[b].deleteAfter.Some?
            then BroughtTo(w.jobs, w'.jobs, BlobGc, if now < w.db.blobs[b].deleteAfter.value
                                                    then w.db.blobs[b].deleteAfter.value else now)
            else w'.jobs == w.jobs
  {
  }

  /** A commit that applied something asks for the collection the tables it leaves call for, and any other
      leaves the job alone. */
  lemma CommitSchedules(
      w: World, now: nat, session: Session, restoring: bool, ms: seq<Mutation>, w': World, o: CommitOutcome)
    requires (w', o) == CommitMutations(w, now, session, restoring, ms)
    ensures var next := ReadNextGcAt(w'.db, now);
            if o.Committed? && o.broadcast.Some? && next.Some? then BroughtTo(w.jobs, w'.jobs, BlobGc, next.value)
            else SameJob(w.jobs, w'.jobs, BlobGc)
  {
    var mid := w.(db := w'.db, clock := now);
    FlushLeavesGc(mid, now);
    FlushLeavesGc(ScheduleNext(mid, now), now);
  }

  lemma FlushLeavesGc(w: World, now: nat)
    ensures SameJob(w.jobs, ScheduleFlush(w, now).jobs, BlobGc) && ScheduleFlush(w, now).db == w.db
  {
  }

  /** A collection from the alarm moves its job by what it came to: an hour on if sharing suspends it, by
      the backoff and with one more retry if it failed, to the next deadline without retries if there is
      one, and otherwise the job goes. A job not due is left alone. */
  lemma AlarmMovesJob(w: World, now: nat, mayCollect: bool, faults: Faults, w': World, o: GcOutcome)
    requires w' == AlarmGc(w, now, mayCollect, faults) && o == RunGc(w, now, mayCollect, faults).1
    ensures if !(BlobGc in w.jobs && w.jobs[BlobGc].dueAt <= now) then w' == w.(clock := now)
            else if !mayCollect then
              w'.jobs == w.jobs[BlobGc := Job(ScheduledDueAt(BlobGc, now + 60 * 60 * 1000), 0)]
            else if o.GcFailed? then
              var retries := w.jobs[BlobGc].retryCount + 1;
              w'.jobs == w.jobs[BlobGc := Job(now + RetryDelay(retries), retries)]
            else Completed(w, now, w')
  {
    if BlobGc in w.jobs && w.jobs[BlobGc].dueAt <= now && mayCollect {
      var ran := RunGc(w, now, mayCollect, faults).0;
      RanJobs(w, now, faults, ran, o);
      AlarmAfter(w, now, faults, ran, o, w');
    }
  }

  /** The next collection is scheduled, without retries, if there is one, and a health flush is due. */
  ghost predicate Completed(w: World, now: nat, w': World) {
    var next := ReadNextGcAt(w'.db, now);
    && Get(w'.jobs, BlobGc) == (if next.None? then None else Some(Job(ScheduledDueAt(BlobGc, next.value), 0)))
    && HealthSummaryFlush in w'.jobs && w'.jobs[HealthSummaryFlush].dueAt <= now
  }

  lemma RanJobs(w: World, now: nat, faults: Faults, ran: World, o: GcOutcome)
    requires (ran, o) == RunGc(w, now, true, faults)
    ensures if o.GcFailed? then ran.jobs == w.jobs
            else && o == GcDone(ReadNextGcAt(ran.db, now)) && ran.jobs == Defer(w.jobs, HealthSummaryFlush, now)
  {
  }

  lemma AlarmAfter(w: World, now: nat, faults: Faults, ran: World, o: GcOutcome, w': World)
    requires BlobGc in w.jobs && w.jobs[BlobGc].dueAt <= now
    requires (ran, o) == RunGc(w, now, true, faults) && w' == AlarmGc(w, now, true, faults)
    ensures w' == ran.(jobs := match o
                               case GcSuspended(_) => w'.jobs
                               case GcFailed => RescheduleFailed(ran.jobs, BlobGc, w.jobs[BlobGc].retryCount, now)
                               case GcDone(next) => if next.None? then ran.jobs - {BlobGc}
                                                    else Reschedule(ran.jobs, BlobGc, next.value))
  {
  }

  // ---- health flushes ----

  /** The flush the service remembers is really scheduled. */
  ghost predicate Remembered(w: World) {
    w.flushAt.Some? ==> HealthSummaryFlush in w.jobs && w.jobs[HealthSummaryFlush].dueAt <= w.flushAt.value
  }

  lemma FlushKept(w: World, now: nat, w': World)
    requires Remembered(w) && w' == ScheduleFlush(w, now)
    ensures Remembered(w') && HealthSummaryFlush in w'.jobs
            && w'.jobs[HealthSummaryFlush].dueAt <= now + 10 * 60 * 1000
  {
  }

  /** The health job is only ever brought forward, and what is remembered stays. */
  ghost predicate FlushNoLater(w: World, w': World) {
    && w'.flushAt == w.flushAt
    && (HealthSummaryFlush in w.jobs ==>
          HealthSummaryFlush in w'.jobs && w'.jobs[HealthSummaryFlush].dueAt <= w.jobs[HealthSummaryFlush].dueAt)
  }

  lemma GcRanKeepsFlush(w: World, now: nat, mayCollect: bool, faults: Faults, ran: World)
    requires ran == RunGc(w, now, mayCollect, faults).0
    ensures FlushNoLater(w, ran)
  {
  }

  lemma AlarmKeepsFlush(w: World, now: nat, mayCollect: bool, faults: Faults, w': World)
    requires w' == AlarmGc(w, now, mayCollect, faults)
    ensures FlushNoLater(w, w')
  {
    var ran := RunGc(w, now, mayCollect, faults).0;
    GcRanKeepsFlush(w, now, mayCollect, faults, ran);
    assert SameJob(ran.jobs, w'.jobs, HealthSummaryFlush) || w' == w.(clock := now);
  }

  lemma DirectKeepsFlush(w: World, now: nat, mayCollect: bool, faults: Faults, w': World)
    requires w' == DirectGc(w, now, mayCollect, faults)
    ensures FlushNoLater(w, w')
  {
    var ran := RunGc(w, now, mayCollect, faults).0;
    GcRanKeepsFlush(w, now, mayCollect, faults, ran);
    assert SameJob(ran.jobs, w'.jobs, HealthSummaryFlush);
  }

  /** A due flush moves its job by what it came to: gone with nothing to report or no warning ahead, at the
      next warning without retries, or the backoff with one more retry. What is remembered follows, except
      with nothing to report; a job not due is left alone. */
  lemma FlushMovesJob(w: World, now: nat, outcome: FlushOutcome, w': World)
    requires w' == AlarmFlush(w, now, outcome)
    ensures w'.db == w.db && w'.objects == w.objects && SameJob(w.jobs, w'.jobs, BlobGc)
    ensures var due := HealthSummaryFlush in w.jobs && w.jobs[HealthSummaryFlush].dueAt <= now;
            if !due then w'.jobs == w.jobs && w'.flushAt == w.flushAt
            else match outcome
                 case NothingToReport => HealthSummaryFlush !in w'.jobs && w'.flushAt == w.flushAt
                 case Reported(next) =>
                   && w'.flushAt == next
                   && Get(w'.jobs, HealthSummaryFlush)
                      == if next.None? then None else Some(Job(next.value, 0))
                 case ReportFailed =>
                   var retries := w.jobs[HealthSummaryFlush].retryCount + 1;
                   && w'.flushAt.None?
                   && Get(w'.jobs, HealthSummaryFlush) == Some(Job(now + RetryDelay(retries), retries))
  {
  }

  /** A flush from the alarm forgets or renews what is remembered, except one that finds nothing to
      report: the job goes, and what was remembered stays. */
  ghost predicate Forgets(w: World, now: nat, c: Command) {
    && c.HealthAlarm? && c.outcome.NothingToReport? && w.flushAt.Some?
    && HealthSummaryFlush in w.jobs && w.jobs[HealthSummaryFlush].dueAt <= now
  }

  lemma AlarmRemembersIff(w: World, now: nat, outcome: FlushOutcome, w': World)
    requires Remembered(w) && w' == AlarmFlush(w, now, outcome)
    ensures Remembered(w') <==> !Forgets(w, now, HealthAlarm(outcome))
  {
  }

  lemma CommitRemembers(w: World, now: nat, session: Session, restoring: bool, ms: seq<Mutation>, w': World,
                        o: CommitOutcome)
    requires Remembered(w) && (w', o) == CommitMutations(w, now, session, restoring, ms)
    ensures Remembered(w')
    ensures o.Committed? && o.broadcast.Some? ==>
              HealthSummaryFlush in w'.jobs && w'.jobs[HealthSummaryFlush].dueAt <= now + 10 * 60 * 1000
  {
    if o.Committed? && o.broadcast.Some? {
      var mid := ScheduleNext(w.(db := w'.db, clock := now), now);
      FlushKept(mid, now, w');
    }
  }

  lemma PurgeRemembers(w: World, now: nat, mayCollect: bool, rs: seq<PurgeRequest>, faults: Faults, w': World)
    requires Remembered(w) && w' == PurgeDeletedEntries(w, now, mayCollect, rs, faults).0
    ensures Remembered(w')
  {
    if w.db.pause.None? || rs == [] {
      var acc := PurgeFold(w.db, now, rs);
      CollectRemembers(w.(clock := now, db := acc.db), now, mayCollect, acc.candidates, faults, w');
    }
  }

  lemma CollectRemembers(w: World, now: nat, mayCollect: bool, ids: set<BlobId>, faults: Faults, w': World)
    requires Remembered(w) && w' == CollectPurged(w, now, mayCollect, ids, faults)
    ensures Remembered(w')
  {
    if mayCollect && ids != {} {
      var marked := MarkAll(Expire(w.db, now), ids, now);
      var (db, objects) := Collect(marked, w.objects, PurgedKeys(marked, ids, now), faults, now);
      var mid := ScheduleNext(w.(db := db, objects := objects), now);
      assert Remembered(mid);
      FlushKept(mid, now, w');
    }
  }

  lemma RestoreRemembers(w: World, now: nat, session: Session, r: Restore, id: string, w': World)
    requires Remembered(w) && w' == RestoreEntryVersion(w, now, session, r, id).0
    ensures Remembered(w')
  {
    if RestoreRefusal(w.db, now, r).None? {
      var committed := CommitMutations(w, now, session, true, [RestoreMutation(r, id)]);
      CommitRemembers(w, now, session, true, [RestoreMutation(r, id)], committed.0, committed.1);
    }
  }

  lemma RestoreManyRemembers(w: World, now: nat, session: Session, rs: seq<DrawnRestore>, w': World)
    requires Remembered(w) && w' == RestoreEntryVersions(w, now, session, rs).0
    ensures Remembered(w')
  {
    var ms := PlanRestores(w.db, now, rs).mutations;
    if ms != [] {
      var committed := CommitMutations(w, now, session, true, ms);
      CommitRemembers(w, now, session, true, ms, committed.0, committed.1);
    }
  }

  lemma DeleteRemembers(w: World, now: nat, b: BlobId, faults: Faults, w': World)
    requires Remembered(w) && w' == DeleteBlob(w, now, b, faults)
    ensures Remembered(w')
    ensures w'.db.blobs != w.db.blobs ==>
              HealthSummaryFlush in w'.jobs && w'.jobs[HealthSummaryFlush].dueAt <= now + 10 * 60 * 1000
  {
    if w'.db.blobs != w.db.blobs {
      var mid := w.(clock := now, objects := w'.objects, db := w'.db);
      FlushKept(mid, now, w');
    }
  }

  /** Every command keeps the remembered flush scheduled, except exactly a flush that finds nothing to
      report while one is remembered. */
  lemma ExecRemembersIff(w: World, now: nat, c: Command, w': World)
    requires Remembered(w) && w' == Exec(w, now, c)
    ensures Remembered(w') <==> !Forgets(w, now, c)
  {
    match c
    case Stage(b, size) =>
    case AbortStage(vaultId, b) =>
    case Upload(b) =>
    case DeleteOne(b, faults) => DeleteRemembers(w, now, b, faults, w');
    case Commit(session, restoring, ms) =>
      CommitRemembers(w, now, session, restoring, ms, w', CommitMutations(w, now, session, restoring, ms).1);
    case RestoreOne(session, r, id) => RestoreRemembers(w, now, session, r, id, w');
    case RestoreMany(session, rs) => RestoreManyRemembers(w, now, session, rs, w');
    case Purge(mayCollect, rs, faults) => PurgeRemembers(w, now, mayCollect, rs, faults, w');
    case Alarm(mayCollect, faults) => AlarmKeepsFlush(w, now, mayCollect, faults, w');
    case CollectNow(mayCollect, faults) => DirectKeepsFlush(w, now, mayCollect, faults, w');
    case Repair(faults) =>
    case SetPause(reason) =>
    case SetPolicy(limit, maxFile, days) =>
      FlushKept(w.(clock := now, db := w'.db), now, w');
    case HealthTouched => FlushKept(w.(clock := now), now, w');
    case HealthAlarm(outcome) => AlarmRemembersIff(w, now, outcome, w');
  }

  ghost predicate RememberedAt(w: World, evs: seq<Event>, i: nat)
    requires i <= |evs|
  {
    Remembered(Run(w, evs[..i]))
  }

  ghost predicate ForgetsAt(w: World, evs: seq<Event>, i: nat)
    requires i < |evs|
  {
    Forgets(Run(w, evs[..i]), TimeOf(Run(w, evs[..i]), evs[i]), evs[i].command)
  }

  lemma NextRemembered(w: World, evs: seq<Event>, i: nat)
    requires i < |evs| && RememberedAt(w, evs, i)
    ensures RememberedAt(w, evs, i + 1) <==> !ForgetsAt(w, evs, i)
  {
    assert evs[..i + 1][..i] == evs[..i];
    var before := Run(w, evs[..i]);
    ExecRemembersIff(before, TimeOf(before, evs[i]), evs[i].command, Run(w, evs[..i + 1]));
  }

  /** From the first state row on, the remembered flush is really scheduled throughout a run if and only if
      no flush of the run finds nothing to report while one is remembered. */
  lemma {:induction false} RememberedThroughoutIff(w: World, evs: seq<Event>, n: nat)
    requires Initial(w) && n <= |evs|
    ensures (forall i | 0 <= i <= n :: RememberedAt(w, evs, i)) <==> (forall i | 0 <= i < n :: !ForgetsAt(w, evs, i))
  {
    assert RememberedAt(w, evs, 0) by { assert evs[..0] == []; }
    forall i | 0 <= i < n && RememberedAt(w, evs, i)
      ensures RememberedAt(w, evs, i + 1) <==> !ForgetsAt(w, evs, i)
    {
      NextRemembered(w, evs, i);
    }
    var remembered := (i: nat) => i <= |evs| && RememberedAt(w, evs, i);
    var kept := (i: nat) => i < |evs| && !ForgetsAt(w, evs, i);
    HoldsThroughoutIff(remembered, kept, n);
    assert forall i | 0 <= i <= n :: remembered(i) <==> RememberedAt(w, evs, i);
    assert forall i | 0 <= i < n :: kept(i) <==> !ForgetsAt(w, evs, i);
  }

  /** What a forgotten flush costs: from then on touches schedule nothing, however often they come, until
      a flush runs again for some other reason. */
  lemma ForgottenSchedulesNothing(w: World, now: nat, later: nat, w': World)
    requires Forgets(w, now, HealthAlarm(NothingToReport)) && w.flushAt.value <= now <= later
    requires w' == AlarmFlush(w, now, NothingToReport)
    ensures HealthSummaryFlush !in w'.jobs && ScheduleFlush(w'.(clock := later), later) == w'.(clock := later)
  {
  }
}
