/** The maintenance scheduler: one table of jobs, one alarm, and handlers that may themselves defer jobs. */
module Scheduler {
  import opened Wrappers
  import opened JobTable

  const MAX_DRAINED_JOBS: nat := 16
  const ALARM_FAILURE_RETRY_MS: nat := 30 * 1000

  datatype State = State(jobs: Jobs, alarm: Option<nat>)

  /** What one handler run does: jobs it defers along the way, and its answer. */
  datatype Answer = NextAt(at: nat) | Finished | Threw
  datatype Deferral = Deferral(key: JobKey, dueAt: nat)
  datatype Turn = Turn(defers: seq<Deferral>, answer: Answer)

  // ---- queries ----

  predicate IsDue(jobs: Jobs, key: JobKey, now: nat) {
    key in jobs && jobs[key].dueAt <= now
  }

  /** `ORDER BY due_at ASC, key ASC LIMIT 1` over the jobs due by `now`; "blob_gc" sorts first. */
  function NextDueJob(jobs: Jobs, now: nat): Option<JobKey> {
    if IsDue(jobs, BlobGc, now)
       && (HealthSummaryFlush !in jobs || jobs[BlobGc].dueAt <= jobs[HealthSummaryFlush].dueAt) then Some(BlobGc)
    else if IsDue(jobs, HealthSummaryFlush, now) then Some(HealthSummaryFlush)
    else None
  }

  /** The least due time in the table. */
  function NextDueAt(jobs: Jobs): Option<nat> {
    var gc, health := Get(jobs, BlobGc), Get(jobs, HealthSummaryFlush);
    if gc.None? && health.None? then None
    else if health.None? || (gc.Some? && gc.value.dueAt <= health.value.dueAt) then Some(gc.value.dueAt)
    else Some(health.value.dueAt)
  }

  lemma NextDueJobIsFirst(jobs: Jobs, now: nat)
    ensures NextDueJob(jobs, now).None? <==> forall k | k in jobs :: jobs[k].dueAt > now
    ensures NextDueJob(jobs, now).Some? ==>
              var k := NextDueJob(jobs, now).value;
              IsDue(jobs, k, now) && forall j | j in jobs :: jobs[k].dueAt <= jobs[j].dueAt
  {
    assert forall k | k in jobs :: k == BlobGc || k == HealthSummaryFlush;
  }

  lemma NextDueAtIsLeast(jobs: Jobs)
    ensures NextDueAt(jobs).None? <==> jobs == map[]
    ensures NextDueAt(jobs).Some? ==>
              && (exists k :: k in jobs && jobs[k].dueAt == NextDueAt(jobs).value)
              && (forall k | k in jobs :: NextDueAt(jobs).value <= jobs[k].dueAt)
  {
    assert forall k | k in jobs :: k == BlobGc || k == HealthSummaryFlush;
    if BlobGc in jobs {
    } else if HealthSummaryFlush in jobs {
    } else {
      assert jobs.Keys == {};
    }
  }

  // ---- the operations on values ----

  /** Re-arming sets the alarm to the least due time, or clears it. */
  function Rearmed(jobs: Jobs): State {
    State(jobs, NextDueAt(jobs))
  }

  /** A job already due early enough is left alone, and so is the alarm. */
  function Deferred(s: State, key: JobKey, dueAt: nat): State {
    if key in s.jobs && s.jobs[key].dueAt <= ScheduledDueAt(key, dueAt) then s
    else Rearmed(JobTable.Defer(s.jobs, key, dueAt))
  }

  function DeferAll(s: State, defers: seq<Deferral>): State
    decreases |defers|
  {
    if defers == [] then s
    else DeferAll(Deferred(s, defers[0].key, defers[0].dueAt), defers[1..])
  }

  function EnsureArmed(s: State): State {
    var next := NextDueAt(s.jobs);
    if next.Some? && (s.alarm.None? || s.alarm.value > next.value) then s.(alarm := next) else s
  }

  /** The job row is read before its handler runs; the handler's answer is written over it. */
  function AfterTurn(s: State, now: nat, key: JobKey, turn: Turn): State
    requires key in s.jobs
  {
    var retryCount := s.jobs[key].retryCount;
    var s' := DeferAll(s, turn.defers);
    match turn.answer
    case NextAt(at) => s'.(jobs := Reschedule(s'.jobs, key, at))
    case Finished => s'.(jobs := s'.jobs - {key})
    case Threw => s'.(jobs := RescheduleFailed(s'.jobs, key, retryCount, now))
  }

  datatype Drained = Drained(state: State, ran: seq<JobKey>)

  /** One turn per script entry while some job is due. */
  function DrainTurns(s: State, now: nat, turns: seq<Turn>): Drained
    decreases |turns|
  {
    var next := NextDueJob(s.jobs, now);
    if turns == [] || next.None? then Drained(s, [])
    else
      NextDueJobIsFirst(s.jobs, now);
      var rest := DrainTurns(AfterTurn(s, now, next.value, turns[0]), now, turns[1..]);
      Drained(rest.state, [next.value] + rest.ran)
  }

  function DrainOnce(s: State, now: nat, turns: seq<Turn>): Drained
    requires |turns| == MAX_DRAINED_JOBS
  {
    var d := DrainTurns(s, now, turns);
    d.(state := Rearmed(d.state.jobs))
  }

  lemma DrainUnfolds(s: State, now: nat, key: JobKey, turns: seq<Turn>, s': State, ran: seq<JobKey>)
    requires turns != [] && NextDueJob(s.jobs, now) == Some(key) && key in s.jobs
    requires s' == AfterTurn(s, now, key, turns[0])
    ensures var d, rest := DrainTurns(s, now, turns), DrainTurns(s', now, turns[1..]);
            rest.state == d.state && ran + [key] + rest.ran == ran + d.ran
  {
  }

  // ---- the scheduler object ----

  class MaintenanceScheduler {
    var jobs: Jobs
    var alarm: Option<nat>

    ghost function View(): State
      reads this
    {
      State(jobs, alarm)
    }

    constructor ()
      ensures View() == State(map[], None)
    {
      jobs, alarm := map[], None;
    }

    method Rearm()
      modifies this`alarm
      ensures View() == Rearmed(old(jobs))
    {
      var next := NextDueAt(jobs);
      if next.None? {
        alarm := None;
        return;
      }
      if alarm != next { alarm := next; }
    }

    method Defer(key: JobKey, dueAt: nat)
      modifies this
      ensures View() == Deferred(old(View()), key, dueAt)
    {
      var scheduled := ScheduledDueAt(key, dueAt);
      if key in jobs && jobs[key].dueAt <= scheduled { return; }
      if key in jobs {
        jobs := jobs[key := jobs[key].(dueAt := scheduled)];
      } else {
        jobs := jobs[key := Job(scheduled, 0)];
      }
      Rearm();
    }

    method Arm()
      modifies this`alarm
      ensures View() == EnsureArmed(old(View()))
    {
      var next := NextDueAt(jobs);
      if next.None? { return; }
      if alarm.None? || alarm.value > next.value { alarm := next; }
    }

    method DeferEach(defers: seq<Deferral>)
      modifies this
      ensures View() == DeferAll(old(View()), defers)
    {
      ghost var start := View();
      assert defers[0..] == defers;
      for i := 0 to |defers|
        invariant DeferAll(View(), defers[i..]) == DeferAll(start, defers)
      {
        assert defers[i..][1..] == defers[i + 1..];
        Defer(defers[i].key, defers[i].dueAt);
      }
    }

    method Drain(now: nat, turns: seq<Turn>) returns (ran: seq<JobKey>)
      requires |turns| == MAX_DRAINED_JOBS
      modifies this
      ensures Drained(View(), ran) == DrainOnce(old(View()), now, turns)
    {
      ghost var whole := DrainTurns(View(), now, turns);
      assert turns[0..] == turns;
      ran := [];
      for i := 0 to MAX_DRAINED_JOBS
        invariant |ran| <= i
        invariant var rest := DrainTurns(View(), now, turns[i..]);
                  rest.state == whole.state && ran + rest.ran == whole.ran
      {
        var job := NextDueJob(jobs, now);
        if job.None? { break; }
        assert turns[i..][1..] == turns[i + 1..];
        NextDueJobIsFirst(jobs, now);
        ghost var before := View();
        RunJob(now, job.value, turns[i]);
        DrainUnfolds(before, now, job.value, turns[i..], View(), ran);
        ran := ran + [job.value];
      }
      Rearm();
    }

    method RunJob(now: nat, key: JobKey, turn: Turn)
      requires key in jobs
      modifies this
      ensures View() == AfterTurn(old(View()), now, key, turn)
    {
      var retryCount := jobs[key].retryCount;
      DeferEach(turn.defers);
      match turn.answer
      case NextAt(at) => jobs := jobs[key := Job(ScheduledDueAt(key, at), 0)];
      case Finished => jobs := jobs - {key};
      case Threw =>
        if key in jobs {
          jobs := jobs[key := Job(now + RetryDelay(retryCount + 1), retryCount + 1)];
        }
    }
  }

  // ---- what the scheduler guarantees ----

  /** Deferring never makes any job later, and brings the asked one to the asked time or before. */
  lemma DeferNeverLater(s: State, key: JobKey, dueAt: nat)
    ensures var s' := Deferred(s, key, dueAt);
            && key in s'.jobs && s'.jobs[key].dueAt <= ScheduledDueAt(key, dueAt) < dueAt + GC_BUCKET_MS
            && (forall k | k in s.jobs :: k in s'.jobs && s'.jobs[k].dueAt <= s.jobs[k].dueAt
                                          && s'.jobs[k].retryCount == s.jobs[k].retryCount)
            && (s'.jobs != s.jobs ==> s'.alarm == NextDueAt(s'.jobs))
  {
    ScheduledWithinBucket(key, dueAt);
  }

  lemma {:induction false} DeferAllNeverLater(s: State, defers: seq<Deferral>)
    ensures var s' := DeferAll(s, defers);
            forall k | k in s.jobs :: k in s'.jobs && s'.jobs[k].dueAt <= s.jobs[k].dueAt
                                      && s'.jobs[k].retryCount == s.jobs[k].retryCount
    decreases |defers|
  {
    if defers != [] {
      DeferNeverLater(s, defers[0].key, defers[0].dueAt);
      DeferAllNeverLater(Deferred(s, defers[0].key, defers[0].dueAt), defers[1..]);
    }
  }

  /** A failed job counts one more retry and waits that retry's delay, between half a minute and a quarter
      of an hour, whatever it deferred itself to. */
  lemma FailureBacksOff(s: State, now: nat, key: JobKey, turn: Turn)
    requires key in s.jobs && turn.answer.Threw?
    ensures var job := AfterTurn(s, now, key, turn).jobs;
            && key in job && job[key].retryCount == s.jobs[key].retryCount + 1
            && job[key].dueAt == now + RetryDelay(job[key].retryCount)
            && now + RETRY_MIN_MS <= job[key].dueAt <= now + RETRY_MAX_MS
  {
    DeferAllNeverLater(s, turn.defers);
    RetryDelayBounds(s.jobs[key].retryCount + 1);
  }

  /** A job that succeeds starts over: due at the time its handler asked for, without retries, or gone. */
  lemma SuccessStartsOver(s: State, now: nat, key: JobKey, turn: Turn)
    requires key in s.jobs && !turn.answer.Threw?
    ensures Get(AfterTurn(s, now, key, turn).jobs, key)
            == if turn.answer.Finished? then None else Some(Job(ScheduledDueAt(key, turn.answer.at), 0))
  {
  }

  /** The first retry waits half a minute, and each further one twice as long as the one before, up to a
      quarter of an hour. */
  lemma BackoffDoubles(retryCount: nat)
    requires retryCount > 0
    ensures RetryDelay(1) == 30 * 1000
    ensures var doubled := 2 * RetryDelay(retryCount);
            RetryDelay(retryCount + 1) == if doubled < 15 * 60 * 1000 then doubled else 15 * 60 * 1000
  {
    assert Pow2(0) == 1;
    assert Pow2(retryCount) == 2 * Pow2(retryCount - 1);
  }

  /** At start-up a missing or later alarm is set to the least due time, and an earlier one is kept. */
  lemma ArmedAtStart(s: State, s': State)
    requires s' == EnsureArmed(s)
    ensures s'.jobs == s.jobs
    ensures forall k | k in s.jobs :: s'.alarm.Some? && s'.alarm.value <= s.jobs[k].dueAt
    ensures s'.alarm != s.alarm ==> exists k :: k in s.jobs && s'.alarm == Some(s.jobs[k].dueAt)
    ensures s.alarm.Some? ==> s'.alarm.Some? && s'.alarm.value <= s.alarm.value
  {
    NextDueAtIsLeast(s.jobs);
  }

  /** The table a drain would see before its i-th handler run. */
  function Before(s: State, now: nat, turns: seq<Turn>, i: nat): State
    decreases i
  {
    var next := NextDueJob(s.jobs, now);
    if i == 0 || turns == [] || next.None? then s
    else
      NextDueJobIsFirst(s.jobs, now);
      Before(AfterTurn(s, now, next.value, turns[0]), now, turns[1..], i - 1)
  }

  /** At most one run per script entry; each run was of a job due by then, no other job being due
      earlier; and a drain that stops early stops because nothing is due. */
  lemma {:induction false} DrainRunsOnlyDueJobs(s: State, now: nat, turns: seq<Turn>)
    ensures var d := DrainTurns(s, now, turns);
            && |d.ran| <= |turns|
            && (forall i | 0 <= i < |d.ran| ::
                  var jobs := Before(s, now, turns, i).jobs;
                  IsDue(jobs, d.ran[i], now) && forall k | k in jobs :: jobs[d.ran[i]].dueAt <= jobs[k].dueAt)
            && (|d.ran| < |turns| ==> forall k | k in d.state.jobs :: d.state.jobs[k].dueAt > now)
    decreases |turns|
  {
    NextDueJobIsFirst(s.jobs, now);
    var next := NextDueJob(s.jobs, now);
    if turns != [] && next.Some? {
      var s' := AfterTurn(s, now, next.value, turns[0]);
      DrainRunsOnlyDueJobs(s', now, turns[1..]);
      var d := DrainTurns(s, now, turns);
      forall i | 0 <= i < |d.ran|
        ensures var jobs := Before(s, now, turns, i).jobs;
                IsDue(jobs, d.ran[i], now) && forall k | k in jobs :: jobs[d.ran[i]].dueAt <= jobs[k].dueAt
      {
        if i > 0 {
          assert d.ran[i] == DrainTurns(s', now, turns[1..]).ran[i - 1];
        }
      }
    }
  }

  /** After a drain the alarm is the least due time, absent when the table is empty, and in the
      future unless all sixteen runs were used. */
  lemma AlarmAfterDrain(s: State, now: nat, turns: seq<Turn>)
    requires |turns| == MAX_DRAINED_JOBS
    ensures var d := DrainOnce(s, now, turns);
            && (d.state.alarm.None? <==> d.state.jobs == map[])
            && (d.state.alarm.Some? ==>
                  && (exists k :: k in d.state.jobs && d.state.jobs[k].dueAt == d.state.alarm.value)
                  && (forall k | k in d.state.jobs :: d.state.alarm.value <= d.state.jobs[k].dueAt)
                  && (|d.ran| < MAX_DRAINED_JOBS ==> d.state.alarm.value > now))
            && |d.ran| <= MAX_DRAINED_JOBS
  {
    DrainRunsOnlyDueJobs(s, now, turns);
    NextDueAtIsLeast(DrainTurns(s, now, turns).state.jobs);
  }

  // ---- which jobs come up in a drain ----

  ghost predicate DefersToDue(defers: seq<Deferral>, key: JobKey, now: nat) {
    exists i :: 0 <= i < |defers| && defers[i].key == key && ScheduledDueAt(key, defers[i].dueAt) <= now
  }

  /** A turn leaves `key` due: by its own answer if it is the job that ran, and otherwise by a deferral
      made on the way. What a handler defers its own job to is overwritten by its answer. */
  ghost predicate PutsBack(turn: Turn, ranKey: JobKey, key: JobKey, now: nat) {
    if key == ranKey then turn.answer.NextAt? && ScheduledDueAt(key, turn.answer.at) <= now
    else DefersToDue(turn.defers, key, now)
  }

  /** Deferrals make a job due exactly if one of them asks for a due time. */
  lemma {:induction false} DueAfterDeferrals(s: State, defers: seq<Deferral>, key: JobKey, now: nat)
    ensures IsDue(DeferAll(s, defers).jobs, key, now) <==> IsDue(s.jobs, key, now) || DefersToDue(defers, key, now)
    decreases |defers|
  {
    if defers != [] {
      var s', rest := Deferred(s, defers[0].key, defers[0].dueAt), defers[1..];
      DueAfterDeferrals(s', rest, key, now);
      if DefersToDue(defers, key, now) && !(defers[0].key == key && ScheduledDueAt(key, defers[0].dueAt) <= now) {
        var i :| 0 <= i < |defers| && defers[i].key == key && ScheduledDueAt(key, defers[i].dueAt) <= now;
        assert rest[i - 1] == defers[i];
      }
      if DefersToDue(rest, key, now) {
        var i :| 0 <= i < |rest| && rest[i].key == key && ScheduledDueAt(key, rest[i].dueAt) <= now;
        assert defers[i + 1] == rest[i];
      }
    }
  }

  /** What is due after a turn: the job that ran, if its answer says so, and the others that were due
      already or were deferred to a due time. */
  lemma DueAfterTurn(s: State, now: nat, ranKey: JobKey, turn: Turn, key: JobKey)
    requires ranKey in s.jobs
    ensures IsDue(AfterTurn(s, now, ranKey, turn).jobs, key, now)
            <==> (key != ranKey && IsDue(s.jobs, key, now)) || PutsBack(turn, ranKey, key, now)
  {
    DueAfterDeferrals(s, turn.defers, key, now);
    RetryDelayBounds(s.jobs[ranKey].retryCount + 1);
  }

  /** Some turn of the drain from position `from` on puts the job back. */
  ghost predicate PutBackFrom(turns: seq<Turn>, ran: seq<JobKey>, from: nat, key: JobKey, now: nat)
    requires |ran| <= |turns|
  {
    exists t :: from <= t < |ran| && PutsBack(turns[t], ran[t], key, now)
  }

  /** The job runs at some position from `from` on, or is still due when the drain has used its turns. */
  ghost predicate ComesUp(d: Drained, from: nat, key: JobKey, now: nat) {
    (exists j :: from <= j < |d.ran| && d.ran[j] == key) || IsDue(d.state.jobs, key, now)
  }

  lemma ShiftPutBack(turns: seq<Turn>, ran: seq<JobKey>, from: nat, key: JobKey, now: nat)
    requires 0 < |ran| <= |turns|
    ensures PutBackFrom(turns[1..], ran[1..], from, key, now) <==> PutBackFrom(turns, ran, from + 1, key, now)
  {
    if PutBackFrom(turns[1..], ran[1..], from, key, now) {
      var t :| from <= t < |ran[1..]| && PutsBack(turns[1..][t], ran[1..][t], key, now);
      assert PutsBack(turns[t + 1], ran[t + 1], key, now);
    }
    if PutBackFrom(turns, ran, from + 1, key, now) {
      var t :| from + 1 <= t < |ran| && PutsBack(turns[t], ran[t], key, now);
      assert PutsBack(turns[1..][t - 1], ran[1..][t - 1], key, now);
    }
  }

  lemma ShiftComesUp(d: Drained, rest: Drained, from: nat, key: JobKey, now: nat)
    requires d.ran != [] && rest == d.(ran := d.ran[1..])
    ensures ComesUp(rest, from, key, now) <==> ComesUp(d, from + 1, key, now)
  {
    if j :| from <= j < |rest.ran| && rest.ran[j] == key {
      assert d.ran[j + 1] == key;
    }
    if j :| from + 1 <= j < |d.ran| && d.ran[j] == key {
      assert rest.ran[j - 1] == key;
    }
  }

  /** A job comes up in a drain exactly if it was due at the start or some turn put it back. */
  lemma {:induction false} ComesUpIff(s: State, now: nat, turns: seq<Turn>, key: JobKey)
    ensures var d := DrainTurns(s, now, turns);
            |d.ran| <= |turns|
            && (ComesUp(d, 0, key, now) <==> IsDue(s.jobs, key, now) || PutBackFrom(turns, d.ran, 0, key, now))
    decreases |turns|
  {
    NextDueJobIsFirst(s.jobs, now);
    var next := NextDueJob(s.jobs, now);
    if turns != [] && next.Some? {
      var s' := AfterTurn(s, now, next.value, turns[0]);
      ComesUpIff(s', now, turns[1..], key);
      DueAfterTurn(s, now, next.value, turns[0], key);
      var d, rest := DrainTurns(s, now, turns), DrainTurns(s', now, turns[1..]);
      assert d.ran[0] == next.value && rest == d.(ran := d.ran[1..]);
      ShiftComesUp(d, rest, 0, key, now);
      ShiftPutBack(turns, d.ran, 0, key, now);
      FirstOrLater(turns, d, key, now);
    }
  }

  lemma FirstOrLater(turns: seq<Turn>, d: Drained, key: JobKey, now: nat)
    requires 0 < |d.ran| <= |turns|
    ensures ComesUp(d, 0, key, now) <==> d.ran[0] == key || ComesUp(d, 1, key, now)
    ensures PutBackFrom(turns, d.ran, 0, key, now)
            <==> PutsBack(turns[0], d.ran[0], key, now) || PutBackFrom(turns, d.ran, 1, key, now)
  {
  }

  /** A job that has run comes up again exactly if some turn, from its own onward, put it back at a due
      time: by its own answer, or by another handler's deferral. */
  lemma {:induction false} ComesUpAgainIff(s: State, now: nat, turns: seq<Turn>, i: nat)
    requires i < |DrainTurns(s, now, turns).ran|
    ensures var d := DrainTurns(s, now, turns);
            |d.ran| <= |turns|
            && (ComesUp(d, i + 1, d.ran[i], now) <==> PutBackFrom(turns, d.ran, i, d.ran[i], now))
    decreases |turns|
  {
    NextDueJobIsFirst(s.jobs, now);
    var next := NextDueJob(s.jobs, now).value;
    var s' := AfterTurn(s, now, next, turns[0]);
    var d, rest := DrainTurns(s, now, turns), DrainTurns(s', now, turns[1..]);
    assert d.ran[0] == next && rest == d.(ran := d.ran[1..]);
    ComesUpIff(s', now, turns[1..], d.ran[i]);
    ShiftPutBack(turns, d.ran, if i > 0 then i - 1 else 0, d.ran[i], now);
    ShiftComesUp(d, rest, i, d.ran[i], now);
    if i == 0 {
      DueAfterTurn(s, now, next, turns[0], next);
      FirstOrLater(turns, d, next, now);
    } else {
      assert rest.ran[i - 1] == d.ran[i];
      ComesUpAgainIff(s', now, turns[1..], i - 1);
    }
  }

  /** In a drain that stops because nothing is due, coming up again is running again. */
  lemma RunsAgainIff(s: State, now: nat, turns: seq<Turn>, i: nat)
    requires i < |DrainTurns(s, now, turns).ran| < |turns|
    ensures var ran := DrainTurns(s, now, turns).ran;
            (exists j :: i < j < |ran| && ran[j] == ran[i]) <==> PutBackFrom(turns, ran, i, ran[i], now)
  {
    ComesUpAgainIff(s, now, turns, i);
    DrainRunsOnlyDueJobs(s, now, turns);
    var d := DrainTurns(s, now, turns);
    assert ComesUp(d, i + 1, d.ran[i], now) <==> exists j :: i < j < |d.ran| && d.ran[j] == d.ran[i];
  }

  lemma {:induction false} PutBackComesUp(s: State, now: nat, turns: seq<Turn>, t: nat, key: JobKey)
    requires t < |DrainTurns(s, now, turns).ran| <= |turns|
    requires PutsBack(turns[t], DrainTurns(s, now, turns).ran[t], key, now)
    ensures ComesUp(DrainTurns(s, now, turns), t + 1, key, now)
    decreases |turns|
  {
    NextDueJobIsFirst(s.jobs, now);
    var next := NextDueJob(s.jobs, now).value;
    var s' := AfterTurn(s, now, next, turns[0]);
    var d, rest := DrainTurns(s, now, turns), DrainTurns(s', now, turns[1..]);
    assert d.ran[0] == next && rest == d.(ran := d.ran[1..]);
    ShiftComesUp(d, rest, t, key, now);
    if t == 0 {
      DueAfterTurn(s, now, next, turns[0], key);
      ComesUpIff(s', now, turns[1..], key);
    } else {
      assert rest.ran[t - 1] == d.ran[t] && turns[1..][t - 1] == turns[t];
      PutBackComesUp(s', now, turns[1..], t - 1, key);
    }
  }

  /** The jobs that were due when the drain began: all of them, none twice, and no other. */
  ghost predicate OnceEach(jobs: Jobs, ran: seq<JobKey>, now: nat) {
    && (forall k | IsDue(jobs, k, now) :: k in ran)
    && (forall i, j | 0 <= i < j < |ran| :: ran[i] != ran[j])
    && (forall i | 0 <= i < |ran| :: IsDue(jobs, ran[i], now))
  }

  /** Whatever a turn puts back was due at the start and has yet to run. */
  ghost predicate PutsBackOnlyWaiting(jobs: Jobs, turns: seq<Turn>, ran: seq<JobKey>, now: nat)
    requires |ran| <= |turns|
  {
    forall t, key | 0 <= t < |ran| && PutsBack(turns[t], ran[t], key, now) :: IsDue(jobs, key, now)
        && key !in ran[..t + 1]
  }

  lemma DueJobsRan(s: State, now: nat, turns: seq<Turn>, key: JobKey)
    requires |DrainTurns(s, now, turns).ran| < |turns| && IsDue(s.jobs, key, now)
    ensures key in DrainTurns(s, now, turns).ran
  {
    ComesUpIff(s, now, turns, key);
    DrainRunsOnlyDueJobs(s, now, turns);
  }

  lemma OnlyWaitingRunOnce(s: State, now: nat, turns: seq<Turn>)
    requires |DrainTurns(s, now, turns).ran| < |turns|
    requires PutsBackOnlyWaiting(s.jobs, turns, DrainTurns(s, now, turns).ran, now)
    ensures OnceEach(s.jobs, DrainTurns(s, now, turns).ran, now)
  {
    var d := DrainTurns(s, now, turns);
    forall k | IsDue(s.jobs, k, now) ensures k in d.ran {
      DueJobsRan(s, now, turns, k);
    }
    forall i | 0 <= i < |d.ran| ensures IsDue(s.jobs, d.ran[i], now) {
      ComesUpIff(s, now, turns, d.ran[i]);
    }
    forall i, j | 0 <= i < j < |d.ran| ensures d.ran[i] != d.ran[j] {
      RunsAgainIff(s, now, turns, i);
      forall t | i <= t < |d.ran| ensures d.ran[t] in d.ran && d.ran[i] in d.ran[..t + 1] {
        assert d.ran[..t + 1][i] == d.ran[i];
      }
    }
  }

  /** A drain that stops because nothing is due runs each job due at its start once and no other job,
      exactly if no turn puts back a job that has run or was not due. */
  lemma EachJobRunsOnce(s: State, now: nat, turns: seq<Turn>)
    requires |DrainTurns(s, now, turns).ran| < |turns|
    ensures var ran := DrainTurns(s, now, turns).ran;
            OnceEach(s.jobs, ran, now) <==> PutsBackOnlyWaiting(s.jobs, turns, ran, now)
  {
    var d := DrainTurns(s, now, turns);
    DrainRunsOnlyDueJobs(s, now, turns);
    if OnceEach(s.jobs, d.ran, now) {
      forall t, key | 0 <= t < |d.ran| && PutsBack(turns[t], d.ran[t], key, now)
        ensures IsDue(s.jobs, key, now) && key !in d.ran[..t + 1]
      {
        PutBackComesUp(s, now, turns, t, key);
      }
    }
    if PutsBackOnlyWaiting(s.jobs, turns, d.ran, now) {
      OnlyWaitingRunOnce(s, now, turns);
    }
  }

  // ---- the program's own handlers ----

  const SUSPENDED_RETRY_MS: nat := 60 * 60 * 1000

  /** A collection that went through defers the health flush to now. */
  predicate Collected(turn: Turn, now: nat) {
    && turn.defers == [Deferral(HealthSummaryFlush, now)]
    && (turn.answer.Finished? || (turn.answer.NextAt? && turn.answer.at >= now))
  }

  predicate CollectionTurn(turn: Turn, now: nat) {
    || Collected(turn, now)
    || turn == Turn([], Threw)
    || turn == Turn([], Finished)  // no vault yet
    || turn == Turn([Deferral(BlobGc, now + SUSPENDED_RETRY_MS)], NextAt(now + SUSPENDED_RETRY_MS))
  }

  /** A flush that went through asks for its next warning time, which lies ahead. */
  predicate FlushTurn(turn: Turn, now: nat) {
    || turn == Turn([], Threw) || turn == Turn([], Finished)
    || (turn.answer.NextAt? && turn.answer.at > now && turn.defers == [Deferral(HealthSummaryFlush, turn.answer.at)])
  }

  predicate ProgramTurns(turns: seq<Turn>, ran: seq<JobKey>, now: nat)
    requires |ran| <= |turns|
  {
    forall t | 0 <= t < |ran| :: if ran[t].BlobGc? then CollectionTurn(turns[t], now) else FlushTurn(turns[t], now)
  }

  lemma ProgramPutsBack(turn: Turn, ranKey: JobKey, key: JobKey, now: nat)
    requires if ranKey.BlobGc? then CollectionTurn(turn, now) else FlushTurn(turn, now)
    ensures PutsBack(turn, ranKey, key, now)
            <==> ranKey.BlobGc? && (if key.BlobGc? then turn.answer == NextAt(now) && now % GC_BUCKET_MS == 0
                                    else Collected(turn, now))
  {
    if key != ranKey && key.HealthSummaryFlush? && Collected(turn, now) {
      assert turn.defers[0] == Deferral(key, now);
    }
  }

  /** With the program's handlers: the health flush comes up again exactly if a collection goes through
      after it, also when the flush has just failed; a collection comes up again exactly if one, from
      itself on, still finds work due now and now is a half hour. */
  lemma HandlersComeUpAgain(s: State, now: nat, turns: seq<Turn>, i: nat)
    requires var ran := DrainTurns(s, now, turns).ran; i < |ran| <= |turns| && ProgramTurns(turns, ran, now)
    ensures var d := DrainTurns(s, now, turns);
            ComesUp(d, i + 1, d.ran[i], now)
            <==> exists t :: i <= t < |d.ran| && d.ran[t].BlobGc?
                   && (if d.ran[i].BlobGc? then turns[t].answer == NextAt(now) && now % GC_BUCKET_MS == 0
                       else Collected(turns[t], now))
  {
    var ran := DrainTurns(s, now, turns).ran;
    ComesUpAgainIff(s, now, turns, i);
    forall t | 0 <= t < |ran|
      ensures PutsBack(turns[t], ran[t], ran[i], now)
              <==> ran[t].BlobGc? && (if ran[i].BlobGc? then turns[t].answer == NextAt(now) && now % GC_BUCKET_MS == 0
                                      else Collected(turns[t], now))
    {
      ProgramPutsBack(turns[t], ran[t], ran[i], now);
    }
  }

  /** Two drains of the program's handlers: a collection alone is followed by a health flush that was
      not due, and a flush that fails before a collection runs a second time in the same drain. */
  lemma FlushRunsAfterCollection(alarm: Option<nat>, now: nat, turns: seq<Turn>)
    requires now == 3600000 && |turns| > 3
    requires turns[0] == Turn([Deferral(HealthSummaryFlush, now)], Finished) && turns[1] == Turn([], Finished)
    ensures DrainTurns(State(map[BlobGc := Job(1800000, 0)], alarm), now, turns).ran == [BlobGc, HealthSummaryFlush]
  {
    var s := State(map[BlobGc := Job(1800000, 0)], alarm);
    var s1 := AfterTurn(s, now, BlobGc, turns[0]);
    assert DeferAll(s, turns[0].defers) == Deferred(s, HealthSummaryFlush, now) by {
      assert turns[0].defers[1..] == [];
    }
    assert s1.jobs == map[HealthSummaryFlush := Job(now, 0)];
    var s2 := AfterTurn(s1, now, HealthSummaryFlush, turns[1]);
    assert s2.jobs == map[];
    assert DrainTurns(s2, now, turns[1..][1..]).ran == [];
    assert DrainTurns(s1, now, turns[1..]).ran == [HealthSummaryFlush];
  }

  lemma FailedFlushRunsAgain(alarm: Option<nat>, now: nat, turns: seq<Turn>)
    requires now == 3600000 && |turns| > 3 && turns[0] == Turn([], Threw)
    requires turns[1] == Turn([Deferral(HealthSummaryFlush, now)], Finished) && turns[2] == Turn([], Finished)
    ensures DrainTurns(State(map[HealthSummaryFlush := Job(1000, 0), BlobGc := Job(1800000, 0)], alarm), now, turns).ran
            == [HealthSummaryFlush, BlobGc, HealthSummaryFlush]
  {
    var s := State(map[HealthSummaryFlush := Job(1000, 0), BlobGc := Job(1800000, 0)], alarm);
    var s1 := AfterTurn(s, now, HealthSummaryFlush, turns[0]);
    RetryDelayBounds(1);
    assert s1.jobs == map[HealthSummaryFlush := Job(now + RetryDelay(1), 1), BlobGc := Job(1800000, 0)];
    var s2 := AfterTurn(s1, now, BlobGc, turns[1]);
    assert DeferAll(s1, turns[1].defers) == Deferred(s1, HealthSummaryFlush, now) by {
      assert turns[1].defers[1..] == [];
    }
    assert s2.jobs == map[HealthSummaryFlush := Job(now, 1)];
    var s3 := AfterTurn(s2, now, HealthSummaryFlush, turns[2]);
    assert s3.jobs == map[];
    assert DrainTurns(s3, now, turns[1..][1..][1..]).ran == [];
    assert DrainTurns(s2, now, turns[1..][1..]).ran == [HealthSummaryFlush];
    assert DrainTurns(s1, now, turns[1..]).ran == [BlobGc, HealthSummaryFlush];
  }

  // ---- whole runs ----

  /** A scheduler with the callbacks that have fired and wait for the vault's lock. */
  datatype Process = Process(scheduler: State, waiting: nat)

  const IDLE := Process(State(map[], None), 0)

  /** What can happen. An alarm fires and its callback queues for the lock; when its turn comes the
      callback drains, or fails after some turns of its drain and asks for a retry; a restart drops the
      callbacks and may lose the alarm, but re-arms it. */
  datatype Happening =
    | Asked(key: JobKey, dueAt: nat)
    | Fired
    | Drains(now: nat, turns: seq<Turn>)
    | Fails(now: nat, turns: seq<Turn>)
    | Restarted(alarmKept: bool)

  function Next(p: Process, h: Happening): Process {
    match h
    case Asked(key, dueAt) => p.(scheduler := Deferred(p.scheduler, key, dueAt))
    case Fired =>
      if p.scheduler.alarm.None? then p else Process(p.scheduler.(alarm := None), p.waiting + 1)
    case Drains(now, turns) =>
      if p.waiting == 0 || |turns| != MAX_DRAINED_JOBS then p
      else Process(DrainOnce(p.scheduler, now, turns).state, p.waiting - 1)
    case Fails(now, turns) =>
      if p.waiting == 0 || |turns| > MAX_DRAINED_JOBS then p
      else
        Process(State(DrainTurns(p.scheduler, now, turns).state.jobs, Some(now + ALARM_FAILURE_RETRY_MS)),
                p.waiting - 1)
    case Restarted(alarmKept) =>
      Process(EnsureArmed(if alarmKept then p.scheduler else p.scheduler.(alarm := None)), 0)
  }

  function After(p: Process, hs: seq<Happening>): Process {
    if hs == [] then p else Next(After(p, hs[..|hs| - 1]), hs[|hs| - 1])
  }

  /** The latest retry time asked for by a failed callback, zero if none failed. */
  function LastRetry(hs: seq<Happening>): nat {
    if hs == [] then 0
    else
      var before, h := LastRetry(hs[..|hs| - 1]), hs[|hs| - 1];
      if h.Fails? && h.now + ALARM_FAILURE_RETRY_MS > before then h.now + ALARM_FAILURE_RETRY_MS else before
  }

  ghost predicate Armed(s: State, retryAt: nat) {
    forall k | k in s.jobs ::
      s.alarm.Some? && (s.alarm.value <= s.jobs[k].dueAt || s.alarm.value <= retryAt)
  }

  /** No job is ever stranded: in every run from an empty table either a fired callback is still to
      run, or the alarm is set, no later than each job is due or than the last retry asked for. */
  lemma {:induction false} NeverStranded(hs: seq<Happening>)
    ensures var p := After(IDLE, hs);
            p.waiting > 0 || Armed(p.scheduler, LastRetry(hs))
  {
    if hs != [] {
      var before, h := hs[..|hs| - 1], hs[|hs| - 1];
      NeverStranded(before);
      var p := After(IDLE, before);
      NextDueAtIsLeast(p.scheduler.jobs);
      NextDueAtIsLeast(Next(p, h).scheduler.jobs);
    }
  }
}
