/** The sharing outbox: changes queue a refresh of the vault's coordinator, and any number of
    flushers deliver it, overlapping, failing and dying as they please. */
module Outbox {
  import opened Wrappers

  // ---- one flusher over the table ----

  type VaultId = string
  type Revision = nat  // drawn from an endless supply, like the random ids of the program

  datatype Task = Task(vaultId: VaultId, revision: Revision)

  /** What happens while one task is delivered: the refresh and the completion may each fail, and
      other requests may queue further changes while the flusher waits. */
  datatype Attempt = Attempt(refreshed: bool, queuedMeanwhile: seq<VaultId>, finished: bool)

  datatype Table = Table(rows: map<VaultId, Revision>, next: Revision)

  function QueueRefresh(t: Table, v: VaultId): Table {
    Table(t.rows[v := t.next], t.next + 1)
  }

  function QueueAll(t: Table, vs: seq<VaultId>): Table {
    if vs == [] then t else QueueRefresh(QueueAll(t, vs[..|vs| - 1]), vs[|vs| - 1])
  }

  /** Deletes the row only while it still carries the revision that was delivered. */
  function FinishRefresh(t: Table, task: Task): Table {
    if task.vaultId in t.rows && t.rows[task.vaultId] == task.revision then t.(rows := t.rows - {task.vaultId}) else t
  }

  function Deliver(t: Table, task: Task, a: Attempt): Table {
    var t' := QueueAll(t, a.queuedMeanwhile);
    if a.refreshed && a.finished then FinishRefresh(t', task) else t'
  }

  function DeliverAll(t: Table, tasks: seq<Task>, attempts: seq<Attempt>): Table
    requires |tasks| <= |attempts|
  {
    if tasks == [] then t
    else
      var n := |tasks| - 1;
      Deliver(DeliverAll(t, tasks[..n], attempts), tasks[n], attempts[n])
  }

  predicate AllDelivered(attempts: seq<Attempt>, n: nat)
    requires n <= |attempts|
  {
    forall i | 0 <= i < n :: attempts[i].refreshed && attempts[i].finished
  }

  class SharingOutbox {
    var rows: map<VaultId, Revision>
    var next: Revision

    ghost function View(): Table
      reads this
    {
      Table(rows, next)
    }

    constructor ()
      ensures View() == Table(map[], 0)
    {
      rows, next := map[], 0;
    }

    method Queue(v: VaultId)
      modifies this
      ensures View() == QueueRefresh(old(View()), v)
    {
      rows := rows[v := next];
      next := next + 1;
    }

    method Finish(task: Task)
      modifies this`rows
      ensures View() == FinishRefresh(old(View()), task)
    {
      if task.vaultId in rows && rows[task.vaultId] == task.revision { rows := rows - {task.vaultId}; }
    }

    /** The delivery loop. A failed task leaves its row for a later flush. */
    method Flush(tasks: seq<Task>, attempts: seq<Attempt>) returns (complete: bool)
      requires |tasks| <= |attempts|
      modifies this
      ensures View() == DeliverAll(old(View()), tasks, attempts)
      ensures complete <==> AllDelivered(attempts, |tasks|)
    {
      ghost var start := View();
      complete := true;
      for i := 0 to |tasks|
        invariant View() == DeliverAll(start, tasks[..i], attempts)
        invariant complete <==> AllDelivered(attempts, i)
      {
        assert tasks[..i + 1][..i] == tasks[..i];
        QueueEach(attempts[i].queuedMeanwhile);
        if attempts[i].refreshed && attempts[i].finished {
          Finish(tasks[i]);
        } else {
          complete := false;
        }
      }
      assert tasks[..|tasks|] == tasks;
    }

    method QueueEach(vs: seq<VaultId>)
      modifies this
      ensures View() == QueueAll(old(View()), vs)
    {
      ghost var start := View();
      for i := 0 to |vs|
        invariant View() == QueueAll(start, vs[..i])
      {
        assert vs[..i + 1][..i] == vs[..i];
        Queue(vs[i]);
      }
      assert vs[..|vs|] == vs;
    }
  }

  /** The tasks a flush reads: rows of the table, one per vault. */
  ghost predicate ReadFrom(t: Table, tasks: seq<Task>) {
    && (forall v | v in t.rows :: t.rows[v] < t.next)
    && (forall i | 0 <= i < |tasks| :: tasks[i].vaultId in t.rows && t.rows[tasks[i].vaultId] == tasks[i].revision)
    && (forall i, j | 0 <= i < j < |tasks| :: tasks[i].vaultId != tasks[j].vaultId)
  }

  ghost predicate Requeued(attempts: seq<Attempt>, n: nat, v: VaultId)
    requires n <= |attempts|
  {
    exists j | 0 <= j < n :: v in attempts[j].queuedMeanwhile
  }

  lemma {:induction false} QueueAllRows(t: Table, vs: seq<VaultId>, v: VaultId)
    ensures QueueAll(t, vs).next >= t.next
    ensures v in vs ==> v in QueueAll(t, vs).rows && QueueAll(t, vs).rows[v] >= t.next
    ensures v !in vs ==> (v in QueueAll(t, vs).rows <==> v in t.rows)
                         && (v in t.rows ==> QueueAll(t, vs).rows[v] == t.rows[v])
  {
    if vs != [] {
      QueueAllRows(t, vs[..|vs| - 1], v);
      assert v in vs <==> v in vs[..|vs| - 1] || v == vs[|vs| - 1];
    }
  }

  lemma {:induction false} RowAfter(t: Table, tasks: seq<Task>, attempts: seq<Attempt>, i: nat, n: nat)
    requires ReadFrom(t, tasks) && i < |tasks| && n <= |tasks| <= |attempts|
    ensures var v, t' := tasks[i].vaultId, DeliverAll(t, tasks[..n], attempts);
            && t'.next >= t.next
            && (Requeued(attempts, n, v) ==> v in t'.rows && t'.rows[v] >= t.next)
            && (!Requeued(attempts, n, v) ==>
                  if i < n && attempts[i].refreshed && attempts[i].finished then v !in t'.rows
                  else v in t'.rows && t'.rows[v] == tasks[i].revision)
    decreases n
  {
    if n > 0 {
      var v := tasks[i].vaultId;
      RowAfter(t, tasks, attempts, i, n - 1);
      assert tasks[..n][..n - 1] == tasks[..n - 1];
      var before := DeliverAll(t, tasks[..n - 1], attempts);
      QueueAllRows(before, attempts[n - 1].queuedMeanwhile, v);
      assert Requeued(attempts, n, v) <==> Requeued(attempts, n - 1, v) || v in attempts[n - 1].queuedMeanwhile;
    }
  }

  /** After a flush a task's row is gone exactly when its own delivery succeeded and nothing queued
      the vault again while the flush ran: a newer change survives an older one's completion. */
  lemma RowGoneIffDelivered(t: Table, tasks: seq<Task>, attempts: seq<Attempt>, i: nat)
    requires ReadFrom(t, tasks) && i < |tasks| <= |attempts|
    ensures tasks[i].vaultId !in DeliverAll(t, tasks, attempts).rows <==>
              attempts[i].refreshed && attempts[i].finished && !Requeued(attempts, |tasks|, tasks[i].vaultId)
  {
    RowAfter(t, tasks, attempts, i, |tasks|);
    assert tasks[..|tasks|] == tasks;
  }

  // ---- every interleaving, seen from one vault ----

  /** A delivery in progress: the row was read, the coordinator was called, the call returned. */
  datatype Phase = Taken | Calling | Returned
  datatype Delivery = Delivery(revision: Revision, phase: Phase)

  /** One vault: `change` counts the changes queued for it, `row` is its outbox row, `applied` the
      change whose snapshot the coordinator holds. `calls` is the coordinator's chain of refreshes,
      one at a time, and `read` the snapshot the first of them has read. */
  datatype State = State(
    change: nat, row: Option<Revision>, next: Revision,
    deliveries: map<nat, Delivery>, calls: seq<nat>, read: Option<nat>, applied: nat, presence: Presence)

  /** A vault marked deleted cannot be read for a refresh; an erased one has no row and gets none. */
  datatype Presence = There | Deleted | Erased

  const INITIAL := State(0, None, 0, map[], [], None, 0, There)

  datatype Step =
    | Change                    // a batch that changes the sharing state and queues a refresh for it
    | Take(id: nat)             // some flusher reads the row
    | Call(id: nat)             // and calls the coordinator, whose refresh joins the chain
    | ReadSnapshot              // the first refresh of the chain reads the sharing state
    | ApplySnapshot             // and applies it; its caller goes on
    | FailRefresh               // or fails anywhere, so that its caller gives the task up
    | Finish(id: nat)           // the flusher deletes the row if the revision still matches
    | Abandon(id: nat)          // or fails to, or dies
    | DropVault                 // the vault is marked deleted
    | ReturnVault               // and taken back, if its purge cannot be queued
    | EraseVault                // or erased, and the row with it

  function Next(s: State, step: Step): State {
    match step
    case Change =>
      if s.presence.Erased? then s else s.(change := s.change + 1, row := Some(s.next), next := s.next + 1)
    case Take(id) =>
      if s.row.None? || id in s.deliveries || id in s.calls then s
      else s.(deliveries := s.deliveries[id := Delivery(s.row.value, Taken)])
    case Call(id) =>
      if id !in s.deliveries || !s.deliveries[id].phase.Taken? then s
      else s.(deliveries := s.deliveries[id := s.deliveries[id].(phase := Calling)], calls := s.calls + [id])
    case ReadSnapshot =>
      if s.calls == [] || s.read.Some? || !s.presence.There? then s else s.(read := Some(s.change))
    case ApplySnapshot =>
      if s.calls == [] || s.read.None? then s
      else
        var id := s.calls[0];
        s.(applied := s.read.value, read := None, calls := s.calls[1..],
           deliveries := if id in s.deliveries then s.deliveries[id := s.deliveries[id].(phase := Returned)]
                         else s.deliveries)
    case FailRefresh =>
      if s.calls == [] then s
      else s.(read := None, calls := s.calls[1..], deliveries := s.deliveries - {s.calls[0]})
    case Finish(id) =>
      if id !in s.deliveries || !s.deliveries[id].phase.Returned? then s
      else
        s.(row := if s.row == Some(s.deliveries[id].revision) then None else s.row,
           deliveries := s.deliveries - {id})
    case Abandon(id) => s.(deliveries := s.deliveries - {id})
    case DropVault => if s.presence.There? then s.(presence := Deleted) else s
    case ReturnVault => if s.presence.Deleted? then s.(presence := There) else s
    case EraseVault => s.(presence := Erased, row := None)
  }

  function Run(s: State, steps: seq<Step>): State {
    if steps == [] then s else Next(Run(s, steps[..|steps| - 1]), steps[|steps| - 1])
  }

  /** What the row, the snapshot in flight and the returned calls say about each other. */
  ghost predicate Inv(s: State) {
    && s.applied <= s.change
    && (s.row.Some? ==> s.row.value < s.next)
    && (s.row.None? && !s.presence.Erased? ==> s.applied == s.change) && (s.presence.Erased? ==> s.row.None?)
    && (s.read.Some? ==> s.calls != [] && s.applied <= s.read.value <= s.change)
    && (forall i, j | 0 <= i < j < |s.calls| :: s.calls[i] != s.calls[j])
    && (forall id | id in s.deliveries :: s.deliveries[id].revision < s.next)
    && (forall id | id in s.deliveries :: s.deliveries[id].phase.Taken? ==> id !in s.calls)
    && (forall id | id in s.deliveries && s.deliveries[id].phase.Returned? ::
          id !in s.calls && (s.row == Some(s.deliveries[id].revision) ==> s.applied == s.change))
    && (s.read.Some? && s.calls[0] in s.deliveries && s.row == Some(s.deliveries[s.calls[0]].revision) ==>
          s.read.value == s.change)
  }

  lemma ChangeInv(s: State, s': State)
    requires Inv(s) && s' == Next(s, Change)
    ensures Inv(s')
  {
  }

  lemma TakeInv(s: State, id: nat, s': State)
    requires Inv(s) && s' == Next(s, Take(id))
    ensures Inv(s')
  {
  }

  lemma CallInv(s: State, id: nat, s': State)
    requires Inv(s) && s' == Next(s, Call(id))
    ensures Inv(s')
  {
    assert s'.calls == s.calls || s'.calls == s.calls + [id];
  }

  lemma ReadInv(s: State, s': State)
    requires Inv(s) && s' == Next(s, ReadSnapshot)
    ensures Inv(s')
  {
  }

  lemma ApplyInv(s: State, s': State)
    requires Inv(s) && s' == Next(s, ApplySnapshot)
    ensures Inv(s') && s.applied <= s'.applied
  {
  }

  lemma FailInv(s: State, s': State)
    requires Inv(s) && s' == Next(s, FailRefresh)
    ensures Inv(s')
  {
  }

  lemma FinishInv(s: State, id: nat, s': State)
    requires Inv(s) && (s' == Next(s, Finish(id)) || s' == Next(s, Abandon(id)))
    ensures Inv(s')
  {
  }

  lemma PresenceInv(s: State, step: Step, s': State)
    requires Inv(s) && (step.DropVault? || step.ReturnVault? || step.EraseVault?) && s' == Next(s, step)
    ensures Inv(s')
  {
  }

  lemma NextInv(s: State, step: Step)
    requires Inv(s)
    ensures Inv(Next(s, step)) && s.applied <= Next(s, step).applied
  {
    match step
    case Change => ChangeInv(s, Next(s, step));
    case Take(id) => TakeInv(s, id, Next(s, step));
    case Call(id) => CallInv(s, id, Next(s, step));
    case ReadSnapshot => ReadInv(s, Next(s, step));
    case ApplySnapshot => ApplyInv(s, Next(s, step));
    case FailRefresh => FailInv(s, Next(s, step));
    case Finish(id) => FinishInv(s, id, Next(s, step));
    case Abandon(id) => FinishInv(s, id, Next(s, step));
    case _ => PresenceInv(s, step, Next(s, step));
  }

  lemma {:induction false} RunInv(s: State, steps: seq<Step>)
    requires Inv(s)
    ensures Inv(Run(s, steps)) && s.applied <= Run(s, steps).applied
  {
    if steps != [] {
      RunInv(s, steps[..|steps| - 1]);
      NextInv(Run(s, steps[..|steps| - 1]), steps[|steps| - 1]);
    }
  }

  /** At least once: whenever a vault not erased has no outbox row, the coordinator has applied a
      snapshot that includes the last queued change. */
  lemma DeliveredAtLeastOnce(steps: seq<Step>)
    ensures var s := Run(INITIAL, steps);
            s.row.None? && !s.presence.Erased? ==> s.applied == s.change
  {
    RunInv(INITIAL, steps);
  }

  /** Serialised refreshes never put an older snapshot in place of a newer one. */
  lemma SnapshotsNeverGoBack(steps: seq<Step>, more: seq<Step>)
    ensures Run(INITIAL, steps).applied <= Run(Run(INITIAL, steps), more).applied
  {
    RunInv(INITIAL, steps);
    RunInv(Run(INITIAL, steps), more);
  }

  lemma {:induction false} RunTwice(s: State, a: seq<Step>, b: seq<Step>)
    ensures Run(s, a + b) == Run(Run(s, a), b)
  {
    if b == [] {
      assert a + b == a;
    } else {
      RunTwice(s, a, b[..|b| - 1]);
      assert (a + b)[..|a + b| - 1] == a + b[..|b| - 1];
    }
  }

  lemma RunOne(s: State, step: Step)
    ensures Run(s, [step]) == Next(s, step)
  {
    assert [step][..0] == [];
  }

  // ---- whether delivery is still possible ----

  /** What flushers and the coordinator do, as opposed to the callers that change the vault. */
  predicate IsDelivery(step: Step) {
    step.Take? || step.Call? || step.ReadSnapshot? || step.ApplySnapshot? || step.FailRefresh? || step.Finish?
    || step.Abandon?
  }

  predicate OnlyDelivery(steps: seq<Step>) {
    forall i | 0 <= i < |steps| :: IsDelivery(steps[i])
  }

  /** Some course of deliveries, with nothing else happening, empties the outbox. */
  ghost predicate CanEmpty(s: State) {
    exists steps :: OnlyDelivery(steps) && Run(s, steps).row.None?
  }

  /** A delivery of the row as it is has come back, or is at the head of the chain with its snapshot
      already read. */
  ghost predicate UnderWay(s: State) {
    && s.row.Some?
    && ((exists id :: id in s.deliveries && s.deliveries[id] == Delivery(s.row.value, Returned))
        || (s.read.Some? && s.calls != [] && s.calls[0] in s.deliveries
            && s.deliveries[s.calls[0]].revision == s.row.value))
  }

  lemma StuckStays(s: State, step: Step, s': State)
    requires Inv(s) && IsDelivery(step) && s' == Next(s, step)
    requires s.row.Some? && !s.presence.There? && !UnderWay(s)
    ensures s'.row == s.row && s'.presence == s.presence && !UnderWay(s')
  {
  }

  lemma {:induction false} StuckForever(s: State, steps: seq<Step>)
    requires Inv(s) && OnlyDelivery(steps) && s.row.Some? && !s.presence.There? && !UnderWay(s)
    ensures var s' := Run(s, steps);
            s'.row == s.row && !s'.presence.There? && !UnderWay(s')
  {
    if steps != [] {
      var before := steps[..|steps| - 1];
      StuckForever(s, before);
      RunInv(s, before);
      StuckStays(Run(s, before), steps[|steps| - 1], Run(s, steps));
    }
  }

  /** The refreshes already waiting can always be worked off. */
  lemma {:induction false} ChainEmpties(s: State) returns (steps: seq<Step>)
    requires Inv(s)
    ensures OnlyDelivery(steps)
    ensures var s' := Run(s, steps);
            Inv(s') && s'.calls == [] && s'.row == s.row && s'.presence == s.presence
    decreases |s.calls|
  {
    if s.calls == [] {
      steps := [];
    } else {
      NextInv(s, FailRefresh);
      var rest := ChainEmpties(Next(s, FailRefresh));
      RunOne(s, FailRefresh);
      RunTwice(s, [FailRefresh], rest);
      steps := [FailRefresh] + rest;
    }
  }

  lemma RunThree(s: State, a: Step, b: Step, c: Step)
    ensures Run(s, [a, b, c]) == Next(Next(Next(s, a), b), c)
  {
    RunOne(s, a);
    assert [a, b][..1] == [a] && [a, b, c][..2] == [a, b];
    assert Run(s, [a, b]) == Next(Run(s, [a]), b);
  }

  lemma TakeAndCall(s: State)
    requires s.calls == [] && s.row.Some?
    ensures Next(Next(Next(s, Abandon(0)), Take(0)), Call(0))
            == s.(deliveries := s.deliveries[0 := Delivery(s.row.value, Calling)], calls := [0])
  {
    var taken := Next(Next(s, Abandon(0)), Take(0));
    assert taken.deliveries == s.deliveries[0 := Delivery(s.row.value, Taken)];
  }

  lemma OneDelivery(s: State) returns (steps: seq<Step>)
    requires Inv(s) && s.calls == [] && s.row.Some? && s.presence.There?
    ensures OnlyDelivery(steps) && Run(s, steps).row.None?
  {
    var called := s.(deliveries := s.deliveries[0 := Delivery(s.row.value, Calling)], calls := [0]);
    TakeAndCall(s);
    RunThree(s, Abandon(0), Take(0), Call(0));
    RunThree(called, ReadSnapshot, ApplySnapshot, Finish(0));
    RunTwice(s, [Abandon(0), Take(0), Call(0)], [ReadSnapshot, ApplySnapshot, Finish(0)]);
    steps := [Abandon(0), Take(0), Call(0)] + [ReadSnapshot, ApplySnapshot, Finish(0)];
  }

  lemma UnderWayEmpties(s: State)
    requires Inv(s) && UnderWay(s)
    ensures CanEmpty(s)
  {
    if id :| id in s.deliveries && s.deliveries[id] == Delivery(s.row.value, Returned) {
      RunOne(s, Finish(id));
      assert OnlyDelivery([Finish(id)]);
    } else {
      var id := s.calls[0];
      RunOne(s, ApplySnapshot);
      assert [ApplySnapshot, Finish(id)][..1] == [ApplySnapshot];
      assert Run(s, [ApplySnapshot, Finish(id)]) == Next(Next(s, ApplySnapshot), Finish(id));
      assert OnlyDelivery([ApplySnapshot, Finish(id)]);
    }
  }

  /** In every reachable state the outbox can still be emptied by deliveries alone if and only if it is
      empty, or the vault is still there, or a delivery of the row as it is has at least its snapshot. */
  lemma CanDeliverIff(steps: seq<Step>)
    ensures var s := Run(INITIAL, steps);
            CanEmpty(s) <==> s.row.None? || s.presence.There? || UnderWay(s)
  {
    RunInv(INITIAL, steps);
    var s := Run(INITIAL, steps);
    if s.row.None? {
      assert OnlyDelivery([]) && Run(s, []) == s;
    } else if UnderWay(s) {
      UnderWayEmpties(s);
    } else if s.presence.There? {
      var chain := ChainEmpties(s);
      var delivery := OneDelivery(Run(s, chain));
      RunTwice(s, chain, delivery);
      assert OnlyDelivery(chain + delivery);
    } else {
      forall more | OnlyDelivery(more) ensures Run(s, more).row.Some? {
        StuckForever(s, more);
      }
    }
  }

  /** A change queued for a vault marked deleted, as a removal queues one for every vault of the
      organization, stays in the outbox until the vault is taken back or erased. */
  lemma DeletedVaultStuck(more: seq<Step>)
    requires OnlyDelivery(more)
    ensures Run(Run(INITIAL, [DropVault, Change]), more).row.Some?
  {
    assert [DropVault, Change][..1] == [DropVault];
    RunOne(INITIAL, DropVault);
    var s := Run(INITIAL, [DropVault, Change]);
    RunInv(INITIAL, [DropVault, Change]);
    assert s.deliveries == map[] && s.read.None?;
    StuckForever(s, more);
  }
}
