/** The per-vault mutex made of chained promises, one promise step at a time. */
module VaultLock {
  import opened Wrappers

  type VaultId = string

  /** A caller for a vault; later arrivals carry larger numbers. */
  datatype Caller = Caller(vault: VaultId, n: nat)

  datatype Phase = Waiting | Running | Ended

  /** A caller's part of the chain. `previous` is the tail it found, if any; `hooked` says the
      continuation on that tail has run, which is what creates the caller's own release; `released`
      that the release was called, and `resolved` that the caller's tail has resolved. */
  datatype Ticket = Ticket(previous: Option<Caller>, phase: Phase, hooked: bool, released: bool, resolved: bool)

  datatype State = State(tickets: map<Caller, Ticket>, tails: map<VaultId, Caller>)

  const EMPTY := State(map[], map[])

  datatype Step =
    | Arrive(c: Caller)              // `run` up to its first await
    | Hook(c: Caller)                // the continuation registered on the previous tail
    | Start(c: Caller)               // the await on the previous tail returns and the callback begins
    | End(c: Caller, threw: bool)    // the callback settles, and the `finally` runs
    | Settle(c: Caller)              // the caller's own tail resolves

  predicate PreviousResolved(s: State, t: Ticket) {
    t.previous.None? || (t.previous.value in s.tickets && s.tickets[t.previous.value].resolved)
  }

  /** A continuation registered before an await on the same promise runs before it, so a callback
      starts only once its release exists. */
  predicate Enabled(s: State, step: Step) {
    match step
    case Arrive(c) => forall d | d in s.tickets && d.vault == c.vault :: d.n < c.n
    case Hook(c) => c in s.tickets && !s.tickets[c].hooked && PreviousResolved(s, s.tickets[c])
    case Start(c) => c in s.tickets && s.tickets[c].phase.Waiting? && s.tickets[c].hooked
    case End(c, _) => c in s.tickets && s.tickets[c].phase.Running?
    case Settle(c) => c in s.tickets && s.tickets[c].released && !s.tickets[c].resolved
  }

  function Next(s: State, step: Step): State {
    if !Enabled(s, step) then s
    else
      match step
      case Arrive(c) =>
        State(s.tickets[c := Ticket(Get(s.tails, c.vault), Waiting, false, false, false)], s.tails[c.vault := c])
      case Hook(c) => s.(tickets := s.tickets[c := s.tickets[c].(hooked := true)])
      case Start(c) => s.(tickets := s.tickets[c := s.tickets[c].(phase := Running)])
      case End(c, _) =>
        State(s.tickets[c := s.tickets[c].(phase := Ended, released := s.tickets[c].hooked)],
              if c.vault in s.tails && s.tails[c.vault] == c then s.tails - {c.vault} else s.tails)
      case Settle(c) => s.(tickets := s.tickets[c := s.tickets[c].(resolved := true)])
  }

  function Run(s: State, steps: seq<Step>): State {
    if steps == [] then s else Next(Run(s, steps[..|steps| - 1]), steps[|steps| - 1])
  }

  /** The registry as the object that holds the map of tails. */
  class VaultLockRegistry {
    var tails: map<VaultId, Caller>
    var tickets: map<Caller, Ticket>

    ghost function View(): State
      reads this
    {
      State(tickets, tails)
    }

    constructor ()
      ensures View() == EMPTY
    {
      tails, tickets := map[], map[];
    }

    /** The synchronous part of `run`: chain behind the vault's tail and become it. */
    method Enter(c: Caller)
      requires Enabled(View(), Arrive(c))
      modifies this
      ensures View() == Next(old(View()), Arrive(c))
    {
      var previousTail := Get(tails, c.vault);
      tickets := tickets[c := Ticket(previousTail, Waiting, false, false, false)];
      tails := tails[c.vault := c];
    }

    /** The `finally` block, the same whether the callback returned or threw. */
    method Leave(c: Caller, threw: bool)
      requires Enabled(View(), End(c, threw))
      modifies this
      ensures View() == Next(old(View()), End(c, threw))
    {
      tickets := tickets[c := tickets[c].(phase := Ended, released := tickets[c].hooked)];
      if c.vault in tails && tails[c.vault] == c { tails := tails - {c.vault}; }
    }
  }

  // ---- the invariant ----

  ghost predicate EndedBefore(s: State, c: Caller) {
    forall d | d in s.tickets && d.vault == c.vault && d.n < c.n :: s.tickets[d].phase.Ended?
  }

  ghost predicate TicketOk(s: State, c: Caller)
    requires c in s.tickets
  {
    var t := s.tickets[c];
    // a caller chains behind its immediate predecessor, or behind nobody once all have ended
    && (t.previous.Some? ==>
          var p := t.previous.value;
          p in s.tickets && p.vault == c.vault && p.n < c.n
          && forall d | d in s.tickets && d.vault == c.vault && d.n < c.n :: d.n <= p.n)
    && (t.previous.None? ==> EndedBefore(s, c))
    // the chain advances only through release and resolution
    && (t.hooked ==> PreviousResolved(s, t))
    && (t.released <==> t.phase.Ended?)
    && (t.resolved ==> t.released)
    // whoever has started did so after all before it had ended
    && (!t.phase.Waiting? ==> t.hooked && EndedBefore(s, c))
  }

  /** The tail of a vault is its last caller and has not ended; without a tail all have ended. */
  ghost predicate TailOk(s: State, v: VaultId) {
    if v in s.tails then
      && s.tails[v].vault == v && s.tails[v] in s.tickets && !s.tickets[s.tails[v]].phase.Ended?
      && forall d | d in s.tickets && d.vault == v :: d.n <= s.tails[v].n
    else forall d | d in s.tickets && d.vault == v :: s.tickets[d].phase.Ended?
  }

  ghost predicate Inv(s: State) {
    && (forall c {:trigger TicketOk(s, c)} | c in s.tickets :: TicketOk(s, c))
    && (forall v {:trigger TailOk(s, v)} :: TailOk(s, v))
  }

  /** Only all earlier callers having ended resolves the tail a caller waits for. */
  lemma HookedBehindEnded(s: State, c: Caller)
    requires Inv(s) && c in s.tickets && s.tickets[c].hooked
    ensures EndedBefore(s, c)
  {
    assert TicketOk(s, c);
    if s.tickets[c].previous.Some? {
      assert TicketOk(s, s.tickets[c].previous.value);
    }
  }

  lemma ArriveInv(s: State, c: Caller, s': State)
    requires Inv(s) && Enabled(s, Arrive(c)) && s' == Next(s, Arrive(c))
    ensures Inv(s')
  {
    assert TailOk(s, c.vault);
    forall d | d in s'.tickets ensures TicketOk(s', d) {
      if d != c { assert TicketOk(s, d); }
    }
    forall v ensures TailOk(s', v) {
      assert TailOk(s, v);
    }
  }

  lemma HookInv(s: State, c: Caller, s': State)
    requires Inv(s) && Enabled(s, Hook(c)) && s' == Next(s, Hook(c))
    ensures Inv(s')
  {
    forall d | d in s'.tickets ensures TicketOk(s', d) {
      assert TicketOk(s, d);
    }
    forall v ensures TailOk(s', v) {
      assert TailOk(s, v);
    }
  }

  lemma StartInv(s: State, c: Caller, s': State)
    requires Inv(s) && Enabled(s, Start(c)) && s' == Next(s, Start(c))
    ensures Inv(s')
  {
    HookedBehindEnded(s, c);
    forall d | d in s'.tickets ensures TicketOk(s', d) {
      assert TicketOk(s, d);
    }
    forall v ensures TailOk(s', v) {
      assert TailOk(s, v);
    }
  }

  lemma EndInv(s: State, c: Caller, threw: bool, s': State)
    requires Inv(s) && Enabled(s, End(c, threw)) && s' == Next(s, End(c, threw))
    ensures Inv(s')
  {
    assert TicketOk(s, c);
    forall d | d in s'.tickets ensures TicketOk(s', d) {
      assert TicketOk(s, d);
    }
    forall v ensures TailOk(s', v) {
      assert TailOk(s, v);
    }
  }

  lemma SettleInv(s: State, c: Caller, s': State)
    requires Inv(s) && Enabled(s, Settle(c)) && s' == Next(s, Settle(c))
    ensures Inv(s')
  {
    forall d | d in s'.tickets ensures TicketOk(s', d) {
      assert TicketOk(s, d);
    }
    forall v ensures TailOk(s', v) {
      assert TailOk(s, v);
    }
  }

  lemma NextInv(s: State, step: Step, s': State)
    requires Inv(s) && s' == Next(s, step)
    ensures Inv(s')
  {
    if Enabled(s, step) {
      match step
      case Arrive(c) => ArriveInv(s, c, s');
      case Hook(c) => HookInv(s, c, s');
      case Start(c) => StartInv(s, c, s');
      case End(c, threw) => EndInv(s, c, threw, s');
      case Settle(c) => SettleInv(s, c, s');
    }
  }

  lemma {:induction false} RunInv(steps: seq<Step>)
    ensures Inv(Run(EMPTY, steps))
  {
    if steps != [] {
      RunInv(steps[..|steps| - 1]);
      NextInv(Run(EMPTY, steps[..|steps| - 1]), steps[|steps| - 1], Run(EMPTY, steps));
    }
  }

  // ---- what the lock guarantees ----

  /** At most one callback runs per vault. */
  lemma MutualExclusion(steps: seq<Step>, c: Caller, d: Caller)
    requires var s := Run(EMPTY, steps);
             && c in s.tickets && d in s.tickets && c.vault == d.vault
             && s.tickets[c].phase.Running? && s.tickets[d].phase.Running?
    ensures c == d
  {
    RunInv(steps);
    assert TicketOk(Run(EMPTY, steps), c) && TicketOk(Run(EMPTY, steps), d);
  }

  /** Callbacks start in the order of arrival, each after every earlier one has returned or thrown. */
  lemma FirstComeFirstServed(steps: seq<Step>, c: Caller, d: Caller)
    requires var s := Run(EMPTY, steps);
             && c in s.tickets && d in s.tickets && c.vault == d.vault && c.n < d.n
             && !s.tickets[d].phase.Waiting?
    ensures Run(EMPTY, steps).tickets[c].phase.Ended?
  {
    RunInv(steps);
    assert TicketOk(Run(EMPTY, steps), d);
  }

  /** The map of tails holds a vault exactly while one of its callers is queued or running. */
  lemma TailsAreBusyVaults(steps: seq<Step>, v: VaultId)
    ensures var s := Run(EMPTY, steps);
            v in s.tails <==> exists c :: c in s.tickets && c.vault == v && !s.tickets[c].phase.Ended?
  {
    RunInv(steps);
    var s := Run(EMPTY, steps);
    assert TailOk(s, v);
    if v in s.tails {
      assert s.tails[v] in s.tickets && !s.tickets[s.tails[v]].phase.Ended?;
    }
  }

  /** The first caller of a vault that has not ended. */
  lemma {:induction false} FirstUnended(s: State, c: Caller) returns (first: Caller)
    requires Inv(s) && c in s.tickets && !s.tickets[c].phase.Ended?
    ensures first in s.tickets && first.vault == c.vault && first.n <= c.n
    ensures !s.tickets[first].phase.Ended? && EndedBefore(s, first)
    decreases c.n
  {
    if d :| d in s.tickets && d.vault == c.vault && d.n < c.n && !s.tickets[d].phase.Ended? {
      first := FirstUnended(s, d);
    } else {
      first := c;
    }
  }

  /** No deadlock: while a caller waits, either a callback of its vault is running, or some promise
      step of its vault can be taken. */
  lemma Progress(steps: seq<Step>, c: Caller)
    requires c in Run(EMPTY, steps).tickets && Run(EMPTY, steps).tickets[c].phase.Waiting?
    ensures var s := Run(EMPTY, steps);
            || (exists d :: d in s.tickets && d.vault == c.vault && s.tickets[d].phase.Running?)
            || (exists d: Caller ::
                  d.vault == c.vault && (Enabled(s, Hook(d)) || Enabled(s, Start(d)) || Enabled(s, Settle(d))))
  {
    RunInv(steps);
    var s := Run(EMPTY, steps);
    var first := FirstUnended(s, c);
    var t := s.tickets[first];
    assert TicketOk(s, first);
    if t.phase.Waiting? {
      if t.hooked {
        assert Enabled(s, Start(first));
      } else if PreviousResolved(s, t) {
        assert Enabled(s, Hook(first));
      } else {
        assert TicketOk(s, t.previous.value);
        assert Enabled(s, Settle(t.previous.value));
      }
    }
  }

  // ---- vaults are independent ----

  function VaultOf(step: Step): VaultId {
    step.c.vault
  }

  /** What the registry knows about one vault. */
  function Project(s: State, v: VaultId): State {
    State(TicketsOf(s.tickets, v), TailsOf(s.tails, v))
  }

  function OnlyVault(steps: seq<Step>, v: VaultId): seq<Step> {
    if steps == [] then []
    else
      var front := OnlyVault(steps[..|steps| - 1], v);
      if VaultOf(steps[|steps| - 1]) == v then front + [steps[|steps| - 1]] else front
  }

  /** A caller's predecessor belongs to its own vault. */
  ghost predicate Closed(s: State) {
    && (forall c | c in s.tickets && s.tickets[c].previous.Some? :: s.tickets[c].previous.value.vault == c.vault)
    && (forall v | v in s.tails :: s.tails[v].vault == v)
  }

  function TicketsOf(tickets: map<Caller, Ticket>, v: VaultId): map<Caller, Ticket> {
    map c | c in tickets && c.vault == v :: tickets[c]
  }

  function TailsOf(tails: map<VaultId, Caller>, v: VaultId): map<VaultId, Caller> {
    map u | u in tails && u == v :: tails[u]
  }

  lemma UpdateTicket(tickets: map<Caller, Ticket>, c: Caller, t: Ticket, v: VaultId)
    ensures TicketsOf(tickets[c := t], v) == if c.vault == v then TicketsOf(tickets, v)[c := t]
        else TicketsOf(tickets, v)
  {
  }

  lemma UpdateTails(tails: map<VaultId, Caller>, u: VaultId, c: Caller, v: VaultId)
    ensures TailsOf(tails[u := c], v) == if u == v then TailsOf(tails, v)[u := c] else TailsOf(tails, v)
    ensures TailsOf(tails - {u}, v) == if u == v then TailsOf(tails, v) - {u} else TailsOf(tails, v)
  {
  }

  lemma EnabledByOwnVault(s: State, step: Step)
    requires Closed(s)
    ensures Enabled(Project(s, VaultOf(step)), step) == Enabled(s, step)
  {
    var p := Project(s, VaultOf(step));
    assert forall d :: d in p.tickets <==> d in s.tickets && d.vault == VaultOf(step);
  }

  lemma StepOfOneVault(s: State, step: Step, v: VaultId, s': State)
    requires Closed(s) && s' == Next(s, step)
    ensures Project(s', v) == if VaultOf(step) == v then Next(Project(s, v), step) else Project(s, v)
  {
    EnabledByOwnVault(s, step);
    if Enabled(s, step) {
      UpdateTicket(s.tickets, step.c, s'.tickets[step.c], v);
      UpdateTails(s.tails, step.c.vault, step.c, v);
    }
  }

  lemma InvClosed(s: State)
    requires Inv(s)
    ensures Closed(s)
  {
    forall c | c in s.tickets && s.tickets[c].previous.Some? ensures s.tickets[c].previous.value.vault == c.vault {
      assert TicketOk(s, c);
    }
    forall v | v in s.tails ensures s.tails[v].vault == v {
      assert TailOk(s, v);
    }
  }

  /** Different vaults never wait for each other: what happens at one vault is what its own steps do,
      in any interleaving with the steps of the others. */
  lemma {:induction false} VaultsIndependent(steps: seq<Step>, v: VaultId)
    ensures Project(Run(EMPTY, steps), v) == Run(EMPTY, OnlyVault(steps, v))
  {
    if steps == [] {
      assert Project(EMPTY, v) == EMPTY;
    } else {
      var front, last := steps[..|steps| - 1], steps[|steps| - 1];
      VaultsIndependent(front, v);
      RunInv(front);
      InvClosed(Run(EMPTY, front));
      StepOfOneVault(Run(EMPTY, front), last, v, Run(EMPTY, steps));
      assert (OnlyVault(front, v) + [last])[..|OnlyVault(front, v)|] == OnlyVault(front, v);
    }
  }
}
