/** From a removal to the refusal of its tokens: enrolment, the outbox of one vault, and the
    coordinator's records together, with all their steps interleaved. */
module Revocation {
  import opened Wrappers
  import E = Enrollment
  import O = Outbox
  import S = SyncAccess

  /** `snapshot` is what the first refresh of the coordinator's chain has read, if it has. */
  datatype State = State(sharing: E.State, delivery: O.State, snapshot: Option<S.Snapshot>, vault: S.State)

  datatype Step =
    | Share(step: E.Step)                               // a removal queues a refresh in its batch
    | Queue                                             // so does a plan change, a joining, a completion
    | Take(id: nat)
    | Call(id: nat)
    | Read(suspended: bool)                             // the access versions as they are, in one read
    | Apply(failsAt: Option<nat>, outcome: S.Outcome)   // which may fail at any write
    | Fail
    | Finish(id: nat)
    | Abandon(id: nat)
    | Open(connection: string, session: S.Session, loaded: bool)
    | Check(loaded: bool)

  datatype Event = Event(delay: nat, step: Step)

  /** The access versions of one vault's places, one grant a user. */
  ghost function AccessVersions(grants: E.Grants, vault: E.VaultId): seq<S.Grant>
    decreases grants.Keys
  {
    if grants == map[] then []
    else
      var k :| k in grants;
      AccessVersions(grants - {k}, vault) + if k.vault == vault then [S.Grant(k.user, grants[k].accessVersion)] else []
  }

  function At(s: State, now: nat): State {
    s.(vault := s.vault.(clock := now))
  }

  function Deliver(s: State, step: O.Step): State {
    s.(delivery := O.Next(s.delivery, step))
  }

  /** What a step of the sharing store means for this vault's outbox row. */
  function Told(sharing: E.State, vaultId: E.VaultId, step: E.Step): Option<O.Step> {
    if step.Remove? then Some(O.Change)
    else if vaultId !in sharing.vaults then None
    else if step == E.DropVault(vaultId) then Some(O.DropVault)
    else if step == E.ReturnVault(vaultId) then Some(O.ReturnVault)
    else if step == E.Erase(vaultId) then Some(O.EraseVault)
    else None
  }

  ghost function Do(s: State, vaultId: E.VaultId, lifetime: nat, now: nat, step: Step): State {
    match step
    case Share(st) =>
      var told := Told(s.sharing, vaultId, st);
      var s := At(s, now).(sharing := E.Next(s.sharing, st));
      if told.Some? then Deliver(s, told.value) else s
    case Queue => Deliver(At(s, now), O.Change)
    case Take(id) => Deliver(At(s, now), O.Take(id))
    case Call(id) => Deliver(At(s, now), O.Call(id))
    case Read(suspended) =>
      if s.delivery.calls == [] || s.delivery.read.Some? || !s.delivery.presence.There? then At(s, now)
      else
        Deliver(At(s, now), O.ReadSnapshot)
          .(snapshot := Some(S.Snapshot(suspended, AccessVersions(s.sharing.grants, vaultId))))
    case Apply(failsAt, o) =>
      if s.snapshot.None? then At(s, now)
      else
        var vault := S.Act(s.vault, now, lifetime, S.Apply(s.snapshot, failsAt, o));
        Deliver(s, if vault.clean then O.ApplySnapshot else O.FailRefresh).(vault := vault, snapshot := None)
    case Fail => if s.delivery.calls == [] then At(s, now) else Deliver(At(s, now), O.FailRefresh).(snapshot := None)
    case Finish(id) => Deliver(At(s, now), O.Finish(id))
    case Abandon(id) => Deliver(At(s, now), O.Abandon(id))
    case Open(id, session, loaded) => s.(vault := S.Act(s.vault, now, lifetime, S.Open(id, session, loaded)))
    case Check(loaded) => s.(vault := S.Act(s.vault, now, lifetime, S.Check(loaded)))
  }

  function TimeOf(s: State, ev: Event): nat {
    s.vault.clock + ev.delay
  }

  ghost function Run(s: State, vaultId: E.VaultId, lifetime: nat, evs: seq<Event>): State {
    if evs == [] then s
    else
      var before, last := Run(s, vaultId, lifetime, evs[..|evs| - 1]), evs[|evs| - 1];
      Do(before, vaultId, lifetime, TimeOf(before, last), last.step)
  }

  // ---- snapshots ----

  /** The snapshot has one grant a user, and the user's demands at least `minimum`. */
  ghost predicate Demands(snapshot: S.Snapshot, user: E.UserId, minimum: nat) {
    && S.UsersDistinct(snapshot.grants)
    && exists i :: 0 <= i < |snapshot.grants| && snapshot.grants[i].userId == user
                   && snapshot.grants[i].accessVersion >= minimum
  }

  lemma {:induction false} VersionsFrom(grants: E.Grants, vault: E.VaultId, i: nat)
    requires i < |AccessVersions(grants, vault)|
    ensures var g, k := AccessVersions(grants, vault)[i], E.Slot(vault, AccessVersions(grants, vault)[i].userId);
            k in grants && g.accessVersion == grants[k].accessVersion
    decreases grants.Keys
  {
    var k :| k in grants && AccessVersions(grants, vault)
      == AccessVersions(grants - {k}, vault) + if k.vault == vault then [S.Grant(k.user, grants[k].accessVersion)]
          else [];
    var rest := AccessVersions(grants - {k}, vault);
    if i < |rest| {
      VersionsFrom(grants - {k}, vault, i);
      assert AccessVersions(grants, vault)[i] == rest[i];
    } else {
      assert k == E.Slot(vault, k.user) && AccessVersions(grants, vault)[i] == S.Grant(k.user, grants[k].accessVersion);
    }
  }

  lemma {:induction false} VersionsDistinct(grants: E.Grants, vault: E.VaultId)
    ensures S.UsersDistinct(AccessVersions(grants, vault))
    decreases grants.Keys
  {
    if grants != map[] {
      var k :| k in grants && AccessVersions(grants, vault)
        == AccessVersions(grants - {k}, vault) + if k.vault == vault then [S.Grant(k.user, grants[k].accessVersion)]
            else [];
      VersionsDistinct(grants - {k}, vault);
      forall i | 0 <= i < |AccessVersions(grants - {k}, vault)|
        ensures k.vault == vault ==> AccessVersions(grants - {k}, vault)[i].userId != k.user
      {
        VersionsFrom(grants - {k}, vault, i);
      }
    }
  }

  lemma {:induction false} VersionsComplete(grants: E.Grants, slot: E.Slot)
    requires slot in grants
    ensures exists i :: 0 <= i < |AccessVersions(grants, slot.vault)|
                        && AccessVersions(grants, slot.vault)[i] == S.Grant(slot.user, grants[slot].accessVersion)
    decreases grants.Keys
  {
    var vault := slot.vault;
    var k :| k in grants && AccessVersions(grants, vault)
      == AccessVersions(grants - {k}, vault) + if k.vault == vault then [S.Grant(k.user, grants[k].accessVersion)]
          else [];
    var rest := AccessVersions(grants - {k}, vault);
    if k == slot {
      assert AccessVersions(grants, vault)[|rest|] == S.Grant(slot.user, grants[slot].accessVersion);
    } else {
      VersionsComplete(grants - {k}, slot);
      var i :| 0 <= i < |rest| && rest[i] == S.Grant(slot.user, grants[slot].accessVersion);
      assert AccessVersions(grants, vault)[i] == rest[i];
    }
  }

  lemma SnapshotDemands(grants: E.Grants, slot: E.Slot, minimum: nat, suspended: bool)
    requires slot in grants && grants[slot].accessVersion >= minimum
    ensures Demands(S.Snapshot(suspended, AccessVersions(grants, slot.vault)), slot.user, minimum)
  {
    VersionsDistinct(grants, slot.vault);
    VersionsComplete(grants, slot);
  }

  // ---- the invariants ----

  ghost predicate Good(s: State, vaultId: E.VaultId) {
    && E.Inv(s.sharing) && (vaultId in s.sharing.erased <==> s.delivery.presence.Erased?)
    && O.Inv(s.delivery) && (s.snapshot.Some? <==> s.delivery.read.Some?)
  }

  /** No place, no outbox row, nothing read; the coordinator may hold any records. */
  ghost predicate Initial(s: State) {
    E.Founded(s.sharing) && s.delivery == O.INITIAL && s.snapshot.None?
  }

  /** Since the removal that queued change `n` at time `at`, and raised the place's version to
      `minimum`: later snapshots demand it, and once one is applied the records block older tokens. */
  ghost predicate Removed(s: State, slot: E.Slot, minimum: nat, n: nat, until: nat) {
    && slot in s.sharing.grants && s.sharing.grants[slot].accessVersion >= minimum
    && s.delivery.change >= n
    && (s.delivery.read.Some? && s.delivery.read.value >= n && s.snapshot.Some? ==>
          Demands(s.snapshot.value, slot.user, minimum))
    && (s.delivery.applied >= n && s.vault.clock < until ==> S.Blocks(s.vault.records, slot.user, minimum, until))
  }

  lemma DeliveryGood(s: State, vaultId: E.VaultId, step: O.Step, s': State)
    requires Good(s, vaultId) && s'.sharing == s.sharing && s'.delivery == O.Next(s.delivery, step)
    requires O.IsDelivery(step) || step.Change?
    requires s'.snapshot.Some? <==> s'.delivery.read.Some?
    ensures Good(s', vaultId) && s'.delivery.applied >= s.delivery.applied
  {
    O.NextInv(s.delivery, step);
  }

  lemma ShareGood(s: State, vaultId: E.VaultId, lifetime: nat, now: nat, step: E.Step, s': State)
    requires Good(s, vaultId) && s' == Do(s, vaultId, lifetime, now, Share(step))
    ensures Good(s', vaultId) && s'.delivery.applied >= s.delivery.applied && s'.vault.clock == now
    ensures s.sharing.erased <= s'.sharing.erased
  {
    E.NextInv(s.sharing, step, s'.sharing);
    E.NextErased(s.sharing, step, s'.sharing);
    var told := Told(s.sharing, vaultId, step);
    if told.Some? { O.NextInv(s.delivery, told.value); }
  }

  lemma ApplyGood(s: State, vaultId: E.VaultId, lifetime: nat, now: nat, failsAt: Option<nat>, o: S.Outcome, s': State)
    requires Good(s, vaultId) && s' == Do(s, vaultId, lifetime, now, Apply(failsAt, o))
    ensures Good(s', vaultId) && s'.delivery.applied >= s.delivery.applied && s'.vault.clock == now
  {
    if s.snapshot.Some? {
      DeliveryGood(s, vaultId, if s'.vault.clean then O.ApplySnapshot else O.FailRefresh, s');
    }
  }

  lemma DoGood(s: State, vaultId: E.VaultId, lifetime: nat, now: nat, step: Step, s': State)
    requires Good(s, vaultId) && s' == Do(s, vaultId, lifetime, now, step)
    ensures Good(s', vaultId) && s'.delivery.applied >= s.delivery.applied && s'.vault.clock == now
    ensures s.sharing.erased <= s'.sharing.erased
  {
    match step
    case Share(st) => ShareGood(s, vaultId, lifetime, now, st, s');
    case Queue => DeliveryGood(s, vaultId, O.Change, s');
    case Take(id) => DeliveryGood(s, vaultId, O.Take(id), s');
    case Call(id) => DeliveryGood(s, vaultId, O.Call(id), s');
    case Read(suspended) => DeliveryGood(s, vaultId, O.ReadSnapshot, s');
    case Apply(failsAt, o) => ApplyGood(s, vaultId, lifetime, now, failsAt, o, s');
    case Fail => DeliveryGood(s, vaultId, O.FailRefresh, s');
    case Finish(id) => DeliveryGood(s, vaultId, O.Finish(id), s');
    case Abandon(id) => DeliveryGood(s, vaultId, O.Abandon(id), s');
    case Open(id, session, loaded) =>
    case Check(loaded) =>
  }

  /** A step of enrolment never takes the place's version back. */
  lemma ShareKeeps(s: State, lifetime: nat, now: nat, step: E.Step, s': State,
                   slot: E.Slot, minimum: nat, n: nat, until: nat)
    requires Good(s, slot.vault) && Removed(s, slot, minimum, n, until) && s.vault.clock <= now
    requires s' == Do(s, slot.vault, lifetime, now, Share(step)) && slot.vault !in s'.sharing.erased
    ensures Removed(s', slot, minimum, n, until)
  {
    E.NextAdvances(s.sharing, step, s'.sharing, slot);
  }

  lemma ApplyKeeps(s: State, lifetime: nat, now: nat, failsAt: Option<nat>, o: S.Outcome, s': State,
                   slot: E.Slot, minimum: nat, n: nat, until: nat)
    requires Good(s, slot.vault) && Removed(s, slot, minimum, n, until) && s.vault.clock <= now && minimum > 1
    requires s' == Do(s, slot.vault, lifetime, now, Apply(failsAt, o)) && until <= now + lifetime
    ensures Removed(s', slot, minimum, n, until)
  {
    if s.snapshot.Some? && now < until {
      var action := S.Apply(s.snapshot, failsAt, o);
      if s.delivery.applied >= n {
        S.ActKeepsBlocks(s.vault, now, lifetime, action, s'.vault, slot.user, minimum, until);
      } else if s'.vault.clean && s.delivery.read.value >= n {
        var snapshot := s.snapshot.value;
        var i :| 0 <= i < |snapshot.grants| && snapshot.grants[i].userId == slot.user
                 && snapshot.grants[i].accessVersion >= minimum;
        S.RefreshBlocks(s.vault.records, s.vault.sockets, now, lifetime, snapshot, failsAt, o, i,
          S.RefreshResult(s.vault.records, s.vault.sockets, now, lifetime, Some(snapshot), failsAt, o));
      }
    }
  }

  lemma VaultKeeps(s: State, lifetime: nat, now: nat, action: S.Action, s': State,
                   slot: E.Slot, minimum: nat, n: nat, until: nat)
    requires Good(s, slot.vault) && Removed(s, slot, minimum, n, until) && s.vault.clock <= now
    requires s' == s.(vault := S.Act(s.vault, now, lifetime, action)) && s'.vault.clock == now
    ensures Removed(s', slot, minimum, n, until)
  {
    if s.delivery.applied >= n && now < until {
      S.ActKeepsBlocks(s.vault, now, lifetime, action, s'.vault, slot.user, minimum, until);
    }
  }

  /** Steps of flushers touch neither memberships nor records, and read nothing. */
  lemma FlusherKeeps(s: State, now: nat, step: O.Step, s': State, slot: E.Slot, minimum: nat, n: nat, until: nat)
    requires Removed(s, slot, minimum, n, until) && s.vault.clock <= now && O.Inv(s.delivery)
    requires step.Change? || step.Take? || step.Call? || step.Finish? || step.Abandon? || step.FailRefresh?
    requires s' == Deliver(At(s, now), step).(snapshot := s'.snapshot)
    requires s'.snapshot == if step.FailRefresh? && s.delivery.calls != [] then None else s.snapshot
    ensures Removed(s', slot, minimum, n, until)
  {
  }

  lemma ReadKeeps(s: State, lifetime: nat, now: nat, suspended: bool, s': State,
                  slot: E.Slot, minimum: nat, n: nat, until: nat)
    requires Removed(s, slot, minimum, n, until) && s.vault.clock <= now
    requires s' == Do(s, slot.vault, lifetime, now, Read(suspended))
    ensures Removed(s', slot, minimum, n, until)
  {
    SnapshotDemands(s.sharing.grants, slot, minimum, suspended);
  }

  lemma DoKeeps(s: State, lifetime: nat, now: nat, step: Step, s': State,
                slot: E.Slot, minimum: nat, n: nat, until: nat)
    requires Good(s, slot.vault) && Removed(s, slot, minimum, n, until) && s.vault.clock <= now && minimum > 1
    requires s' == Do(s, slot.vault, lifetime, now, step) && until <= now + lifetime
    requires slot.vault !in s'.sharing.erased
    ensures Removed(s', slot, minimum, n, until)
  {
    match step
    case Share(st) => ShareKeeps(s, lifetime, now, st, s', slot, minimum, n, until);
    case Queue => FlusherKeeps(s, now, O.Change, s', slot, minimum, n, until);
    case Take(id) => FlusherKeeps(s, now, O.Take(id), s', slot, minimum, n, until);
    case Call(id) => FlusherKeeps(s, now, O.Call(id), s', slot, minimum, n, until);
    case Read(suspended) => ReadKeeps(s, lifetime, now, suspended, s', slot, minimum, n, until);
    case Apply(failsAt, o) => ApplyKeeps(s, lifetime, now, failsAt, o, s', slot, minimum, n, until);
    case Fail => FlusherKeeps(s, now, O.FailRefresh, s', slot, minimum, n, until);
    case Finish(id) => FlusherKeeps(s, now, O.Finish(id), s', slot, minimum, n, until);
    case Abandon(id) => FlusherKeeps(s, now, O.Abandon(id), s', slot, minimum, n, until);
    case Open(id, session, loaded) =>
      VaultKeeps(s, lifetime, now, S.Open(id, session, loaded), s', slot, minimum, n, until);
    case Check(loaded) => VaultKeeps(s, lifetime, now, S.Check(loaded), s', slot, minimum, n, until);
  }

  lemma {:induction false} RunGood(s: State, vaultId: E.VaultId, lifetime: nat, evs: seq<Event>)
    requires Good(s, vaultId)
    ensures Good(Run(s, vaultId, lifetime, evs), vaultId) && Run(s, vaultId, lifetime, evs).vault.clock >= s.vault.clock
    ensures Run(s, vaultId, lifetime, evs).delivery.applied >= s.delivery.applied
    ensures s.sharing.erased <= Run(s, vaultId, lifetime, evs).sharing.erased
  {
    if evs != [] {
      var before, last := Run(s, vaultId, lifetime, evs[..|evs| - 1]), evs[|evs| - 1];
      RunGood(s, vaultId, lifetime, evs[..|evs| - 1]);
      DoGood(before, vaultId, lifetime, TimeOf(before, last), last.step, Run(s, vaultId, lifetime, evs));
    }
  }

  lemma {:induction false} RunKeeps(
      s: State, lifetime: nat, evs: seq<Event>, slot: E.Slot, minimum: nat, n: nat, until: nat)
    requires Good(s, slot.vault) && Removed(s, slot, minimum, n, until)
    requires minimum > 1 && until <= s.vault.clock + lifetime
    requires slot.vault !in Run(s, slot.vault, lifetime, evs).sharing.erased
    ensures Removed(Run(s, slot.vault, lifetime, evs), slot, minimum, n, until)
  {
    if evs != [] {
      var front, last := evs[..|evs| - 1], evs[|evs| - 1];
      RunGood(s, slot.vault, lifetime, front);
      var before := Run(s, slot.vault, lifetime, front);
      DoGood(before, slot.vault, lifetime, TimeOf(before, last), last.step, Run(s, slot.vault, lifetime, evs));
      RunKeeps(s, lifetime, front, slot, minimum, n, until);
      DoKeeps(before, lifetime, TimeOf(before, last), last.step, Run(s, slot.vault, lifetime, evs),
              slot, minimum, n, until);
    }
  }

  // ---- the result ----

  /** End to end: once the outbox row that a removal queued is gone, however the flushers got there,
      every token issued to the user before the removal is refused from then on, for the whole lifetime
      such a token can have, whatever joins, enrolments, refreshes and failures came before or follow. */
  lemma {:induction false} RemovalReachesVault(
      start: State, earlier: seq<Event>, s: State, lifetime: nat, slot: E.Slot, at: nat, removed: State,
      first: seq<Event>, more: seq<Event>, version: nat)
    requires Initial(start) && s == Run(start, slot.vault, lifetime, earlier) && s.vault.clock <= at
    requires slot in s.sharing.grants && !s.sharing.grants[slot].status.Revoked?
    requires 1 <= version <= s.sharing.grants[slot].accessVersion
    requires removed == Do(s, slot.vault, lifetime, at, Share(E.Remove(slot.user)))
    requires Run(removed, slot.vault, lifetime, first).delivery.row.None?
    ensures var s' := Run(Run(removed, slot.vault, lifetime, first), slot.vault, lifetime, more);
            s'.vault.clock < at + lifetime && slot.vault !in s'.sharing.erased ==>
              !S.Decide(s'.vault.records, s'.vault.clock, slot.user, version).Allowed?
  {
    var minimum, n, until := s.sharing.grants[slot].accessVersion + 1, removed.delivery.change, at + lifetime;
    RunGood(start, slot.vault, lifetime, earlier);
    DoGood(s, slot.vault, lifetime, at, Share(E.Remove(slot.user)), removed);
    assert Removed(removed, slot, minimum, n, until);
    var mid := Run(removed, slot.vault, lifetime, first);
    RunGood(removed, slot.vault, lifetime, first);
    var s' := Run(mid, slot.vault, lifetime, more);
    RunGood(mid, slot.vault, lifetime, more);
    if slot.vault !in mid.sharing.erased {
      RunKeeps(removed, lifetime, first, slot, minimum, n, until);
      RunDelivered(mid, lifetime, more, slot, minimum, n, until);
    }
    if s'.vault.clock < until && slot.vault !in s'.sharing.erased {
      S.BlockedIsDenied(s'.vault.records, s'.vault.clock, slot.user, minimum, until, version);
    }
  }

  /** A delivered change stays applied. */
  lemma {:induction false} RunDelivered(
      s: State, lifetime: nat, evs: seq<Event>, slot: E.Slot, minimum: nat, n: nat, until: nat)
    requires Good(s, slot.vault) && s.vault.clock >= until - lifetime && minimum > 1
    requires s.vault.clock < until ==> Removed(s, slot, minimum, n, until)
    requires s.delivery.applied >= n
    ensures var s' := Run(s, slot.vault, lifetime, evs);
            s'.vault.clock < until && slot.vault !in s'.sharing.erased ==>
              S.Blocks(s'.vault.records, slot.user, minimum, until)
  {
    RunGood(s, slot.vault, lifetime, evs);
    if Run(s, slot.vault, lifetime, evs).vault.clock < until
       && slot.vault !in Run(s, slot.vault, lifetime, evs).sharing.erased {
      RunKeeps(s, lifetime, evs, slot, minimum, n, until);
    }
  }
}
