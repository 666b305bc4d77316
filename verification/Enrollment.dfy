/** Vault enrolment inside one organization: memberships with their access versions, key requests and
    password wrappers. Only an approved request at the current version makes a member active. */
module Enrollment {
  import opened Wrappers
  import Outbox

  type UserId = string
  type VaultId = string
  type RequestId = string

  datatype Role = Owner | Admin | Member
  datatype Status = PendingKey | Active | Revoked
  datatype Grant = Grant(status: Status, accessVersion: nat)

  /** A user's place in a vault. */
  datatype Slot = Slot(vault: VaultId, user: UserId)

  datatype RequestStatus = Pending | Approved | Completed | Canceled
  datatype KeyRequest = KeyRequest(
    slot: Slot, accessVersion: nat, status: RequestStatus, expiresAt: nat,
    envelope: Option<string>, approvedBy: Option<UserId>)

  datatype Wrapper = Wrapper(envelope: string, revoked: bool)

  type Grants = map<Slot, Grant>
  type Requests = map<RequestId, KeyRequest>
  type KeyWrappers = map<Slot, Wrapper>

  /** `vaults` maps each vault to whether it is still there: a vault marked deleted keeps its rows until
      it is erased. Identifiers of erased vaults are not given out again. */
  datatype State = State(
    vaults: map<VaultId, bool>, members: map<UserId, Role>,
    grants: Grants, requests: Requests, wrappers: KeyWrappers, erased: set<VaultId>)

  const REQUEST_LIFETIME_MS: nat := 48 * 60 * 60 * 1000

  predicate Open(r: KeyRequest) {
    r.status.Pending? || r.status.Approved?
  }

  predicate MayHoldKey(s: State, slot: Slot, version: nat) {
    slot in s.grants && s.grants[slot].accessVersion == version && !s.grants[slot].status.Revoked?
  }

  // ---- the statements ----

  function RevokeGrants(s: State, user: UserId): Grants {
    map k | k in s.grants ::
      if k.vault in s.vaults && k.user == user && !s.grants[k].status.Revoked?
      then Grant(Revoked, s.grants[k].accessVersion + 1) else s.grants[k]
  }

  function RevokeWrappers(s: State, user: UserId): KeyWrappers {
    map k | k in s.wrappers ::
      if k.vault in s.vaults && k.user == user then s.wrappers[k].(revoked := true) else s.wrappers[k]
  }

  /** Whatever their state: the statement has no condition on it. */
  function CancelRequestsOf(s: State, user: UserId): Requests {
    map i | i in s.requests ::
      if s.requests[i].slot.vault in s.vaults && s.requests[i].slot.user == user
      then s.requests[i].(status := Canceled, envelope := None) else s.requests[i]
  }

  function CancelOpen(requests: Requests, slot: Slot): Requests {
    map i | i in requests ::
      if requests[i].slot == slot && Open(requests[i]) then requests[i].(status := Canceled, envelope := None)
      else requests[i]
  }

  function Prune(requests: Requests, now: nat): Requests {
    map i | i in requests ::
      if requests[i].expiresAt <= now && Open(requests[i]) then requests[i].(status := Canceled, envelope := None)
      else requests[i]
  }

  // ---- the operations ----

  function RemoveMember(s: State, user: UserId): State {
    s.(grants := RevokeGrants(s, user), wrappers := RevokeWrappers(s, user),
       requests := CancelRequestsOf(s, user), members := s.members - {user})
  }

  /** Enrols a member for key setup; a revoked place is reopened at a new version. */
  function EnsureEnrollment(s: State, slot: Slot): State {
    if slot.vault !in s.vaults || !s.vaults[slot.vault] || slot.user !in s.members then s
    else if slot !in s.grants then s.(grants := s.grants[slot := Grant(PendingKey, 1)])
    else if s.grants[slot].status.Revoked? then
      s.(grants := s.grants[slot := Grant(PendingKey, s.grants[slot].accessVersion + 1)])
    else s
  }

  /** `version` was read from the place some time before; an id already taken fails the batch. */
  function CreateRequest(s: State, id: RequestId, slot: Slot, version: nat, now: nat): State {
    if id in s.requests then s
    else
      s.(requests := CancelOpen(s.requests, slot)[id :=
           KeyRequest(slot, version, Pending, now + REQUEST_LIFETIME_MS, None, None)])
  }

  /** An active manager of a vault that is still there, and a requester whose version is current. */
  predicate CanApprove(s: State, r: KeyRequest, approver: UserId, now: nat) {
    var a := Slot(r.slot.vault, approver);
    && r.status.Pending? && r.expiresAt > now
    && a in s.grants && s.grants[a].status.Active?
    && approver in s.members && !s.members[approver].Member?
    && a.vault in s.vaults && s.vaults[a.vault]
    && MayHoldKey(s, r.slot, r.accessVersion)
  }

  function Approve(s: State, id: RequestId, approver: UserId, envelope: string, now: nat): State {
    if id in s.requests && CanApprove(s, s.requests[id], approver, now) then
      s.(requests := s.requests[id := s.requests[id].(status := Approved, approvedBy := Some(approver),
          envelope := Some(envelope))])
    else s
  }

  /** The condition all three statements of a completion share. */
  predicate Current(s: State, id: RequestId, now: nat) {
    && id in s.requests && s.requests[id].status.Approved? && s.requests[id].expiresAt > now
    && s.requests[id].slot.user in s.members && s.requests[id].slot.vault in s.vaults
    && MayHoldKey(s, s.requests[id].slot, s.requests[id].accessVersion)
  }

  function Complete(s: State, id: RequestId, envelope: string, now: nat): State {
    if !Current(s, id, now) then s
    else
      var r := s.requests[id];
      s.(wrappers := s.wrappers[r.slot := Wrapper(envelope, false)],
         grants := s.grants[r.slot := s.grants[r.slot].(status := Active)],
         requests := s.requests[id := r.(status := Completed, envelope := None)])
  }

  /** A new password replaces the wrapper, and a recovery under way must not overwrite it. */
  function ChangePassword(s: State, slot: Slot, envelope: string): State {
    if slot in s.grants && s.grants[slot].status.Active? && slot.user in s.members
       && slot.vault in s.vaults && s.vaults[slot.vault] then
      s.(wrappers := s.wrappers[slot := Wrapper(envelope, false)], requests := CancelOpen(s.requests, slot))
    else s
  }

  /** A manager's new vault, with the creator active at version one. */
  function CreateVault(s: State, slot: Slot, envelope: string): State {
    if slot.vault in s.vaults.Keys + s.erased || slot.user !in s.members || s.members[slot.user].Member? then s
    else
      s.(vaults := s.vaults[slot.vault := true], grants := s.grants[slot := Grant(Active, 1)],
         wrappers := s.wrappers[slot := Wrapper(envelope, false)])
  }

  /** The vault's row goes for good, and with it every row that refers to it. */
  function EraseVault(s: State, vault: VaultId): State {
    if vault !in s.vaults then s
    else
      s.(vaults := s.vaults - {vault}, erased := s.erased + {vault},
         grants := map k | k in s.grants && k.vault != vault :: s.grants[k],
         requests := map i | i in s.requests && s.requests[i].slot.vault != vault :: s.requests[i],
         wrappers := map k | k in s.wrappers && k.vault != vault :: s.wrappers[k])
  }

  /** One insert for all the vaults: each row carries a revision no row had before. */
  function QueueVaults(t: Outbox.Table, vaults: set<VaultId>): Outbox.Table {
    Outbox.Table(map v | v in t.rows.Keys + vaults :: if v in vaults then t.next else t.rows[v], t.next + 1)
  }

  // ---- the store object ----

  class SharingStore {
    var vaults: map<VaultId, bool>
    var members: map<UserId, Role>
    var grants: Grants
    var requests: Requests
    var wrappers: KeyWrappers
    var outbox: Outbox.Table
    var erased: set<VaultId>

    function View(): State
      reads this
    {
      State(vaults, members, grants, requests, wrappers, erased)
    }

    constructor (vaults: map<VaultId, bool>, members: map<UserId, Role>)
      ensures View() == State(vaults, members, map[], map[], map[], {})
    {
      this.vaults, this.members := vaults, members;
      grants, requests, wrappers := map[], map[], map[];
      outbox, erased := Outbox.Table(map[], 0), {};
    }

    /** A batch: memberships, wrappers, requests, a refresh for every vault, and the member row last. */
    method RemoveOrganizationMember(user: UserId)
      modifies this
      ensures View() == RemoveMember(old(View()), user)
      ensures outbox == QueueVaults(old(outbox), vaults.Keys)
    {
      grants := RevokeGrants(View(), user);
      wrappers := RevokeWrappers(View(), user);
      requests := CancelRequestsOf(View(), user);
      outbox := QueueVaults(outbox, vaults.Keys);
      members := members - {user};
    }

    /** One delete; the foreign keys take memberships, requests, wrappers and the outbox row with it. */
    method HardDeleteVault(vault: VaultId)
      modifies this
      ensures View() == EraseVault(old(View()), vault)
      ensures outbox == old(outbox).(rows := if vault in old(vaults) then old(outbox).rows - {vault}
                                             else old(outbox).rows)
    {
      if vault in vaults {
        vaults, erased := vaults - {vault}, erased + {vault};
        grants := map k | k in grants && k.vault != vault :: grants[k];
        requests := map i | i in requests && requests[i].slot.vault != vault :: requests[i];
        wrappers := map k | k in wrappers && k.vault != vault :: wrappers[k];
        outbox := outbox.(rows := outbox.rows - {vault});
      }
    }

    method EnsureVaultEnrollment(slot: Slot)
      modifies this`grants
      ensures View() == EnsureEnrollment(old(View()), slot)
    {
      if slot.vault in vaults && vaults[slot.vault] && slot.user in members {
        if slot !in grants {
          grants := grants[slot := Grant(PendingKey, 1)];
        } else if grants[slot].status.Revoked? {
          grants := grants[slot := Grant(PendingKey, grants[slot].accessVersion + 1)];
        }
      }
    }

    method CreateKeyRequest(id: RequestId, slot: Slot, version: nat, now: nat)
      modifies this`requests
      ensures View() == CreateRequest(old(View()), id, slot, version, now)
    {
      if id in requests { return; }
      requests := CancelOpen(requests, slot);
      requests := requests[id := KeyRequest(slot, version, Pending, now + REQUEST_LIFETIME_MS, None, None)];
    }

    method ApproveKeyRequest(id: RequestId, approver: UserId, envelope: string, now: nat) returns (done: bool)
      modifies this`requests
      ensures View() == Approve(old(View()), id, approver, envelope, now)
      ensures done <==> id in old(requests) && CanApprove(old(View()), old(requests)[id], approver, now)
    {
      done := id in requests && CanApprove(View(), requests[id], approver, now);
      if done {
        requests := requests[id := requests[id].(status := Approved, approvedBy := Some(approver),
            envelope := Some(envelope))];
      }
    }

    /** Three statements, each testing the request again after the one before it has written: all
        take effect or none does. */
    method CompleteKeyRequest(id: RequestId, envelope: string, now: nat) returns (done: bool)
      modifies this`wrappers, this`grants, this`requests
      ensures View() == Complete(old(View()), id, envelope, now)
      ensures done <==> Current(old(View()), id, now)
    {
      if Current(View(), id, now) {
        wrappers := wrappers[requests[id].slot := Wrapper(envelope, false)];
      }
      if id in requests && requests[id].slot in grants
         && grants[requests[id].slot].accessVersion == requests[id].accessVersion && Current(View(), id, now) {
        grants := grants[requests[id].slot := grants[requests[id].slot].(status := Active)];
      }
      done := Current(View(), id, now);
      if done {
        requests := requests[id := requests[id].(status := Completed, envelope := None)];
      }
    }
  }

  // ---- whole runs ----

  datatype Step =
    | Join(user: UserId, role: Role)
    | Remove(user: UserId)
    | ChangeRole(user: UserId, role: Role)
    | NewVault(slot: Slot, envelope: string)
    | DropVault(vault: VaultId)    // marks it deleted and queues its purge
    | ReturnVault(vault: VaultId)  // the purge could not be queued
    | Erase(vault: VaultId)        // the purge is done
    | Enroll(slot: Slot)
    | Ask(id: RequestId, slot: Slot, version: nat, now: nat)
    | ApproveKey(id: RequestId, approver: UserId, envelope: string, now: nat)
    | Finish(id: RequestId, envelope: string, now: nat)
    | NewPassword(slot: Slot, envelope: string)
    | PruneExpired(now: nat)

  /** A request carries a version its place had at that time or before. */
  function Next(s: State, step: Step): State {
    match step
    case Join(user, role) => if user in s.members then s else s.(members := s.members[user := role])
    case Remove(user) => RemoveMember(s, user)
    case ChangeRole(user, role) =>
      if user in s.members && !s.members[user].Owner? then s.(members := s.members[user := role]) else s
    case NewVault(slot, envelope) => CreateVault(s, slot, envelope)
    case DropVault(vault) => if vault in s.vaults then s.(vaults := s.vaults[vault := false]) else s
    case ReturnVault(vault) => if vault in s.vaults then s.(vaults := s.vaults[vault := true]) else s
    case Erase(vault) => EraseVault(s, vault)
    case Enroll(slot) => EnsureEnrollment(s, slot)
    case Ask(id, slot, version, now) =>
      if slot in s.grants && version <= s.grants[slot].accessVersion then CreateRequest(s, id, slot, version, now)
          else s
    case ApproveKey(id, approver, envelope, now) => Approve(s, id, approver, envelope, now)
    case Finish(id, envelope, now) => Complete(s, id, envelope, now)
    case NewPassword(slot, envelope) => ChangePassword(s, slot, envelope)
    case PruneExpired(now) => s.(requests := Prune(s.requests, now))
  }

  function Run(s: State, steps: seq<Step>): State {
    if steps == [] then s else Next(Run(s, steps[..|steps| - 1]), steps[|steps| - 1])
  }

  ghost predicate Founded(s: State) {
    s.grants == map[] && s.requests == map[] && s.wrappers == map[] && s.vaults == map[] && s.erased == {}
  }

  ghost predicate OneOpen(requests: Requests) {
    forall i, j | i in requests && j in requests && i != j && requests[i].slot == requests[j].slot ::
      !(Open(requests[i]) && Open(requests[j]))
  }

  /** Places belong to vaults not erased; no request is ahead of its place's version. */
  ghost predicate Bounded(s: State) {
    && s.vaults.Keys !! s.erased && (forall k | k in s.grants :: k.vault in s.vaults)
    && (forall i | i in s.requests :: s.requests[i].slot in s.grants
                                      && s.requests[i].accessVersion <= s.grants[s.requests[i].slot].accessVersion)
  }

  ghost predicate Inv(s: State) {
    OneOpen(s.requests) && Bounded(s)
  }

  lemma FewerOpen(a: Requests, b: Requests)
    requires OneOpen(a)
    requires forall i | i in b && Open(b[i]) :: i in a && Open(a[i]) && a[i].slot == b[i].slot
    ensures OneOpen(b)
  {
  }

  lemma NextOneOpen(s: State, step: Step, s': State)
    requires OneOpen(s.requests) && s' == Next(s, step)
    ensures OneOpen(s'.requests)
  {
    if step.Ask? && s' != s {
      FewerOpen(s.requests, CancelOpen(s.requests, step.slot));
    } else {
      FewerOpen(s.requests, s'.requests);
    }
  }

  /** One step of a place's history: it lasts as long as its vault, versions never fall, and a revoked
      place that is reopened has a version no earlier period had. */
  ghost predicate Advances(a: State, b: State, slot: Slot) {
    a.erased <= b.erased && (slot in a.grants && slot.vault !in b.erased ==>
      && slot in b.grants
      && b.grants[slot].accessVersion >= a.grants[slot].accessVersion
      && (b.grants[slot].accessVersion == a.grants[slot].accessVersion ==>
            (b.grants[slot].status.Revoked? <==> a.grants[slot].status.Revoked?)))
  }

  lemma NextAdvances(s: State, step: Step, s': State, slot: Slot)
    requires Bounded(s) && s' == Next(s, step)
    ensures Advances(s, s', slot)
  {
    if step.Erase? {
      NextErased(s, step, s');
    } else {
      NextAdvancesHere(s, step, s', slot);
    }
  }

  lemma NextAdvancesHere(s: State, step: Step, s': State, slot: Slot)
    requires !step.Erase? && s' == Next(s, step) && (slot in s.grants ==> slot.vault in s.vaults)
    ensures Advances(s, s', slot)
  {
  }

  lemma NextErased(s: State, step: Step, s': State)
    requires s' == Next(s, step)
    ensures s'.erased == s.erased + if step.Erase? && step.vault in s.vaults then {step.vault} else {}
  {
  }

  /** What a step can do to one request: finish it, close it, approve it, or be its creation. */
  ghost predicate RequestStep(s: State, s': State, i: RequestId)
    requires i in s'.requests
  {
    if i in s.requests then
      && s'.requests[i].slot == s.requests[i].slot && s'.requests[i].accessVersion == s.requests[i].accessVersion
      && (s'.requests[i].status.Completed? && !s.requests[i].status.Completed? ==>
            MayHoldKey(s, s.requests[i].slot, s.requests[i].accessVersion))
    else
      && s'.requests[i].status.Pending? && s'.requests[i].slot in s.grants
      && s'.requests[i].accessVersion <= s.grants[s'.requests[i].slot].accessVersion
  }

  lemma NextRequest(s: State, step: Step, s': State, i: RequestId)
    requires s' == Next(s, step) && i in s'.requests
    ensures RequestStep(s, s', i)
  {
  }

  lemma NextGrants(s: State, step: Step, s': State)
    requires s' == Next(s, step) && s.vaults.Keys !! s.erased && forall k | k in s.grants :: k.vault in s.vaults
    ensures s'.vaults.Keys !! s'.erased && forall k | k in s'.grants :: k.vault in s'.vaults
  {
  }

  lemma NextRequestBounded(s: State, step: Step, s': State, i: RequestId)
    requires Bounded(s) && s' == Next(s, step) && i in s'.requests
    ensures s'.requests[i].slot in s'.grants
            && s'.requests[i].accessVersion <= s'.grants[s'.requests[i].slot].accessVersion
  {
    NextRequest(s, step, s', i);
    NextAdvances(s, step, s', s'.requests[i].slot);
    NextErased(s, step, s');
  }

  lemma NextBounded(s: State, step: Step, s': State)
    requires Bounded(s) && s' == Next(s, step)
    ensures Bounded(s')
  {
    NextGrants(s, step, s');
    forall i | i in s'.requests
      ensures s'.requests[i].slot in s'.grants
              && s'.requests[i].accessVersion <= s'.grants[s'.requests[i].slot].accessVersion
    {
      NextRequestBounded(s, step, s', i);
    }
  }

  lemma NextInv(s: State, step: Step, s': State)
    requires Inv(s) && s' == Next(s, step)
    ensures Inv(s')
  {
    NextOneOpen(s, step, s');
    NextBounded(s, step, s');
  }

  lemma {:induction false} RunAdvances(s: State, steps: seq<Step>, slot: Slot)
    requires Inv(s)
    ensures Inv(Run(s, steps)) && Advances(s, Run(s, steps), slot)
  {
    if steps != [] {
      var before := steps[..|steps| - 1];
      RunAdvances(s, before, slot);
      NextInv(Run(s, before), steps[|steps| - 1], Run(s, steps));
      NextAdvances(Run(s, before), steps[|steps| - 1], Run(s, steps), slot);
    }
  }
}
