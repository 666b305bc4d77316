/** What enrolment guarantees over every run. */
module EnrollmentTheorems {
  import opened Enrollment
  import SyncAccess

  /** In every run at most one request of a place is open. */
  lemma {:induction false} OneOpenRequest(s: State, steps: seq<Step>, s': State, i: RequestId, j: RequestId)
    requires Founded(s) && s' == Run(s, steps)
    requires i in s'.requests && j in s'.requests && s'.requests[i].slot == s'.requests[j].slot
    requires Open(s'.requests[i]) && Open(s'.requests[j])
    ensures i == j
  {
    RunAdvances(s, steps, Slot("", ""));
  }

  /** Two active periods with a revocation between them have different versions, the later larger. */
  lemma {:induction false} VersionsSeparatePeriods(s: State, first: seq<Step>, second: seq<Step>, slot: Slot)
    requires Inv(s) && slot in s.grants && !s.grants[slot].status.Revoked?
    requires var mid := Run(s, first); slot in mid.grants && mid.grants[slot].status.Revoked?
    requires var end := Run(Run(s, first), second); slot in end.grants && !end.grants[slot].status.Revoked?
    ensures s.grants[slot].accessVersion < Run(s, first).grants[slot].accessVersion
                                         < Run(Run(s, first), second).grants[slot].accessVersion
  {
    RunAdvances(s, first, slot);
    RunAdvances(Run(s, first), second, slot);
  }

  /** A request at a version from before a removal. */
  ghost predicate Stale(s: State, slot: Slot, version: nat, id: RequestId) {
    id in s.requests && s.requests[id].slot == slot && s.requests[id].accessVersion <= version
  }

  /** Since the removal, the place is either still revoked at that version or beyond it, or its vault
      has been erased. */
  ghost predicate Removed(s: State, slot: Slot, version: nat) {
    slot.vault !in s.erased ==>
    && slot in s.grants && s.grants[slot].accessVersion >= version
    && (s.grants[slot].accessVersion == version ==> s.grants[slot].status.Revoked?)
    && (forall i | Stale(s, slot, version, i) :: !s.requests[i].status.Completed?)
  }

  lemma NextRemoved(s: State, step: Step, s': State, slot: Slot, version: nat)
    requires Inv(s) && Removed(s, slot, version) && s' == Next(s, step)
    ensures Removed(s', slot, version)
  {
    NextAdvances(s, step, s', slot);
    forall i | Stale(s', slot, version, i) ensures !s'.requests[i].status.Completed? {
      NextRequest(s, step, s', i);
      if i in s.requests { assert Stale(s, slot, version, i); }
    }
  }

  lemma {:induction false} RunRemoved(s: State, steps: seq<Step>, slot: Slot, version: nat)
    requires Inv(s) && Removed(s, slot, version)
    ensures Removed(Run(s, steps), slot, version)
  {
    if steps != [] {
      var before := steps[..|steps| - 1];
      RunRemoved(s, before, slot, version);
      RunAdvances(s, before, slot);
      NextRemoved(Run(s, before), steps[|steps| - 1], Run(s, steps), slot, version);
    }
  }

  /** No resurrection: no request created before a removal, and none that carries a version read
      before it, is ever completed afterwards, whatever was approved and whoever rejoined. */
  lemma {:induction false} StaleRequestsNeverComplete(s: State, user: UserId, steps: seq<Step>, slot: Slot,
      id: RequestId)
    requires Inv(s) && slot in s.grants && slot.user == user
    requires var s' := Run(RemoveMember(s, user), steps);
             Stale(s', slot, s.grants[slot].accessVersion, id)
    ensures !Run(RemoveMember(s, user), steps).requests[id].status.Completed?
  {
    var removed := RemoveMember(s, user);
    NextInv(s, Remove(user), removed);
    var version := removed.grants[slot].accessVersion;
    RunRemoved(removed, steps, slot, version);
    RunAdvances(removed, steps, slot);
    assert Stale(Run(removed, steps), slot, version, id);
  }

  /** The request of that place is canceled, or went with its vault. */
  ghost predicate CanceledOrErased(s: State, slot: Slot, id: RequestId) {
    slot.vault in s.erased
    || (id in s.requests && s.requests[id].slot == slot && s.requests[id].status.Canceled?)
  }

  lemma NextCanceled(s: State, step: Step, s': State, slot: Slot, id: RequestId)
    requires s' == Next(s, step) && CanceledOrErased(s, slot, id)
    ensures CanceledOrErased(s', slot, id)
  {
  }

  lemma {:induction false} CanceledForever(s: State, steps: seq<Step>, slot: Slot, id: RequestId)
    requires CanceledOrErased(s, slot, id)
    ensures CanceledOrErased(Run(s, steps), slot, id)
  {
    if steps != [] {
      CanceledForever(s, steps[..|steps| - 1], slot, id);
      NextCanceled(Run(s, steps[..|steps| - 1]), steps[|steps| - 1], Run(s, steps), slot, id);
    }
  }

  /** The requests a removal finds are closed for as long as their vault lasts, the completed ones
      included. */
  lemma {:induction false} RemovalClosesRequests(s: State, user: UserId, steps: seq<Step>, id: RequestId)
    requires Inv(s) && id in s.requests && s.requests[id].slot.user == user
    ensures var s', slot := Run(RemoveMember(s, user), steps), s.requests[id].slot;
            slot.vault !in s'.erased ==>
              id in s'.requests && s'.requests[id].slot == slot && s'.requests[id].status.Canceled?
  {
    CanceledForever(RemoveMember(s, user), steps, s.requests[id].slot, id);
  }

  /** The only ways to become active: finish an approved request at the current version, or create
      the vault. */
  lemma ActiveOnlyByApproval(s: State, step: Step, slot: Slot)
    requires Inv(s)
    requires slot in Next(s, step).grants && Next(s, step).grants[slot].status.Active?
    requires slot !in s.grants || !s.grants[slot].status.Active?
    ensures || (step.NewVault? && step.slot == slot && slot.vault !in s.vaults)
            || (step.Finish? && step.id in s.requests && s.requests[step.id].slot == slot
                && s.requests[step.id].status.Approved?
                && slot in s.grants && s.requests[step.id].accessVersion == s.grants[slot].accessVersion)
  {
  }

  /** Removal reaches the vault: once the coordinator has applied any snapshot read after it, every
      token issued to the user before the removal is refused until it expires. */
  lemma {:induction false} RemovedTokensRefused(
      s: State, user: UserId, steps: seq<Step>, slot: Slot,
      vault: SyncAccess.State, lifetime: nat, ev: SyncAccess.Event, later: seq<SyncAccess.Event>, i: nat, version: nat)
    requires Inv(s) && slot in s.grants && slot.user == user && !s.grants[slot].status.Revoked?
    requires 1 <= version <= s.grants[slot].accessVersion
    requires ev.action.Apply? && ev.action.snapshot.Some? && SyncAccess.Run(vault, lifetime, [ev]).clean
    requires var grants := ev.action.snapshot.value.grants;
             && i < |grants| && SyncAccess.UsersDistinct(grants) && grants[i].userId == user
             && slot in Run(RemoveMember(s, user), steps).grants
             && grants[i].accessVersion == Run(RemoveMember(s, user), steps).grants[slot].accessVersion
    ensures var v' := SyncAccess.Run(SyncAccess.Run(vault, lifetime, [ev]), lifetime, later);
            v'.clock < vault.clock + ev.delay + lifetime ==>
              !SyncAccess.Decide(v'.records, v'.clock, user, version).Allowed?
  {
    NextInv(s, Remove(user), RemoveMember(s, user));
    RunAdvances(RemoveMember(s, user), steps, slot);
    SyncAccess.RevokedUntilExpiry(vault, lifetime, ev, later, i, version);
  }
}
