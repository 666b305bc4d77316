/** Who lets a member in: every active place goes back to a manager, the vault's creator or the approver
    of the request that was completed. */
module Approvals {
  import opened Wrappers
  import opened Enrollment

  /** An owner or admin with an active place in a vault not marked deleted. */
  ghost predicate Manages(s: State, vault: VaultId, user: UserId) {
    && user in s.members && (s.members[user].Owner? || s.members[user].Admin?)
    && vault in s.vaults && s.vaults[vault]
    && Slot(vault, user) in s.grants && s.grants[Slot(vault, user)].status.Active?
  }

  /** The request carries the version its place has, and the place is not revoked. */
  ghost predicate UpToDate(s: State, r: KeyRequest) {
    && r.slot in s.grants && s.grants[r.slot].accessVersion == r.accessVersion
    && (s.grants[r.slot].status.PendingKey? || s.grants[r.slot].status.Active?)
  }

  /** A request is approved exactly if it is pending, unexpired and up to date, and the approver is a
      manager at that moment; its row then names the approver and carries the envelope, and nothing else
      changes. */
  lemma ApproveExactly(s: State, id: RequestId, approver: UserId, envelope: string, now: nat, s': State)
    requires s' == Approve(s, id, approver, envelope, now)
    ensures var granted := && id in s.requests && s.requests[id].status.Pending? && s.requests[id].expiresAt > now
                           && UpToDate(s, s.requests[id]) && Manages(s, s.requests[id].slot.vault, approver);
            s' == if granted
                  then s.(requests := s.requests[id := s.requests[id].(status := Approved,
                                                                       approvedBy := Some(approver),
                                                                       envelope := Some(envelope))])
                  else s
  {
  }

  /** A request is completed exactly if it is approved, unexpired and up to date, and its user is still a
      member; then the place is active, its wrapper is the one sent, and the request keeps no envelope. */
  lemma CompleteExactly(s: State, id: RequestId, envelope: string, now: nat, s': State)
    requires s' == Complete(s, id, envelope, now)
    ensures var done := && id in s.requests && s.requests[id].status.Approved? && s.requests[id].expiresAt > now
                        && UpToDate(s, s.requests[id]) && s.requests[id].slot.user in s.members
                        && s.requests[id].slot.vault in s.vaults;
            if !done then s' == s
            else
              var slot := s.requests[id].slot;
              && s'.grants == s.grants[slot := Grant(Active, s.requests[id].accessVersion)]
              && s'.wrappers == s.wrappers[slot := Wrapper(envelope, false)]
              && s'.requests == s.requests[id := s.requests[id].(status := Completed, envelope := None)]
              && s'.members == s.members && s'.vaults == s.vaults && s'.erased == s.erased
  {
  }

  // ---- one step ----

  /** The step grants the request: a manager approves it while it is pending, unexpired and up to date. */
  ghost predicate Grants(s: State, step: Step, i: RequestId) {
    && step.ApproveKey? && step.id == i
    && i in s.requests && s.requests[i].status.Pending? && s.requests[i].expiresAt > step.now
    && UpToDate(s, s.requests[i]) && Manages(s, s.requests[i].slot.vault, step.approver)
  }

  /** A request is approved after a step only if the step grants it, or it was before and is unchanged. */
  lemma ApprovedStep(s: State, step: Step, s': State, i: RequestId)
    requires s' == Next(s, step) && i in s'.requests && s'.requests[i].status.Approved?
    ensures || (i in s.requests && s'.requests[i] == s.requests[i])
            || (Grants(s, step, i)
                && s'.requests[i] == s.requests[i].(status := Approved, approvedBy := Some(step.approver),
                                                    envelope := Some(step.envelope)))
  {
  }

  /** A place becomes active only as its vault's creator, who is then a manager of it, or by an approved,
      unexpired request of its own at its version, while its user is a member. */
  lemma ActiveStep(s: State, step: Step, s': State, slot: Slot)
    requires s' == Next(s, step) && slot in s'.grants && s'.grants[slot].status.Active?
    ensures || (slot in s.grants && s.grants[slot].status.Active?)
            || Creates(s, step, slot)
            || Finishes(s, step, slot)
  {
  }

  ghost predicate Creates(s: State, step: Step, slot: Slot) {
    && step.NewVault? && step.slot == slot && slot.vault !in s.vaults && slot.vault !in s.erased
    && slot.user in s.members && (s.members[slot.user].Owner? || s.members[slot.user].Admin?)
  }

  ghost predicate Finishes(s: State, step: Step, slot: Slot) {
    && step.Finish? && step.id in s.requests && s.requests[step.id].slot == slot
    && s.requests[step.id].status.Approved? && s.requests[step.id].expiresAt > step.now
    && UpToDate(s, s.requests[step.id]) && slot.user in s.members
  }

  // ---- whole runs ----

  /** Event `j` granted the request as it is now: who approved it and the envelope are those of `r`. */
  ghost predicate GrantedAt(s: State, steps: seq<Step>, j: nat, i: RequestId, r: KeyRequest)
    requires j < |steps|
  {
    var before := Run(s, steps[..j]);
    && Grants(before, steps[j], i)
    && r == before.requests[i].(status := Approved, approvedBy := Some(steps[j].approver),
                                envelope := Some(steps[j].envelope))
  }

  lemma RunStep(s: State, steps: seq<Step>, n: nat)
    requires n < |steps|
    ensures Run(s, steps[..n + 1]) == Next(Run(s, steps[..n]), steps[n])
  {
    assert steps[..n + 1][..n] == steps[..n];
  }

  /** Every approved request was granted by a manager, whom it names. */
  lemma {:induction false} ApprovedWasGranted(s: State, steps: seq<Step>, n: nat, i: RequestId) returns (j: nat)
    requires Founded(s) && n <= |steps|
    requires i in Run(s, steps[..n]).requests && Run(s, steps[..n]).requests[i].status.Approved?
    ensures j < n && GrantedAt(s, steps, j, i, Run(s, steps[..n]).requests[i])
  {
    if n > 0 {
      RunStep(s, steps, n - 1);
      var before := Run(s, steps[..n - 1]);
      ApprovedStep(before, steps[n - 1], Run(s, steps[..n]), i);
      if Grants(before, steps[n - 1], i)
         && Run(s, steps[..n]).requests[i] == before.requests[i].(status := Approved,
                                                                  approvedBy := Some(steps[n - 1].approver),
                                                                  envelope := Some(steps[n - 1].envelope)) {
        j := n - 1;
      } else {
        j := ApprovedWasGranted(s, steps, n - 1, i);
      }
    }
  }

  /** Event `k` made the place active: by creating its vault, or by completing a request of the place that
      a manager of the vault had granted at event `j`, at the version the place still had. */
  ghost predicate MadeActiveAt(s: State, steps: seq<Step>, j: nat, k: nat, slot: Slot)
    requires j <= k < |steps|
  {
    var before := Run(s, steps[..k]);
    || Creates(before, steps[k], slot)
    || (Finishes(before, steps[k], slot)
        && GrantedAt(s, steps, j, steps[k].id, before.requests[steps[k].id]))
  }

  ghost predicate ActiveAt(s: State, steps: seq<Step>, t: nat, slot: Slot)
    requires t <= |steps|
  {
    slot in Run(s, steps[..t]).grants && Run(s, steps[..t]).grants[slot].status.Active?
  }

  /** Every active place goes back to a manager: in every reachable state it was made active by creating
      its vault, or by a request that a manager of the vault, whom it names, had granted, and it has been
      active since. */
  lemma {:induction false} ActiveWasGranted(s: State, steps: seq<Step>, n: nat, slot: Slot) returns (j: nat, k: nat)
    requires Founded(s) && n <= |steps| && ActiveAt(s, steps, n, slot)
    ensures j <= k < n && MadeActiveAt(s, steps, j, k, slot)
    ensures forall t | k < t <= n :: ActiveAt(s, steps, t, slot)
  {
    if n > 0 {
      if ActiveAt(s, steps, n - 1, slot) {
        j, k := ActiveWasGranted(s, steps, n - 1, slot);
      } else {
        j := NewlyActive(s, steps, n - 1, slot);
        k := n - 1;
      }
    }
  }

  lemma NewlyActive(s: State, steps: seq<Step>, k: nat, slot: Slot) returns (j: nat)
    requires Founded(s) && k < |steps| && ActiveAt(s, steps, k + 1, slot) && !ActiveAt(s, steps, k, slot)
    ensures j <= k && MadeActiveAt(s, steps, j, k, slot)
  {
    RunStep(s, steps, k);
    var before := Run(s, steps[..k]);
    ActiveStep(before, steps[k], Run(s, steps[..k + 1]), slot);
    if Creates(before, steps[k], slot) {
      j := k;
    } else {
      j := ApprovedWasGranted(s, steps, k, steps[k].id);
    }
  }
}
