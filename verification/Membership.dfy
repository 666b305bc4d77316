/** What each step of enrolment does to places, wrappers and requests, and what they say about each other
    in every reachable state. */
module Membership {
  import opened Wrappers
  import opened Enrollment
  import opened Approvals
  import Outbox

  // ---- one step ----

  /** A removal takes everything the member had in any vault of the organization: every place is revoked,
      once and with a new version, every wrapper revoked, every request closed without its envelope, and
      the member row gone. Others keep what they have. */
  lemma RemovalTakesAll(s: State, user: UserId, s': State)
    requires Inv(s) && s' == RemoveMember(s, user)
    ensures s'.members == s.members - {user} && s'.vaults == s.vaults && s'.erased == s.erased
    ensures s'.grants.Keys == s.grants.Keys && s'.wrappers.Keys == s.wrappers.Keys
            && s'.requests.Keys == s.requests.Keys
    ensures forall k | k in s.grants ::
              if k.user == user && !s.grants[k].status.Revoked?
              then s'.grants[k] == Grant(Revoked, s.grants[k].accessVersion + 1) else s'.grants[k] == s.grants[k]
    ensures forall k | k in s.wrappers && k.vault in s.vaults ::
              s'.wrappers[k] == if k.user == user then Wrapper(s.wrappers[k].envelope, true) else s.wrappers[k]
    ensures forall i | i in s.requests ::
              s'.requests[i] == if s.requests[i].slot.user == user
                                then s.requests[i].(status := Canceled, envelope := None) else s.requests[i]
  {
  }

  /** Enrolling gives a member of the organization a place in a vault not marked deleted: a new one at the
      first version, a revoked one at the next, and any other as it is. It does nothing else. */
  lemma EnrollExactly(s: State, slot: Slot, s': State)
    requires s' == EnsureEnrollment(s, slot)
    ensures s' == s.(grants := s'.grants)
    ensures var may := slot.vault in s.vaults && s.vaults[slot.vault] && slot.user in s.members;
            s'.grants == if may && slot !in s.grants then s.grants[slot := Grant(PendingKey, 1)]
                         else if may && s.grants[slot].status.Revoked?
                         then s.grants[slot := Grant(PendingKey, s.grants[slot].accessVersion + 1)]
                         else s.grants
  {
  }

  /** Asking closes what was open for the place and opens one pending request that lasts two days. */
  lemma AskExactly(s: State, id: RequestId, slot: Slot, version: nat, now: nat, s': State)
    requires id !in s.requests && s' == CreateRequest(s, id, slot, version, now)
    ensures s' == s.(requests := s'.requests) && s'.requests.Keys == s.requests.Keys + {id}
    ensures s'.requests[id].slot == slot && s'.requests[id].accessVersion == version
            && s'.requests[id].status.Pending? && s'.requests[id].expiresAt == now + 2 * 24 * 60 * 60 * 1000
            && s'.requests[id].envelope.None? && s'.requests[id].approvedBy.None?
    ensures forall i | i in s.requests ::
              s'.requests[i] == if s.requests[i].slot == slot && Open(s.requests[i])
                                then s.requests[i].(status := Canceled, envelope := None) else s.requests[i]
  {
  }

  /** Pruning closes exactly the open requests whose time is over. */
  lemma PruneExactly(s: State, now: nat, s': State)
    requires s' == Next(s, PruneExpired(now))
    ensures s' == s.(requests := s'.requests) && s'.requests.Keys == s.requests.Keys
    ensures forall i | i in s.requests ::
              s'.requests[i] == if (s.requests[i].status.Pending? || s.requests[i].status.Approved?)
                                   && s.requests[i].expiresAt <= now
                                then s.requests[i].(status := Canceled, envelope := None) else s.requests[i]
  {
  }

  /** A new password is for active members of vaults that are there: it replaces the wrapper, and an open
      recovery of the place is closed so that it cannot overwrite it. */
  lemma PasswordExactly(s: State, slot: Slot, envelope: string, s': State)
    requires s' == ChangePassword(s, slot, envelope)
    ensures s' == s.(wrappers := s'.wrappers, requests := s'.requests)
    ensures var may := && slot in s.grants && s.grants[slot].status.Active? && slot.user in s.members
                       && slot.vault in s.vaults && s.vaults[slot.vault];
            if !may then s' == s
            else
              && s'.wrappers == s.wrappers[slot := Wrapper(envelope, false)]
              && s'.requests.Keys == s.requests.Keys
              && forall i | i in s.requests :: && s'.requests[i].slot == s.requests[i].slot
                                               && !(s'.requests[i].slot == slot && Open(s'.requests[i]))
                                               && (s.requests[i].slot != slot ==> s'.requests[i] == s.requests[i])
  {
  }

  /** Roles: joining and removal apart, only a role that is not the owner's changes. */
  lemma RolesExactly(s: State, step: Step, s': State, user: UserId)
    requires s' == Next(s, step) && Get(s'.members, user) != Get(s.members, user)
    ensures || (step.Join? && step.user == user && user !in s.members && s'.members[user] == step.role)
            || (step.Remove? && step.user == user && user !in s'.members)
            || (step.ChangeRole? && step.user == user && user in s.members && !s.members[user].Owner?
                && user in s'.members && s'.members[user] == step.role)
  {
  }

  /** A vault's mark changes only as the steps for it say, and an erased one never comes back. */
  lemma VaultsExactly(s: State, step: Step, s': State, vault: VaultId)
    requires Inv(s) && s' == Next(s, step) && Get(s'.vaults, vault) != Get(s.vaults, vault)
    ensures || (Creates(s, step, Slot(vault, if step.NewVault? then step.slot.user else ""))
                && Get(s'.vaults, vault) == Some(true))
            || (step == DropVault(vault) && Get(s'.vaults, vault) == Some(false))
            || (step == ReturnVault(vault) && Get(s'.vaults, vault) == Some(true))
            || (step == Erase(vault) && vault !in s'.vaults && vault in s'.erased)
    ensures vault !in s.erased
  {
  }

  /** The outbox row of every vault carries a revision newer than any row had, so that no delivery under
      way can delete it; rows of vaults not named stay. */
  lemma QueueExactly(t: Outbox.Table, vaults: set<VaultId>, t': Outbox.Table)
    requires t' == QueueVaults(t, vaults) && forall v | v in t.rows :: t.rows[v] < t.next
    ensures t'.rows.Keys == t.rows.Keys + vaults && forall v | v in t'.rows :: t'.rows[v] < t'.next
    ensures forall v | v in vaults :: forall u | u in t.rows :: t'.rows[v] > t.rows[u]
    ensures forall v | v in t.rows && v !in vaults :: t'.rows[v] == t.rows[v]
  {
  }

  // ---- every reachable state ----

  /** A wrapper that opens the vault belongs to an active place, and every active place has one. */
  ghost predicate WrappersMatch(s: State) {
    forall k :: (k in s.grants && s.grants[k].status.Active?) <==> (k in s.wrappers && !s.wrappers[k].revoked)
  }

  /** Places that are not revoked belong to members. */
  ghost predicate OnlyMembers(s: State) {
    forall k | k in s.grants && !s.grants[k].status.Revoked? :: k.user in s.members
  }

  /** A request carries an envelope exactly while it is approved. */
  ghost predicate EnvelopesMatch(s: State) {
    forall i | i in s.requests :: s.requests[i].envelope.Some? <==> s.requests[i].status.Approved?
  }

  lemma NextWrappers(s: State, step: Step, s': State)
    requires Inv(s) && WrappersMatch(s) && s' == Next(s, step)
    ensures WrappersMatch(s')
  {
    forall k
      ensures (k in s'.grants && s'.grants[k].status.Active?) <==> (k in s'.wrappers && !s'.wrappers[k].revoked)
    {
      NextWrapper(s, step, s', k);
    }
  }

  lemma NextWrapper(s: State, step: Step, s': State, k: Slot)
    requires (k in s.grants ==> k.vault in s.vaults) && s' == Next(s, step)
    requires (k in s.grants && s.grants[k].status.Active?) <==> (k in s.wrappers && !s.wrappers[k].revoked)
    ensures (k in s'.grants && s'.grants[k].status.Active?) <==> (k in s'.wrappers && !s'.wrappers[k].revoked)
  {
  }

  lemma NextMembers(s: State, step: Step, s': State)
    requires Inv(s) && OnlyMembers(s) && s' == Next(s, step)
    ensures OnlyMembers(s')
  {
    forall k | k in s'.grants && !s'.grants[k].status.Revoked? ensures k.user in s'.members {
      NextMember(s, step, s', k);
    }
  }

  lemma NextMember(s: State, step: Step, s': State, k: Slot)
    requires (k in s.grants ==> k.vault in s.vaults) && s' == Next(s, step)
    requires k in s.grants && !s.grants[k].status.Revoked? ==> k.user in s.members
    ensures k in s'.grants && !s'.grants[k].status.Revoked? ==> k.user in s'.members
  {
  }

  lemma NextEnvelopes(s: State, step: Step, s': State)
    requires EnvelopesMatch(s) && s' == Next(s, step)
    ensures EnvelopesMatch(s')
  {
  }

  /** In every reachable state: a place is active exactly while it has a wrapper that is not revoked, only
      members have places that are not revoked, and a request carries key material exactly while it is
      approved, so that closed and completed ones keep none. */
  lemma {:induction false} PlacesMatch(s: State, steps: seq<Step>, s': State)
    requires Founded(s) && s' == Run(s, steps)
    ensures WrappersMatch(s') && OnlyMembers(s') && EnvelopesMatch(s')
  {
    if steps != [] {
      var before, last := Run(s, steps[..|steps| - 1]), steps[|steps| - 1];
      PlacesMatch(s, steps[..|steps| - 1], before);
      RunAdvances(s, steps[..|steps| - 1], Slot("", ""));
      NextWrappers(before, last, s');
      NextMembers(before, last, s');
      NextEnvelopes(before, last, s');
    }
  }
}
