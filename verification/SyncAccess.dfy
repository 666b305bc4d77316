/** Token revocation at a vault: stored records, a cache in front of them, and the open sockets. */
module SyncAccess {
  import opened Wrappers
  import opened Ordering

  type Key = string

  const VAULT_SUSPENSION_KEY: Key := "vault"

  function UserKey(userId: string): Key {
    "user:" + userId
  }

  /** A suspension has no minimum version. */
  datatype Record = Record(minimumVersion: Option<nat>, expiresAt: nat)
  type Records = map<Key, Record>

  datatype Decision = Allowed | Suspended | Denied

  datatype Session = Session(userId: string, accessVersion: Option<nat>)
  type Sockets = map<string, Session>

  datatype Grant = Grant(userId: string, accessVersion: nat)
  datatype Snapshot = Snapshot(suspended: bool, grants: seq<Grant>)

  /** Tokens issued before versions existed count as version one. */
  function VersionOf(session: Session): nat {
    if session.accessVersion.Some? then session.accessVersion.value else 1
  }

  function Live(store: Records, now: nat): Records {
    map k | k in store && store[k].expiresAt > now :: store[k]
  }

  predicate Unexpired(store: Records, k: Key, now: nat) {
    k in store && store[k].expiresAt > now
  }

  /** The reference: a direct scan of the stored records that have not expired. */
  function Decide(store: Records, now: nat, userId: string, version: nat): Decision {
    if Unexpired(store, VAULT_SUSPENSION_KEY, now) then Suspended
    else if Unexpired(store, UserKey(userId), now) && store[UserKey(userId)].minimumVersion.Some?
            && version < store[UserKey(userId)].minimumVersion.value then Denied
    else Allowed
  }

  lemma KeysDistinct(a: string, b: string)
    ensures UserKey(a) != VAULT_SUSPENSION_KEY
    ensures UserKey(a) == UserKey(b) <==> a == b
  {
    assert UserKey(a)[0] == 'u' && VAULT_SUSPENSION_KEY[0] == 'v';
    assert UserKey(a)[5..] == a && UserKey(b)[5..] == b;
  }

  // ---- the writes of a refresh ----

  function Max(a: nat, b: nat): nat {
    if a < b then b else a
  }

  /** The record for a version and an expiry, neither below the previous record's. */
  function Raised(previous: Option<Record>, version: nat, expiresAt: nat): Record {
    if previous.None? then Record(Some(version), expiresAt)
    else
      var minimum := if previous.value.minimumVersion.Some? then previous.value.minimumVersion.value else 0;
      Record(Some(Max(version, minimum)), Max(expiresAt, previous.value.expiresAt))
  }

  /** One grant's record: versions and expiries only ever rise above what was cached. */
  function WriteGrant(store: Records, cached: Records, expiresAt: nat, g: Grant): Records {
    store[UserKey(g.userId) := Raised(Get(cached, UserKey(g.userId)), g.accessVersion, expiresAt)]
  }

  datatype Writes = Writes(store: Records, threw: bool)

  /** `failsAt` is the position whose write throws, if one does; first versions are not written. */
  function WriteGrants(
      store: Records, cached: Records, expiresAt: nat, grants: seq<Grant>, failsAt: Option<nat>): Writes
  {
    if grants == [] then Writes(store, false)
    else
      var front, g := WriteGrants(store, cached, expiresAt, grants[..|grants| - 1], failsAt), grants[|grants| - 1];
      if front.threw || g.accessVersion <= 1 then front
      else if failsAt == Some(|grants| - 1) then front.(threw := true)
      else Writes(WriteGrant(front.store, cached, expiresAt, g), false)
  }

  /** Every grant, then the vault-wide block set or cleared. */
  function WriteSnapshot(store: Records, expiresAt: nat, snapshot: Snapshot, failsAt: Option<nat>): Writes {
    var grants := WriteGrants(store, store, expiresAt, snapshot.grants, failsAt);
    if grants.threw then grants
    else if failsAt == Some(|snapshot.grants|) then grants.(threw := true)
    else if snapshot.suspended then
      Writes(grants.store[VAULT_SUSPENSION_KEY := Record(None, expiresAt)], false)
    else Writes(grants.store - {VAULT_SUSPENSION_KEY}, false)
  }

  /** Which store accesses of a refresh succeeded. */
  datatype Outcome = Outcome(loaded: bool, reloaded: bool)

  function AllowedSockets(store: Records, sockets: Sockets, now: nat): Sockets {
    map id | id in sockets && Decide(store, now, sockets[id].userId, VersionOf(sockets[id])).Allowed? :: sockets[id]
  }

  datatype Refreshed = Refreshed(store: Records, sockets: Sockets, ok: bool)

  function RefreshResult(
      store: Records, sockets: Sockets, now: nat, lifetime: nat,
      snapshot: Option<Snapshot>, failsAt: Option<nat>, o: Outcome): Refreshed
  {
    if snapshot.None? || !o.loaded then Refreshed(store, sockets, false)
    else
      var written := WriteSnapshot(Live(store, now), now + lifetime, snapshot.value, failsAt);
      var reloaded := if o.reloaded then Live(written.store, now) else written.store;
      if written.threw || !o.reloaded then Refreshed(reloaded, sockets, false)
      else Refreshed(reloaded, AllowedSockets(reloaded, sockets, now), true)
  }

  // ---- the service object ----

  datatype Faults = Faults(readFails: bool, pruneFails: bool)

  /** The last is the vault's own refusal while it is paused for repair, where that is enforced. */
  datatype Answer = Decided(decision: Decision) | Unavailable | SyncNotAllowed

  class SyncAccessService {
    const lifetime: nat
    var store: Records
    var revocations: Option<Records>
    var nextExpiry: Option<nat>  // None: nothing will ever expire
    var sockets: Sockets

    /** The cache, once loaded, is the stored table, and knows when its first record expires. */
    ghost predicate Valid()
      reads this
    {
      revocations.Some? ==> revocations.value == store && nextExpiry == EarliestExpiry(store)
    }

    constructor (lifetime: nat, store: Records)
      ensures Valid() && this.store == store && sockets == map[] && this.lifetime == lifetime
    {
      this.lifetime, this.store := lifetime, store;
      revocations, nextExpiry, sockets := None, None, map[];
    }

    /** Reads the table if it is not cached, and discards what has expired. */
    method Load(now: nat, faults: Faults) returns (loaded: bool)
      requires Valid()
      modifies this`store, this`revocations, this`nextExpiry
      ensures Valid()
      ensures loaded ==> revocations.Some? && store == Live(old(store), now)
      ensures !loaded ==> store == old(store) && (faults.readFails || faults.pruneFails)
    {
      if revocations.None? {
        if faults.readFails { return false; }
        revocations := Some(store);
        nextExpiry := EarliestExpiry(revocations.value);
      }
      if nextExpiry.None? || nextExpiry.value > now {
        NothingExpired(store, now);
        return true;
      }
      if faults.pruneFails { return false; }
      store := Live(store, now);
      ghost var cached := revocations.value;
      var kept := revocations.value;
      var todo := kept.Keys;
      while todo != {}
        invariant todo <= cached.Keys
        invariant kept.Keys <= cached.Keys && forall k | k in kept :: kept[k] == cached[k]
        invariant forall k | k in cached :: k in kept <==> k in todo || cached[k].expiresAt > now
        invariant store == Live(old(store), now) && cached == old(store)
        decreases todo
      {
        var key :| key in todo;
        if kept[key].expiresAt <= now { kept := kept - {key}; }
        todo := todo - {key};
      }
      assert kept == Live(cached, now);
      revocations := Some(kept);
      nextExpiry := EarliestExpiry(kept);
      return true;
    }

    /** The check in memory; callers load first. */
    function Denial(userId: string, version: nat): Decision
      reads this
    {
      if revocations.None? then Allowed
      else if VAULT_SUSPENSION_KEY in revocations.value then Suspended
      else
        var revoked := Get(revocations.value, UserKey(userId));
        if revoked.Some? && revoked.value.minimumVersion.Some? && version < revoked.value.minimumVersion.value
            then Denied
        else Allowed
    }

    /** Decides as a scan of the unexpired stored records would, or says the store is out of reach; a
        vault that does not allow sync refuses before anything is read. */
    method Require(now: nat, syncAllowed: bool, userId: string, version: nat, faults: Faults) returns (answer: Answer)
      requires Valid()
      modifies this`store, this`revocations, this`nextExpiry
      ensures Valid()
      ensures answer.SyncNotAllowed? <==> !syncAllowed
      ensures answer.Decided? ==> answer.decision == Decide(old(store), now, userId, version)
      ensures store == if answer.Decided? then Live(old(store), now) else old(store)
      ensures answer.Unavailable? ==> faults.readFails || faults.pruneFails
    {
      if !syncAllowed { return SyncNotAllowed; }
      var loaded := Load(now, faults);
      if !loaded { return Unavailable; }
      answer := Decided(Denial(userId, version));
    }

    /** A socket is accepted with the check and the acceptance in one step. */
    method OpenSocket(now: nat, syncAllowed: bool, id: string, session: Session, faults: Faults)
        returns (answer: Answer)
      requires Valid()
      modifies this
      ensures Valid()
      ensures answer.SyncNotAllowed? <==> !syncAllowed
      ensures answer.Decided? ==> answer.decision == Decide(old(store), now, session.userId, VersionOf(session))
      ensures answer.Unavailable? ==> faults.readFails || faults.pruneFails
      ensures sockets == if answer == Decided(Allowed) then old(sockets)[id := session] else old(sockets)
      ensures store == if answer.Decided? then Live(old(store), now) else old(store)
    {
      answer := Require(now, syncAllowed, session.userId, VersionOf(session), faults);
      if answer == Decided(Allowed) { sockets := sockets[id := session]; }
    }

    /** Applies one snapshot. Whatever goes wrong, the cache is dropped and read again. */
    method Refresh(now: nat, snapshot: Option<Snapshot>, failsAt: Option<nat>, first: Faults, last: Faults)
        returns (ok: bool, o: Outcome)
      requires Valid()
      modifies this
      ensures Valid()
      ensures Refreshed(store, sockets, ok)
              == RefreshResult(old(store), old(sockets), now, lifetime, snapshot, failsAt, o)
      ensures snapshot.Some? && !o.loaded ==> first.readFails || first.pruneFails
      ensures snapshot.Some? && o.loaded && !o.reloaded ==> last.readFails || last.pruneFails
    {
      o := Outcome(true, true);
      if snapshot.None? { return false, o; }
      var loaded := Load(now, first);
      if !loaded { return false, Outcome(false, true); }
      var threw := WriteAll(now + lifetime, snapshot.value, failsAt);
      revocations := None;
      var reloaded := Load(now, last);
      o := Outcome(true, reloaded);
      if threw || !reloaded { return false, o; }
      CloseDenied(now);
      ok := true;
    }

    /** The loop over grants. Previous values come from the cache, which the writes do not touch. */
    method WriteAll(expiresAt: nat, snapshot: Snapshot, failsAt: Option<nat>) returns (threw: bool)
      requires Valid() && revocations.Some?
      modifies this`store
      ensures Writes(store, threw) == WriteSnapshot(old(store), expiresAt, snapshot, failsAt)
    {
      var grants := snapshot.grants;
      ghost var before := store;
      for i := 0 to |grants|
        invariant revocations == Some(before)
        invariant Writes(store, false) == WriteGrants(before, before, expiresAt, grants[..i], failsAt)
      {
        assert grants[..i + 1][..i] == grants[..i];
        var g := grants[i];
        if g.accessVersion <= 1 { continue; }
        if failsAt == Some(i) {
          ThrowStays(before, before, expiresAt, grants, failsAt, i + 1);
          return true;
        }
        var previous := Get(revocations.value, UserKey(g.userId));
        store := store[UserKey(g.userId) := Raised(previous, g.accessVersion, expiresAt)];
      }
      assert grants[..|grants|] == grants;
      if failsAt == Some(|grants|) { return true; }
      if snapshot.suspended {
        store := store[VAULT_SUSPENSION_KEY := Record(None, expiresAt)];
      } else {
        store := store - {VAULT_SUSPENSION_KEY};
      }
      threw := false;
    }

    method CloseDenied(now: nat)
      requires Valid() && revocations.Some? && store == Live(store, now)
      modifies this`sockets
      ensures sockets == AllowedSockets(store, old(sockets), now)
    {
      var open := sockets;
      var todo := open.Keys;
      while todo != {}
        invariant todo <= open.Keys
        invariant sockets == map id | id in open
            && (id in todo || Denial(open[id].userId, VersionOf(open[id])).Allowed?) :: open[id]
        decreases todo
      {
        var id :| id in todo;
        if !Denial(open[id].userId, VersionOf(open[id])).Allowed? { sockets := sockets - {id}; }
        todo := todo - {id};
      }
      forall s: Session
        ensures Denial(s.userId, VersionOf(s)) == Decide(store, now, s.userId, VersionOf(s))
      {
        assert forall k | k in store :: k in Live(store, now);
      }
    }
  }

  function EarliestExpiry(records: Records): (e: Option<nat>)
    ensures e.None? <==> records == map[]
    ensures e.Some? ==> forall k | k in records :: e.value <= records[k].expiresAt
  {
    if records == map[] then None
    else
      var expiries := set k | k in records :: records[k].expiresAt;
      assert forall k | k in records :: records[k].expiresAt in expiries;
      Some(MinOf(expiries))
  }

  lemma NothingExpired(store: Records, now: nat)
    requires EarliestExpiry(store).None? || EarliestExpiry(store).value > now
    ensures Live(store, now) == store
  {
  }

  lemma {:induction false} ThrowStays(
      store: Records, cached: Records, expiresAt: nat, grants: seq<Grant>, failsAt: Option<nat>, i: nat)
    requires i <= |grants| && WriteGrants(store, cached, expiresAt, grants[..i], failsAt).threw
    ensures WriteGrants(store, cached, expiresAt, grants, failsAt)
        == WriteGrants(store, cached, expiresAt, grants[..i], failsAt)
    decreases |grants|
  {
    if i < |grants| {
      var front := grants[..|grants| - 1];
      assert front[..i] == grants[..i];
      ThrowStays(store, cached, expiresAt, front, failsAt, i);
    } else {
      assert grants[..i] == grants;
    }
  }

  // ---- what the records come to ----

  /** Pruning is invisible: it leaves no expired record, and changes no decision then or later. */
  lemma PruningInvisible(store: Records, now: nat, later: nat, userId: string, version: nat)
    requires now <= later
    ensures forall k | k in Live(store, now) :: Live(store, now)[k].expiresAt > now
    ensures Decide(Live(store, now), later, userId, version) == Decide(store, later, userId, version)
  {
  }

  /** A token without a version counts as one of the first version: it is denied exactly where the user's
      unexpired record demands more than that. */
  lemma LegacyTokens(store: Records, now: nat, userId: string)
    ensures Decide(store, now, userId, VersionOf(Session(userId, None))).Denied?
            <==> && !Unexpired(store, VAULT_SUSPENSION_KEY, now) && Unexpired(store, UserKey(userId), now)
                 && store[UserKey(userId)].minimumVersion.Some? && store[UserKey(userId)].minimumVersion.value > 1
    ensures Decide(store, now, userId, VersionOf(Session(userId, Some(1))))
            == Decide(store, now, userId, VersionOf(Session(userId, None)))
  {
  }

  /** A refresh writes records for members whose version has been raised, and for nobody else. */
  lemma {:induction false} OnlyRaisedAreWritten(
      store: Records, cached: Records, expiresAt: nat, grants: seq<Grant>, failsAt: Option<nat>, k: Key)
    requires var s' := WriteGrants(store, cached, expiresAt, grants, failsAt).store; Get(s', k) != Get(store, k)
    ensures exists i :: 0 <= i < |grants| && grants[i].accessVersion > 1 && UserKey(grants[i].userId) == k
  {
    if grants != [] {
      var front := grants[..|grants| - 1];
      if Get(WriteGrants(store, cached, expiresAt, front, failsAt).store, k) != Get(store, k) {
        OnlyRaisedAreWritten(store, cached, expiresAt, front, failsAt, k);
        var i :| 0 <= i < |front| && front[i].accessVersion > 1 && UserKey(front[i].userId) == k;
        assert grants[i] == front[i];
      } else {
        assert grants[|grants| - 1].accessVersion > 1;
      }
    }
  }

  // ---- whole runs ----

  datatype State = State(records: Records, sockets: Sockets, clean: bool, clock: nat)

  datatype Action =
    | Apply(snapshot: Option<Snapshot>, failsAt: Option<nat>, o: Outcome)
    | Open(id: string, session: Session, loaded: bool)
    | Check(loaded: bool)
    | Close(id: string)

  datatype Event = Event(delay: nat, action: Action)

  function Act(s: State, now: nat, lifetime: nat, a: Action): State {
    var records := Live(s.records, now);
    match a
    case Apply(snapshot, failsAt, o) =>
      var r := RefreshResult(s.records, s.sockets, now, lifetime, snapshot, failsAt, o);
      State(r.store, r.sockets, r.ok, now)
    case Open(id, session, loaded) =>
      if !loaded then s.(clock := now)
      else if Decide(s.records, now, session.userId, VersionOf(session)).Allowed? then
        s.(clock := now, records := records, sockets := s.sockets[id := session])
      else s.(clock := now, records := records)
    case Check(loaded) => s.(clock := now, records := if loaded then records else s.records)
    case Close(id) => s.(clock := now, sockets := s.sockets - {id})
  }

  /** When an event takes place. */
  function TimeOf(s: State, ev: Event): nat {
    s.clock + ev.delay
  }

  function Run(s: State, lifetime: nat, evs: seq<Event>): State {
    if evs == [] then s
    else
      var before := Run(s, lifetime, evs[..|evs| - 1]);
      Act(before, TimeOf(before, evs[|evs| - 1]), lifetime, evs[|evs| - 1].action)
  }

  lemma {:induction false} ClockGrows(s: State, lifetime: nat, evs: seq<Event>)
    ensures Run(s, lifetime, evs).clock >= s.clock
  {
    if evs != [] {
      ClockGrows(s, lifetime, evs[..|evs| - 1]);
    }
  }

  // ---- versions never fall ----

  /** A user's record demands at least `minimum` and lasts at least until `expiresAt`. */
  ghost predicate Blocks(store: Records, userId: string, minimum: nat, expiresAt: nat) {
    var k := UserKey(userId);
    k in store && store[k].minimumVersion.Some? && store[k].minimumVersion.value >= minimum
        && store[k].expiresAt >= expiresAt
  }

  lemma {:induction false} GrantsKeepBlocks(
      store: Records, expiresAt: nat, grants: seq<Grant>, failsAt: Option<nat>, u: string, minimum: nat, until: nat)
    requires Blocks(store, u, minimum, until)
    ensures Blocks(WriteGrants(store, store, expiresAt, grants, failsAt).store, u, minimum, until)
  {
    if grants != [] {
      GrantsKeepBlocks(store, expiresAt, grants[..|grants| - 1], failsAt, u, minimum, until);
      KeysDistinct(u, grants[|grants| - 1].userId);
    }
  }

  lemma RefreshKeepsBlocks(
      store: Records, sockets: Sockets, now: nat, lifetime: nat, snapshot: Option<Snapshot>, failsAt: Option<nat>,
      o: Outcome, u: string, minimum: nat, until: nat)
    requires Blocks(store, u, minimum, until) && now < until
    ensures Blocks(RefreshResult(store, sockets, now, lifetime, snapshot, failsAt, o).store, u, minimum, until)
  {
    if snapshot.Some? && o.loaded {
      GrantsKeepBlocks(Live(store, now), now + lifetime, snapshot.value.grants, failsAt, u, minimum, until);
      KeysDistinct(u, u);
    }
  }

  lemma ActKeepsBlocks(s: State, now: nat, lifetime: nat, a: Action, s': State, u: string, minimum: nat, until: nat)
    requires Blocks(s.records, u, minimum, until) && now < until && s' == Act(s, now, lifetime, a)
    ensures Blocks(s'.records, u, minimum, until)
  {
    if a.Apply? {
      RefreshKeepsBlocks(s.records, s.sockets, now, lifetime, a.snapshot, a.failsAt, a.o, u, minimum, until);
    }
  }

  /** Until a user's record expires nothing lowers it: not another snapshot, however old, not a
      refresh that fails half way, not the renewal of the vault. */
  lemma {:induction false} MinimumNeverFalls(
      s: State, lifetime: nat, evs: seq<Event>, u: string, minimum: nat, until: nat)
    requires Blocks(s.records, u, minimum, until)
    ensures var s' := Run(s, lifetime, evs);
            s'.clock < until ==> Blocks(s'.records, u, minimum, until)
  {
    if evs != [] {
      MinimumNeverFalls(s, lifetime, evs[..|evs| - 1], u, minimum, until);
      var before, ev := Run(s, lifetime, evs[..|evs| - 1]), evs[|evs| - 1];
      var now := TimeOf(before, ev);
      if now < until {
        ActKeepsBlocks(before, now, lifetime, ev.action, Act(before, now, lifetime, ev.action), u, minimum, until);
      }
    }
  }

  /** No record lasts beyond `until`. */
  ghost predicate EndsBy(store: Records, until: nat) {
    forall k | k in store :: store[k].expiresAt <= until
  }

  lemma {:induction false} GrantsEndBy(
      store: Records, cached: Records, expiresAt: nat, grants: seq<Grant>, failsAt: Option<nat>, until: nat)
    requires EndsBy(store, until) && EndsBy(cached, until) && expiresAt <= until
    ensures EndsBy(WriteGrants(store, cached, expiresAt, grants, failsAt).store, until)
  {
    if grants != [] {
      GrantsEndBy(store, cached, expiresAt, grants[..|grants| - 1], failsAt, until);
    }
  }

  lemma SnapshotEndsBy(
      store: Records, expiresAt: nat, snapshot: Snapshot, failsAt: Option<nat>, until: nat)
    requires EndsBy(store, until) && expiresAt <= until
    ensures EndsBy(WriteSnapshot(store, expiresAt, snapshot, failsAt).store, until)
  {
    GrantsEndBy(store, store, expiresAt, snapshot.grants, failsAt, until);
  }

  lemma ActEndsBy(s: State, now: nat, lifetime: nat, a: Action, until: nat)
    requires EndsBy(s.records, until) && now + lifetime <= until
    ensures EndsBy(Act(s, now, lifetime, a).records, until)
  {
    if a.Apply? && a.snapshot.Some? {
      SnapshotEndsBy(Live(s.records, now), now + lifetime, a.snapshot.value, a.failsAt, until);
    }
  }

  /** A block lasts no longer than a token can: over any run no record reaches further than a token
      lifetime ahead, or than the records reached to begin with. */
  lemma {:induction false} BlocksEnd(s: State, lifetime: nat, evs: seq<Event>, until: nat, s': State)
    requires EndsBy(s.records, until) && s' == Run(s, lifetime, evs) && s'.clock + lifetime <= until
    ensures EndsBy(s'.records, until)
  {
    if evs != [] {
      var before, last := Run(s, lifetime, evs[..|evs| - 1]), evs[|evs| - 1];
      BlocksEnd(s, lifetime, evs[..|evs| - 1], until, before);
      ActEndsBy(before, TimeOf(before, last), lifetime, last.action, until);
    }
  }

  ghost predicate UsersDistinct(grants: seq<Grant>) {
    forall i, j | 0 <= i < j < |grants| :: grants[i].userId != grants[j].userId
  }

  lemma {:induction false} GrantIsWritten(
      store: Records, expiresAt: nat, grants: seq<Grant>, failsAt: Option<nat>, i: nat)
    requires i < |grants| && grants[i].accessVersion > 1 && UsersDistinct(grants)
    requires !WriteGrants(store, store, expiresAt, grants, failsAt).threw
    ensures Blocks(WriteGrants(store, store, expiresAt, grants, failsAt).store,
                   grants[i].userId, grants[i].accessVersion, expiresAt)
  {
    var front, last := grants[..|grants| - 1], grants[|grants| - 1];
    if i < |grants| - 1 {
      assert front[i] == grants[i];
      GrantIsWritten(store, expiresAt, front, failsAt, i);
      KeysDistinct(grants[i].userId, last.userId);
    }
  }

  lemma RefreshBlocks(
      store: Records, sockets: Sockets, now: nat, lifetime: nat, snapshot: Snapshot, failsAt: Option<nat>,
      o: Outcome, i: nat, r: Refreshed)
    requires r == RefreshResult(store, sockets, now, lifetime, Some(snapshot), failsAt, o) && r.ok && lifetime > 0
    requires i < |snapshot.grants| && snapshot.grants[i].accessVersion > 1 && UsersDistinct(snapshot.grants)
    ensures Blocks(r.store, snapshot.grants[i].userId, snapshot.grants[i].accessVersion, now + lifetime)
  {
    GrantIsWritten(Live(store, now), now + lifetime, snapshot.grants, failsAt, i);
    KeysDistinct(snapshot.grants[i].userId, snapshot.grants[i].userId);
  }

  lemma BlockedIsDenied(store: Records, now: nat, u: string, minimum: nat, until: nat, version: nat)
    requires Blocks(store, u, minimum, until) && now < until && version < minimum
    ensures !Decide(store, now, u, version).Allowed?
  {
  }

  /** Once a refresh has succeeded, every token older than a granted version is refused until it
      expires, through any later refreshes, failures, renewals, checks and restarts of the cache. */
  lemma RevokedUntilExpiry(s: State, lifetime: nat, ev: Event, evs: seq<Event>, i: nat, version: nat)
    requires ev.action.Apply? && Run(s, lifetime, [ev]).clean
    requires ev.action.snapshot.Some? && i < |ev.action.snapshot.value.grants|
    requires UsersDistinct(ev.action.snapshot.value.grants)
    requires 1 < ev.action.snapshot.value.grants[i].accessVersion
    requires version < ev.action.snapshot.value.grants[i].accessVersion
    ensures var refreshedAt := TimeOf(s, ev);
            var s' := Run(Run(s, lifetime, [ev]), lifetime, evs);
            s'.clock < refreshedAt + lifetime ==>
              !Decide(s'.records, s'.clock, ev.action.snapshot.value.grants[i].userId, version).Allowed?
  {
    var now := TimeOf(s, ev);
    var mid := Run(s, lifetime, [ev]);
    assert [ev][..0] == [] && Run(s, lifetime, []) == s;
    assert mid == Act(s, now, lifetime, ev.action);
    var g := ev.action.snapshot.value.grants[i];
    ClockGrows(mid, lifetime, evs);
    if Run(mid, lifetime, evs).clock < now + lifetime {
      RefreshBlocks(s.records, s.sockets, now, lifetime, ev.action.snapshot.value, ev.action.failsAt, ev.action.o, i,
                    RefreshResult(s.records, s.sockets, now, lifetime, ev.action.snapshot, ev.action.failsAt,
                        ev.action.o));
      MinimumNeverFalls(mid, lifetime, evs, g.userId, g.accessVersion, now + lifetime);
      BlockedIsDenied(Run(mid, lifetime, evs).records, Run(mid, lifetime, evs).clock, g.userId, g.accessVersion,
                      now + lifetime, version);
    }
  }

  // ---- nobody else is refused ----

  lemma {:induction false} GrantsKeepSuspension(store: Records, expiresAt: nat, grants: seq<Grant>,
      failsAt: Option<nat>)
    ensures Get(WriteGrants(store, store, expiresAt, grants, failsAt).store, VAULT_SUSPENSION_KEY)
            == Get(store, VAULT_SUSPENSION_KEY)
  {
    if grants != [] {
      GrantsKeepSuspension(store, expiresAt, grants[..|grants| - 1], failsAt);
      KeysDistinct(grants[|grants| - 1].userId, "");
    }
  }

  /** After a successful refresh the vault is suspended exactly if the snapshot says so. */
  lemma SuspensionFollowsSnapshot(
      store: Records, sockets: Sockets, now: nat, lifetime: nat, snapshot: Snapshot, failsAt: Option<nat>, o: Outcome,
      r: Refreshed, userId: string, version: nat)
    requires r == RefreshResult(store, sockets, now, lifetime, Some(snapshot), failsAt, o) && r.ok && lifetime > 0
    ensures Decide(r.store, now, userId, version).Suspended? <==> snapshot.suspended
  {
    GrantsKeepSuspension(Live(store, now), now + lifetime, snapshot.grants, failsAt);
  }

  /** No record of the user demands more than `version`. */
  ghost predicate AtMost(store: Records, userId: string, version: nat) {
    var k := UserKey(userId);
    k in store && store[k].minimumVersion.Some? ==> store[k].minimumVersion.value <= version
  }

  lemma {:induction false} GrantsStayAtMost(
      store: Records, expiresAt: nat, grants: seq<Grant>, failsAt: Option<nat>, u: string, version: nat)
    requires AtMost(store, u, version)
    requires forall i | 0 <= i < |grants| && grants[i].userId == u :: grants[i].accessVersion <= version
    ensures AtMost(WriteGrants(store, store, expiresAt, grants, failsAt).store, u, version)
  {
    if grants != [] {
      GrantsStayAtMost(store, expiresAt, grants[..|grants| - 1], failsAt, u, version);
      KeysDistinct(u, grants[|grants| - 1].userId);
    }
  }

  /** A token at the granted version or above stays good: a refresh that succeeds with the vault not
      suspended refuses it only if an earlier record already demanded more. */
  lemma CurrentTokensAllowed(
      store: Records, sockets: Sockets, now: nat, lifetime: nat, snapshot: Snapshot, failsAt: Option<nat>, o: Outcome,
      r: Refreshed, u: string, version: nat)
    requires r == RefreshResult(store, sockets, now, lifetime, Some(snapshot), failsAt, o) && r.ok
    requires !snapshot.suspended && AtMost(Live(store, now), u, version)
    requires forall i | 0 <= i < |snapshot.grants| && snapshot.grants[i].userId == u ::
               snapshot.grants[i].accessVersion <= version
    ensures Decide(r.store, now, u, version).Allowed?
  {
    GrantsStayAtMost(Live(store, now), now + lifetime, snapshot.grants, failsAt, u, version);
    KeysDistinct(u, "");
  }

  // ---- sockets ----

  ghost predicate SocketsAllowed(s: State) {
    forall id | id in s.sockets :: Decide(s.records, s.clock, s.sockets[id].userId, VersionOf(s.sockets[id])).Allowed?
  }

  /** Time passing and records being discarded never deny a session that was allowed. */
  lemma ActKeepsSockets(s: State, now: nat, lifetime: nat, a: Action, s': State)
    requires (s.clean ==> SocketsAllowed(s)) && s.clock <= now && s' == Act(s, now, lifetime, a)
    ensures s'.clean ==> SocketsAllowed(s')
  {
    forall store: Records, u: string, v: nat | Decide(store, s.clock, u, v).Allowed?
      ensures Decide(store, now, u, v).Allowed? && Decide(Live(store, now), now, u, v).Allowed?
    {
    }
  }

  /** A refresh that succeeds closes exactly the sockets its records deny, and one that fails closes none;
      a new socket is opened exactly if the records at hand allow it, and nothing else is. */
  lemma SocketsExactly(s: State, now: nat, lifetime: nat, a: Action, id: string, s': State)
    requires s' == Act(s, now, lifetime, a)
    ensures var admitted := a.Open? && a.loaded && a.id == id
                          && Decide(s.records, now, a.session.userId, VersionOf(a.session)).Allowed?;
            var denied := || (a.Close? && a.id == id)
                          || (a.Apply? && s'.clean && id in s.sockets
                              && !Decide(s'.records, now, s.sockets[id].userId, VersionOf(s.sockets[id])).Allowed?);
            Get(s'.sockets, id) == if admitted then Some(a.session) else if denied then None else Get(s.sockets, id)
  {
  }

  /** With the last refresh a success, no open socket is one the records deny: neither one that was
      open before it nor one accepted since. */
  lemma {:induction false} NoDeniedSocketOpen(s: State, lifetime: nat, evs: seq<Event>)
    requires s.clean ==> SocketsAllowed(s)
    ensures Run(s, lifetime, evs).clean ==> SocketsAllowed(Run(s, lifetime, evs))
  {
    if evs != [] {
      NoDeniedSocketOpen(s, lifetime, evs[..|evs| - 1]);
      var before, ev := Run(s, lifetime, evs[..|evs| - 1]), evs[|evs| - 1];
      ActKeepsSockets(before, TimeOf(before, ev), lifetime, ev.action, Run(s, lifetime, evs));
    }
  }
}
