/** What a finished pull is good for: the device can edit what it has, learns what others committed, and
    knows how much is still to come. */
module Pulls {
  import opened Wrappers
  import opened Tables
  import opened Services
  import opened Ordering
  import opened Lifecycle
  import opened Accounting
  import opened Runs
  import opened Evolution
  import opened Commits
  import opened DeltaPull

  // ---- editing what was pulled ----

  /** The revision the device bases an edit on. */
  function BaseOf(replica: Replica, e: EntryId): nat {
    if e in replica then replica[e].revision else 0
  }

  /** An edit based on what a finished pull delivered is applied, on the server as it is by then, if the
      store and the rows have its blob. */
  lemma PulledEditApplies(
      w: World, p: Puller, rounds: seq<Round>, w': World, p': Puller, ctx: Context, m: Mutation, e: EntryId)
    requires Inv(w) && !p.done && !p.rejected && p.after.None?
    requires p.since <= p.target <= w.db.cursor && Agrees(p.replica, w.db, p.ids, p.since)
    requires forall i | 0 <= i < |rounds| :: rounds[i].limit >= 1
    requires (w', p') == PullRun(w, p, rounds) && p'.done
    requires e in w'.db.entries && InScope(p.ids, e) && w'.db.entries[e].updatedSeq <= p.target
    requires m.entryId == e && m.baseRevision == BaseOf(p'.replica, e) && !IsLast(w'.db, m)
    ensures Decide(w'.db, ctx, m).Apply?
    ensures Available(w'.db, ctx, m.content) ==> CommitOne(w'.db, ctx, m).1.Accepted?
  {
    DeltaPullConverges(w, p, rounds, w', p');
    assert Shows(w'.db, e, p'.replica[e]);
  }

  /** After a full pull this covers new entries too: the device may base an edit of any entry on what it
      has, or on nothing. */
  lemma AnyEditApplies(w: World, p: Puller, rounds: seq<Round>, w': World, p': Puller, ctx: Context, m: Mutation)
    requires Inv(w) && !p.done && !p.rejected && p.after.None? && p.ids.None?
    requires p.since <= p.target <= w.db.cursor
    requires Agrees(p.replica, w.db, p.ids, p.since) && p.replica.Keys <= w.db.entries.Keys
    requires forall i | 0 <= i < |rounds| :: rounds[i].limit >= 1
    requires (w', p') == PullRun(w, p, rounds) && p'.done && w'.db.cursor == p.target
    requires m.baseRevision == BaseOf(p'.replica, m.entryId) && !IsLast(w'.db, m)
    ensures Decide(w'.db, ctx, m).Apply?
  {
    ReplicaEqualsServer(w, p, rounds);
  }

  /** Edits never overwrite what the device has not seen: based on a state the server showed at some
      time, an edit is applied after any further run exactly if nothing has changed the entry since. */
  lemma EditAppliesIffUnchanged(w: World, evs: seq<Event>, w': World, s: EntryState, ctx: Context, m: Mutation)
    requires Inv(w) && w' == Run(w, evs) && Shows(w.db, m.entryId, s)
    requires m.baseRevision == s.revision && !IsLast(w'.db, m)
    ensures Decide(w'.db, ctx, m).Apply? <==> Get(w'.db.entries, m.entryId) == Get(w.db.entries, m.entryId)
  {
    RunEvolves(w, evs);
  }

  // ---- learning what others committed ----

  /** Everything that happened during a pull, in order. */
  function AllEvents(rounds: seq<Round>): seq<Event> {
    if rounds == [] then [] else AllEvents(rounds[..|rounds| - 1]) + rounds[|rounds| - 1].events
  }

  lemma {:induction false} RunTwice(w: World, a: seq<Event>, b: seq<Event>)
    ensures Run(w, a + b) == Run(Run(w, a), b)
    decreases |b|
  {
    if b == [] {
      assert a + b == a;
    } else {
      RunTwice(w, a, b[..|b| - 1]);
      assert (a + b)[..|a + b| - 1] == a + b[..|b| - 1];
    }
  }

  lemma {:induction false} PullRunIsRun(w: World, p: Puller, rounds: seq<Round>)
    ensures PullRun(w, p, rounds).0 == Run(w, AllEvents(rounds))
  {
    if rounds != [] {
      var front := rounds[..|rounds| - 1];
      PullRunIsRun(w, p, front);
      RunTwice(w, AllEvents(front), rounds[|rounds| - 1].events);
    }
  }

  /** The state tells what the mutation said. */
  ghost predicate Tells(s: EntryState, m: Mutation, at: nat, updatedSeq: nat) {
    && s.content == m.content && s.metadata == m.metadata && s.revision == m.baseRevision + 1
    && s.updatedAt == at && s.updatedSeq == updatedSeq
  }

  /** A pull that follows a commit delivers it: content, metadata and revision as the mutation said,
      unless another applied mutation of that entry comes in between. */
  lemma {:induction false} PullDeliversCommit(
      w: World, now: nat, c: Command, i: nat, e: EntryId, written: World, p: Puller, rounds: seq<Round>,
      w': World, p': Puller)
    requires Inv(w) && w.clock <= now && Writes(w, now, c, i, e) && written == Exec(w, now, c)
    requires !p.done && !p.rejected && p.after.None? && InScope(p.ids, e)
    requires p.since <= p.target <= written.db.cursor && Agrees(p.replica, written.db, p.ids, p.since)
    requires forall k | 0 <= k < |rounds| :: rounds[k].limit >= 1
    requires forall k | 0 <= k < |AllEvents(rounds)| :: !TouchesAt(written, AllEvents(rounds), k, e)
    requires (w', p') == PullRun(written, p, rounds) && p'.done
    requires PlaceOf(w, now, c, i) <= p.target
    ensures e in p'.replica
    ensures Tells(p'.replica[e], BatchOf(w, now, c).value[i], now, PlaceOf(w, now, c, i))
  {
    ExecInv(w, now, c, written);
    PullRunIsRun(written, p, rounds);
    LastWriteStands(w, now, c, i, e, written, AllEvents(rounds), w');
    DeltaPullConverges(written, p, rounds, w', p');
    assert Shows(w'.db, e, p'.replica[e]);
  }

  /** The place a mutation of a command takes in the order of updates. */
  function PlaceOf(w: World, now: nat, c: Command, i: nat): nat
    requires BatchOf(w, now, c).Some? && i < |BatchOf(w, now, c).value|
  {
    At(w.db, ContextFor(w, now, c), BatchOf(w, now, c).value, i).cursor + 1
  }

  // ---- how much is still to come ----

  ghost function Between(db: Db, ids: Option<set<EntryId>>, after: nat, upTo: nat): set<EntryId> {
    set e | e in db.entries && InScope(ids, e) && after < db.entries[e].updatedSeq <= upTo
  }

  /** The entries the next page of the pull sends. */
  function NextIds(db: Db, p: Puller, limit: nat): seq<EntryId> {
    var page := ListEntryStates(db, PageRequest(p.since, Some(p.target), p.after, limit, p.ids));
    if page.Page? then page.entryIds else []
  }

  /** What the query of a page returns, one row more than the page holds: rows of `keys`, in order, and
      none left out before the last. */
  ghost predicate FirstRows(db: Db, keys: set<EntryId>, n: nat, rows: seq<EntryId>)
    requires keys <= db.entries.Keys
  {
    && |rows| <= n + 1
    && (forall i | 0 <= i < |rows| :: rows[i] in keys)
    && (forall i, j | 0 <= i < j < |rows| ::
          rows[i] != rows[j] && db.entries[rows[i]].updatedSeq < db.entries[rows[j]].updatedSeq)
    && (forall e | e in keys && e !in rows ::
          |rows| == n + 1 && db.entries[rows[n]].updatedSeq < db.entries[e].updatedSeq)
  }

  lemma RowsInOrder(db: Db, keys: set<EntryId>, n: nat, rows: seq<EntryId>)
    requires Linear(db) && keys <= db.entries.Keys && rows == Select(keys, SeqRank(db.entries), n)
    ensures forall i | 0 <= i < |rows| :: rows[i] in db.entries
    ensures forall i, j | 0 <= i < j < |rows| ::
              rows[i] != rows[j] && db.entries[rows[i]].updatedSeq < db.entries[rows[j]].updatedSeq
  {
    var rank := SeqRank(db.entries);
    SelectIsPage(keys, rank, n);
    forall i, j | 0 <= i < j < |rows|
      ensures rows[i] != rows[j] && db.entries[rows[i]].updatedSeq < db.entries[rows[j]].updatedSeq
    {
      assert Before(rank, rows[i], rows[j]);
    }
  }

  lemma SelectedFirst(db: Db, keys: set<EntryId>, n: nat, rows: seq<EntryId>)
    requires Linear(db) && keys <= db.entries.Keys && n >= 1 && rows == Select(keys, SeqRank(db.entries), n + 1)
    ensures FirstRows(db, keys, n, rows)
  {
    RowsBySequence(db, keys, n, rows);
    RowsInOrder(db, keys, n + 1, rows);
  }

  lemma RowsAreFirst(db: Db, p: Puller, n: nat, rows: seq<EntryId>)
    requires PullInv(db, p) && Linear(db) && n >= 1 && !p.done
    requires rows == PageRows(db, p.since, p.target, p.after, p.ids, n)
    ensures FirstRows(db, Between(db, p.ids, Frontier(p), p.target), n, rows)
  {
    var keys := Candidates(db, p.since, p.target, p.after, p.ids);
    forall e ensures e in keys <==> e in Between(db, p.ids, Frontier(p), p.target) {
      CandidatesBeyond(db, p, e);
    }
    assert keys == Between(db, p.ids, Frontier(p), p.target);
    SelectedFirst(db, keys, n, rows);
  }

  /** A page that is cut off sends everything up to its last row, and the last page everything. */
  lemma SentIsBetween(
      db: Db, ids: Option<set<EntryId>>, after: nat, target: nat, n: nat, rows: seq<EntryId>, page: seq<EntryId>,
      upTo: nat)
    requires FirstRows(db, Between(db, ids, after, target), n, rows) && n >= 1
    requires if |rows| > n then page == rows[..n] && upTo == db.entries[rows[n - 1]].updatedSeq
             else page == rows && upTo == target
    ensures |page| == |Between(db, ids, after, upTo)|
  {
    forall e ensures e in page <==> e in Between(db, ids, after, upTo) {
      SentExactly(db, ids, after, target, n, rows, page, upTo, e);
    }
    assert (set e | e in page) == Between(db, ids, after, upTo);
    SetOfSeq(page);
  }

  lemma SentExactly(
      db: Db, ids: Option<set<EntryId>>, after: nat, target: nat, n: nat, rows: seq<EntryId>, page: seq<EntryId>,
      upTo: nat, e: EntryId)
    requires FirstRows(db, Between(db, ids, after, target), n, rows) && n >= 1
    requires if |rows| > n then page == rows[..n] && upTo == db.entries[rows[n - 1]].updatedSeq
             else page == rows && upTo == target
    ensures e in page <==> e in Between(db, ids, after, upTo)
  {
    if e in Between(db, ids, after, upTo) {
      assert e in Between(db, ids, after, target) && e in rows;
      var i :| 0 <= i < |rows| && rows[i] == e;
      assert i < |page| && page[i] == e;
    }
    if i :| 0 <= i < |page| && page[i] == e {
      assert rows[i] == e;
    }
  }

  lemma PageIsBetween(db: Db, p: Puller, limit: nat, p': Puller)
    requires PullInv(db, p) && Linear(db) && limit >= 1 && !p.done && p' == PullPage(db, p, limit)
    ensures |NextIds(db, p, limit)| == |Between(db, p.ids, Frontier(p), Frontier(p'))|
  {
    var n := EffectiveLimit(limit);
    var rows := PageRows(db, p.since, p.target, p.after, p.ids, n);
    RowsAreFirst(db, p, n, rows);
    PullPageShape(db, p, limit, n, rows, p');
    NextIdsShape(db, p, limit, n, rows);
    SentIsBetween(db, p.ids, Frontier(p), p.target, n, rows, NextIds(db, p, limit), Frontier(p'));
  }

  lemma NextIdsShape(db: Db, p: Puller, limit: nat, n: nat, rows: seq<EntryId>)
    requires PullInv(db, p) && !p.done && limit >= 1 && n == EffectiveLimit(limit)
    requires rows == PageRows(db, p.since, p.target, p.after, p.ids, n)
    ensures NextIds(db, p, limit) == if |rows| > n then rows[..n] else rows
  {
  }

  /** The entries all pages of a pull send while the server stands still. */
  function Sent(db: Db, p: Puller, limits: seq<nat>): (nat, Puller) {
    if limits == [] then (0, p)
    else
      var (n, p') := Sent(db, p, limits[..|limits| - 1]);
      var last := limits[|limits| - 1];
      (if p'.done || p'.rejected then n else n + |NextIds(db, p', last)|, PullPage(db, p', last))
  }

  lemma BetweenAdds(db: Db, ids: Option<set<EntryId>>, a: nat, b: nat, c: nat)
    requires a <= b <= c
    ensures |Between(db, ids, a, c)| == |Between(db, ids, a, b)| + |Between(db, ids, b, c)|
  {
    assert Between(db, ids, a, c) == Between(db, ids, a, b) + Between(db, ids, b, c);
    assert Between(db, ids, a, b) !! Between(db, ids, b, c);
  }

  lemma {:induction false} SentBetween(db: Db, now: nat, p: Puller, limits: seq<nat>)
    requires PullInv(db, p) && Sound(db, now) && Linear(db) && !p.done && p.after.None?
    requires forall i | 0 <= i < |limits| :: limits[i] >= 1
    ensures var (n, p') := Sent(db, p, limits);
            && PullInv(db, p') && p'.ids == p.ids && p'.since == p.since && p'.target == p.target
            && n == |Between(db, p.ids, p.since, Frontier(p'))|
  {
    if limits == [] {
      assert Between(db, p.ids, p.since, p.since) == {};
    } else {
      var last := limits[|limits| - 1];
      SentBetween(db, now, p, limits[..|limits| - 1]);
      var (n, p') := Sent(db, p, limits[..|limits| - 1]);
      var p'' := PullPage(db, p', last);
      if !p'.done {
        PageAdvances(db, now, p', last, p'');
        PageIsBetween(db, p', last, p'');
        BetweenAdds(db, p.ids, p.since, Frontier(p'), Frontier(p''));
      }
    }
  }

  /** The total every page announces is what the pages of the pull send together, while the server stands
      still. */
  lemma PagesSendTotal(db: Db, now: nat, p: Puller, limits: seq<nat>, after: Option<PageCursor>, limit: nat)
    requires PullInv(db, p) && Sound(db, now) && Linear(db) && !p.done && p.after.None?
    requires forall i | 0 <= i < |limits| :: limits[i] >= 1
    requires Sent(db, p, limits).1.done
    ensures var page := ListEntryStates(db, PageRequest(p.since, Some(p.target), after, limit, p.ids));
            page.Page? ==> page.total == Sent(db, p, limits).0 && page.target == p.target
  {
    SentBetween(db, now, p, limits);
    assert Candidates(db, p.since, p.target, None, p.ids) == Between(db, p.ids, p.since, p.target);
  }
}
