/** The paged delta pull: `listEntryStates`, a client following `nextAfter`, and commits in between. */
module DeltaPull {
  import opened Wrappers
  import opened Tables
  import opened Services
  import opened Ordering
  import opened Lifecycle
  import opened Accounting
  import opened Runs
  import opened Evolution

  const MAX_ENTRY_STATE_BATCH: nat := 500

  datatype PageCursor = PageCursor(updatedSeq: nat, entryId: EntryId)

  /** `ids` is the optional filter on entry ids. */
  datatype PageRequest = PageRequest(
    since: nat, target: Option<nat>, after: Option<PageCursor>, limit: nat, ids: Option<set<EntryId>>)

  /** What a page sends about an entry; a deleted entry has neither blob nor size. */
  datatype EntryState = EntryState(
    revision: nat, content: Content, metadata: string, updatedSeq: nat, updatedAt: nat, blobSize: Option<nat>)

  datatype PageResult =
    | CursorAheadOfServer
    | InvalidCursorRange
    | Page(target: nat, total: nat, hasMore: bool, nextAfter: Option<PageCursor>, entryIds: seq<EntryId>)

  function StateOf(db: Db, e: EntryId): EntryState
    requires e in db.entries
  {
    var row := db.entries[e];
    EntryState(row.revision, row.content, row.metadata, row.updatedSeq, row.updatedAt,
               if row.content.Upsert? && row.content.blobId in db.blobs
               then Some(db.blobs[row.content.blobId].size) else None)
  }

  /** The state shows the entry as it is in the tables: every field of its row, and the size of the row
      of its blob if it has one. */
  ghost predicate Shows(db: Db, e: EntryId, s: EntryState) {
    && e in db.entries
    && s.revision == db.entries[e].revision && s.content == db.entries[e].content
    && s.metadata == db.entries[e].metadata
    && s.updatedSeq == db.entries[e].updatedSeq && s.updatedAt == db.entries[e].updatedAt
    && (s.content.Delete? ==> s.blobSize.None?)
    && (s.content.Upsert? ==>
          s.content.blobId in db.blobs && s.blobSize == Some(db.blobs[s.content.blobId].size))
  }

  /** What a page sends shows the entry. */
  lemma SentShows(db: Db, now: nat, e: EntryId)
    requires Sound(db, now) && e in db.entries
    ensures Shows(db, e, StateOf(db, e))
  {
    var row := db.entries[e];
    if row.content.Upsert? {
      assert CurrentRef(db.entries, row.content.blobId);
      assert Pinned(db.entries, db.versions, row.content.blobId, now);
    }
  }

  predicate InScope(ids: Option<set<EntryId>>, e: EntryId) {
    ids.None? || e in ids.value
  }

  predicate InRange(row: EntryRow, since: nat, target: nat) {
    since < row.updatedSeq <= target
  }

  predicate IsAfter(row: EntryRow, e: EntryId, after: Option<PageCursor>) {
    after.None? || row.updatedSeq > after.value.updatedSeq
    || (row.updatedSeq == after.value.updatedSeq && LexLess(after.value.entryId, e))
  }

  function Candidates(db: Db, since: nat, target: nat, after: Option<PageCursor>,
      ids: Option<set<EntryId>>): set<EntryId> {
    set e | e in db.entries && InRange(db.entries[e], since, target) && InScope(ids, e)
            && IsAfter(db.entries[e], e, after)
  }

  function SeqRank(entries: Entries): map<EntryId, int> {
    map e | e in entries :: entries[e].updatedSeq
  }

  function EffectiveLimit(limit: nat): nat {
    if limit < MAX_ENTRY_STATE_BATCH then limit else MAX_ENTRY_STATE_BATCH
  }

  /** The rows of the query, one more than the page holds. */
  function PageRows(db: Db, since: nat, target: nat, after: Option<PageCursor>, ids: Option<set<EntryId>>, limit: nat)
    : (rows: seq<EntryId>)
    ensures forall i | 0 <= i < |rows| :: rows[i] in db.entries
  {
    SelectIsPage(Candidates(db, since, target, after, ids), SeqRank(db.entries), limit + 1);
    Select(Candidates(db, since, target, after, ids), SeqRank(db.entries), limit + 1)
  }

  function CursorOf(db: Db, e: EntryId): PageCursor
    requires e in db.entries
  {
    PageCursor(db.entries[e].updatedSeq, e)
  }

  function ListEntryStates(db: Db, r: PageRequest): PageResult {
    var limit := EffectiveLimit(r.limit);
    var target := if r.target.None? then db.cursor else r.target.value;
    if r.since > db.cursor then CursorAheadOfServer
    else if target < r.since || target > db.cursor then InvalidCursorRange
    else if r.after.Some? && (r.after.value.updatedSeq <= r.since || r.after.value.updatedSeq > target) then
      InvalidCursorRange
    else
      var rows := PageRows(db, r.since, target, r.after, r.ids, limit);
      var hasMore := |rows| > limit;
      Page(target, |Candidates(db, r.since, target, None, r.ids)|, hasMore,
           if hasMore && limit > 0 then Some(CursorOf(db, rows[limit - 1])) else None,
           if hasMore then rows[..limit] else rows)
  }

  /** A request is refused exactly if the client is ahead of the server, its range does not fit below the
      cursor, or its place is outside the range; otherwise the range is the one asked for, up to the
      current cursor if no end was named. */
  lemma PullRefusedExactly(db: Db, r: PageRequest)
    ensures var target := if r.target.Some? then r.target.value else db.cursor;
            var inRange := r.since <= target <= db.cursor
                           && (r.after.Some? ==> r.since < r.after.value.updatedSeq <= target);
            match ListEntryStates(db, r)
            case CursorAheadOfServer => r.since > db.cursor
            case InvalidCursorRange => r.since <= db.cursor && !inRange
            case Page(t, _, _, _, _) => inRange && t == target
  {
  }

  // ---- the client ----

  type Replica = map<EntryId, EntryState>

  /** A pull of (since, target]; `after` is where the next page starts. */
  datatype Puller = Puller(
    since: nat, target: nat, ids: Option<set<EntryId>>, after: Option<PageCursor>,
    replica: Replica, done: bool, rejected: bool)

  function ApplyPage(replica: Replica, db: Db, page: seq<EntryId>): Replica {
    replica + map e | e in page && e in db.entries :: StateOf(db, e)
  }

  function PullPage(db: Db, p: Puller, limit: nat): Puller {
    if p.done || p.rejected then p
    else
      match ListEntryStates(db, PageRequest(p.since, Some(p.target), p.after, limit, p.ids))
      case Page(_, _, hasMore, nextAfter, entryIds) =>
        p.(replica := ApplyPage(p.replica, db, entryIds), after := nextAfter, done := !hasMore)
      case _ => p.(rejected := true)
  }

  /** The sequence number up to which the pull has caught up. */
  function Frontier(p: Puller): nat {
    if p.done then p.target else if p.after.Some? then p.after.value.updatedSeq else p.since
  }

  ghost predicate Agrees(replica: Replica, db: Db, ids: Option<set<EntryId>>, upTo: nat) {
    forall e | e in db.entries && InScope(ids, e) && db.entries[e].updatedSeq <= upTo ::
      e in replica && Shows(db, e, replica[e])
  }

  /** Nobody but the entry it names can have the cursor's sequence number. */
  ghost predicate Marks(db: Db, after: PageCursor) {
    forall e | e in db.entries && db.entries[e].updatedSeq == after.updatedSeq :: e == after.entryId
  }

  ghost predicate PullInv(db: Db, p: Puller) {
    && !p.rejected
    && p.since <= p.target <= db.cursor
    && p.since <= Frontier(p) <= p.target
    && (!p.done && p.after.Some? ==> p.since < p.after.value.updatedSeq && Marks(db, p.after.value))
    && Agrees(p.replica, db, p.ids, Frontier(p))
  }

  /** Between two pages the server may do anything: what has been pulled stays right. */
  lemma ServerMovesOn(db: Db, db': Db, p: Puller, now: nat, purged: set<EntryId>)
    requires PullInv(db, p) && Evolves(db, db', now, purged)
    ensures PullInv(db', p)
  {
    forall e | e in db'.entries && InScope(p.ids, e) && db'.entries[e].updatedSeq <= Frontier(p)
      ensures e in p.replica && Shows(db', e, p.replica[e])
    {
      assert e in db.entries && db'.entries[e] == db.entries[e];
    }
  }

  /** The candidates are the entries of the scope beyond the frontier. */
  lemma CandidatesBeyond(db: Db, p: Puller, e: EntryId)
    requires PullInv(db, p) && !p.done
    ensures e in Candidates(db, p.since, p.target, p.after, p.ids)
            <==> e in db.entries && InScope(p.ids, e) && Frontier(p) < db.entries[e].updatedSeq <= p.target
  {
    if p.after.Some? { LexAsymmetric(p.after.value.entryId, p.after.value.entryId); }
  }

  /** With distinct sequence numbers a page is cut off strictly by sequence number. */
  lemma RowsBySequence(db: Db, keys: set<EntryId>, n: nat, rows: seq<EntryId>)
    requires Linear(db) && keys <= db.entries.Keys && n >= 1 && rows == Select(keys, SeqRank(db.entries), n + 1)
    ensures |rows| <= n + 1 && forall i | 0 <= i < |rows| :: rows[i] in keys
    ensures |rows| == n + 1 ==> db.entries[rows[n - 1]].updatedSeq < db.entries[rows[n]].updatedSeq
    ensures forall e | e in keys && e !in rows ::
              |rows| == n + 1 && db.entries[rows[n]].updatedSeq < db.entries[e].updatedSeq
  {
    var rank := SeqRank(db.entries);
    SelectIsPage(keys, rank, n + 1);
    forall e | e in keys && e !in rows
      ensures |rows| == n + 1 && db.entries[rows[n]].updatedSeq < db.entries[e].updatedSeq
    {
      assert Before(rank, rows[n], e) && rows[n] != e;
    }
    if |rows| == n + 1 { assert Before(rank, rows[n - 1], rows[n]) && rows[n - 1] != rows[n]; }
  }

  /** What the query returned: rows beyond the frontier, and all of them up to the page's last row. */
  lemma PageContents(db: Db, p: Puller, n: nat, rows: seq<EntryId>)
    requires PullInv(db, p) && Linear(db) && n >= 1 && !p.done
    requires rows == PageRows(db, p.since, p.target, p.after, p.ids, n)
    ensures |rows| <= n + 1
    ensures forall i | 0 <= i < |rows| :: Frontier(p) < db.entries[rows[i]].updatedSeq <= p.target
    ensures forall e | e in db.entries && InScope(p.ids, e) && Frontier(p) < db.entries[e].updatedSeq <= p.target ::
              e in rows || (|rows| == n + 1 && db.entries[rows[n]].updatedSeq < db.entries[e].updatedSeq)
    ensures |rows| == n + 1 ==> db.entries[rows[n - 1]].updatedSeq < db.entries[rows[n]].updatedSeq
  {
    RowsBySequence(db, Candidates(db, p.since, p.target, p.after, p.ids), n, rows);
    forall e ensures e in Candidates(db, p.since, p.target, p.after, p.ids)
            <==> e in db.entries && InScope(p.ids, e) && Frontier(p) < db.entries[e].updatedSeq <= p.target
    {
      CandidatesBeyond(db, p, e);
    }
  }

  lemma PullPageShape(db: Db, p: Puller, limit: nat, n: nat, rows: seq<EntryId>, p': Puller)
    requires PullInv(db, p) && !p.done && limit >= 1 && n == EffectiveLimit(limit)
    requires rows == PageRows(db, p.since, p.target, p.after, p.ids, n) && p' == PullPage(db, p, limit)
    ensures |rows| <= n ==> p' == p.(replica := ApplyPage(p.replica, db, rows), after := None, done := true)
    ensures |rows| > n ==>
              p' == p.(replica := ApplyPage(p.replica, db, rows[..n]),
                       after := Some(CursorOf(db, rows[n - 1])))
  {
  }

  lemma PageAgrees(db: Db, now: nat, p: Puller, page: seq<EntryId>, upTo: nat)
    requires PullInv(db, p) && Sound(db, now)
    requires forall e | e in db.entries && InScope(p.ids, e) && Frontier(p) < db.entries[e].updatedSeq <= upTo ::
        e in page
    ensures Agrees(ApplyPage(p.replica, db, page), db, p.ids, upTo)
  {
    forall e | e in page && e in db.entries ensures Shows(db, e, StateOf(db, e)) {
      SentShows(db, now, e);
    }
  }

  /** A page is never rejected, moves the frontier forward, and keeps the agreement below it. */
  lemma PageAdvances(db: Db, now: nat, p: Puller, limit: nat, p': Puller)
    requires PullInv(db, p) && Sound(db, now) && Linear(db) && limit >= 1 && !p.done && p' == PullPage(db, p, limit)
    ensures PullInv(db, p') && (p'.done || Frontier(p') > Frontier(p))
    ensures p'.target == p.target && p'.ids == p.ids && p'.since == p.since
  {
    var n := EffectiveLimit(limit);
    var rows := PageRows(db, p.since, p.target, p.after, p.ids, n);
    PageContents(db, p, n, rows);
    PullPageShape(db, p, limit, n, rows, p');
    if |rows| <= n {
      PageAgrees(db, now, p, rows, p.target);
    } else {
      var upTo := db.entries[rows[n - 1]].updatedSeq;
      forall e | e in db.entries && InScope(p.ids, e) && Frontier(p) < db.entries[e].updatedSeq <= upTo
        ensures e in rows[..n]
      {
        assert e in rows;
        var i :| 0 <= i < |rows| && rows[i] == e;
        assert i != n;
        assert rows[..n][i] == e;
      }
      PageAgrees(db, now, p, rows[..n], upTo);
    }
  }

  // ---- whole pulls ----

  /** Anything the server does, then one page. */
  datatype Round = Round(events: seq<Event>, limit: nat)

  ghost function PullRun(w: World, p: Puller, rounds: seq<Round>): (World, Puller) {
    if rounds == [] then (w, p)
    else
      var (w', p') := PullRun(w, p, rounds[..|rounds| - 1]);
      var last := rounds[|rounds| - 1];
      var w'' := Run(w', last.events);
      (w'', PullPage(w''.db, p', last.limit))
  }

  lemma {:induction false} PullRunInv(w: World, p: Puller, rounds: seq<Round>)
    requires Inv(w) && PullInv(w.db, p) && !p.done && p.after.None?
    requires forall i | 0 <= i < |rounds| :: rounds[i].limit >= 1
    ensures var (w', p') := PullRun(w, p, rounds);
            && Inv(w') && PullInv(w'.db, p') && p'.target == p.target && p'.ids == p.ids
            && (!p'.done ==> Frontier(p') >= p.since + |rounds|)
  {
    if rounds != [] {
      var front, last := rounds[..|rounds| - 1], rounds[|rounds| - 1];
      PullRunInv(w, p, front);
      var (w', p') := PullRun(w, p, front);
      var w'' := Run(w', last.events);
      RunEvolves(w', last.events);
      ServerMovesOn(w'.db, w''.db, p', w''.clock, PurgedIn(last.events));
      if !p'.done { PageAdvances(w''.db, w''.clock, p', last.limit, PullPage(w''.db, p', last.limit)); }
    }
  }

  /** Never rejected; done once there were more pages than sequence numbers to cover; and when done,
      in agreement with the server as it is by then. */
  ghost predicate Converged(p: Puller, pages: nat, db': Db, p': Puller) {
    && !p'.rejected
    && (pages > p.target - p.since ==> p'.done)
    && (p'.done ==> Agrees(p'.replica, db', p.ids, p.target))
  }

  /** Delta pull converges: starting from a replica that agrees with the server up to `since`, paging
      up to `target` with any commands between pages is never rejected, ends after at most
      target - since + 1 pages, and then agrees with the server, as it is by then, on every entry of
      the scope up to `target`. */
  lemma {:induction false} DeltaPullConverges(w: World, p: Puller, rounds: seq<Round>, w': World, p': Puller)
    requires Inv(w) && !p.done && !p.rejected && p.after.None?
    requires p.since <= p.target <= w.db.cursor && Agrees(p.replica, w.db, p.ids, p.since)
    requires forall i | 0 <= i < |rounds| :: rounds[i].limit >= 1
    requires (w', p') == PullRun(w, p, rounds)
    ensures Converged(p, |rounds|, w'.db, p')
  {
    PullRunInv(w, p, rounds);
  }

  /** A replica never holds an entry the server does not know. */
  lemma {:induction false} OnlyKnownEntries(w: World, p: Puller, rounds: seq<Round>)
    requires Inv(w) && p.replica.Keys <= w.db.entries.Keys
    ensures var (w', p') := PullRun(w, p, rounds);
            Inv(w') && p'.replica.Keys <= w'.db.entries.Keys
  {
    if rounds != [] {
      var front, last := rounds[..|rounds| - 1], rounds[|rounds| - 1];
      OnlyKnownEntries(w, p, front);
      var (w', p') := PullRun(w, p, front);
      RunEvolves(w', last.events);
      var w'' := Run(w', last.events);
      assert w'.db.entries.Keys <= w''.db.entries.Keys;
    }
  }

  /** A finished unfiltered pull up to the current cursor has made the replica equal to the server. */
  lemma {:induction false} ReplicaEqualsServer(w: World, p: Puller, rounds: seq<Round>)
    requires Inv(w) && !p.done && !p.rejected && p.after.None? && p.ids.None?
    requires p.since <= p.target <= w.db.cursor
    requires Agrees(p.replica, w.db, p.ids, p.since) && p.replica.Keys <= w.db.entries.Keys
    requires forall i | 0 <= i < |rounds| :: rounds[i].limit >= 1
    ensures var (w', p') := PullRun(w, p, rounds);
            p'.done && w'.db.cursor == p.target
            ==> p'.replica.Keys == w'.db.entries.Keys && forall e | e in p'.replica :: Shows(w'.db, e, p'.replica[e])
  {
    PullRunInv(w, p, rounds);
    OnlyKnownEntries(w, p, rounds);
    var (w', p') := PullRun(w, p, rounds);
    if p'.done && w'.db.cursor == p.target { FullAgreement(w'.db, p'.replica); }
  }

  lemma FullAgreement(db: Db, replica: Replica)
    requires Linear(db) && Agrees(replica, db, None, db.cursor) && replica.Keys <= db.entries.Keys
    ensures replica.Keys == db.entries.Keys && forall e | e in replica :: Shows(db, e, replica[e])
  {
  }
}
