/** The coordinator without its lock. What a command does between two awaits is one step here, so
    listings, existence checks, object deletions and row deletions interleave with the transactions of
    other commands. */
module GcPhases {
  import opened Wrappers
  import opened Tables
  import opened Services
  import opened Policies
  import opened Sums
  import opened Lifecycle
  import opened Accounting

  /** A list of collectible blobs drawn up at `at`, and what the store has confirmed since. */
  datatype Listing = Listing(at: nat, ids: set<BlobId>, confirmed: set<BlobId>)

  /** What a commit has asked the store so far, and what it was told exists. */
  datatype Check = Check(asked: set<BlobId>, found: set<BlobId>)

  /** An explicit deletion whose blob was unpinned when it began. */
  datatype Deletion = Deletion(blobId: BlobId, hadRow: bool, confirmed: bool)

  /** The stale rows a repair listed at `at`, and those whose objects it has yet to delete. */
  datatype Repair = Repair(at: nat, ids: set<BlobId>, doomed: set<BlobId>)

  datatype Fine = Fine(
    db: Db, objects: set<BlobId>, clock: nat, grace: nat,
    listings: seq<Listing>, checks: map<nat, Check>, deletions: map<nat, Deletion>, repairs: seq<Repair>)

  datatype FineAction =
    | StageRow(blobId: BlobId, size: nat)
    | AskStore(commit: nat, blobId: BlobId)
    | CommitRows(commit: nat, session: Session, restoring: bool, mutations: seq<Mutation>)
    | PurgeRows(requests: seq<PurgeRequest>)
    | MarkRow(blobId: BlobId)
    | ExpireRows
    | WritePause(pause: Option<Pause>)
    | WritePolicy(storageLimit: nat, maxFileSize: nat, retentionDays: nat)
    | PutObject(blobId: BlobId)
    | ListForGc
    | ListPurged(ids: set<BlobId>)
    | DeleteObjects(listing: nat, keys: set<BlobId>, faults: Faults)  // one chunk of the list
    | DeleteRows(listing: nat)
    | BeginDelete(deletion: nat, blobId: BlobId)
    | DeleteObject(deletion: nat, faults: Faults)
    | DeleteRecord(deletion: nat)
    | ListStale
    | RepairRow(repair: nat, blobId: BlobId)
    | RepairObject(repair: nat, blobId: BlobId, faults: Faults)

  datatype FineEvent = FineEvent(delay: nat, action: FineAction)

  function Later(f: Fine, delay: nat): Fine {
    f.(clock := f.clock + delay)
  }

  // ---- commits: the store is asked first, blob by blob, and the transaction comes later ----

  function CheckOf(f: Fine, commit: nat): Check {
    if commit in f.checks then f.checks[commit] else Check({}, {})
  }

  function Wanted(ms: seq<Mutation>): set<BlobId> {
    set i | 0 <= i < |ms| && ms[i].content.Upsert? :: ms[i].content.blobId
  }

  function Ask(f: Fine, commit: nat, b: BlobId): Fine {
    var c := CheckOf(f, commit);
    if b in c.asked then f
    else f.(checks := f.checks[commit := Check(c.asked + {b}, if b in f.objects then c.found + {b} else c.found)])
  }

  /** What the transaction reads besides the tables: the answers as they were given. */
  function CommitContext(f: Fine, commit: nat, session: Session, restoring: bool): Context {
    Context(f.clock, f.grace, session.author, restoring, CheckOf(f, commit).found)
  }

  function Transact(f: Fine, commit: nat, session: Session, restoring: bool, ms: seq<Mutation>): Fine {
    if Wanted(ms) <= CheckOf(f, commit).asked then
      f.(db := CommitDb(f.db, session, CommitContext(f, commit, session, restoring), ms).0,
         checks := f.checks - {commit})
    else f
  }

  // ---- collections ----

  function DeleteChunk(f: Fine, i: nat, keys: set<BlobId>, faults: Faults): Fine {
    if i >= |f.listings| then f
    else
      var l := f.listings[i];
      var chunk := l.ids * keys;
      f.(objects := ObjectsAfterDelete(f.objects, chunk, faults),
         listings := f.listings[i := l.(confirmed := l.confirmed + Confirmed(chunk, faults))])
  }

  ghost function DeleteListedRows(f: Fine, i: nat): Fine {
    if i >= |f.listings| then f
    else f.(db := DeleteCollectibleRows(f.db, f.listings[i].confirmed, f.listings[i].at))
  }

  // ---- explicit deletions: one look at the row, the object, and then the row whatever it has become ----

  function Begin(f: Fine, id: nat, b: BlobId): Fine {
    if id in f.deletions || f.db.pause.Some? || (b in f.db.blobs && Pinned(f.db.entries, f.db.versions, b, f.clock))
    then f
    else f.(deletions := f.deletions[id := Deletion(b, b in f.db.blobs, false)])
  }

  function DeleteOneObject(f: Fine, id: nat, faults: Faults): Fine {
    if id !in f.deletions || f.deletions[id].confirmed then f
    else
      var d := f.deletions[id];
      f.(objects := ObjectsAfterDelete(f.objects, {d.blobId}, faults),
         deletions := if Confirmed({d.blobId}, faults) == {} then f.deletions - {id}
                      else f.deletions[id := d.(confirmed := true)])
  }

  ghost function DeleteOneRow(f: Fine, id: nat): Fine {
    if id !in f.deletions || !f.deletions[id].confirmed then f
    else
      var d := f.deletions[id];
      f.(db := if d.hadRow then DeleteBlobRecord(f.db, d.blobId) else f.db, deletions := f.deletions - {id})
  }

  // ---- repairs: the row first, tested again, and then the object ----

  function ListRepair(f: Fine): Fine {
    var stale := ListStaleStaged(f.db.blobs, f.clock);
    if |stale| > MAX_REPAIRABLE
       || (f.db.pause.Some? && !(STALE_STAGED_BLOB_PAUSE_PREFIX <= f.db.pause.value.reason)) then f
    else f.(repairs := f.repairs + [Repair(f.clock, set b | b in stale, {})])
  }

  ghost function RepairOneRow(f: Fine, i: nat, b: BlobId): Fine {
    if i >= |f.repairs| || b !in f.repairs[i].ids then f
    else if b in f.db.blobs && (!f.db.blobs[b].state.Staged?
                                || Pinned(f.db.entries, f.db.versions, b, f.repairs[i].at)) then f
    else
      f.(db := DeleteBlobRecord(f.db, b),
         repairs := f.repairs[i := f.repairs[i].(doomed := f.repairs[i].doomed + {b})])
  }

  function RepairOneObject(f: Fine, i: nat, b: BlobId, faults: Faults): Fine {
    if i >= |f.repairs| || b !in f.repairs[i].doomed then f
    else
      f.(objects := ObjectsAfterDelete(f.objects, {b}, faults),
         repairs := f.repairs[i := f.repairs[i].(doomed := f.repairs[i].doomed - {b})])
  }

  // ---- steps and runs ----

  ghost function Act(f: Fine, a: FineAction): Fine {
    match a
    case StageRow(b, size) =>
      if f.db.pause.Some? then f else f.(db := StageBlobRecord(f.db, f.clock, b, size, f.clock + f.grace))
    case AskStore(id, b) => Ask(f, id, b)
    case CommitRows(id, session, restoring, ms) => Transact(f, id, session, restoring, ms)
    case PurgeRows(rs) => if f.db.pause.Some? then f else f.(db := PurgeFold(f.db, f.clock, rs).db)
    case MarkRow(b) => f.(db := MarkAll(f.db, {b}, f.clock))
    case ExpireRows => f.(db := Expire(f.db, f.clock))
    case WritePause(pause) => f.(db := f.db.(pause := pause))
    case WritePolicy(limit, maxFile, days) =>
      f.(db := f.db.(storageLimit := limit, maxFileSize := maxFile, retentionDays := days))
    case PutObject(b) => f.(objects := f.objects + {b})
    case ListForGc => f.(listings := f.listings + [Listing(f.clock, GcKeys(f.db, f.clock), {})])
    case ListPurged(ids) => f.(listings := f.listings + [Listing(f.clock, PurgedKeys(f.db, ids, f.clock), {})])
    case DeleteObjects(i, keys, faults) => DeleteChunk(f, i, keys, faults)
    case DeleteRows(i) => DeleteListedRows(f, i)
    case BeginDelete(id, b) => Begin(f, id, b)
    case DeleteObject(id, faults) => DeleteOneObject(f, id, faults)
    case DeleteRecord(id) => DeleteOneRow(f, id)
    case ListStale => ListRepair(f)
    case RepairRow(i, b) => RepairOneRow(f, i, b)
    case RepairObject(i, b, faults) => RepairOneObject(f, i, b, faults)
  }

  ghost function FineRun(f: Fine, evs: seq<FineEvent>): Fine {
    if evs == [] then f
    else Act(Later(FineRun(f, evs[..|evs| - 1]), evs[|evs| - 1].delay), evs[|evs| - 1].action)
  }

  /** The state in which the i-th event of a run acts. */
  ghost function Moment(f: Fine, evs: seq<FineEvent>, i: nat): Fine
    requires i < |evs|
  {
    Later(FineRun(f, evs[..i]), evs[i].delay)
  }

  ghost predicate FineInitial(f: Fine) {
    && f.db.entries == map[] && f.db.versions == map[] && f.db.blobs == map[]
    && f.db.cursor == 0 && f.db.used == 0
    && f.listings == [] && f.checks == map[] && f.deletions == map[] && f.repairs == []
  }

  lemma Unfold(f: Fine, evs: seq<FineEvent>, i: nat)
    requires i < |evs|
    ensures FineRun(f, evs[..i + 1]) == Act(Moment(f, evs, i), evs[i].action)
  {
    assert evs[..i + 1][..i] == evs[..i];
  }

  // ---- what holds in every interleaving ----

  /** Lists are no younger than the clock. */
  ghost predicate Listed(f: Fine) {
    && (forall i | 0 <= i < |f.listings| :: f.listings[i].at <= f.clock)
    && (forall i | 0 <= i < |f.repairs| :: f.repairs[i].at <= f.clock)
  }

  lemma ActListed(f: Fine, a: FineAction, f': Fine)
    requires Listed(f) && f' == Act(f, a)
    ensures Listed(f') && f'.clock == f.clock
  {
  }

  /** The steps that write entries, versions or blobs. */
  predicate WritesRows(a: FineAction) {
    a.StageRow? || a.CommitRows? || a.PurgeRows? || a.MarkRow? || a.ExpireRows? || DropsRows(a)
  }

  predicate DropsRows(a: FineAction) {
    a.DeleteRows? || a.DeleteRecord? || a.RepairRow?
  }

  lemma OthersKeepTables(f: Fine, a: FineAction, f': Fine)
    requires !WritesRows(a) && f' == Act(f, a)
    ensures f'.db.entries == f.db.entries && f'.db.versions == f.db.versions && f'.db.blobs == f.db.blobs
    ensures f'.db.cursor == f.db.cursor && f'.db.used == f.db.used && f'.db.nextId == f.db.nextId
  {
  }

  lemma DropsBookkept(f: Fine, a: FineAction, f': Fine)
    requires Bookkept(f.db) && DropsRows(a) && f' == Act(f, a)
    ensures Bookkept(f'.db)
  {
    match a
    case DeleteRows(i) =>
      if i < |f.listings| { DeleteRowsCounted(f.db, f.listings[i].confirmed, f.listings[i].at); }
    case DeleteRecord(id) =>
      if id in f.deletions { DeleteRecordCounted(f.db, f.deletions[id].blobId); }
    case RepairRow(i, b) => DeleteRecordCounted(f.db, b);
  }

  lemma StageBookkept(db: Db, now: nat, b: BlobId, size: nat, deleteAfter: nat, db': Db)
    requires Bookkept(db) && db' == StageBlobRecord(db, now, b, size, deleteAfter)
    ensures Bookkept(db')
  {
    StageCounted(db, now, b, size, deleteAfter);
  }

  lemma MarkBookkept(db: Db, now: nat, ids: set<BlobId>, db': Db)
    requires Bookkept(db) && db' == MarkAll(db, ids, now)
    ensures Bookkept(db')
  {
    MarkCounted(db, ids, now);
  }

  lemma WritesBookkept(f: Fine, a: FineAction, f': Fine)
    requires Bookkept(f.db) && WritesRows(a) && !DropsRows(a) && f' == Act(f, a)
    ensures Bookkept(f'.db)
  {
    match a
    case StageRow(b, size) =>
      if f.db.pause.None? { StageBookkept(f.db, f.clock, b, size, f.clock + f.grace, f'.db); }
    case CommitRows(id, session, restoring, ms) => BatchBookkept(f.db, CommitContext(f, id, session, restoring), ms);
    case PurgeRows(rs) => PurgeBookkept(f.db, f.clock, rs);
    case MarkRow(b) => MarkBookkept(f.db, f.clock, {b}, f'.db);
    case ExpireRows =>
  }

  lemma ActBookkept(f: Fine, a: FineAction, f': Fine)
    requires Bookkept(f.db) && f' == Act(f, a)
    ensures Bookkept(f'.db)
  {
    if DropsRows(a) {
      DropsBookkept(f, a, f');
    } else if WritesRows(a) {
      WritesBookkept(f, a, f');
    } else {
      OthersKeepTables(f, a, f');
    }
  }

  lemma {:induction false} RunListed(f: Fine, evs: seq<FineEvent>)
    requires FineInitial(f)
    ensures Listed(FineRun(f, evs))
  {
    if evs != [] {
      var before, last := FineRun(f, evs[..|evs| - 1]), evs[|evs| - 1];
      RunListed(f, evs[..|evs| - 1]);
      ActListed(Later(before, last.delay), last.action, FineRun(f, evs));
    }
  }

  lemma {:induction false} RunBookkept(f: Fine, evs: seq<FineEvent>)
    requires FineInitial(f)
    ensures Bookkept(FineRun(f, evs).db)
  {
    if evs == [] {
      assert Sizes(f.db.blobs) == map[] && Revisions(f.db.entries) == map[];
    } else {
      var before, last := FineRun(f, evs[..|evs| - 1]), evs[|evs| - 1];
      RunBookkept(f, evs[..|evs| - 1]);
      ActBookkept(Later(before, last.delay), last.action, FineRun(f, evs));
    }
  }

  /** No interleaving, with or without the lock, breaks the counters or the order of updates. */
  lemma UnlockedCountersHold(f: Fine, evs: seq<FineEvent>)
    requires FineInitial(f)
    ensures var db := FineRun(f, evs).db;
            && db.used == Total(Sizes(db.blobs)) && db.cursor == Total(Revisions(db.entries))
            && forall e, g | e in db.entries && g in db.entries && e != g ::
                 db.entries[e].updatedSeq != db.entries[g].updatedSeq
  {
    RunBookkept(f, evs);
  }

  // ---- rows ----

  /** The second half of an explicit deletion strikes a blob that is pinned by now. */
  predicate DropsPinnedRow(f: Fine, a: FineAction) {
    && a.DeleteRecord? && a.deletion in f.deletions
    && f.deletions[a.deletion].confirmed && f.deletions[a.deletion].hadRow
    && Pinned(f.db.entries, f.db.versions, f.deletions[a.deletion].blobId, f.clock)
  }

  lemma DeleteRowsKeeps(f: Fine, i: nat)
    requires Sound(f.db, f.clock) && Listed(f)
    ensures Sound(DeleteListedRows(f, i).db, f.clock)
  {
    if i < |f.listings| { DeleteRowsSound(f.db, f.listings[i].confirmed, f.listings[i].at, f.clock); }
  }

  /** A repair tests the row again in the transaction that drops it, at the time of its list. */
  lemma RepairRowKeeps(f: Fine, i: nat, b: BlobId, f': Fine)
    requires Sound(f.db, f.clock) && Listed(f) && f' == RepairOneRow(f, i, b)
    ensures Sound(f'.db, f.clock)
  {
    if f' != f {
      DeleteRecordSound(f.db, {}, b, {}, f.clock, f'.db);
    }
  }

  lemma DeleteRecordKeepsIff(f: Fine, a: FineAction, f': Fine)
    requires Sound(f.db, f.clock) && a.DeleteRecord? && f' == DeleteOneRow(f, a.deletion)
    ensures if DropsPinnedRow(f, a) then !RowsPresent(f'.db.entries, f'.db.versions, f'.db.blobs, f.clock)
            else Sound(f'.db, f.clock)
  {
    if a.deletion in f.deletions && f.deletions[a.deletion].confirmed && f.deletions[a.deletion].hadRow {
      var b := f.deletions[a.deletion].blobId;
      if DropsPinnedRow(f, a) {
        assert f'.db.entries == f.db.entries && f'.db.versions == f.db.versions && b !in f'.db.blobs;
      } else {
        DeleteRecordSound(f.db, {}, b, {}, f.clock, f'.db);
      }
    }
  }

  lemma WritesKeepRows(f: Fine, a: FineAction, f': Fine)
    requires Sound(f.db, f.clock) && WritesRows(a) && !DropsRows(a) && f' == Act(f, a)
    ensures Sound(f'.db, f.clock)
  {
    match a
    case StageRow(b, size) => StageSound(f.db, f.clock, b, size, f.clock + f.grace);
    case CommitRows(id, session, restoring, ms) => BatchSound(f.db, CommitContext(f, id, session, restoring), ms);
    case PurgeRows(rs) => PurgeSound(f.db, {}, f.clock, rs);
    case MarkRow(b) => MarkSound(f.db, {b}, f.clock);
    case ExpireRows => FewerVersions(f.db, ExpireVersions(f.db.versions, f.clock), {}, f.clock, f.clock);
  }

  /** Every step keeps the lifecycle of rows, except the row deletion that strikes a pinned blob. */
  lemma ActKeepsRowsIff(f: Fine, a: FineAction, f': Fine)
    requires Sound(f.db, f.clock) && Listed(f) && f' == Act(f, a)
    ensures if DropsPinnedRow(f, a) then !RowsPresent(f'.db.entries, f'.db.versions, f'.db.blobs, f.clock)
            else Sound(f'.db, f.clock)
  {
    if a.DeleteRows? {
      DeleteRowsKeeps(f, a.listing);
    } else if a.DeleteRecord? {
      DeleteRecordKeepsIff(f, a, f');
    } else if a.RepairRow? {
      RepairRowKeeps(f, a.repair, a.blobId, f');
    } else if WritesRows(a) {
      WritesKeepRows(f, a, f');
    } else {
      OthersKeepTables(f, a, f');
    }
  }

  /** After the first `i` events every pinned blob has its row. */
  ghost predicate RowsAt(f: Fine, evs: seq<FineEvent>, i: nat)
    requires i <= |evs|
  {
    var g := FineRun(f, evs[..i]);
    RowsPresent(g.db.entries, g.db.versions, g.db.blobs, g.clock)
  }

  ghost predicate SoundAt(f: Fine, evs: seq<FineEvent>, i: nat)
    requires i <= |evs|
  {
    var g := FineRun(f, evs[..i]);
    Sound(g.db, g.clock)
  }

  ghost predicate RowSparedAt(f: Fine, evs: seq<FineEvent>, i: nat)
    requires i < |evs|
  {
    !DropsPinnedRow(Moment(f, evs, i), evs[i].action)
  }

  lemma NextRows(f: Fine, evs: seq<FineEvent>, i: nat)
    requires FineInitial(f) && i < |evs| && SoundAt(f, evs, i)
    ensures SoundAt(f, evs, i + 1) <==> RowSparedAt(f, evs, i)
    ensures SoundAt(f, evs, i + 1) <==> RowsAt(f, evs, i + 1)
  {
    Unfold(f, evs, i);
    RunListed(f, evs[..i]);
    var g, m := FineRun(f, evs[..i]), Moment(f, evs, i);
    Lifecycle.Later(g.db, {}, g.clock, m.clock);
    ActListed(m, evs[i].action, FineRun(f, evs[..i + 1]));
    ActKeepsRowsIff(m, evs[i].action, FineRun(f, evs[..i + 1]));
  }

  ghost predicate RowsKept(f: Fine, evs: seq<FineEvent>, n: nat)
    requires n <= |evs|
  {
    forall i | 0 <= i <= n :: RowsAt(f, evs, i)
  }

  ghost predicate RowsSpared(f: Fine, evs: seq<FineEvent>, n: nat)
    requires n <= |evs|
  {
    forall i | 0 <= i < n :: RowSparedAt(f, evs, i)
  }

  lemma {:induction false} SoundWhileSpared(f: Fine, evs: seq<FineEvent>, i: nat)
    requires FineInitial(f) && i <= |evs| && forall j | 0 <= j < i :: RowSparedAt(f, evs, j)
    ensures SoundAt(f, evs, i) && RowsAt(f, evs, i)
  {
    if i == 0 {
      assert evs[..0] == [];
    } else {
      SoundWhileSpared(f, evs, i - 1);
      NextRows(f, evs, i - 1);
    }
  }

  lemma {:induction false} SoundWhileKept(f: Fine, evs: seq<FineEvent>, i: nat)
    requires FineInitial(f) && i <= |evs| && forall j | 0 <= j <= i :: RowsAt(f, evs, j)
    ensures SoundAt(f, evs, i)
  {
    if i == 0 {
      assert evs[..0] == [];
    } else {
      SoundWhileKept(f, evs, i - 1);
      NextRows(f, evs, i - 1);
    }
  }

  /** In an interleaving without the lock every pinned blob has its row, throughout the first `n`
      events, if and only if no explicit deletion among them drops the row of a blob that has been
      pinned since the deletion began. Collections and repairs, however old their lists, never do. */
  lemma UnlockedRowsKeptIff(f: Fine, evs: seq<FineEvent>, n: nat)
    requires FineInitial(f) && n <= |evs|
    ensures RowsKept(f, evs, n) <==> RowsSpared(f, evs, n)
  {
    if RowsSpared(f, evs, n) {
      forall i | 0 <= i <= n ensures RowsAt(f, evs, i) {
        SoundWhileSpared(f, evs, i);
      }
    }
    if RowsKept(f, evs, n) {
      forall i | 0 <= i < n ensures RowSparedAt(f, evs, i) {
        SoundWhileKept(f, evs, i);
        NextRows(f, evs, i);
        assert RowsAt(f, evs, i + 1);
      }
    }
  }

  /** Without explicit deletions no row in use is ever lost. */
  lemma InterleavedGcKeepsRows(f: Fine, evs: seq<FineEvent>, b: BlobId)
    requires FineInitial(f) && forall i | 0 <= i < |evs| :: !evs[i].action.DeleteRecord?
    ensures var f' := FineRun(f, evs);
            Pinned(f'.db.entries, f'.db.versions, b, f'.clock) ==> b in f'.db.blobs
  {
    assert RowsSpared(f, evs, |evs|);
    UnlockedRowsKeptIff(f, evs, |evs|);
    assert RowsAt(f, evs, |evs|) && evs[..|evs|] == evs;
  }
}
