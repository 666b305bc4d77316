/** Ciphertext without the vault lock: exactly when a blob in use keeps its object, a discipline that
    suffices, and the runs that show what the lock is for. */
module GcObjects {
  import opened Wrappers
  import opened Tables
  import opened Services
  import opened Ordering
  import opened Induction
  import Lifecycle
  import opened GcPhases

  // ---- what can go wrong in one step ----

  predicate DeletesObjects(a: FineAction) {
    a.DeleteObjects? || a.DeleteObject? || a.RepairObject?
  }

  /** An object deletion takes the object of a blob pinned when it strikes, confirmed or not. */
  ghost predicate TakesPinned(f: Fine, a: FineAction) {
    && DeletesObjects(a)
    && exists b :: b in f.objects - Act(f, a).objects && Pinned(f.db.entries, f.db.versions, b, f.clock)
  }

  /** A transaction leaves a blob pinned that its commit found stored and that has gone since. */
  ghost predicate PinsMissing(f: Fine, a: FineAction) {
    && a.CommitRows?
    && exists b :: b in CheckOf(f, a.commit).found && b !in f.objects
                   && Pinned(Act(f, a).db.entries, Act(f, a).db.versions, b, f.clock)
  }

  ghost predicate ObjectsKept(f: Fine) {
    Lifecycle.Stored(f.db, f.objects, f.clock)
  }

  lemma CommitOnePins(db: Db, ctx: Context, m: Mutation, b: BlobId, db': Db)
    requires db' == CommitOne(db, ctx, m).0 && Pinned(db'.entries, db'.versions, b, ctx.now)
    ensures Pinned(db.entries, db.versions, b, ctx.now) || b in ctx.objects
  {
    if Decide(db, ctx, m).Apply? && Blocked(db, ctx, m.content).None? { Lifecycle.AppliedPins(db, ctx, m, b); }
  }

  /** What a batch pins was pinned before it or was found stored when its commit asked. */
  lemma {:induction false} BatchPins(db: Db, ctx: Context, ms: seq<Mutation>, b: BlobId)
    requires Pinned(BatchFold(db, ctx, ms).db.entries, BatchFold(db, ctx, ms).db.versions, b, ctx.now)
    ensures Pinned(db.entries, db.versions, b, ctx.now) || b in ctx.objects
  {
    if ms != [] {
      var before, last := BatchFold(db, ctx, ms[..|ms| - 1]).db, ms[|ms| - 1];
      if Pinned(before.entries, before.versions, b, ctx.now) {
        BatchPins(db, ctx, ms[..|ms| - 1], b);
      } else {
        CommitOnePins(before, ctx, last, b, CommitOne(before, ctx, last).0);
      }
    }
  }

  lemma TransactionKeepsIff(f: Fine, a: FineAction, f': Fine)
    requires a.CommitRows? && ObjectsKept(f) && f' == Act(f, a)
    ensures ObjectsKept(f') <==> !PinsMissing(f, a)
  {
    assert f'.objects == f.objects && f'.clock == f.clock;
    forall b | Pinned(f'.db.entries, f'.db.versions, b, f.clock)
      ensures b in f.objects || b in CheckOf(f, a.commit).found
    {
      if f'.db != f.db {
        BatchPins(f.db, CommitContext(f, a.commit, a.session, a.restoring), a.mutations, b);
      }
    }
  }

  lemma DeletionKeepsIff(f: Fine, a: FineAction, f': Fine)
    requires DeletesObjects(a) && ObjectsKept(f) && f' == Act(f, a)
    ensures ObjectsKept(f') <==> !TakesPinned(f, a)
  {
    assert f'.db == f.db && f'.clock == f.clock && f'.objects <= f.objects;
    if !ObjectsKept(f') {
      var b :| Pinned(f.db.entries, f.db.versions, b, f.clock) && b !in f'.objects;
      assert b in f.objects - f'.objects;
    }
  }

  lemma VersionsDropped(f: Fine, f': Fine)
    requires ObjectsKept(f) && f'.objects == f.objects && f'.clock >= f.clock && f'.db.entries == f.db.entries
    requires forall v | v in f'.db.versions :: v in f.db.versions && f'.db.versions[v] == f.db.versions[v]
    ensures ObjectsKept(f')
  {
    forall b | Pinned(f'.db.entries, f'.db.versions, b, f'.clock)
      ensures Pinned(f.db.entries, f.db.versions, b, f.clock)
    {
      if Retained(f'.db.versions, b, f'.clock) {
        var versions := f'.db.versions;
        var v :| v in versions && versions[v].content == Upsert(b) && versions[v].expiresAt > f'.clock;
        assert f.db.versions[v].content == Upsert(b);
      }
    }
  }

  lemma {:induction false} PurgeDrops(db: Db, now: nat, rs: seq<PurgeRequest>)
    ensures var db' := PurgeFold(db, now, rs).db;
            && db'.entries == db.entries
            && forall v | v in db'.versions :: v in db.versions && db'.versions[v] == db.versions[v]
  {
    if rs != [] { PurgeDrops(db, now, rs[..|rs| - 1]); }
  }

  lemma QuietKeeps(f: Fine, a: FineAction, f': Fine)
    requires !a.CommitRows? && !DeletesObjects(a) && ObjectsKept(f) && f' == Act(f, a)
    ensures ObjectsKept(f')
  {
    if a.PurgeRows? {
      PurgeDrops(f.db, f.clock, a.requests);
      VersionsDropped(f, f');
    } else if a.ExpireRows? {
      VersionsDropped(f, f');
    } else {
      assert f'.db.entries == f.db.entries && f'.db.versions == f.db.versions && f'.clock == f.clock;
    }
  }

  // ---- whole runs ----

  ghost predicate KeptAt(f: Fine, evs: seq<FineEvent>, i: nat)
    requires i <= |evs|
  {
    ObjectsKept(FineRun(f, evs[..i]))
  }

  ghost predicate SafeAt(f: Fine, evs: seq<FineEvent>, i: nat)
    requires i < |evs|
  {
    !TakesPinned(Moment(f, evs, i), evs[i].action) && !PinsMissing(Moment(f, evs, i), evs[i].action)
  }

  lemma NextKept(f: Fine, evs: seq<FineEvent>, i: nat)
    requires i < |evs| && KeptAt(f, evs, i)
    ensures KeptAt(f, evs, i + 1) <==> SafeAt(f, evs, i)
  {
    Unfold(f, evs, i);
    var m, a, f' := Moment(f, evs, i), evs[i].action, FineRun(f, evs[..i + 1]);
    VersionsDropped(FineRun(f, evs[..i]), m);
    if a.CommitRows? {
      TransactionKeepsIff(m, a, f');
    } else if DeletesObjects(a) {
      DeletionKeepsIff(m, a, f');
    } else {
      QuietKeeps(m, a, f');
    }
  }

  ghost predicate AllKept(f: Fine, evs: seq<FineEvent>, n: nat)
    requires n <= |evs|
  {
    forall i | 0 <= i <= n :: KeptAt(f, evs, i)
  }

  ghost predicate AllSafe(f: Fine, evs: seq<FineEvent>, n: nat)
    requires n <= |evs|
  {
    forall i | 0 <= i < n :: SafeAt(f, evs, i)
  }

  /** Without the lock every pinned blob keeps its object, throughout the first `n` events, if and only
      if no object deletion among them takes the object of a blob pinned by then, and no transaction
      leaves a blob pinned whose object has gone since its commit found it. */
  lemma {:induction false} UnlockedObjectsKeptIff(f: Fine, evs: seq<FineEvent>, n: nat)
    requires FineInitial(f) && n <= |evs|
    ensures AllKept(f, evs, n) <==> AllSafe(f, evs, n)
  {
    assert KeptAt(f, evs, 0) by { assert evs[..0] == []; }
    forall i | 0 <= i < n && KeptAt(f, evs, i) ensures KeptAt(f, evs, i + 1) <==> SafeAt(f, evs, i) {
      NextKept(f, evs, i);
    }
    var kept := (i: nat) => i <= |evs| && KeptAt(f, evs, i);
    var safe := (i: nat) => i < |evs| && SafeAt(f, evs, i);
    HoldsThroughoutIff(kept, safe, n);
    assert forall i | 0 <= i <= n :: kept(i) <==> KeptAt(f, evs, i);
    assert forall i | 0 <= i < n :: safe(i) <==> SafeAt(f, evs, i);
  }

  // ---- a discipline that suffices ----

  /** Everything an unfinished commit has found is still stored. */
  ghost predicate FoundStored(f: Fine) {
    forall id | id in f.checks :: f.checks[id].found <= f.objects
  }

  /** The step takes no object that an unfinished commit has found. */
  ghost predicate TakesFound(f: Fine, a: FineAction) {
    && DeletesObjects(a)
    && exists id, b :: id in f.checks && b in f.checks[id].found && b in f.objects - Act(f, a).objects
  }

  lemma ActKeepsFound(f: Fine, a: FineAction, f': Fine)
    requires FoundStored(f) && !TakesFound(f, a) && f' == Act(f, a)
    ensures FoundStored(f')
  {
    if DeletesObjects(a) {
      assert f'.checks == f.checks;
      forall id, b | id in f.checks && b in f.checks[id].found ensures b in f'.objects {
        assert b in f.objects;
        assert b in f'.objects || b in f.objects - Act(f, a).objects;
      }
    }
  }

  ghost predicate FoundAt(f: Fine, evs: seq<FineEvent>, i: nat)
    requires i <= |evs|
  {
    FoundStored(FineRun(f, evs[..i]))
  }

  ghost predicate DisciplinedAt(f: Fine, evs: seq<FineEvent>, i: nat)
    requires i < |evs|
  {
    !TakesPinned(Moment(f, evs, i), evs[i].action) && !TakesFound(Moment(f, evs, i), evs[i].action)
  }

  lemma FoundNotMissing(f: Fine, a: FineAction)
    requires FoundStored(f)
    ensures !PinsMissing(f, a)
  {
  }

  lemma NextDisciplined(f: Fine, evs: seq<FineEvent>, i: nat)
    requires i < |evs| && KeptAt(f, evs, i) && FoundAt(f, evs, i) && DisciplinedAt(f, evs, i)
    ensures KeptAt(f, evs, i + 1) && FoundAt(f, evs, i + 1)
  {
    var m, a := Moment(f, evs, i), evs[i].action;
    assert FoundStored(m);
    FoundNotMissing(m, a);
    NextKept(f, evs, i);
    Unfold(f, evs, i);
    ActKeepsFound(m, a, FineRun(f, evs[..i + 1]));
  }

  ghost predicate GuardedAt(f: Fine, evs: seq<FineEvent>, i: nat)
    requires i <= |evs|
  {
    KeptAt(f, evs, i) && FoundAt(f, evs, i)
  }

  lemma {:induction false} GuardedThroughout(f: Fine, evs: seq<FineEvent>, i: nat)
    requires FineInitial(f) && i <= |evs| && forall j | 0 <= j < i :: DisciplinedAt(f, evs, j)
    ensures GuardedAt(f, evs, i)
  {
    if i == 0 {
      assert evs[..0] == [];
    } else {
      GuardedThroughout(f, evs, i - 1);
      NextDisciplined(f, evs, i - 1);
    }
  }

  /** It is enough that no object deletion takes what is pinned or what an unfinished commit has found. */
  lemma DisciplineKeepsObjects(f: Fine, evs: seq<FineEvent>, n: nat)
    requires FineInitial(f) && n <= |evs| && forall i | 0 <= i < n :: DisciplinedAt(f, evs, i)
    ensures AllKept(f, evs, n)
  {
    forall i | 0 <= i <= n ensures KeptAt(f, evs, i) {
      GuardedThroughout(f, evs, i);
    }
  }

  // ---- what the lock is for ----

  /** A current entry whose blob has its row but no object. */
  ghost predicate Dangling(f: Fine, b: BlobId) {
    CurrentRef(f.db.entries, b) && b in f.db.blobs && b !in f.objects
  }

  lemma Snoc(f: Fine, evs: seq<FineEvent>, ev: FineEvent)
    ensures FineRun(f, evs + [ev]) == Act(Later(FineRun(f, evs), ev.delay), ev.action)
  {
    assert (evs + [ev])[..|evs|] == evs;
  }

  /** One more step of a run, at the same time. */
  lemma OneMore(f: Fine, evs: seq<FineEvent>, a: FineAction) returns (more: seq<FineEvent>)
    ensures FineRun(f, more) == Act(FineRun(f, evs), a)
  {
    more := evs + [FineEvent(0, a)];
    Snoc(f, evs, FineEvent(0, a));
    assert Later(FineRun(f, evs), 0) == FineRun(f, evs);
  }

  lemma ListedAlone(db: Db, b: BlobId, now: nat)
    requires db.blobs.Keys == {b} && SqlCollectible(db, b, now)
    ensures GcKeys(db, now) == {b}
  {
    assert CollectibleIds(db, now) == {b};
    SelectIsPage({b}, DeadlineRank(db.blobs), GC_BATCH_SIZE);
    var r := ListCollectible(db, now, GC_BATCH_SIZE);
    assert |r| > 0 ==> r[0] in {b};
  }

  /** One blob with its row and its object, and nothing that refers to it. */
  ghost predicate OnlyBlob(f: Fine, g: Fine, b: BlobId) {
    && g.db.blobs.Keys == {b} && b in g.objects && g.db.entries == map[] && g.db.versions == map[]
    && g.db.pause == f.db.pause && g.db.vaultId == f.db.vaultId && g.checks == map[] && g.deletions == map[]
  }

  /** Stage and upload an empty file. */
  lemma UploadedRun(f: Fine, b: BlobId) returns (evs: seq<FineEvent>)
    requires FineInitial(f) && f.db.pause.None?
    ensures var g := FineRun(f, evs);
            && OnlyBlob(f, g, b) && g.listings == [] && g.clock == f.clock
            && g.db.blobs[b] == BlobRow(Staged, 0, f.clock, f.clock, Some(f.clock + f.grace))
    ensures forall i | 0 <= i < |evs| :: !DeletesObjects(evs[i].action)
  {
    var stage, put := FineEvent(0, StageRow(b, 0)), FineEvent(0, PutObject(b));
    var staged := Act(Later(f, 0), stage.action);
    assert staged.db.blobs == map[b := BlobRow(Staged, 0, f.clock, f.clock, Some(f.clock + f.grace))];
    Snoc(f, [], stage);
    Snoc(f, [] + [stage], put);
    evs := [] + [stage] + [put];
  }

  /** And list it when its grace period is over. */
  lemma ListedRun(f: Fine, b: BlobId) returns (evs: seq<FineEvent>)
    requires FineInitial(f) && f.db.pause.None?
    ensures var g := FineRun(f, evs);
            OnlyBlob(f, g, b) && g.listings == [Listing(f.clock + f.grace, {b}, {})]
    ensures forall i | 0 <= i < |evs| :: !DeletesObjects(evs[i].action)
  {
    var before := UploadedRun(f, b);
    var g, list := FineRun(f, before), FineEvent(f.grace, ListForGc);
    ListedAlone(g.db, b, f.clock + f.grace);
    Snoc(f, before, list);
    evs := before + [list];
  }

  const FIRST: string := "first"

  function FirstWrite(e: EntryId, b: BlobId): Mutation {
    Mutation(FIRST, e, Upsert(b), 0, "")
  }

  function CommitEvent(f: Fine, e: EntryId, b: BlobId, author: Author): FineEvent {
    FineEvent(0, CommitRows(0, Session(f.db.vaultId, author), false, [FirstWrite(e, b)]))
  }

  lemma CommitFirst(db: Db, ctx: Context, session: Session, m: Mutation)
    requires db.entries == map[] && db.pause.None? && session.vaultId == db.vaultId
    requires m.baseRevision == 0 && m.content.Upsert? && m.content.blobId in db.blobs && m.content.blobId in ctx.objects
    ensures var db' := CommitDb(db, session, ctx, [m]).0;
            CurrentRef(db'.entries, m.content.blobId) && m.content.blobId in db'.blobs
  {
    assert [m][..0] == [];
    assert BatchFold(db, ctx, [m]) == BatchStep(Batch(db, [], {}), ctx, m);
    var db' := CommitDb(db, session, ctx, [m]).0;
    assert db'.entries[m.entryId].content == m.content;
  }

  lemma AsksFirst(g: Fine, b: BlobId)
    requires g.checks == map[] && b in g.objects
    ensures Act(g, AskStore(0, b)) == g.(checks := map[0 := Check({b}, {b})])
  {
    assert {} + {b} == {b};
  }

  /** The transaction of a commit that was told the blob exists. */
  lemma CommitsFound(f: Fine, g: Fine, e: EntryId, b: BlobId, author: Author, h: Fine)
    requires f.db.pause.None? && g.db.pause.None? && g.db.vaultId == f.db.vaultId
    requires g.db.entries == map[] && b in g.db.blobs && g.checks == map[0 := Check({b}, {b})]
    requires h == Act(Later(g, 0), CommitEvent(f, e, b, author).action)
    ensures CurrentRef(h.db.entries, b) && b in h.db.blobs
    ensures h.objects == g.objects && h.listings == g.listings && h.deletions == g.deletions
  {
    var m := FirstWrite(e, b);
    assert Wanted([m]) == {b} by { assert [m][0] == m; }
    CommitFirst(g.db, CommitContext(Later(g, 0), 0, Session(f.db.vaultId, author), false),
                Session(f.db.vaultId, author), m);
  }

  lemma ChunkDeletes(g: Fine, b: BlobId)
    requires |g.listings| > 0 && b in g.listings[0].ids
    ensures var h := Act(g, DeleteObjects(0, {b}, Faults(false, {}, {})));
            h.objects == g.objects - {b} && h == g.(objects := h.objects, listings := h.listings)
  {
    assert g.listings[0].ids * {b} == {b};
  }

  /** Without the lock, whatever the grace period and the limits, some interleaving leaves a current
      entry whose ciphertext is gone: a commit that falls between listing and object deletion finds
      the object present, and the row survives. */
  lemma LockIsNeeded(f: Fine, b: BlobId, e: EntryId, author: Author)
    requires FineInitial(f) && f.db.pause.None?
    ensures exists evs :: Dangling(FineRun(f, evs), b)
  {
    var evs := ListedRun(f, b);
    AsksFirst(FineRun(f, evs), b);
    evs := OneMore(f, evs, AskStore(0, b));
    var asked, commit := FineRun(f, evs), CommitEvent(f, e, b, author);
    evs := OneMore(f, evs, commit.action);
    CommitsFound(f, asked, e, b, author, FineRun(f, evs));
    ChunkDeletes(FineRun(f, evs), b);
    evs := OneMore(f, evs, DeleteObjects(0, {b}, Faults(false, {}, {})));
    assert Dangling(FineRun(f, evs), b);
  }

  /** Sparing what is pinned is not enough: no object deletion of this run takes a pinned blob, but one
      falls between the moment a commit finds the object and its transaction. */
  lemma SparingPinnedIsNotEnough(f: Fine, b: BlobId, e: EntryId, author: Author) returns (evs: seq<FineEvent>)
    requires FineInitial(f) && f.db.pause.None?
    ensures Dangling(FineRun(f, evs), b)
    ensures forall i | 0 <= i < |evs| :: !TakesPinned(Moment(f, evs, i), evs[i].action)
  {
    var listed := ListedRun(f, b);
    var ask := FineEvent(0, AskStore(0, b));
    var commit, delete := CommitEvent(f, e, b, author), FineEvent(0, DeleteObjects(0, {b}, Faults(false, {}, {})));
    Snoc(f, listed, ask);
    var asked := FineRun(f, listed + [ask]);
    AsksFirst(Later(FineRun(f, listed), 0), b);
    Snoc(f, listed + [ask], delete);
    ChunkDeletes(Later(asked, 0), b);
    var deleted := FineRun(f, listed + [ask] + [delete]);
    Snoc(f, listed + [ask] + [delete], commit);
    evs := listed + [ask] + [delete] + [commit];
    CommitsFound(f, deleted, e, b, author, FineRun(f, evs));
    forall i | 0 <= i < |evs| ensures !TakesPinned(Moment(f, evs, i), evs[i].action) {
      if i == |listed| + 1 {
        assert evs[..i] == listed + [ask];
        assert Moment(f, evs, i) == Later(asked, 0);
      } else if i < |listed| {
        assert evs[i] == listed[i];
      }
    }
  }

  /** Both halves of an explicit deletion that has begun, confirmed by the store. */
  lemma DeletionEnds(g: Fine, b: BlobId, h: Fine)
    requires g.deletions == map[0 := Deletion(b, true, false)]
    requires h == Act(Act(g, DeleteObject(0, Faults(false, {}, {}))), DeleteRecord(0))
    ensures h.db.entries == g.db.entries && b !in h.db.blobs && b !in h.objects
  {
    assert Confirmed({b}, Faults(false, {}, {})) == {b};
    var mid := Act(g, DeleteObject(0, Faults(false, {}, {})));
    assert mid.deletions == map[0 := Deletion(b, true, true)] && mid.db == g.db && b !in mid.objects;
  }

  /** An explicit deletion that a commit overtakes loses the row as well: it looks at the row once,
      before it awaits the store. */
  lemma DeletionLosesRow(f: Fine, b: BlobId, e: EntryId, author: Author) returns (evs: seq<FineEvent>)
    requires FineInitial(f) && f.db.pause.None?
    ensures var g := FineRun(f, evs);
            CurrentRef(g.db.entries, b) && b !in g.db.blobs && b !in g.objects
  {
    evs := UploadedRun(f, b);
    var g := FineRun(f, evs);
    BeginsUnpinned(g, b);
    evs := OneMore(f, evs, BeginDelete(0, b));
    AsksFirst(FineRun(f, evs), b);
    evs := OneMore(f, evs, AskStore(0, b));
    var asked, commit := FineRun(f, evs), CommitEvent(f, e, b, author);
    evs := OneMore(f, evs, commit.action);
    var committed := FineRun(f, evs);
    CommitsFound(f, asked, e, b, author, committed);
    evs := OneMore(f, evs, DeleteObject(0, Faults(false, {}, {})));
    evs := OneMore(f, evs, DeleteRecord(0));
    DeletionEnds(committed, b, FineRun(f, evs));
  }

  lemma BeginsUnpinned(g: Fine, b: BlobId)
    requires g.db.entries == map[] && g.db.versions == map[] && b in g.db.blobs && g.db.pause.None?
    requires g.deletions == map[]
    ensures Act(g, BeginDelete(0, b)) == g.(deletions := map[0 := Deletion(b, true, false)])
  {
  }
}
