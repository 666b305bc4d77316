/** A run that loses coverage: the last history of a deleted entry is purged while sharing is
    suspended, long before the collection that had been planned for its expiry. */
module GcWitness {
  import opened Wrappers
  import opened Tables
  import opened Services
  import opened JobTable
  import opened Runs
  import opened Theorems
  import opened Undo
  import opened GcSchedule

  /** Enough days of history that grace period, half hour and slack all end before it does. */
  function Days(w: World, slack: nat): nat {
    w.grace + slack + 2
  }

  function ExpiresAt(w: World, slack: nat): nat {
    w.clock + Days(w, slack) * DAY_IN_MS
  }

  /** When the collection asked for at staging is due at the latest. */
  function CollectAt(w: World): nat {
    w.clock + w.grace + GC_BUCKET_MS
  }

  lemma Timing(w: World, slack: nat)
    ensures CollectAt(w) + slack < ExpiresAt(w, slack)
  {
  }

  function Write(e: EntryId, b: BlobId): Mutation {
    Mutation("write", e, Upsert(b), 0, "")
  }

  function Erase(e: EntryId): Mutation {
    Mutation("erase", e, Delete, 1, "")
  }

  /** The collection job is there and due by `t`. */
  predicate GcBy(w: World, t: nat) {
    BlobGc in w.jobs && w.jobs[BlobGc].dueAt <= t
  }

  /** Policy, stage and upload: one staged row with its object, and a collection planned. */
  ghost predicate Staged(w: World, s: World, b: BlobId, slack: nat) {
    && s.db.entries == map[] && s.db.versions == map[] && s.db.pause.None? && s.db.vaultId == w.db.vaultId
    && s.db.cursor == 0 && s.db.retentionDays == Days(w, slack)
    && s.db.blobs == map[b := BlobRow(BlobState.Staged, 0, w.clock, w.clock, Some(w.clock + w.grace))]
    && b in s.objects && s.clock == w.clock && s.grace == w.grace && GcBy(s, CollectAt(w))
  }

  lemma StagedRun(w: World, b: BlobId, slack: nat, s1: World, s2: World, s3: World)
    requires Initial(w)
    requires s1 == Exec(w, w.clock, SetPolicy(0, 0, Days(w, slack)))
    requires s2 == Exec(s1, w.clock, Stage(b, 0)) && s3 == Exec(s2, w.clock, Upload(b))
    ensures Staged(w, s3, b, slack)
  {
    ScheduledWithinBucket(BlobGc, w.clock + w.grace);
    assert s2.db.blobs == map[b := BlobRow(BlobState.Staged, 0, w.clock, w.clock, Some(w.clock + w.grace))];
  }

  /** The entry written: its blob live, nothing in history. */
  ghost predicate Written(w: World, s: World, b: BlobId, e: EntryId, slack: nat) {
    && s.db.entries.Keys == {e} && s.db.entries[e].content == Upsert(b) && s.db.entries[e].revision == 1
    && s.db.entries[e].lastMutationId == "write"
    && s.db.versions == map[] && s.db.pause.None? && s.db.vaultId == w.db.vaultId
    && s.db.retentionDays == Days(w, slack)
    && s.db.blobs.Keys == {b} && s.clock == w.clock && s.grace == w.grace && GcBy(s, CollectAt(w))
  }

  lemma ScheduleKeepsGc(s: World, now: nat, t: nat)
    requires GcBy(s, t)
    ensures GcBy(ScheduleFlush(ScheduleNext(s, now), now), t)
  {
  }

  lemma WriteApplied(db: Db, ctx: Context, e: EntryId, b: BlobId, db': Db)
    requires db.entries == map[] && db.versions == map[]
    requires Decide(db, ctx, Write(e, b)).Apply?
    requires db' == ApplyMutation(db, ctx, Write(e, b), Decide(db, ctx, Write(e, b)))
    ensures db'.entries.Keys == {e} && db'.entries[e].content == Upsert(b) && db'.entries[e].revision == 1
    ensures db'.entries[e].lastMutationId == "write" && db'.versions == map[] && db'.blobs.Keys == db.blobs.Keys
  {
    assert db'.entries == map[e := NewRow(db, ctx, Write(e, b), 1)];
  }

  lemma WriteAllowed(db: Db, ctx: Context, e: EntryId, b: BlobId)
    requires db.entries == map[] && b in db.blobs && b in ctx.objects
    ensures Decide(db, ctx, Write(e, b)).Apply? && Blocked(db, ctx, Write(e, b).content).None?
  {
  }

  lemma WrittenRun(w: World, b: BlobId, e: EntryId, session: Session, slack: nat, s3: World, s4: World)
    requires Staged(w, s3, b, slack) && session.vaultId == w.db.vaultId
    requires s4 == Exec(s3, w.clock, Commit(session, false, [Write(e, b)]))
    ensures Written(w, s4, b, e, slack)
  {
    var m, ctx := Write(e, b), ContextOf(s3, w.clock, session, false);
    WriteAllowed(s3.db, ctx, e, b);
    AppliedRun(s3, w.clock, session, m, CollectAt(w), s4);
    WriteApplied(s3.db, ctx, e, b, s4.db);
    AppliedFrame(s3.db, ctx, m, s4.db);
  }

  lemma AppliedFrame(db: Db, ctx: Context, m: Mutation, db': Db)
    requires Decide(db, ctx, m).Apply? && db' == ApplyMutation(db, ctx, m, Decide(db, ctx, m))
    ensures db'.pause == db.pause && db'.vaultId == db.vaultId && db'.retentionDays == db.retentionDays
  {
  }

  /** A lone mutation that applies: its tables, and the collection no later than it was. */
  lemma AppliedRun(s: World, now: nat, session: Session, m: Mutation, t: nat, s': World)
    requires s.db.pause.None? && session.vaultId == s.db.vaultId && GcBy(s, t)
    requires Decide(s.db, ContextOf(s, now, session, false), m).Apply?
    requires Blocked(s.db, ContextOf(s, now, session, false), m.content).None?
    requires s' == CommitMutations(s, now, session, false, [m]).0
    ensures s'.db == ApplyMutation(s.db, ContextOf(s, now, session, false), m,
                                   Decide(s.db, ContextOf(s, now, session, false), m))
    ensures s'.clock == now && s'.grace == s.grace && GcBy(s', t)
  {
    var committed := CommitMutations(s, now, session, false, [m]);
    CommitApplied(s, now, session, false, m, committed.0, committed.1);
    ScheduleKeepsGc(s.(db := s'.db, clock := now), now, t);
  }

  /** The entry erased: one version keeps its retired blob until the history expires. */
  ghost predicate ErasedTables(w: World, db: Db, b: BlobId, e: EntryId, slack: nat) {
    && db.entries.Keys == {e} && db.entries[e].content == Delete && db.entries[e].revision == 2
    && (exists v :: OnlyVersion(w, db.versions, v, b, e, slack))
    && db.pause.None? && db.retentionDays == Days(w, slack)
    && db.blobs.Keys == {b} && db.blobs[b].state.PendingDelete? && db.blobs[b].deleteAfter == Some(w.clock)
  }

  ghost predicate OnlyVersion(w: World, versions: Versions, v: VersionId, b: BlobId, e: EntryId, slack: nat) {
    && versions.Keys == {v} && versions[v].entryId == e && versions[v].content == Upsert(b)
    && versions[v].capturedAt == w.clock && versions[v].expiresAt == ExpiresAt(w, slack)
  }

  lemma EraseApplied(w: World, db: Db, ctx: Context, b: BlobId, e: EntryId, slack: nat, db': Db)
    requires db.entries.Keys == {e} && db.entries[e].content == Upsert(b) && db.entries[e].revision == 1
    requires db.versions == map[] && db.pause.None? && db.retentionDays == Days(w, slack) && db.blobs.Keys == {b}
    requires ctx.now == w.clock && Decide(db, ctx, Erase(e)).Apply?
    requires db' == ApplyMutation(db, ctx, Erase(e), Decide(db, ctx, Erase(e)))
    ensures ErasedTables(w, db', b, e, slack)
  {
    assert db'.versions == map[db.nextId := HistoryBefore(db, ctx, Erase(e), BeforeDelete)];
    assert OnlyVersion(w, db'.versions, db.nextId, b, e, slack);
    assert db'.entries == db.entries[e := NewRow(db, ctx, Erase(e), 2)];
    assert !CurrentRef(db'.entries, b);
  }

  lemma EraseAllowed(db: Db, ctx: Context, e: EntryId)
    requires e in db.entries && db.entries[e].revision == 1 && db.entries[e].lastMutationId == "write"
    ensures Decide(db, ctx, Erase(e)).Apply? && Blocked(db, ctx, Erase(e).content).None?
  {
    assert "erase"[0] == 'e' && "write"[0] == 'w';
  }

  lemma ErasedRun(w: World, b: BlobId, e: EntryId, session: Session, slack: nat, s4: World, s5: World)
    requires Written(w, s4, b, e, slack) && session.vaultId == w.db.vaultId
    requires s5 == Exec(s4, w.clock, Commit(session, false, [Erase(e)]))
    ensures ErasedTables(w, s5.db, b, e, slack) && GcBy(s5, CollectAt(w)) && s5.clock == w.clock
  {
    var m, ctx := Erase(e), ContextOf(s4, w.clock, session, false);
    EraseAllowed(s4.db, ctx, e);
    AppliedRun(s4, w.clock, session, m, CollectAt(w), s5);
    EraseApplied(w, s4.db, ctx, b, e, slack, s5.db);
  }

  /** Until the history expires a collection has nothing to do, and comes back when it does. */
  lemma NothingYet(w: World, db: Db, b: BlobId, e: EntryId, slack: nat, now: nat)
    requires ErasedTables(w, db, b, e, slack) && w.clock <= now < ExpiresAt(w, slack)
    ensures Expire(db, now) == db && GcKeys(db, now) == {} && ReadNextGcAt(db, now) == Some(ExpiresAt(w, slack))
  {
    var v :| OnlyVersion(w, db.versions, v, b, e, slack);
    assert Expire(db, now).versions == db.versions;
    assert Retained(db.versions, b, now);
    GcKeysCollectible(db, now);
    assert ReadGcDeadlines(db, now) == {ExpiresAt(w, slack)} by {
      assert forall d | d in ReadGcDeadlines(db, now) :: d == ExpiresAt(w, slack);
      assert db.versions[v].expiresAt in ReadGcDeadlines(db, now);
    }
  }

  /** The planned collection runs, finds the blob retained, and moves to the end of the history. */
  lemma CollectedRun(w: World, b: BlobId, e: EntryId, slack: nat, s5: World, s6: World)
    requires ErasedTables(w, s5.db, b, e, slack) && GcBy(s5, CollectAt(w))
    requires s6 == Exec(s5, CollectAt(w), Alarm(true, NO_FAULTS))
    ensures s6.db == s5.db && s6.clock == CollectAt(w)
    ensures BlobGc in s6.jobs && s6.jobs[BlobGc].dueAt >= ExpiresAt(w, slack)
  {
    Timing(w, slack);
    NothingYet(w, s5.db, b, e, slack, CollectAt(w));
    DeleteNothing(s5.db, CollectAt(w));
    ScheduledWithinBucket(BlobGc, ExpiresAt(w, slack));
  }

  lemma DeleteNothing(db: Db, now: nat)
    ensures Collect(db, {}, {}, NO_FAULTS, now).0 == db
  {
  }

  /** The purge drops the version and leaves the collection where it is. */
  lemma PurgedRun(w: World, b: BlobId, e: EntryId, slack: nat, s6: World, s7: World)
    requires ErasedTables(w, s6.db, b, e, slack)
    requires s7 == Exec(s6, CollectAt(w), Purge(false, [PurgeRequest(e, 2)], NO_FAULTS))
    ensures SqlCollectible(s7.db, b, CollectAt(w)) && s7.jobs == s6.jobs && s7.clock == CollectAt(w)
  {
    var r, now := PurgeRequest(e, 2), CollectAt(w);
    Timing(w, slack);
    assert [r][..0] == [];
    assert PurgeFold(s6.db, now, [r]) == PurgeStep(PurgeBatch(s6.db, [], {}), now, r);
    var v :| OnlyVersion(w, s6.db.versions, v, b, e, slack);
    assert HasRestorableHistory(s6.db, e, now);
    assert s7.db.versions == map[];
  }

  // ---- putting the run together ----

  ghost predicate Fitting(evs: seq<Event>, slack: nat) {
    forall i | 0 <= i < |evs| :: SlackFits(evs[i].command, slack)
  }

  /** One more command of a run, from the world it has reached. */
  lemma OneMore(w: World, evs: seq<Event>, s: World, delay: nat, c: Command, now: nat, s': World, slack: nat)
      returns (more: seq<Event>)
    requires Run(w, evs) == s && now == s.clock + delay && s' == Exec(s, now, c)
    requires Fitting(evs, slack) && SlackFits(c, slack)
    ensures Run(w, more) == s' && Fitting(more, slack)
  {
    more := evs + [Event(delay, c)];
    assert more[..|evs|] == evs;
    assert TimeOf(s, Event(delay, c)) == now;
  }

  lemma ReachStaged(w: World, b: BlobId, slack: nat) returns (evs: seq<Event>, s: World)
    requires Initial(w) && slack >= GC_BUCKET_MS
    ensures Run(w, evs) == s && Fitting(evs, slack) && Staged(w, s, b, slack)
  {
    var s1 := Exec(w, w.clock, SetPolicy(0, 0, Days(w, slack)));
    ExecClock(w, w.clock, SetPolicy(0, 0, Days(w, slack)), s1);
    var s2 := Exec(s1, w.clock, Stage(b, 0));
    ExecClock(s1, w.clock, Stage(b, 0), s2);
    s := Exec(s2, w.clock, Upload(b));
    StagedRun(w, b, slack, s1, s2, s);
    evs := OneMore(w, [], w, 0, SetPolicy(0, 0, Days(w, slack)), w.clock, s1, slack);
    evs := OneMore(w, evs, s1, 0, Stage(b, 0), w.clock, s2, slack);
    evs := OneMore(w, evs, s2, 0, Upload(b), w.clock, s, slack);
  }

  lemma ExecClock(w: World, now: nat, c: Command, w': World)
    requires w' == Exec(w, now, c) && (c.SetPolicy? || c.Stage?)
    ensures w'.clock == now
  {
  }

  lemma ReachErased(w: World, b: BlobId, e: EntryId, author: Author, slack: nat) returns (evs: seq<Event>, s: World)
    requires Initial(w) && slack >= GC_BUCKET_MS
    ensures Run(w, evs) == s && Fitting(evs, slack)
    ensures ErasedTables(w, s.db, b, e, slack) && GcBy(s, CollectAt(w)) && s.clock == w.clock
  {
    var session := Session(w.db.vaultId, author);
    var s3: World, s4: World;
    evs, s3 := ReachStaged(w, b, slack);
    s4 := Exec(s3, w.clock, Commit(session, false, [Write(e, b)]));
    WrittenRun(w, b, e, session, slack, s3, s4);
    evs := OneMore(w, evs, s3, 0, Commit(session, false, [Write(e, b)]), w.clock, s4, slack);
    s := Exec(s4, w.clock, Commit(session, false, [Erase(e)]));
    ErasedRun(w, b, e, session, slack, s4, s);
    evs := OneMore(w, evs, s4, 0, Commit(session, false, [Erase(e)]), w.clock, s, slack);
  }

  lemma ReachCollected(w: World, b: BlobId, e: EntryId, author: Author, slack: nat) returns (evs: seq<Event>, s: World)
    requires Initial(w) && slack >= GC_BUCKET_MS
    ensures Run(w, evs) == s && Fitting(evs, slack)
    ensures ErasedTables(w, s.db, b, e, slack) && s.clock == CollectAt(w)
    ensures BlobGc in s.jobs && s.jobs[BlobGc].dueAt >= ExpiresAt(w, slack)
  {
    var s5: World;
    evs, s5 := ReachErased(w, b, e, author, slack);
    s := Exec(s5, CollectAt(w), Alarm(true, NO_FAULTS));
    CollectedRun(w, b, e, slack, s5, s);
    evs := OneMore(w, evs, s5, w.grace + GC_BUCKET_MS, Alarm(true, NO_FAULTS), CollectAt(w), s, slack);
  }

  /** In every vault, and for every slack, some run from the first state row loses coverage: its only
      purge is made under suspension, and when it ends a blob is collectible for which no collection is
      due before the slack has passed. */
  lemma {:induction false} SuspendedPurgeUncovers(w: World, b: BlobId, e: EntryId, author: Author, slack: nat)
      returns (evs: seq<Event>)
    requires Initial(w) && slack >= GC_BUCKET_MS
    ensures Fitting(evs, slack)
    ensures var w' := Run(w, evs);
            SqlCollectible(w'.db, b, w'.clock) && !CoveredWorld(w', slack)
  {
    var s6: World;
    evs, s6 := ReachCollected(w, b, e, author, slack);
    var purge := Purge(false, [PurgeRequest(e, 2)], NO_FAULTS);
    var s7 := Exec(s6, CollectAt(w), purge);
    PurgedRun(w, b, e, slack, s6, s7);
    Timing(w, slack);
    evs := OneMore(w, evs, s6, 0, purge, CollectAt(w), s7, slack);
    assert s7.jobs[BlobGc].dueAt >= s7.clock + slack;
  }
}
