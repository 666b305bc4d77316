/** What an applied mutation leaves behind, read off the tables: its entry says what the mutation said,
    until another applied mutation of that entry, and every entry was written that way. */
module Commits {
  import opened Wrappers
  import opened Tables
  import opened Services
  import opened Accounting
  import opened Runs
  import opened Evolution
  import opened Theorems

  /** The row says this, field by field. */
  ghost predicate Carries(
      row: EntryRow, content: Content, metadata: string, mutationId: string, revision: nat, author: Author,
      at: nat, updatedSeq: nat)
  {
    && row.content == content && row.metadata == metadata && row.lastMutationId == mutationId
    && row.revision == revision && row.author == author && row.updatedAt == at && row.updatedSeq == updatedSeq
  }

  /** The row says what the mutation says, one revision after its base. */
  ghost predicate Says(row: EntryRow, m: Mutation, author: Author, at: nat, updatedSeq: nat) {
    Carries(row, m.content, m.metadata, m.mutationId, m.baseRevision + 1, author, at, updatedSeq)
  }

  /** The tables just before the i-th mutation of a batch. */
  function At(db: Db, ctx: Context, ms: seq<Mutation>, i: nat): Db
    requires i <= |ms|
  {
    BatchFold(db, ctx, ms[..i]).db
  }

  // ---- one mutation and one batch ----

  lemma AppliedRow(db: Db, ctx: Context, m: Mutation, db': Db)
    requires Decide(db, ctx, m).Apply? && db' == ApplyMutation(db, ctx, m, Decide(db, ctx, m))
    ensures m.entryId in db'.entries && Says(db'.entries[m.entryId], m, ctx.author, ctx.now, db.cursor + 1)
    ensures db'.cursor == db.cursor + 1
    ensures forall e | e != m.entryId :: Get(db'.entries, e) == Get(db.entries, e)
  {
  }

  /** No applied mutation of the batch, from position `from` on, is of this entry. */
  ghost predicate LeavesAlone(db: Db, ctx: Context, ms: seq<Mutation>, from: nat, e: EntryId) {
    forall j | from <= j < |ms| && ms[j].entryId == e :: !AppliedIn(db, ctx, ms, j)
  }

  lemma LeavesAloneFront(db: Db, ctx: Context, ms: seq<Mutation>, from: nat, e: EntryId)
    requires ms != [] && LeavesAlone(db, ctx, ms, from, e)
    ensures LeavesAlone(db, ctx, ms[..|ms| - 1], from, e)
  {
    var front := ms[..|ms| - 1];
    forall j | from <= j < |front| && front[j].entryId == e ensures !AppliedIn(db, ctx, front, j) {
      assert front[..j] == ms[..j] && !AppliedIn(db, ctx, ms, j);
    }
  }

  lemma LastStep(db: Db, ctx: Context, ms: seq<Mutation>, e: EntryId)
    requires ms != [] && (ms[|ms| - 1].entryId == e ==> !AppliedIn(db, ctx, ms, |ms| - 1))
    ensures Get(BatchFold(db, ctx, ms).db.entries, e) == Get(BatchFold(db, ctx, ms[..|ms| - 1]).db.entries, e)
  {
    var before, m := BatchFold(db, ctx, ms[..|ms| - 1]), ms[|ms| - 1];
    if AppliedIn(db, ctx, ms, |ms| - 1) {
      AppliedRow(before.db, ctx, m, BatchFold(db, ctx, ms).db);
    }
  }

  lemma {:induction false} BatchUntouched(db: Db, ctx: Context, ms: seq<Mutation>, e: EntryId)
    requires LeavesAlone(db, ctx, ms, 0, e)
    ensures Get(BatchFold(db, ctx, ms).db.entries, e) == Get(db.entries, e)
  {
    if ms != [] {
      LeavesAloneFront(db, ctx, ms, 0, e);
      BatchUntouched(db, ctx, ms[..|ms| - 1], e);
      LastStep(db, ctx, ms, e);
    }
  }

  /** The last applied mutation of an entry in a batch is what the batch leaves in its row. */
  lemma {:induction false} BatchRow(db: Db, ctx: Context, ms: seq<Mutation>, i: nat)
    requires i < |ms| && AppliedIn(db, ctx, ms, i) && LeavesAlone(db, ctx, ms, i + 1, ms[i].entryId)
    ensures var entries := BatchFold(db, ctx, ms).db.entries;
            ms[i].entryId in entries
            && Says(entries[ms[i].entryId], ms[i], ctx.author, ctx.now, At(db, ctx, ms, i).cursor + 1)
  {
    var front := ms[..|ms| - 1];
    if i == |ms| - 1 {
      AppliedRow(BatchFold(db, ctx, front).db, ctx, ms[i], BatchFold(db, ctx, ms).db);
    } else {
      LeavesAloneFront(db, ctx, ms, i + 1, ms[i].entryId);
      assert front[..i] == ms[..i];
      BatchRow(db, ctx, front, i);
      LastStep(db, ctx, ms, ms[i].entryId);
    }
  }

  /** An entry some mutation of the batch was applied to has a last one. */
  lemma {:induction false} LastApplied(db: Db, ctx: Context, ms: seq<Mutation>, n: nat, e: EntryId) returns (i: nat)
    requires n <= |ms| && LeavesAlone(db, ctx, ms, n, e) && !LeavesAlone(db, ctx, ms, 0, e)
    ensures i < |ms| && ms[i].entryId == e && AppliedIn(db, ctx, ms, i) && LeavesAlone(db, ctx, ms, i + 1, e)
  {
    if n > 0 && ms[n - 1].entryId == e && AppliedIn(db, ctx, ms, n - 1) {
      i := n - 1;
    } else {
      i := LastApplied(db, ctx, ms, n - 1, e);
    }
  }

  // ---- what the client is told ----

  /** Nothing the store or the rows lack: a delete needs neither. */
  predicate Available(db: Db, ctx: Context, content: Content) {
    content.Upsert? ==> content.blobId in ctx.objects && content.blobId in db.blobs
  }

  /** The mutation is the one its entry's row came from. */
  predicate IsLast(db: Db, m: Mutation) {
    m.entryId in db.entries && db.entries[m.entryId].lastMutationId == m.mutationId
  }

  function RevisionOf(db: Db, e: EntryId): nat {
    if e in db.entries then db.entries[e].revision else 0
  }

  /** An accepted answer names the revision and the place the entry's row has from then on, and the row
      is the mutation's. It is given exactly to the mutation the row came from, and to one based on the
      current revision whose blob is there. Any other answer changes nothing and names what is wrong. */
  lemma AnswerTells(db: Db, ctx: Context, m: Mutation, db': Db, r: MutationResult)
    requires (db', r) == CommitOne(db, ctx, m)
    ensures r.mutationId == m.mutationId && r.entryId == m.entryId
    ensures r.Accepted? ==> IsLast(db', m) && r.revision == db'.entries[m.entryId].revision
                            && r.cursor == db'.entries[m.entryId].updatedSeq
    ensures r.Accepted? <==> IsLast(db, m)
                             || (RevisionOf(db, m.entryId) == m.baseRevision && Available(db, ctx, m.content))
    ensures r.Rejected? ==> db' == db && match r.code
                                         case StaleBase(expected, received) =>
                                           expected == RevisionOf(db, m.entryId) != m.baseRevision == received
                                         case BlobNotFound => m.content.Upsert? && m.content.blobId !in ctx.objects
                                         case BlobNotStaged =>
                                           && m.content.Upsert? && m.content.blobId in ctx.objects
                                           && m.content.blobId !in db.blobs
                                         case DuplicateMutationId => false
  {
    if Decide(db, ctx, m).Apply? && Blocked(db, ctx, m.content).None? { AppliedRow(db, ctx, m, db'); }
  }

  /** The cursor of a commit's answer is the largest of its accepted results, or the current one if there
      is none; the others are told of a new cursor exactly if there is one. */
  lemma {:induction false} HighestIsMax(results: seq<MutationResult>)
    ensures var highest := HighestCursor(results);
            && (forall i | 0 <= i < |results| && results[i].Accepted? ::
                  highest.Some? && results[i].cursor <= highest.value)
            && (highest.Some? ==> exists i :: 0 <= i < |results| && results[i].Accepted?
                                              && results[i].cursor == highest.value)
  {
    if results != [] {
      var front := results[..|results| - 1];
      HighestIsMax(front);
      if HighestCursor(front).Some? {
        var i :| 0 <= i < |front| && front[i].Accepted? && front[i].cursor == HighestCursor(front).value;
        assert results[i] == front[i];
      }
    }
  }

  lemma CommitTells(w: World, now: nat, session: Session, restoring: bool, ms: seq<Mutation>, w': World,
                    o: CommitOutcome)
    requires (w', o) == CommitMutations(w, now, session, restoring, ms) && o.Committed?
    ensures if exists i :: 0 <= i < |o.results| && o.results[i].Accepted?
            then && (exists i :: 0 <= i < |o.results| && o.results[i].Accepted? && o.results[i].cursor == o.cursor)
                 && forall i | 0 <= i < |o.results| && o.results[i].Accepted? :: o.results[i].cursor <= o.cursor
            else o.cursor == w.db.cursor
    ensures o.broadcast == if w'.db.cursor != w.db.cursor then Some(w'.db.cursor) else None
  {
    HighestIsMax(o.results);
  }

  /** A session of another vault writes nothing, and is refused unless everything it sent had been
      committed before. */
  lemma ForeignCommit(w: World, now: nat, session: Session, restoring: bool, ms: seq<Mutation>, w': World,
                      o: CommitOutcome)
    requires (w', o) == CommitMutations(w, now, session, restoring, ms)
    requires Bookkept(w.db) && w.db.pause.None? && session.vaultId != w.db.vaultId
    ensures w'.db.entries == w.db.entries && w'.db.cursor == w.db.cursor
    ensures o.VaultMismatch? || (o.Committed? && exists i :: 0 <= i < |o.results| && o.results[i].Accepted?)
  {
    var acc := BatchFold(w.db, ContextOf(w, now, session, restoring), ms);
    if o.Committed? {
      BatchSameCursor(w.db, ContextOf(w, now, session, restoring), ms, acc.db);
      HighestIsMax(o.results);
    }
  }

  // ---- commands ----

  /** The batch a command commits, if it gets that far. */
  function BatchOf(w: World, now: nat, c: Command): Option<seq<Mutation>> {
    if !(c.Commit? || c.RestoreOne? || c.RestoreMany?) || w.db.pause.Some? || c.session.vaultId != w.db.vaultId
    then None
    else
      match c
      case Commit(session, restoring, ms) => Some(ms)
      case RestoreOne(session, r, id) =>
        if RestoreRefusal(w.db, now, r).None? then Some([RestoreMutation(r, id)]) else None
      case RestoreMany(session, rs) => Some(PlanRestores(w.db, now, rs).mutations)
      case _ => None
  }

  function ContextFor(w: World, now: nat, c: Command): Context
    requires BatchOf(w, now, c).Some?
  {
    Context(now, w.grace, c.session.author, !c.Commit? || c.restoring, w.objects)
  }

  lemma SameCursor(db: Db, db': Db)
    requires EntriesAdvance(db, db') && Linear(db') && db'.cursor == db.cursor
    ensures db'.entries == db.entries
  {
  }

  lemma BatchSameCursor(db: Db, ctx: Context, ms: seq<Mutation>, db': Db)
    requires Bookkept(db) && db' == BatchFold(db, ctx, ms).db && db'.cursor == db.cursor
    ensures db'.entries == db.entries
  {
    BatchChanges(db, ctx, ms, db');
    BatchBookkept(db, ctx, ms);
    SameCursor(db, db');
  }

  lemma CommitEntries(w: World, now: nat, session: Session, restoring: bool, ms: seq<Mutation>, w': World)
    requires Bookkept(w.db) && w' == CommitMutations(w, now, session, restoring, ms).0
    ensures w'.db.entries
            == if w.db.pause.Some? || session.vaultId != w.db.vaultId then w.db.entries
               else BatchFold(w.db, ContextOf(w, now, session, restoring), ms).db.entries
  {
    if session.vaultId != w.db.vaultId && w'.db != w.db {
      BatchSameCursor(w.db, ContextOf(w, now, session, restoring), ms, w'.db);
    }
  }

  /** Entries change by committed batches and by nothing else. */
  lemma ExecEntries(w: World, now: nat, c: Command, w': World)
    requires Inv(w) && w.clock <= now && w' == Exec(w, now, c)
    ensures var batch := BatchOf(w, now, c);
            w'.db.entries == if batch.None? then w.db.entries
                             else BatchFold(w.db, ContextFor(w, now, c), batch.value).db.entries
  {
    match c
    case Commit(session, restoring, ms) => CommitEntries(w, now, session, restoring, ms, w');
    case RestoreOne(session, r, id) => RestoreEntries(w, now, session, r, id, w');
    case RestoreMany(session, rs) => RestoreManyEntries(w, now, session, rs, w');
    case _ => OthersKeepEntries(w, now, c, w');
  }

  lemma RestoreEntries(w: World, now: nat, session: Session, r: Restore, id: string, w': World)
    requires Bookkept(w.db) && w' == RestoreEntryVersion(w, now, session, r, id).0
    ensures w'.db.entries
            == if w.db.pause.Some? || session.vaultId != w.db.vaultId || RestoreRefusal(w.db, now, r).Some?
               then w.db.entries
               else BatchFold(w.db, ContextOf(w, now, session, true), [RestoreMutation(r, id)]).db.entries
  {
    if RestoreRefusal(w.db, now, r).None? {
      CommitEntries(w, now, session, true, [RestoreMutation(r, id)], w');
    }
  }

  lemma RestoreManyEntries(w: World, now: nat, session: Session, rs: seq<DrawnRestore>, w': World)
    requires Bookkept(w.db) && w' == RestoreEntryVersions(w, now, session, rs).0
    ensures w'.db.entries
            == if w.db.pause.Some? || session.vaultId != w.db.vaultId then w.db.entries
               else BatchFold(w.db, ContextOf(w, now, session, true), PlanRestores(w.db, now, rs).mutations).db.entries
  {
    var ms := PlanRestores(w.db, now, rs).mutations;
    if ms != [] { CommitEntries(w, now, session, true, ms, w'); }
  }

  lemma OthersKeepEntries(w: World, now: nat, c: Command, w': World)
    requires !(c.Commit? || c.RestoreOne? || c.RestoreMany?) && w' == Exec(w, now, c)
    ensures w'.db.entries == w.db.entries
  {
    match c
    case Stage(b, size) =>
    case DeleteOne(b, faults) =>
    case Purge(mayCollect, rs, faults) => PurgeKeepsEntries(w, now, mayCollect, rs, faults, w');
    case Alarm(mayCollect, faults) => AlarmKeepsEntries(w, now, mayCollect, faults);
    case CollectNow(mayCollect, faults) => AlarmKeepsEntries(w, now, mayCollect, faults);
    case Repair(faults) => RepairKeepsEntries(w, now, faults);
    case _ => QuietTables(w, now, c, w');
  }

  lemma PurgeKeepsEntries(w: World, now: nat, mayCollect: bool, rs: seq<PurgeRequest>, faults: Faults, w': World)
    requires w' == PurgeDeletedEntries(w, now, mayCollect, rs, faults).0
    ensures w'.db.entries == w.db.entries
  {
    PurgeChanges(w.db, now, rs, PurgeFold(w.db, now, rs).db);
  }

  lemma AlarmKeepsEntries(w: World, now: nat, mayCollect: bool, faults: Faults)
    ensures AlarmGc(w, now, mayCollect, faults).db.entries == w.db.entries
    ensures DirectGc(w, now, mayCollect, faults).db.entries == w.db.entries
  {
    assert RunGc(w, now, mayCollect, faults).0.db.entries == w.db.entries;
  }

  lemma {:induction false} RepairFoldEntries(s: RepairState, now: nat, ids: seq<BlobId>, faults: Faults)
    ensures RepairFold(s, now, ids, faults).db.entries == s.db.entries
  {
    if ids != [] { RepairFoldEntries(s, now, ids[..|ids| - 1], faults); }
  }

  lemma RepairKeepsEntries(w: World, now: nat, faults: Faults)
    ensures RepairSyncState(w, now, faults).0.db.entries == w.db.entries
  {
    RepairFoldEntries(RepairState(w.db, w.objects, 0, None), now, ListStaleStaged(w.db.blobs, now), faults);
  }

  // ---- whole runs ----

  /** The command applies the mutation at position `i` of its batch, the last it applies to its entry. */
  ghost predicate Writes(w: World, now: nat, c: Command, i: nat, e: EntryId) {
    && BatchOf(w, now, c).Some? && i < |BatchOf(w, now, c).value|
    && var ctx, ms := ContextFor(w, now, c), BatchOf(w, now, c).value;
       ms[i].entryId == e && AppliedIn(w.db, ctx, ms, i) && LeavesAlone(w.db, ctx, ms, i + 1, e)
  }

  /** The row is what that mutation says: by the command's author, at its time, at its place. */
  ghost predicate WrittenBy(row: EntryRow, w: World, now: nat, c: Command, i: nat, e: EntryId)
    requires Writes(w, now, c, i, e)
  {
    var ctx, ms := ContextFor(w, now, c), BatchOf(w, now, c).value;
    Says(row, ms[i], c.session.author, now, At(w.db, ctx, ms, i).cursor + 1)
  }

  ghost predicate Touches(w: World, now: nat, c: Command, e: EntryId) {
    exists i :: Writes(w, now, c, i, e)
  }

  lemma ExecRow(w: World, now: nat, c: Command, e: EntryId, w': World)
    requires Inv(w) && w.clock <= now && w' == Exec(w, now, c)
    ensures !Touches(w, now, c, e) ==> Get(w'.db.entries, e) == Get(w.db.entries, e)
    ensures forall i | Writes(w, now, c, i, e) ::
              e in w'.db.entries && WrittenBy(w'.db.entries[e], w, now, c, i, e)
  {
    ExecEntries(w, now, c, w');
    var batch := BatchOf(w, now, c);
    if batch.Some? {
      var ctx := ContextFor(w, now, c);
      forall i | Writes(w, now, c, i, e)
        ensures e in w'.db.entries && WrittenBy(w'.db.entries[e], w, now, c, i, e)
      {
        BatchRow(w.db, ctx, batch.value, i);
      }
      if !Touches(w, now, c, e) {
        if !LeavesAlone(w.db, ctx, batch.value, 0, e) {
          var i := LastApplied(w.db, ctx, batch.value, |batch.value|, e);
          assert Writes(w, now, c, i, e);
        }
        BatchUntouched(w.db, ctx, batch.value, e);
      }
    }
  }

  /** The i-th event of a run touches the entry. */
  ghost predicate TouchesAt(w: World, evs: seq<Event>, k: nat, e: EntryId)
    requires k < |evs|
  {
    Touches(Run(w, evs[..k]), TimeOf(Run(w, evs[..k]), evs[k]), evs[k].command, e)
  }

  lemma NextRow(w: World, evs: seq<Event>, n: nat, e: EntryId)
    requires Inv(w) && n < |evs|
    ensures !TouchesAt(w, evs, n, e) ==> Get(Run(w, evs[..n + 1]).db.entries, e) == Get(Run(w, evs[..n]).db.entries, e)
  {
    RunInv(w, evs[..n]);
    assert evs[..n + 1][..n] == evs[..n];
    var before := Run(w, evs[..n]);
    ExecRow(before, TimeOf(before, evs[n]), evs[n].command, e, Run(w, evs[..n + 1]));
  }

  lemma {:induction false} RunUntouched(w: World, evs: seq<Event>, n: nat, e: EntryId)
    requires Inv(w) && n <= |evs| && forall k | 0 <= k < n :: !TouchesAt(w, evs, k, e)
    ensures Get(Run(w, evs[..n]).db.entries, e) == Get(w.db.entries, e)
  {
    if n == 0 {
      assert evs[..0] == [];
    } else {
      RunUntouched(w, evs, n - 1, e);
      NextRow(w, evs, n - 1, e);
      assert !TouchesAt(w, evs, n - 1, e);
    }
  }

  /** What was written stays: the row of an entry says what the last mutation applied to it said, through
      every command after it, until the next that applies a mutation to that entry. */
  lemma LastWriteStands(
      w: World, now: nat, c: Command, i: nat, e: EntryId, written: World, evs: seq<Event>, w': World)
    requires Inv(w) && w.clock <= now && Writes(w, now, c, i, e) && written == Exec(w, now, c)
    requires (forall k | 0 <= k < |evs| :: !TouchesAt(written, evs, k, e)) && w' == Run(written, evs)
    ensures e in w'.db.entries && WrittenBy(w'.db.entries[e], w, now, c, i, e)
  {
    ExecRow(w, now, c, e, written);
    ExecInv(w, now, c, written);
    RunUntouched(written, evs, |evs|, e);
    assert evs[..|evs|] == evs;
  }

  /** Event `k` of the run wrote the row, with the mutation at position `i` of its batch. */
  ghost predicate WroteRow(w: World, evs: seq<Event>, k: nat, i: nat, e: EntryId, row: EntryRow)
    requires k < |evs|
  {
    var before := Run(w, evs[..k]);
    var now := TimeOf(before, evs[k]);
    Writes(before, now, evs[k].command, i, e) && WrittenBy(row, before, now, evs[k].command, i, e)
  }

  /** Every row was committed: in every reachable state an entry's row says exactly what some mutation
      applied in that run said, and no later command of the run has touched the entry. */
  lemma {:induction false} EveryRowWasCommitted(w: World, evs: seq<Event>, n: nat, e: EntryId)
      returns (k: nat, i: nat)
    requires Initial(w) && n <= |evs| && e in Run(w, evs[..n]).db.entries
    ensures k < n && WroteRow(w, evs, k, i, e, Run(w, evs[..n]).db.entries[e])
    ensures forall j | k < j < n :: !TouchesAt(w, evs, j, e)
  {
    InitialInv(w);
    if n > 0 {
      RunInv(w, evs[..n - 1]);
      assert evs[..n][..n - 1] == evs[..n - 1];
      var before, last := Run(w, evs[..n - 1]), evs[n - 1];
      ExecRow(before, TimeOf(before, last), last.command, e, Run(w, evs[..n]));
      if TouchesAt(w, evs, n - 1, e) {
        k := n - 1;
        i :| Writes(before, TimeOf(before, last), last.command, i, e);
      } else {
        k, i := EveryRowWasCommitted(w, evs, n - 1, e);
      }
    }
  }
}
