/** Deletes and restores can be undone for as long as the history they leave is retained. */
module Undo {
  import opened Wrappers
  import opened Tables
  import opened Services
  import opened Accounting
  import opened Runs
  import opened Evolution
  import opened Theorems
  import opened Commits

  /** The batch of one mutation, spelled out. */
  lemma SingleBatch(db: Db, ctx: Context, m: Mutation)
    ensures BatchFold(db, ctx, [m]).db == CommitOne(db, ctx, m).0
    ensures BatchFold(db, ctx, [m]).results == [CommitOne(db, ctx, m).1]
  {
    assert [m][..0] == [];
    assert BatchFold(db, ctx, [m]) == BatchStep(Batch(db, [], {}), ctx, m);
  }

  lemma SingleHighest(r: MutationResult)
    ensures HighestCursor([r]) == if r.Accepted? then Some(r.cursor) else None
  {
    assert [r][..0] == [];
  }

  /** A single applied mutation commits with one accepted result. */
  lemma CommitApplied(w: World, now: nat, session: Session, restoring: bool, m: Mutation, w': World,
      outcome: CommitOutcome)
    requires w.db.pause.None? && session.vaultId == w.db.vaultId
    requires Decide(w.db, ContextOf(w, now, session, restoring), m).Apply?
    requires Blocked(w.db, ContextOf(w, now, session, restoring), m.content).None?
    requires (w', outcome) == CommitMutations(w, now, session, restoring, [m])
    ensures var ctx := ContextOf(w, now, session, restoring); var d := Decide(w.db, ctx, m);
            && w'.db == ApplyMutation(w.db, ctx, m, d)
            && outcome == Committed([Accepted(m.mutationId, w.db.cursor + 1, m.entryId, d.revision)],
                                    w.db.cursor + 1, Some(w.db.cursor + 1))
  {
    var ctx := ContextOf(w, now, session, restoring);
    SingleBatch(w.db, ctx, m);
    SingleHighest(CommitOne(w.db, ctx, m).1);
  }

  /** The version is the entry's, and still within the retention window. */
  predicate Offers(db: Db, now: nat, e: EntryId, v: VersionId) {
    && v in db.versions && db.versions[v].entryId == e
    && db.versions[v].capturedAt + db.retentionDays * DAY_IN_MS >= now
  }

  /** A restore is refused for the first of four reasons that applies, and committed if none does. */
  lemma RestoreRefusedExactly(db: Db, now: nat, r: Restore)
    ensures var refusal := RestoreRefusal(db, now, r);
            var found := r.entryId in db.entries && Offers(db, now, r.entryId, r.versionId);
            var current := found && db.entries[r.entryId].revision == r.baseRevision;
            && (refusal == Some(RestoreNotFound) <==> !found)
            && (refusal.Some? && refusal.value.RestoreStale? <==> found && !current)
            && (found && !current ==>
                  refusal == Some(RestoreStale(db.entries[r.entryId].revision, r.baseRevision)))
            && (refusal == Some(VersionMismatch) <==> current && db.versions[r.versionId].content != r.content)
            && (refusal.None? <==> current && db.versions[r.versionId].content == r.content)
  {
  }

  /** Nothing in a restore's way: its checks pass and its blob is there. */
  lemma RestoreUnblocked(w: World, now: nat, session: Session, r: Restore, id: string)
    requires TablesInv(w.db, w.objects, now) && RestoreRefusal(w.db, now, r).None?
    requires w.db.entries[r.entryId].lastMutationId != id && w.db.versions[r.versionId].expiresAt > now
    ensures var ctx, m := ContextOf(w, now, session, true), RestoreMutation(r, id);
            Decide(w.db, ctx, m).Apply? && Decide(w.db, ctx, m).revision == r.baseRevision + 1
            && Blocked(w.db, ctx, m.content).None?
  {
    if r.content.Upsert? {
      assert Retained(w.db.versions, r.content.blobId, now);
      assert Pinned(w.db.entries, w.db.versions, r.content.blobId, now);
    }
  }

  /** A restore of retained history to the current revision is accepted and installs that content, with
      the metadata the caller sends, at the next revision and the next place in the order. */
  lemma RestoreAccepted(w: World, now: nat, session: Session, r: Restore, id: string)
    requires TablesInv(w.db, w.objects, now)
    requires w.db.pause.None? && session.vaultId == w.db.vaultId
    requires r.entryId in w.db.entries && w.db.entries[r.entryId].revision == r.baseRevision
    requires w.db.entries[r.entryId].lastMutationId != id
    requires r.versionId in w.db.versions
    requires var v := w.db.versions[r.versionId];
             && v.entryId == r.entryId && v.content == r.content && v.expiresAt > now
             && v.capturedAt + w.db.retentionDays * DAY_IN_MS >= now
    ensures var (w', o) := RestoreEntryVersion(w, now, session, r, id);
            && o == Restored(w.db.versions[r.versionId].sourceRevision, w.db.cursor + 1, r.baseRevision + 1)
            && r.entryId in w'.db.entries
            && Carries(w'.db.entries[r.entryId], r.content, r.metadata, id, r.baseRevision + 1, session.author, now,
                       w.db.cursor + 1)
  {
    var m := RestoreMutation(r, id);
    var ctx := ContextOf(w, now, session, true);
    RestoreUnblocked(w, now, session, r, id);
    var committed := CommitMutations(w, now, session, true, [m]);
    CommitApplied(w, now, session, true, m, committed.0, committed.1);
    AppliedRow(w.db, ctx, m, committed.0.db);
  }

  // ---- what a delete or a restore replaces ----

  /** The version `v` of entry `e` preserves the row as it was before a change by `author` at time `at`. */
  ghost predicate Preserves(
      db: Db, v: VersionId, e: EntryId, row: EntryRow, reason: Reason, author: Author, at: nat, expiresAt: nat) {
    && v in db.versions && db.versions[v].entryId == e
    && db.versions[v].content == row.content && db.versions[v].metadata == row.metadata
    && db.versions[v].sourceRevision == row.revision && db.versions[v].reason == reason
    && db.versions[v].author == author
    && db.versions[v].capturedAt == at && db.versions[v].expiresAt == expiresAt
  }

  /** Deletes and restores are the changes that keep what they replace. */
  predicate KeepsReplaced(restoring: bool, m: Mutation) {
    restoring || m.content.Delete?
  }

  function ReasonFor(m: Mutation): Reason {
    if m.content.Delete? then BeforeDelete else BeforeRestore
  }

  /** One applied delete or restore leaves the replaced row behind under the next version id. */
  lemma AppliedPreserves(db: Db, ctx: Context, m: Mutation, db': Db)
    requires IdsFresh(db) && KeepsReplaced(ctx.restoring, m) && m.entryId in db.entries
    requires Decide(db, ctx, m).Apply? && db' == ApplyMutation(db, ctx, m, Decide(db, ctx, m))
    ensures Preserves(db', db.nextId, m.entryId, db.entries[m.entryId], ReasonFor(m), ctx.author, ctx.now,
                      ctx.now + db.retentionDays * DAY_IN_MS)
  {
  }

  lemma CommitOneKeepsVersion(db: Db, ctx: Context, m: Mutation, v: VersionId, db': Db)
    requires v in db.versions && db' == CommitOne(db, ctx, m).0
    ensures v in db'.versions && db'.versions[v] == db.versions[v]
  {
  }

  lemma {:induction false} BatchKeepsRetention(db: Db, ctx: Context, ms: seq<Mutation>)
    ensures BatchFold(db, ctx, ms).db.retentionDays == db.retentionDays
  {
    if ms != [] { BatchKeepsRetention(db, ctx, ms[..|ms| - 1]); }
  }

  /** A delete or restore applied anywhere in a batch leaves its version to the end of the batch, and
      its entry in the table. */
  lemma {:induction false} BatchPreserves(db: Db, ctx: Context, ms: seq<Mutation>, i: nat)
    requires Bookkept(db) && i < |ms| && AppliedIn(db, ctx, ms, i) && KeepsReplaced(ctx.restoring, ms[i])
    requires ms[i].entryId in At(db, ctx, ms, i).entries
    ensures var before, e := At(db, ctx, ms, i), ms[i].entryId;
            && Preserves(BatchFold(db, ctx, ms).db, before.nextId, e, before.entries[e], ReasonFor(ms[i]), ctx.author,
                         ctx.now, ctx.now + db.retentionDays * DAY_IN_MS)
            && e in BatchFold(db, ctx, ms).db.entries
  {
    var front := ms[..|ms| - 1];
    AppliedAdvances(db, ctx, ms, i);
    if i == |ms| - 1 {
      BatchBookkept(db, ctx, front);
      BatchKeepsRetention(db, ctx, front);
      var before := BatchFold(db, ctx, front).db;
      AppliedPreserves(before, ctx, ms[i], CommitOne(before, ctx, ms[i]).0);
    } else {
      assert front[..i] == ms[..i];
      BatchPreserves(db, ctx, front, i);
      var mid := BatchFold(db, ctx, front).db;
      CommitOneKeepsVersion(mid, ctx, ms[|ms| - 1], At(db, ctx, ms, i).nextId, CommitOne(mid, ctx, ms[|ms| - 1]).0);
    }
  }

  /** What a commit does when the delete or restore at position `i` of its batch is applied; `before` is
      the tables just before that mutation. */
  lemma CommitPreserves(
      w: World, now: nat, session: Session, restoring: bool, ms: seq<Mutation>, i: nat, before: Db, w': World)
    requires Bookkept(w.db) && Replaces(w, now, session, restoring, ms, i, before)
    requires w' == CommitMutations(w, now, session, restoring, ms).0
    ensures var e := ms[i].entryId;
            && e in w'.db.entries
            && Preserves(w'.db, before.nextId, e, before.entries[e], ReasonFor(ms[i]), session.author, now,
                         now + w.db.retentionDays * DAY_IN_MS)
  {
    BatchPreserves(w.db, ContextOf(w, now, session, restoring), ms, i);
    CommitLeavesBatch(w, now, session, restoring, ms, w');
  }

  lemma CommitLeavesBatch(w: World, now: nat, session: Session, restoring: bool, ms: seq<Mutation>, w': World)
    requires w.db.pause.None? && session.vaultId == w.db.vaultId
    requires w' == CommitMutations(w, now, session, restoring, ms).0
    ensures w'.db == BatchFold(w.db, ContextOf(w, now, session, restoring), ms).db
  {
  }

  /** A delete, or a mutation of a restore, is applied at position `i` of a committed batch to an entry that
      was there; `before` is the tables just before it. */
  ghost predicate Replaces(
      w: World, now: nat, session: Session, restoring: bool, ms: seq<Mutation>, i: nat, before: Db)
  {
    && w.db.pause.None? && session.vaultId == w.db.vaultId && i < |ms|
    && AppliedIn(w.db, ContextOf(w, now, session, restoring), ms, i) && KeepsReplaced(restoring, ms[i])
    && before == At(w.db, ContextOf(w, now, session, restoring), ms, i) && ms[i].entryId in before.entries
  }

  /** History kept at `at` for `days` brings its row back, whatever has happened since. */
  lemma PreservedComesBack(
      changed: World, at: nat, days: nat, e: EntryId, v: VersionId, row: EntryRow, reason: Reason, author: Author,
      evs: seq<Event>, w': World, now: nat, restorer: Session, id: string)
    requires Inv(changed) && e in changed.db.entries
    requires Preserves(changed.db, v, e, row, reason, author, at, at + days * DAY_IN_MS)
    requires e !in PurgedIn(evs) && w' == Run(changed, evs)
    requires w'.clock <= now < at + days * DAY_IN_MS && w'.db.retentionDays >= days
    requires w'.db.pause.None? && restorer.vaultId == w'.db.vaultId
    requires e in w'.db.entries ==> w'.db.entries[e].lastMutationId != id
    ensures v in w'.db.versions && w'.db.versions[v].reason == reason
    ensures e in w'.db.entries && BringsBack(w', now, restorer, e, v, row, id)
  {
    RunEvolves(changed, evs);
    LaterInv(w'.db, w'.objects, w'.clock, now);
    RetentionCovers(at, days, w'.db.retentionDays, now);
    ComesBackNow(w', at, e, v, row, reason, author, at + days * DAY_IN_MS, now, restorer, id);
  }

  lemma ComesBackNow(
      w: World, at: nat, e: EntryId, v: VersionId, row: EntryRow, reason: Reason, author: Author, expiresAt: nat,
      now: nat, restorer: Session, id: string)
    requires TablesInv(w.db, w.objects, now) && Preserves(w.db, v, e, row, reason, author, at, expiresAt)
    requires now < expiresAt && at + w.db.retentionDays * DAY_IN_MS >= now
    requires w.db.pause.None? && restorer.vaultId == w.db.vaultId
    requires e in w.db.entries && w.db.entries[e].lastMutationId != id
    ensures BringsBack(w, now, restorer, e, v, row, id)
  {
    RestoreAccepted(w, now, restorer, RestoreOf(w, e, v, row), id);
  }

  /** What was replaced can be brought back: once a delete, or a mutation of a restore, has been applied
      at any position of any batch, then whatever the rest of the batch and later commits, stages,
      collections, repairs and pauses do, as long as no purge names the entry, the retention window is
      not lowered, and the vault is not paused at that moment, restoring the version it left behind
      before its window ends is accepted and brings back the content and metadata it replaced. */
  lemma {:induction false} ReplacedCanBeRestored(
      w: World, at: nat, session: Session, restoring: bool, ms: seq<Mutation>, i: nat, before: Db,
      changed: World, evs: seq<Event>, w': World, now: nat, restorer: Session, id: string)
    requires Inv(w) && w.clock <= at && Replaces(w, at, session, restoring, ms, i, before)
    requires changed == CommitMutations(w, at, session, restoring, ms).0 && w' == Run(changed, evs)
    requires ms[i].entryId !in PurgedIn(evs)
    requires w'.clock <= now < at + w.db.retentionDays * DAY_IN_MS && w'.db.retentionDays >= w.db.retentionDays
    requires w'.db.pause.None? && restorer.vaultId == w'.db.vaultId
    requires ms[i].entryId in w'.db.entries ==> w'.db.entries[ms[i].entryId].lastMutationId != id
    ensures var e := ms[i].entryId;
            && before.nextId in w'.db.versions && w'.db.versions[before.nextId].reason == ReasonFor(ms[i])
            && e in w'.db.entries && BringsBack(w', now, restorer, e, before.nextId, before.entries[e], id)
  {
    var e := ms[i].entryId;
    LaterInv(w.db, w.objects, w.clock, at);
    CommitInv(w, at, session, restoring, ms);
    CommitPreserves(w, at, session, restoring, ms, i, before, changed);
    PreservedComesBack(changed, at, w.db.retentionDays, e, before.nextId, before.entries[e], ReasonFor(ms[i]),
                       session.author, evs, w', now, restorer, id);
  }

  /** The restore of version `v` that asks for the content and metadata of `row`. */
  function RestoreOf(w: World, e: EntryId, v: VersionId, row: EntryRow): Restore
    requires e in w.db.entries
  {
    Restore(e, v, w.db.entries[e].revision, row.content, row.metadata)
  }

  /** Restoring version `v` at the current revision succeeds, names the revision of `row` as its source,
      and installs the content and metadata of `row`. */
  predicate BringsBack(
      w: World, now: nat, restorer: Session, e: EntryId, v: VersionId, row: EntryRow, id: string)
    requires e in w.db.entries
  {
    var (w', o) := RestoreEntryVersion(w, now, restorer, RestoreOf(w, e, v, row), id);
    && o == Restored(row.revision, w.db.cursor + 1, w.db.entries[e].revision + 1)
    && e in w'.db.entries && w'.db.entries[e].content == row.content && w'.db.entries[e].metadata == row.metadata
    && w'.db.entries[e].revision == w.db.entries[e].revision + 1
  }

  /** Undo always works: in particular a delete applied at any position of any batch. */
  lemma {:induction false} UndoAlwaysWorks(
      w: World, deletedAt: nat, session: Session, restoring: bool, ms: seq<Mutation>, i: nat, before: Db,
      changed: World, evs: seq<Event>, w': World, now: nat, restorer: Session, id: string)
    requires Inv(w) && w.clock <= deletedAt && w.db.pause.None? && session.vaultId == w.db.vaultId
    requires i < |ms| && AppliedIn(w.db, ContextOf(w, deletedAt, session, restoring), ms, i) && ms[i].content.Delete?
    requires before == At(w.db, ContextOf(w, deletedAt, session, restoring), ms, i) && ms[i].entryId in before.entries
    requires changed == CommitMutations(w, deletedAt, session, restoring, ms).0 && w' == Run(changed, evs)
    requires ms[i].entryId !in PurgedIn(evs)
    requires w'.clock <= now < deletedAt + w.db.retentionDays * DAY_IN_MS
    requires w'.db.retentionDays >= w.db.retentionDays
    requires w'.db.pause.None? && restorer.vaultId == w'.db.vaultId
    requires ms[i].entryId in w'.db.entries ==> w'.db.entries[ms[i].entryId].lastMutationId != id
    ensures var e := ms[i].entryId;
            && before.nextId in w'.db.versions && w'.db.versions[before.nextId].reason == BeforeDelete
            && e in w'.db.entries && BringsBack(w', now, restorer, e, before.nextId, before.entries[e], id)
  {
    ReplacedCanBeRestored(w, deletedAt, session, restoring, ms, i, before, changed, evs, w', now, restorer, id);
  }

  /** A restore that has succeeded is the commit of its one mutation, applied. */
  lemma RestoredApplied(w: World, at: nat, session: Session, r: Restore, id: string, restored: World)
    requires w.db.pause.None? && session.vaultId == w.db.vaultId
    requires restored == RestoreEntryVersion(w, at, session, r, id).0
    requires RestoreEntryVersion(w, at, session, r, id).1.Restored?
    requires r.entryId in w.db.entries ==> w.db.entries[r.entryId].lastMutationId != id
    ensures Replaces(w, at, session, true, [RestoreMutation(r, id)], 0, w.db)
    ensures restored == CommitMutations(w, at, session, true, [RestoreMutation(r, id)]).0
  {
    var m := RestoreMutation(r, id);
    assert [m][..0] == [];
    SingleBatch(w.db, ContextOf(w, at, session, true), m);
  }

  /** A restore can be undone in its turn: what it replaced is kept as `before_restore` history and can
      be brought back throughout its window. */
  lemma {:induction false} RestoreCanBeUndone(
      w: World, at: nat, session: Session, r: Restore, id: string, restored: World, evs: seq<Event>,
      w': World, now: nat, restorer: Session, again: string)
    requires Inv(w) && w.clock <= at && w.db.pause.None? && session.vaultId == w.db.vaultId
    requires restored == RestoreEntryVersion(w, at, session, r, id).0
    requires RestoreEntryVersion(w, at, session, r, id).1.Restored?
    requires r.entryId in w.db.entries ==> w.db.entries[r.entryId].lastMutationId != id
    requires r.entryId !in PurgedIn(evs) && w' == Run(restored, evs)
    requires w'.clock <= now < at + w.db.retentionDays * DAY_IN_MS
    requires w'.db.retentionDays >= w.db.retentionDays
    requires w'.db.pause.None? && restorer.vaultId == w'.db.vaultId
    requires r.entryId in w'.db.entries ==> w'.db.entries[r.entryId].lastMutationId != again
    ensures && r.entryId in w.db.entries && r.entryId in w'.db.entries && w.db.nextId in w'.db.versions
            && w'.db.versions[w.db.nextId].reason == ReasonFor(RestoreMutation(r, id))
            && BringsBack(w', now, restorer, r.entryId, w.db.nextId, w.db.entries[r.entryId], again)
  {
    RestoredApplied(w, at, session, r, id, restored);
    ReplacedCanBeRestored(w, at, session, true, [RestoreMutation(r, id)], 0, w.db, restored, evs, w', now, restorer,
                          again);
  }

  lemma RetentionCovers(at: nat, days: nat, daysNow: nat, now: nat)
    requires now < at + days * DAY_IN_MS && days <= daysNow
    ensures at + daysNow * DAY_IN_MS >= now
  {
  }
}
