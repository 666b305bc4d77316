/** Restoring several entries at once: the answers line up with the requests, and for distinct entries
    the batch does what restoring them one after another would. */
module BatchRestore {
  import opened Wrappers
  import opened Tables
  import opened Services
  import opened Theorems
  import opened BatchRefinement

  /** How many of the first `k` restores pass their checks. */
  function Passing(db: Db, now: nat, rs: seq<DrawnRestore>): nat {
    if rs == [] then 0
    else Passing(db, now, rs[..|rs| - 1]) + if RestoreRefusal(db, now, rs[|rs| - 1].restore).None? then 1 else 0
  }

  lemma {:induction false} PlanShape(db: Db, now: nat, rs: seq<DrawnRestore>)
    ensures var p := PlanRestores(db, now, rs);
            && |p.mutations| == Passing(db, now, rs)
            && (forall i | 0 <= i < |p.indexes| :: p.indexes[i] < |rs|)
            && (forall i, j | 0 <= i < j < |p.indexes| :: p.indexes[i] < p.indexes[j])
  {
    if rs != [] {
      PlanShape(db, now, rs[..|rs| - 1]);
    }
  }

  /** The mutation and the item of the k-th restore: none and its refusal, or one, at the position its
      predecessors leave, and an answer still to come. */
  ghost predicate Owns(db: Db, now: nat, rs: seq<DrawnRestore>, k: nat, p: RestorePlan)
    requires k < |rs| == |p.items| && |p.mutations| == |p.indexes| == |p.sources|
  {
    var refusal, j := RestoreRefusal(db, now, rs[k].restore), Passing(db, now, rs[..k]);
    if refusal.Some? then p.items[k] == ItemRefused(refusal.value) && k !in p.indexes
    else
      && j < |p.mutations| && p.indexes[j] == k && p.items[k] == ItemPending
      && p.mutations[j] == RestoreMutation(rs[k].restore, rs[k].mutationId)
      && p.sources[j] == db.versions[rs[k].restore.versionId].sourceRevision
  }

  lemma {:induction false} PlanOwns(db: Db, now: nat, rs: seq<DrawnRestore>, k: nat)
    requires k < |rs|
    ensures Owns(db, now, rs, k, PlanRestores(db, now, rs))
  {
    var n := |rs| - 1;
    PlanShape(db, now, rs[..n]);
    if k < n {
      PlanOwns(db, now, rs[..n], k);
      OwnsKept(db, now, rs, k, PlanRestores(db, now, rs[..n]), PlanRestores(db, now, rs));
    }
  }

  lemma OwnsKept(db: Db, now: nat, rs: seq<DrawnRestore>, k: nat, before: RestorePlan, p: RestorePlan)
    requires k < |rs| - 1 == |before.items| && |p.items| == |rs|
    requires |before.mutations| == |before.indexes| == |before.sources| && |p.mutations| == |p.indexes| == |p.sources|
    requires Owns(db, now, rs[..|rs| - 1], k, before)
    requires before.items <= p.items && before.mutations <= p.mutations && before.sources <= p.sources
    requires p.indexes == before.indexes || p.indexes == before.indexes + [|rs| - 1]
    ensures Owns(db, now, rs, k, p)
  {
    assert rs[..|rs| - 1][..k] == rs[..k] && rs[..|rs| - 1][k] == rs[k];
    assert p.items[k] == before.items[k];
  }

  /** Merging writes each result over its own item and leaves the others. */
  lemma {:induction false} MergedAt(items: seq<RestoreItem>, p: RestorePlan, results: seq<MutationResult>, k: nat)
    requires |results| <= |p.indexes| == |p.sources| && k < |items|
    requires forall i, j | 0 <= i < j < |p.indexes| :: p.indexes[i] < p.indexes[j]
    ensures forall j | 0 <= j < |results| && p.indexes[j] == k ::
              MergeResults(items, p, results)[k] == ItemOf(results[j], p.sources[j])
    ensures (forall j | 0 <= j < |results| :: p.indexes[j] != k) ==> MergeResults(items, p, results)[k] == items[k]
  {
    if results != [] {
      MergedAt(items, p, results[..|results| - 1], k);
    }
  }

  /** The answers line up: in a committed batch every refused restore keeps its own refusal, and every
      other is answered by the commit result of the mutation made for it. */
  lemma AnswersLineUp(w: World, now: nat, session: Session, rs: seq<DrawnRestore>, k: nat)
    requires k < |rs| && RestoreEntryVersions(w, now, session, rs).1.BatchRestored?
    ensures var items := RestoreEntryVersions(w, now, session, rs).1.items;
            var p := PlanRestores(w.db, now, rs);
            var results := CommitMutations(w, now, session, true, p.mutations).1.results;
            var refusal, j := RestoreRefusal(w.db, now, rs[k].restore), Passing(w.db, now, rs[..k]);
            && |items| == |rs| && |results| == |p.mutations|
            && (if refusal.Some? then items[k] == ItemRefused(refusal.value)
                else
                  && j < |results| && p.mutations[j] == RestoreMutation(rs[k].restore, rs[k].mutationId)
                  && items[k] == ItemOf(results[j], w.db.versions[rs[k].restore.versionId].sourceRevision))
  {
    var p := PlanRestores(w.db, now, rs);
    var results := CommitMutations(w, now, session, true, p.mutations).1.results;
    BatchSeen(w.db, ContextOf(w, now, session, true), p.mutations);
    PlanShape(w.db, now, rs);
    PlanOwns(w.db, now, rs, k);
    MergedAt(p.items, p, results, k);
  }

  // ---- one after another ----

  /** One restore in its own transaction. */
  function RestoreDb(db: Db, session: Session, ctx: Context, r: DrawnRestore): (o: (Db, RestoreItem)) {
    var refusal := RestoreRefusal(db, ctx.now, r.restore);
    if refusal.Some? then (db, ItemRefused(refusal.value))
    else
      var (db', outcome) := CommitDb(db, session, ctx, [RestoreMutation(r.restore, r.mutationId)]);
      (db', if ResultOf(outcome).Some?
            then ItemOf(ResultOf(outcome).value, db.versions[r.restore.versionId].sourceRevision) else ItemPending)
  }

  function RestoreEach(db: Db, session: Session, ctx: Context, rs: seq<DrawnRestore>): (o: (Db, seq<RestoreItem>))
    ensures |o.1| == |rs|
  {
    if rs == [] then (db, [])
    else
      var (before, items) := RestoreEach(db, session, ctx, rs[..|rs| - 1]);
      var (after, item) := RestoreDb(before, session, ctx, rs[|rs| - 1]);
      (after, items + [item])
  }

  /** The item a batch gives for what a single restore answers. */
  function ItemFor(o: RestoreOutcome): RestoreItem {
    match o
    case Restored(fromRevision, cursor, revision) => ItemRestored(fromRevision, cursor, revision)
    case RestoreFailed(outcome) =>
      if ResultOf(outcome).Some? && ResultOf(outcome).value.Rejected? then ItemRejected(ResultOf(outcome).value.code)
      else ItemPending
    case _ => ItemRefused(o)
  }

  /** The single restore of the service is this step, and answers what the item says; no answer is
      left open. */
  lemma RestoreDbIsService(w: World, now: nat, session: Session, r: DrawnRestore)
    requires w.db.pause.None? && session.vaultId == w.db.vaultId
    ensures var (w', o) := RestoreEntryVersion(w, now, session, r.restore, r.mutationId);
            var (db', item) := RestoreDb(w.db, session, ContextOf(w, now, session, true), r);
            && w'.db == db' && w'.objects == w.objects && w'.grace == w.grace
            && ItemFor(o) == item && !item.ItemPending?
  {
    var ctx, m := ContextOf(w, now, session, true), RestoreMutation(r.restore, r.mutationId);
    if RestoreRefusal(w.db, now, r.restore).None? {
      LoneCommit(w.db, session, ctx, m);
    }
  }

  /** The service's single restores, one after another at one clock value. */
  function ServiceEach(
      w: World, now: nat, session: Session, rs: seq<DrawnRestore>): (o: (World, seq<RestoreOutcome>))
    ensures |o.1| == |rs|
  {
    if rs == [] then (w, [])
    else
      var (before, answers) := ServiceEach(w, now, session, rs[..|rs| - 1]);
      var last := rs[|rs| - 1];
      var (after, answer) := RestoreEntryVersion(before, now, session, last.restore, last.mutationId);
      (after, answers + [answer])
  }

  lemma RestoreKeepsVault(db: Db, session: Session, ctx: Context, r: DrawnRestore)
    ensures var db' := RestoreDb(db, session, ctx, r).0; db'.pause == db.pause && db'.vaultId == db.vaultId
  {
    BatchKeepsPause(db, ctx, [RestoreMutation(r.restore, r.mutationId)]);
    BatchKeepsVault(db, ctx, [RestoreMutation(r.restore, r.mutationId)]);
  }

  /** Restoring through the service leaves the tables of `RestoreEach` and answers what its items say. */
  lemma {:induction false} EachIsService(w: World, now: nat, session: Session, rs: seq<DrawnRestore>)
    requires w.db.pause.None? && session.vaultId == w.db.vaultId
    ensures var (w', answers) := ServiceEach(w, now, session, rs);
            var (each, items) := RestoreEach(w.db, session, ContextOf(w, now, session, true), rs);
            && w'.db == each && w'.objects == w.objects && w'.grace == w.grace
            && w'.db.pause.None? && w'.db.vaultId == w.db.vaultId
            && (forall k | 0 <= k < |rs| :: ItemFor(answers[k]) == items[k] && !items[k].ItemPending?)
  {
    if rs != [] {
      var front, last := rs[..|rs| - 1], rs[|rs| - 1];
      EachIsService(w, now, session, front);
      var before := ServiceEach(w, now, session, front).0;
      RestoreDbIsService(before, now, session, last);
      RestoreKeepsVault(before.db, session, ContextOf(w, now, session, true), last);
    }
  }

  ghost predicate Distinct(rs: seq<DrawnRestore>) {
    && (forall i, j | 0 <= i < j < |rs| :: rs[i].restore.entryId != rs[j].restore.entryId)
    && (forall i, j | 0 <= i < j < |rs| :: rs[i].mutationId != rs[j].mutationId)
  }

  /** What a restore's checks read: the entry's row, its versions, and the retention window. */
  ghost predicate SameHistory(a: Db, b: Db, e: EntryId) {
    && Get(a.entries, e) == Get(b.entries, e) && a.retentionDays == b.retentionDays
    && (forall v | v in a.versions :: v in b.versions && b.versions[v] == a.versions[v])
    && (forall v | v in b.versions && v !in a.versions :: b.versions[v].entryId != e)
  }

  lemma SameRefusal(a: Db, b: Db, now: nat, r: Restore)
    requires SameHistory(a, b, r.entryId)
    ensures RestoreRefusal(a, now, r) == RestoreRefusal(b, now, r)
    ensures RestoreRefusal(a, now, r).None? ==> b.versions[r.versionId] == a.versions[r.versionId]
  {
  }

  lemma CommitOneElsewhere(db: Db, ctx: Context, m: Mutation, e: EntryId, db': Db)
    requires m.entryId != e && db' == CommitOne(db, ctx, m).0
    ensures SameHistory(db, db', e)
  {
  }

  /** Mutations of other entries leave an entry's checks as they were. */
  lemma {:induction false} BatchElsewhere(db: Db, ctx: Context, ms: seq<Mutation>, e: EntryId)
    requires forall i | 0 <= i < |ms| :: ms[i].entryId != e
    ensures SameHistory(db, BatchFold(db, ctx, ms).db, e)
  {
    if ms != [] {
      var front, last := ms[..|ms| - 1], ms[|ms| - 1];
      BatchElsewhere(db, ctx, front, e);
      CommitOneElsewhere(BatchFold(db, ctx, front).db, ctx, last, e,
          CommitOne(BatchFold(db, ctx, front).db, ctx, last).0);
    }
  }

  /** Every planned mutation is some restore's. */
  lemma {:induction false} PlanFrom(db: Db, now: nat, rs: seq<DrawnRestore>, j: nat)
    requires j < |PlanRestores(db, now, rs).mutations|
    ensures exists i :: 0 <= i < |rs|
                        && PlanRestores(db, now, rs).mutations[j] == RestoreMutation(rs[i].restore, rs[i].mutationId)
  {
    var n := |rs| - 1;
    if j < |PlanRestores(db, now, rs[..n]).mutations| {
      PlanFrom(db, now, rs[..n], j);
      var i :| 0 <= i < n && PlanRestores(db, now, rs[..n]).mutations[j]
                             == RestoreMutation(rs[..n][i].restore, rs[..n][i].mutationId);
      assert rs[..n][i] == rs[i];
    } else {
      assert PlanRestores(db, now, rs).mutations[j] == RestoreMutation(rs[n].restore, rs[n].mutationId);
    }
  }

  /** The batch's state after the mutations planned for `rs`. */
  function PlannedBatch(db: Db, ctx: Context, rs: seq<DrawnRestore>): Batch {
    BatchFold(db, ctx, PlanRestores(db, ctx.now, rs).mutations)
  }

  /** None of the earlier restores touches what the next one, of another entry, is checked against. */
  lemma NextUnaffected(db: Db, ctx: Context, rs: seq<DrawnRestore>, r: DrawnRestore)
    requires Distinct(rs + [r])
    ensures SameHistory(db, PlannedBatch(db, ctx, rs).db, r.restore.entryId)
    ensures r.mutationId !in PlannedBatch(db, ctx, rs).seen
  {
    var ms := PlanRestores(db, ctx.now, rs).mutations;
    forall j | 0 <= j < |ms| ensures ms[j].entryId != r.restore.entryId && ms[j].mutationId != r.mutationId {
      PlanFrom(db, ctx.now, rs, j);
      var i :| 0 <= i < |rs| && ms[j] == RestoreMutation(rs[i].restore, rs[i].mutationId);
      assert (rs + [r])[i] == rs[i] && (rs + [r])[|rs|] == r;
    }
    BatchElsewhere(db, ctx, ms, r.restore.entryId);
    BatchSeen(db, ctx, ms);
  }

  /** Planning one more restore is one more batch step, if it passes. */
  lemma PlannedNext(db: Db, ctx: Context, rs: seq<DrawnRestore>, r: DrawnRestore)
    ensures PlannedBatch(db, ctx, rs + [r])
            == if RestoreRefusal(db, ctx.now, r.restore).Some? then PlannedBatch(db, ctx, rs)
               else BatchStep(PlannedBatch(db, ctx, rs), ctx, RestoreMutation(r.restore, r.mutationId))
  {
    assert (rs + [r])[..|rs|] == rs;
    var ms, m := PlanRestores(db, ctx.now, rs).mutations, RestoreMutation(r.restore, r.mutationId);
    assert (ms + [m])[..|ms|] == ms;
  }

  /** The restore of `r` on its own, after the batch planned for the others. */
  lemma AloneAfterBatch(db: Db, session: Session, ctx: Context, rs: seq<DrawnRestore>, r: DrawnRestore)
    requires db.pause.None? && session.vaultId == db.vaultId && Distinct(rs + [r])
    ensures var before, after := PlannedBatch(db, ctx, rs), PlannedBatch(db, ctx, rs + [r]);
            var (db', item) := RestoreDb(before.db, session, ctx, r);
            && db' == after.db
            && item == if RestoreRefusal(db, ctx.now, r.restore).Some?
                       then ItemRefused(RestoreRefusal(db, ctx.now, r.restore).value)
                       else ItemOf(CommitOne(before.db, ctx, RestoreMutation(r.restore, r.mutationId)).1,
                                   db.versions[r.restore.versionId].sourceRevision)
  {
    var before, m := PlannedBatch(db, ctx, rs), RestoreMutation(r.restore, r.mutationId);
    var ms := PlanRestores(db, ctx.now, rs).mutations;
    NextUnaffected(db, ctx, rs, r);
    PlannedNext(db, ctx, rs, r);
    SameRefusal(db, before.db, ctx.now, r.restore);
    BatchKeepsPause(db, ctx, ms);
    BatchKeepsVault(db, ctx, ms);
    if RestoreRefusal(db, ctx.now, r.restore).None? { LoneCommit(before.db, session, ctx, m); }
  }

  /** The k-th answer: its own refusal, or the result of the mutation made for it. */
  ghost predicate Answered(
    db: Db, now: nat, rs: seq<DrawnRestore>, k: nat, items: seq<RestoreItem>, results: seq<MutationResult>)
    requires k < |rs| <= |items|
  {
    var refusal, j := RestoreRefusal(db, now, rs[k].restore), Passing(db, now, rs[..k]);
    if refusal.Some? then items[k] == ItemRefused(refusal.value)
    else j < |results| && items[k] == ItemOf(results[j], db.versions[rs[k].restore.versionId].sourceRevision)
  }

  lemma AnsweredKept(
      db: Db, now: nat, rs: seq<DrawnRestore>, k: nat, items: seq<RestoreItem>, results: seq<MutationResult>,
      r: DrawnRestore, items': seq<RestoreItem>, results': seq<MutationResult>)
    requires k < |rs| <= |items| && Answered(db, now, rs, k, items, results)
    requires items <= items' && results <= results' && |items'| > |rs|
    ensures Answered(db, now, rs + [r], k, items', results')
  {
    assert (rs + [r])[..k] == rs[..k] && (rs + [r])[k] == rs[k];
    assert items'[k] == items[k];
  }

  /** For distinct entries and identifiers, restoring in one batch and restoring one after another, at
      the same time, leave the same tables and give every request the same answer. */
  lemma {:induction false} BatchRestoreRefinesSequence(db: Db, session: Session, ctx: Context, rs: seq<DrawnRestore>)
    requires db.pause.None? && session.vaultId == db.vaultId && Distinct(rs)
    ensures var (each, items) := RestoreEach(db, session, ctx, rs);
            var batch := PlannedBatch(db, ctx, rs);
            && each == batch.db && |batch.results| == Passing(db, ctx.now, rs)
            && forall k | 0 <= k < |rs| :: Answered(db, ctx.now, rs, k, items, batch.results)
  {
    if rs != [] {
      var n := |rs| - 1;
      var front, last := rs[..n], rs[n];
      assert rs == front + [last];
      BatchRestoreRefinesSequence(db, session, ctx, front);
      AloneAfterBatch(db, session, ctx, front, last);
      PlannedNext(db, ctx, front, last);
      NextUnaffected(db, ctx, front, last);
      var items, items' := RestoreEach(db, session, ctx, front).1, RestoreEach(db, session, ctx, rs).1;
      var results, results' := PlannedBatch(db, ctx, front).results, PlannedBatch(db, ctx, rs).results;
      forall k | 0 <= k < n ensures Answered(db, ctx.now, rs, k, items', results') {
        AnsweredKept(db, ctx.now, front, k, items, results, last, items', results');
      }
      assert rs[..n] == front;
    }
  }

  /** What the command answers for the k-th request when its commit is not refused. */
  lemma CommandAnswers(w: World, now: nat, session: Session, rs: seq<DrawnRestore>, k: nat)
    requires w.db.pause.None? && session.vaultId == w.db.vaultId && k < |rs|
    ensures var o := RestoreEntryVersions(w, now, session, rs).1;
            && (o.NothingToRestore? || o.BatchRestored?) && |o.items| == |rs|
            && Answered(w.db, now, rs, k, o.items, PlannedBatch(w.db, ContextOf(w, now, session, true), rs).results)
  {
    PlanShape(w.db, now, rs);
    PlanOwns(w.db, now, rs, k);
    BatchSeen(w.db, ContextOf(w, now, session, true), PlanRestores(w.db, now, rs).mutations);
    if PlanRestores(w.db, now, rs).mutations != [] { AnswersLineUp(w, now, session, rs, k); }
  }

  lemma CommandTables(w: World, now: nat, session: Session, rs: seq<DrawnRestore>)
    requires w.db.pause.None? && session.vaultId == w.db.vaultId
    ensures RestoreEntryVersions(w, now, session, rs).0.db
            == PlannedBatch(w.db, ContextOf(w, now, session, true), rs).db
  {
    var p := PlanRestores(w.db, now, rs);
    BatchSeen(w.db, ContextOf(w, now, session, true), p.mutations);
  }

  lemma SameAnswer(
      db: Db, now: nat, rs: seq<DrawnRestore>, a: seq<RestoreItem>, b: seq<RestoreItem>, results: seq<MutationResult>)
    requires |a| == |b| == |rs|
    requires forall k | 0 <= k < |rs| :: Answered(db, now, rs, k, a, results) && Answered(db, now, rs, k, b, results)
    ensures a == b
  {
    forall k | 0 <= k < |rs| ensures a[k] == b[k] {
      assert Answered(db, now, rs, k, a, results) && Answered(db, now, rs, k, b, results);
    }
  }

  /** The command itself: on an unpaused vault of the session's own, for distinct entries and
      identifiers, it leaves the tables that the service's single restores of the entries, one after
      another at the same time, would leave, and each of its items says what that restore answers. */
  lemma {:induction false} CommandRefinesSequence(w: World, now: nat, session: Session, rs: seq<DrawnRestore>)
    requires w.db.pause.None? && session.vaultId == w.db.vaultId && Distinct(rs)
    ensures var (w', o) := RestoreEntryVersions(w, now, session, rs);
            var (each, answers) := ServiceEach(w, now, session, rs);
            && w'.db == each.db && (o.NothingToRestore? || o.BatchRestored?) && |o.items| == |answers| == |rs|
            && forall k | 0 <= k < |rs| :: o.items[k] == ItemFor(answers[k]) && !o.items[k].ItemPending?
  {
    var ctx := ContextOf(w, now, session, true);
    BatchRestoreRefinesSequence(w.db, session, ctx, rs);
    CommandTables(w, now, session, rs);
    EachIsService(w, now, session, rs);
    var o, items := RestoreEntryVersions(w, now, session, rs).1, RestoreEach(w.db, session, ctx, rs).1;
    if rs == [] {
      assert o == NothingToRestore([], w.db.cursor);
    } else {
      CommandAnswers(w, now, session, rs, 0);
      forall k | 0 <= k < |rs| ensures Answered(w.db, now, rs, k, o.items, PlannedBatch(w.db, ctx, rs).results) {
        CommandAnswers(w, now, session, rs, k);
      }
      SameAnswer(w.db, now, rs, o.items, items, PlannedBatch(w.db, ctx, rs).results);
    }
  }

  /** The command also tells how far the vault has come: its cursor is that of the commit it made, which
      CommitTells describes, or the current one if there was nothing to commit, and the others are told of
      a new cursor exactly if there is one. */
  lemma CommandTells(w: World, now: nat, session: Session, rs: seq<DrawnRestore>, w': World, o: RestoreBatchOutcome)
    requires (w', o) == RestoreEntryVersions(w, now, session, rs)
    ensures var ms := PlanRestores(w.db, now, rs).mutations;
            var commit := CommitMutations(w, now, session, true, ms).1;
            match o
            case NothingToRestore(_, cursor) => ms == [] && cursor == w.db.cursor == w'.db.cursor
            case BatchRestored(_, cursor, broadcast) =>
              && commit.Committed? && cursor == commit.cursor
              && broadcast == if w'.db.cursor != w.db.cursor then Some(w'.db.cursor) else None
            case BatchFailed(outcome) => outcome == commit && !commit.Committed? && w'.db == w.db
  {
    BatchSeen(w.db, ContextOf(w, now, session, true), PlanRestores(w.db, now, rs).mutations);
  }
}
