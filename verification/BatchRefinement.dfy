/** A batch commit is the same as committing its mutations one at a time. */
module BatchRefinement {
  import opened Wrappers
  import opened Tables
  import opened Services
  import opened Undo
  import opened Theorems

  ghost predicate DistinctIds(ms: seq<Mutation>) {
    forall i, j | 0 <= i < j < |ms| :: ms[i].mutationId != ms[j].mutationId
  }

  /** Each mutation in its own transaction, at the same clock value. */
  function CommitEach(db: Db, session: Session, ctx: Context, ms: seq<Mutation>): (r: (Db, seq<CommitOutcome>)) {
    if ms == [] then (db, [])
    else
      var (before, outcomes) := CommitEach(db, session, ctx, ms[..|ms| - 1]);
      var (after, outcome) := CommitDb(before, session, ctx, [ms[|ms| - 1]]);
      (after, outcomes + [outcome])
  }

  /** What a lone commit answers, as the result it would have in a batch. */
  function ResultOf(outcome: CommitOutcome): Option<MutationResult> {
    if outcome.Committed? && |outcome.results| == 1 then Some(outcome.results[0]) else None
  }

  lemma {:induction false} BatchSeen(db: Db, ctx: Context, ms: seq<Mutation>)
    ensures BatchFold(db, ctx, ms).seen == set i | 0 <= i < |ms| :: ms[i].mutationId
    ensures |BatchFold(db, ctx, ms).results| == |ms|
  {
    if ms != [] {
      var front, last := ms[..|ms| - 1], ms[|ms| - 1];
      BatchSeen(db, ctx, front);
      assert (set i | 0 <= i < |ms| :: ms[i].mutationId)
             == (set i | 0 <= i < |front| :: front[i].mutationId) + {last.mutationId};
    }
  }

  lemma BatchKeepsVault(db: Db, ctx: Context, ms: seq<Mutation>)
    ensures BatchFold(db, ctx, ms).db.vaultId == db.vaultId
  {
    if ms != [] { BatchKeepsVault(db, ctx, ms[..|ms| - 1]); }
  }

  lemma {:induction false} ResultsOfPrefix(db: Db, ctx: Context, ms: seq<Mutation>, i: nat)
    requires i < |ms|
    ensures |BatchFold(db, ctx, ms).results| == |ms|
    ensures BatchFold(db, ctx, ms[..i + 1]).results == BatchFold(db, ctx, ms).results[..i + 1]
  {
    BatchSeen(db, ctx, ms);
    if i < |ms| - 1 {
      var front := ms[..|ms| - 1];
      BatchSeen(db, ctx, front);
      ResultsOfPrefix(db, ctx, front, i);
      assert front[..i + 1] == ms[..i + 1];
      assert BatchFold(db, ctx, ms).results[..|front|] == BatchFold(db, ctx, front).results;
    } else {
      assert ms[..i + 1] == ms;
    }
  }

  /** A lone commit on an unpaused vault of the session's own does what one batch step does. */
  lemma LoneCommit(db: Db, session: Session, ctx: Context, m: Mutation)
    requires db.pause.None? && session.vaultId == db.vaultId
    ensures var (db', outcome) := CommitDb(db, session, ctx, [m]);
            db' == CommitOne(db, ctx, m).0 && ResultOf(outcome) == Some(CommitOne(db, ctx, m).1)
  {
    SingleBatch(db, ctx, m);
  }

  /** With pairwise distinct ids the batch and the sequence agree on the tables and on every result. */
  lemma {:induction false} BatchRefinesSequence(db: Db, session: Session, ctx: Context, ms: seq<Mutation>)
    requires db.pause.None? && session.vaultId == db.vaultId && DistinctIds(ms)
    ensures var (db', outcome) := CommitDb(db, session, ctx, ms);
            var (each, outcomes) := CommitEach(db, session, ctx, ms);
            && outcome.Committed? && db' == each && |outcomes| == |outcome.results| == |ms|
            && forall i | 0 <= i < |ms| :: ResultOf(outcomes[i]) == Some(outcome.results[i])
  {
    BatchSeen(db, ctx, ms);
    if ms != [] {
      var front, last := ms[..|ms| - 1], ms[|ms| - 1];
      BatchRefinesSequence(db, session, ctx, front);
      BatchSeen(db, ctx, front);
      BatchKeepsPause(db, ctx, front);
      BatchKeepsVault(db, ctx, front);
      var mid := BatchFold(db, ctx, front);
      assert last.mutationId !in mid.seen;
      LoneCommit(mid.db, session, ctx, last);
    }
  }

  /** The results agree only then: a repeated id is answered `duplicate_mutation_id`, which a lone
      commit never answers. */
  lemma DuplicatesDiffer(db: Db, session: Session, ctx: Context, ms: seq<Mutation>, i: nat, j: nat)
    requires db.pause.None? && session.vaultId == db.vaultId
    requires i < j < |ms| && ms[i].mutationId == ms[j].mutationId
    ensures |BatchFold(db, ctx, ms).results| == |ms|
    ensures BatchFold(db, ctx, ms).results[j] == Rejected(ms[j].mutationId, ms[j].entryId, DuplicateMutationId)
    ensures |CommitEach(db, session, ctx, ms).1| == |ms|
    ensures ResultOf(CommitEach(db, session, ctx, ms).1[j]) != Some(BatchFold(db, ctx, ms).results[j])
  {
    var front := ms[..j];
    BatchSeen(db, ctx, front);
    assert front[i].mutationId in BatchFold(db, ctx, front).seen;
    assert ms[..j + 1][..j] == front;
    ResultsOfPrefix(db, ctx, ms, j);
    assert BatchFold(db, ctx, ms[..j + 1]).results[j] == BatchFold(db, ctx, ms).results[j];
    NeverDuplicate(db, session, ctx, ms, j);
  }

  lemma {:induction false} NeverDuplicate(db: Db, session: Session, ctx: Context, ms: seq<Mutation>, j: nat)
    requires j < |ms|
    ensures |CommitEach(db, session, ctx, ms).1| == |ms|
    ensures var r := ResultOf(CommitEach(db, session, ctx, ms).1[j]);
            r.Some? && r.value.Rejected? ==> r.value.code != DuplicateMutationId
  {
    var front := ms[..|ms| - 1];
    EachLength(db, session, ctx, ms);
    EachLength(db, session, ctx, front);
    if j < |front| {
      NeverDuplicate(db, session, ctx, front, j);
    } else {
      SingleBatch(CommitEach(db, session, ctx, front).0, ctx, ms[j]);
    }
  }

  lemma {:induction false} EachLength(db: Db, session: Session, ctx: Context, ms: seq<Mutation>)
    ensures |CommitEach(db, session, ctx, ms).1| == |ms|
  {
    if ms != [] { EachLength(db, session, ctx, ms[..|ms| - 1]); }
  }

  /** A batch's per-mutation results are those of the sequence if and only if its ids are distinct. */
  lemma ResultsAgreeIffDistinct(db: Db, session: Session, ctx: Context, ms: seq<Mutation>)
    requires db.pause.None? && session.vaultId == db.vaultId
    ensures |BatchFold(db, ctx, ms).results| == |CommitEach(db, session, ctx, ms).1| == |ms|
    ensures DistinctIds(ms)
            <==> forall i | 0 <= i < |ms| ::
                   ResultOf(CommitEach(db, session, ctx, ms).1[i]) == Some(BatchFold(db, ctx, ms).results[i])
  {
    BatchSeen(db, ctx, ms);
    EachLength(db, session, ctx, ms);
    if DistinctIds(ms) {
      BatchRefinesSequence(db, session, ctx, ms);
    } else {
      var i, j :| 0 <= i < j < |ms| && ms[i].mutationId == ms[j].mutationId;
      DuplicatesDiffer(db, session, ctx, ms, i, j);
    }
  }
}
