/** Facts the coordinator's loops need about the folds that specify them. */
module CoordinatorLemmas {
  import opened Wrappers
  import opened Tables
  import opened Policies
  import opened Services
  import opened Ordering
  import opened Sums
  import opened JobTable

  /** Carrying on with a batch never lowers the cursor. */
  lemma {:induction false} CursorGrows(db: Db, ctx: Context, ms: seq<Mutation>, i: nat)
    requires i <= |ms|
    ensures BatchFold(db, ctx, ms[..i]).db.cursor <= BatchFold(db, ctx, ms).db.cursor
    decreases |ms| - i
  {
    if i == |ms| {
      assert ms[..i] == ms;
    } else {
      CursorGrows(db, ctx, ms, i + 1);
      FoldOneMore(db, ctx, ms, i);
    }
  }

  lemma FoldOneMore(db: Db, ctx: Context, ms: seq<Mutation>, i: nat)
    requires i < |ms|
    ensures BatchFold(db, ctx, ms[..i + 1]) == BatchStep(BatchFold(db, ctx, ms[..i]), ctx, ms[i])
  {
    assert ms[..i + 1][..i] == ms[..i];
  }

  lemma HighestSnoc(results: seq<MutationResult>, r: MutationResult)
    ensures HighestCursor(results + [r]) ==
              if r.Rejected? || (HighestCursor(results).Some? && HighestCursor(results).value >= r.cursor)
              then HighestCursor(results) else Some(r.cursor)
  {
    assert (results + [r])[..|results|] == results;
  }

  /** Deferring one job and then the other, in either order. */
  lemma DefersCommute(jobs: Jobs, gcAt: nat, flushAt: nat)
    ensures Defer(Defer(jobs, BlobGc, gcAt), HealthSummaryFlush, flushAt)
            == Defer(Defer(jobs, HealthSummaryFlush, flushAt), BlobGc, gcAt)
  {
  }

  lemma SizesWithout(blobs: Blobs, b: BlobId)
    requires b in blobs
    ensures Total(Sizes(blobs)) == blobs[b].size + Total(Sizes(blobs - {b}))
  {
    TotalRemove(Sizes(blobs), b);
    assert Sizes(blobs) - {b} == Sizes(blobs - {b});
  }

  lemma DeletingNothing(db: Db, now: nat)
    ensures DeleteCollectibleRows(db, {}, now) == db
  {
    var none: set<BlobId> := set b | b in {} && SqlCollectible(db, b, now);
    assert none == {};
    assert db.blobs - none == db.blobs;
    assert Sizes(Restrict(db.blobs, none)) == map[];
  }

  /** The query and the policy it is meant to apply agree on every row, at every time. */
  lemma SqlMatchesPolicy(db: Db, b: BlobId, now: nat)
    ensures SqlCollectible(db, b, now) <==> b in db.blobs && PolicyCollectible(db, b, now)
  {
  }

  lemma ListedAreCollectible(db: Db, now: nat)
    ensures forall b | b in ListCollectible(db, now, GC_BATCH_SIZE) :: SqlCollectible(db, b, now)
    ensures forall b | b in ListCollectible(db, now, GC_BATCH_SIZE) :: b in db.blobs && PolicyCollectible(db, b, now)
  {
    SelectIsPage(CollectibleIds(db, now), DeadlineRank(db.blobs), GC_BATCH_SIZE);
    forall b | b in ListCollectible(db, now, GC_BATCH_SIZE)
      ensures SqlCollectible(db, b, now) && b in db.blobs && PolicyCollectible(db, b, now)
    {
      SqlMatchesPolicy(db, b, now);
    }
  }

  lemma MarkNone(db: Db, now: nat)
    ensures MarkAll(db, {}, now) == db
  {
    assert MarkAll(db, {}, now).blobs == db.blobs;
  }

  /** Marking one more blob changes its row alone, and so the collectability of no other. */
  lemma MarkOneMore(db: Db, done: set<BlobId>, b: BlobId, now: nat)
    requires b !in done
    ensures var marked, more := MarkAll(db, done, now), MarkAll(db, done + {b}, now);
            && more == (if b in marked.blobs then marked.(blobs := marked.blobs[b := MarkUnpinned(marked, b, now)])
                else marked)
            && PurgedKeys(more, done, now) == PurgedKeys(marked, done, now)
            && PurgedKeys(more, done + {b}, now)
               == PurgedKeys(more, done, now) + (if SqlCollectible(more, b, now) then {b} else {})
  {
    var marked, more := MarkAll(db, done, now), MarkAll(db, done + {b}, now);
    assert more.blobs == if b in marked.blobs then marked.blobs[b := MarkUnpinned(marked, b, now)] else marked.blobs;
    assert forall k | k in done :: SqlCollectible(more, k, now) <==> SqlCollectible(marked, k, now);
  }
}
