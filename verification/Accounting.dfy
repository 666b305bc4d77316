/** What the two counters mean: used bytes are the sum of row sizes, and the change cursor is the
    sum of all entry revisions. */
module Accounting {
  import opened Tables
  import opened Services
  import opened Sums

  ghost predicate Counted(db: Db) {
    db.used == Total(Sizes(db.blobs))
  }

  lemma PersistSizes(blobs: Blobs, b: BlobId, size: nat, now: nat, deleteAfter: nat)
    ensures var blobs' := PersistStage(blobs, b, size, now, deleteAfter);
            Total(Sizes(blobs')) == Total(Sizes(blobs)) + (if b in blobs then 0 else size)
  {
    var blobs' := PersistStage(blobs, b, size, now, deleteAfter);
    if b in blobs {
      assert Sizes(blobs') == Sizes(blobs);
    } else {
      TotalUpdate(Sizes(blobs), b, size);
      assert Sizes(blobs') == Sizes(blobs)[b := size];
    }
  }

  lemma StageCounted(db: Db, now: nat, b: BlobId, size: nat, deleteAfter: nat)
    requires Counted(db)
    ensures Counted(StageBlobRecord(db, now, b, size, deleteAfter))
  {
    PersistSizes(db.blobs, b, size, now, deleteAfter);
  }

  /** Deleting rows takes off exactly what they held: the clamp at zero is never reached. */
  lemma ReleaseExact(blobs: Blobs, doomed: set<BlobId>)
    ensures Total(Sizes(Restrict(blobs, doomed))) <= Total(Sizes(blobs))
    ensures Release(Total(Sizes(blobs)), Total(Sizes(Restrict(blobs, doomed)))) == Total(Sizes(blobs - doomed))
  {
    TotalSplit(Sizes(blobs), doomed);
    assert Sizes(Restrict(blobs, doomed)) == map k | k in Sizes(blobs) && k in doomed :: Sizes(blobs)[k];
    assert Sizes(blobs - doomed) == Sizes(blobs) - doomed;
  }

  lemma DeleteRowsCounted(db: Db, ids: set<BlobId>, now: nat)
    requires Counted(db)
    ensures Counted(DeleteCollectibleRows(db, ids, now))
  {
    ReleaseExact(db.blobs, set b | b in ids && SqlCollectible(db, b, now));
  }

  lemma DeleteRecordCounted(db: Db, b: BlobId)
    requires Counted(db)
    ensures Counted(DeleteBlobRecord(db, b))
  {
    if b in db.blobs {
      ReleaseExact(db.blobs, {b});
      TotalRemove(Sizes(Restrict(db.blobs, {b})), b);
      assert Sizes(Restrict(db.blobs, {b})) - {b} == map[];
    }
  }

  function Revisions(entries: Entries): map<EntryId, nat> {
    map e | e in entries :: entries[e].revision
  }

  /** One change, one cursor value: nobody else can have produced a given sequence number. */
  ghost predicate Linear(db: Db) {
    && db.cursor == Total(Revisions(db.entries))
    && (forall e | e in db.entries :: db.entries[e].revision >= 1 && 1 <= db.entries[e].updatedSeq <= db.cursor)
    && (forall e, f | e in db.entries && f in db.entries && e != f ::
          db.entries[e].updatedSeq != db.entries[f].updatedSeq)
  }

  ghost predicate IdsFresh(db: Db) {
    forall v | v in db.versions :: v < db.nextId
  }

  ghost predicate Bookkept(db: Db) {
    Counted(db) && Linear(db) && IdsFresh(db)
  }

  /** Committing moves blobs between states but never changes a size, and writes exactly one entry. */
  lemma ApplyShape(db: Db, ctx: Context, m: Mutation)
    requires Decide(db, ctx, m).Apply?
    ensures var d := Decide(db, ctx, m); var db' := ApplyMutation(db, ctx, m, d);
            && Sizes(db'.blobs) == Sizes(db.blobs) && db'.used == db.used
            && db'.entries == db.entries[m.entryId := NewRow(db, ctx, m, d.revision)]
            && db'.cursor == db.cursor + 1
  {
  }

  lemma ApplyIdsFresh(db: Db, ctx: Context, m: Mutation)
    requires IdsFresh(db) && Decide(db, ctx, m).Apply?
    ensures IdsFresh(ApplyMutation(db, ctx, m, Decide(db, ctx, m)))
  {
  }

  lemma RevisionSum(entries: Entries, e: EntryId, row: EntryRow)
    requires row.revision == 1 + if e in entries then entries[e].revision else 0
    ensures Total(Revisions(entries[e := row])) == Total(Revisions(entries)) + 1
  {
    TotalUpdate(Revisions(entries), e, row.revision);
    assert Revisions(entries[e := row]) == Revisions(entries)[e := row.revision];
  }

  lemma ApplyLinear(db: Db, row: EntryRow, e: EntryId, db': Db)
    requires Linear(db)
    requires db'.entries == db.entries[e := row] && db'.cursor == db.cursor + 1
    requires row.updatedSeq == db.cursor + 1
    requires row.revision == 1 + if e in db.entries then db.entries[e].revision else 0
    ensures Linear(db')
  {
    RevisionSum(db.entries, e, row);
  }

  lemma CommitOneBookkept(db: Db, ctx: Context, m: Mutation)
    requires Bookkept(db)
    ensures Bookkept(CommitOne(db, ctx, m).0)
  {
    var d := Decide(db, ctx, m);
    if d.Apply? && Blocked(db, ctx, m.content).None? {
      ApplyShape(db, ctx, m);
      ApplyIdsFresh(db, ctx, m);
      ApplyLinear(db, NewRow(db, ctx, m, d.revision), m.entryId, ApplyMutation(db, ctx, m, d));
    }
  }

  lemma {:induction false} BatchBookkept(db: Db, ctx: Context, ms: seq<Mutation>)
    requires Bookkept(db)
    ensures Bookkept(BatchFold(db, ctx, ms).db)
  {
    if ms != [] {
      BatchBookkept(db, ctx, ms[..|ms| - 1]);
      CommitOneBookkept(BatchFold(db, ctx, ms[..|ms| - 1]).db, ctx, ms[|ms| - 1]);
    }
  }

  lemma {:induction false} PurgeBookkept(db: Db, now: nat, rs: seq<PurgeRequest>)
    requires Bookkept(db)
    ensures Bookkept(PurgeFold(db, now, rs).db)
    ensures PurgeFold(db, now, rs).db.entries == db.entries
  {
    if rs != [] {
      PurgeBookkept(db, now, rs[..|rs| - 1]);
    }
  }

  lemma MarkCounted(db: Db, ids: set<BlobId>, now: nat)
    requires Counted(db)
    ensures Counted(MarkAll(db, ids, now))
  {
    assert Sizes(MarkAll(db, ids, now).blobs) == Sizes(db.blobs);
  }
}
