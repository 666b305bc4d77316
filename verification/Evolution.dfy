/** What no command can undo: entries only move forward, current blobs keep their size, and
    unexpired history survives everything except a purge of its entry. */
module Evolution {
  import opened Wrappers
  import opened Tables
  import opened Services
  import opened Lifecycle
  import opened Accounting
  import opened Runs

  /** Every entry is either untouched or newer than the old cursor, and new entries are too. */
  ghost predicate EntriesAdvance(db: Db, db': Db) {
    && db.cursor <= db'.cursor
    && (forall e | e in db.entries ::
          e in db'.entries
          && (db'.entries[e] == db.entries[e]
              || (db'.entries[e].revision > db.entries[e].revision && db'.entries[e].updatedSeq > db.cursor)))
    && (forall e | e in db'.entries && e !in db.entries :: db'.entries[e].updatedSeq > db.cursor)
  }

  /** The size recorded for an entry's blob does not change while the entry does not. */
  ghost predicate SizesHold(db: Db, db': Db) {
    forall e | e in db.entries && e in db'.entries && db'.entries[e] == db.entries[e]
        && db.entries[e].content.Upsert? ::
      var b := db.entries[e].content.blobId;
      b in db.blobs && b in db'.blobs && db'.blobs[b].size == db.blobs[b].size
  }

  ghost predicate SameSizes(blobs: Blobs, blobs': Blobs) {
    forall b | b in blobs && b in blobs' :: blobs'[b].size == blobs[b].size
  }

  ghost predicate HistoryKept(versions: Versions, versions': Versions, now: nat, purged: set<EntryId>) {
    forall v | v in versions && versions[v].expiresAt > now && versions[v].entryId !in purged ::
      v in versions' && versions'[v] == versions[v]
  }

  /** The three together, for one command or for several. */
  ghost predicate Evolves(db: Db, db': Db, now: nat, purged: set<EntryId>) {
    EntriesAdvance(db, db') && SizesHold(db, db') && HistoryKept(db.versions, db'.versions, now, purged)
  }

  /** The entries a command names for purging. */
  function PurgedBy(c: Command): set<EntryId> {
    if c.Purge? then set i | 0 <= i < |c.requests| :: c.requests[i].entryId else {}
  }

  function PurgedIn(evs: seq<Event>): set<EntryId> {
    if evs == [] then {} else PurgedIn(evs[..|evs| - 1]) + PurgedBy(evs[|evs| - 1].command)
  }

  lemma AdvanceTransitive(a: Db, b: Db, c: Db)
    requires EntriesAdvance(a, b) && EntriesAdvance(b, c)
    ensures EntriesAdvance(a, c)
  {
  }

  lemma EvolvesTransitive(a: Db, b: Db, c: Db, mid: nat, now: nat, p: set<EntryId>, q: set<EntryId>)
    requires Evolves(a, b, mid, p) && Evolves(b, c, now, q) && mid <= now
    ensures Evolves(a, c, now, p + q)
  {
    AdvanceTransitive(a, b, c);
    forall e | e in a.entries && e in c.entries && c.entries[e] == a.entries[e] && a.entries[e].content.Upsert?
      ensures var b' := a.entries[e].content.blobId;
              b' in a.blobs && b' in c.blobs && c.blobs[b'].size == a.blobs[b'].size
    {
      assert b.entries[e] == a.entries[e];
    }
  }

  lemma ReferencedSizes(db: Db, db': Db, now: nat, later: nat)
    requires Sound(db, now) && Sound(db', later) && SameSizes(db.blobs, db'.blobs)
    ensures SizesHold(db, db')
  {
    forall e | e in db.entries && e in db'.entries && db'.entries[e] == db.entries[e] && db.entries[e].content.Upsert?
      ensures var b := db.entries[e].content.blobId;
              b in db.blobs && b in db'.blobs && db'.blobs[b].size == db.blobs[b].size
    {
      var b := db.entries[e].content.blobId;
      assert CurrentRef(db.entries, b) && CurrentRef(db'.entries, b);
      assert Pinned(db.entries, db.versions, b, now) && Pinned(db'.entries, db'.versions, b, later);
    }
  }

  // ---- the raw changes of each command ----

  ghost predicate Changes(db: Db, db': Db, now: nat, purged: set<EntryId>) {
    EntriesAdvance(db, db') && SameSizes(db.blobs, db'.blobs) && db.blobs.Keys >= db'.blobs.Keys
    && HistoryKept(db.versions, db'.versions, now, purged)
  }

  lemma StageChanges(db: Db, now: nat, b: BlobId, size: nat, deleteAfter: nat, db': Db)
    requires db' == StageBlobRecord(db, now, b, size, deleteAfter)
    ensures EntriesAdvance(db, db') && SameSizes(db.blobs, db'.blobs) && db'.versions == db.versions
  {
  }

  lemma ApplyKeepsHistory(db: Db, ctx: Context, m: Mutation, db': Db)
    requires Decide(db, ctx, m).Apply? && db' == ApplyMutation(db, ctx, m, Decide(db, ctx, m))
    ensures HistoryKept(db.versions, db'.versions, ctx.now, {})
  {
  }

  lemma EqualSizes(blobs: Blobs, blobs': Blobs)
    requires Sizes(blobs') == Sizes(blobs)
    ensures SameSizes(blobs, blobs') && blobs.Keys == blobs'.Keys
  {
    assert Sizes(blobs).Keys == blobs.Keys && Sizes(blobs').Keys == blobs'.Keys;
    assert forall b | b in blobs' :: Sizes(blobs')[b] == Sizes(blobs)[b];
  }

  lemma CommitOneChanges(db: Db, ctx: Context, m: Mutation, db': Db)
    requires Linear(db) && IdsFresh(db) && db' == CommitOne(db, ctx, m).0
    ensures Changes(db, db', ctx.now, {})
  {
    if Decide(db, ctx, m).Apply? && Blocked(db, ctx, m.content).None? {
      ApplyShape(db, ctx, m);
      ApplyKeepsHistory(db, ctx, m, db');
      EqualSizes(db.blobs, db'.blobs);
    }
  }

  lemma {:induction false} BatchChanges(db: Db, ctx: Context, ms: seq<Mutation>, db': Db)
    requires Bookkept(db) && db' == BatchFold(db, ctx, ms).db
    ensures Changes(db, db', ctx.now, {})
  {
    if ms != [] {
      var mid := BatchFold(db, ctx, ms[..|ms| - 1]).db;
      BatchChanges(db, ctx, ms[..|ms| - 1], mid);
      BatchBookkept(db, ctx, ms[..|ms| - 1]);
      CommitOneChanges(mid, ctx, ms[|ms| - 1], CommitOne(mid, ctx, ms[|ms| - 1]).0);
      AdvanceTransitive(db, mid, db');
    }
  }

  lemma {:induction false} PurgeChanges(db: Db, now: nat, rs: seq<PurgeRequest>, db': Db)
    requires db' == PurgeFold(db, now, rs).db
    ensures Changes(db, db', now, set i | 0 <= i < |rs| :: rs[i].entryId)
    ensures db'.blobs == db.blobs && db'.entries == db.entries && db'.cursor == db.cursor
  {
    if rs != [] {
      var front, last := rs[..|rs| - 1], rs[|rs| - 1];
      PurgeChanges(db, now, front, PurgeFold(db, now, front).db);
      assert (set i | 0 <= i < |rs| :: rs[i].entryId)
          == (set i | 0 <= i < |front| :: front[i].entryId) + {last.entryId};
    }
  }

  lemma CollectChanges(db: Db, objects: set<BlobId>, keys: set<BlobId>, faults: Faults, now: nat, db': Db)
    requires db' == Collect(Expire(db, now), objects, keys, faults, now).0
    ensures Changes(db, db', now, {}) && db'.entries == db.entries
  {
  }

  lemma PurgedCollectChanges(w: World, now: nat, mayCollect: bool, ids: set<BlobId>, faults: Faults, w': World)
    requires w' == CollectPurged(w, now, mayCollect, ids, faults)
    ensures Changes(w.db, w'.db, now, {}) && w'.db.entries == w.db.entries && w'.db.cursor == w.db.cursor
  {
  }

  lemma {:induction false} RepairChanges(s: RepairState, now: nat, ids: seq<BlobId>, faults: Faults, s': RepairState)
    requires s' == RepairFold(s, now, ids, faults)
    ensures Changes(s.db, s'.db, now, {})
  {
    if ids != [] {
      RepairChanges(s, now, ids[..|ids| - 1], faults, RepairFold(s, now, ids[..|ids| - 1], faults));
    }
  }

  lemma PurgeCommandChanges(w: World, now: nat, mayCollect: bool, rs: seq<PurgeRequest>, faults: Faults, w': World)
    requires w' == PurgeDeletedEntries(w, now, mayCollect, rs, faults).0
    ensures Changes(w.db, w'.db, now, set i | 0 <= i < |rs| :: rs[i].entryId)
  {
    var acc := PurgeFold(w.db, now, rs);
    PurgeChanges(w.db, now, rs, acc.db);
    if w.db.pause.None? || rs == [] {
      PurgedCollectChanges(w.(clock := now, db := acc.db), now, mayCollect, acc.candidates, faults, w');
    }
  }

  /** A commit leaves the tables of its batch, or the ones it found. */
  lemma CommitTables(w: World, now: nat, session: Session, restoring: bool, ms: seq<Mutation>, w': World)
    requires w' == CommitMutations(w, now, session, restoring, ms).0
    ensures w'.db == w.db || w'.db == BatchFold(w.db, ContextOf(w, now, session, restoring), ms).db
  {
  }

  lemma CommitChanges(w: World, now: nat, session: Session, restoring: bool, ms: seq<Mutation>, w': World)
    requires Bookkept(w.db) && w' == CommitMutations(w, now, session, restoring, ms).0
    ensures Changes(w.db, w'.db, now, {})
  {
    CommitTables(w, now, session, restoring, ms, w');
    if w'.db == w.db {
      SameTables(w.db, w'.db, now);
    } else {
      BatchChanges(w.db, ContextOf(w, now, session, restoring), ms, w'.db);
    }
  }

  lemma GcChanges(w: World, now: nat, mayCollect: bool, faults: Faults, w': World)
    requires w' == RunGc(w, now, mayCollect, faults).0
    ensures Changes(w.db, w'.db, now, {})
  {
    if mayCollect {
      CollectChanges(w.db, w.objects, GcKeys(Expire(w.db, now), now), faults, now, w'.db);
    }
  }

  lemma RepairCommandChanges(w: World, now: nat, faults: Faults, w': World)
    requires w' == RepairSyncState(w, now, faults).0
    ensures Changes(w.db, w'.db, now, {})
  {
    var s := RepairState(w.db, w.objects, 0, None);
    var stale := ListStaleStaged(w.db.blobs, now);
    RepairChanges(s, now, stale, faults, RepairFold(s, now, stale, faults));
  }

  lemma DeleteChanges(w: World, now: nat, b: BlobId, faults: Faults, w': World)
    requires w' == DeleteBlob(w, now, b, faults)
    ensures Changes(w.db, w'.db, now, {})
  {
  }

  /** Staging is the one command that adds a row. */
  lemma StageCommandChanges(w: World, now: nat, b: BlobId, size: nat, w': World)
    requires w' == StageBlob(w, now, b, size).0
    ensures EntriesAdvance(w.db, w'.db) && SameSizes(w.db.blobs, w'.db.blobs) && w'.db.versions == w.db.versions
  {
    if w.db.pause.None? {
      StageChanges(w.db, now, b, size, now + w.grace, w'.db);
    }
  }

  /** A restore either does nothing or is the commit of one mutation. */
  lemma RestoreIsCommit(w: World, now: nat, session: Session, r: Restore, id: string)
    ensures var w' := RestoreEntryVersion(w, now, session, r, id).0;
            w' == w.(clock := now) || w' == CommitMutations(w, now, session, true, [RestoreMutation(r, id)]).0
  {
  }

  /** A batch restore is at most one commit. */
  lemma RestoreManyIsCommit(w: World, now: nat, session: Session, rs: seq<DrawnRestore>)
    ensures var w' := RestoreEntryVersions(w, now, session, rs).0;
            || w' == w.(clock := now)
            || w' == CommitMutations(w, now, session, true, PlanRestores(w.db, now, rs).mutations).0
  {
  }

  lemma RestoreManyChanges(w: World, now: nat, session: Session, rs: seq<DrawnRestore>, w': World)
    requires Bookkept(w.db) && w' == RestoreEntryVersions(w, now, session, rs).0
    ensures Changes(w.db, w'.db, now, {})
  {
    RestoreManyIsCommit(w, now, session, rs);
    if w' == w.(clock := now) {
      SameTables(w.db, w'.db, now);
    } else {
      CommitChanges(w, now, session, true, PlanRestores(w.db, now, rs).mutations, w');
    }
  }

  lemma RestoreChanges(w: World, now: nat, session: Session, r: Restore, id: string, w': World)
    requires Bookkept(w.db) && w' == RestoreEntryVersion(w, now, session, r, id).0
    ensures Changes(w.db, w'.db, now, {})
  {
    RestoreIsCommit(w, now, session, r, id);
    if w' == w.(clock := now) {
      SameTables(w.db, w'.db, now);
    } else {
      CommitChanges(w, now, session, true, [RestoreMutation(r, id)], w');
    }
  }

  lemma AlarmChanges(w: World, now: nat, mayCollect: bool, faults: Faults, w': World)
    requires w' == AlarmGc(w, now, mayCollect, faults)
    ensures Changes(w.db, w'.db, now, {})
  {
    var ran := RunGc(w, now, mayCollect, faults).0;
    GcChanges(w, now, mayCollect, faults, ran);
    assert w'.db == ran.db || w'.db == w.db;
  }

  lemma DirectChanges(w: World, now: nat, mayCollect: bool, faults: Faults, w': World)
    requires w' == DirectGc(w, now, mayCollect, faults)
    ensures Changes(w.db, w'.db, now, {})
  {
    var ran := RunGc(w, now, mayCollect, faults).0;
    GcChanges(w, now, mayCollect, faults, ran);
    assert w'.db == ran.db;
  }

  lemma SameTables(db: Db, db': Db, now: nat)
    requires db'.entries == db.entries && db'.versions == db.versions && db'.blobs == db.blobs
    requires db'.cursor == db.cursor
    ensures Changes(db, db', now, {})
  {
  }

  lemma QuietChanges(w: World, now: nat, c: Command, w': World)
    requires Quiet(c) && w' == Exec(w, now, c)
    ensures Changes(w.db, w'.db, now, {})
  {
    QuietTables(w, now, c, w');
    SameTables(w.db, w'.db, now);
  }

  lemma ExecChanges(w: World, now: nat, c: Command, w': World)
    requires Bookkept(w.db) && w' == Exec(w, now, c)
    ensures EntriesAdvance(w.db, w'.db) && SameSizes(w.db.blobs, w'.db.blobs)
    ensures HistoryKept(w.db.versions, w'.db.versions, now, PurgedBy(c))
  {
    match c
    case Stage(b, size) => StageCommandChanges(w, now, b, size, w');
    case AbortStage(vaultId, b) => QuietChanges(w, now, c, w');
    case Upload(b) => QuietChanges(w, now, c, w');
    case DeleteOne(b, faults) => DeleteChanges(w, now, b, faults, w');
    case Commit(session, restoring, ms) => CommitChanges(w, now, session, restoring, ms, w');
    case RestoreOne(session, r, id) => RestoreChanges(w, now, session, r, id, w');
    case RestoreMany(session, rs) => RestoreManyChanges(w, now, session, rs, w');
    case Purge(mayCollect, rs, faults) => PurgeCommandChanges(w, now, mayCollect, rs, faults, w');
    case Alarm(mayCollect, faults) => AlarmChanges(w, now, mayCollect, faults, w');
    case CollectNow(mayCollect, faults) => DirectChanges(w, now, mayCollect, faults, w');
    case Repair(faults) => RepairCommandChanges(w, now, faults, w');
    case SetPause(reason) => QuietChanges(w, now, c, w');
    case SetPolicy(limit, maxFile, days) => QuietChanges(w, now, c, w');
    case HealthTouched => QuietChanges(w, now, c, w');
    case HealthAlarm(outcome) => QuietChanges(w, now, c, w');
  }

  lemma ExecEvolves(w: World, now: nat, c: Command, w': World)
    requires Inv(w) && Inv(w') && w' == Exec(w, now, c)
    ensures Evolves(w.db, w'.db, now, PurgedBy(c))
  {
    ExecChanges(w, now, c, w');
    ReferencedSizes(w.db, w'.db, w.clock, w'.clock);
  }

  lemma {:induction false} RunEvolves(w: World, evs: seq<Event>)
    requires Inv(w)
    ensures Evolves(w.db, Run(w, evs).db, Run(w, evs).clock, PurgedIn(evs))
    ensures Inv(Run(w, evs)) && Run(w, evs).clock >= w.clock
  {
    if evs == [] {
      ReferencedSizes(w.db, w.db, w.clock, w.clock);
    } else {
      var front, last := evs[..|evs| - 1], evs[|evs| - 1];
      RunEvolves(w, front);
      var mid := Run(w, front);
      StepInv(mid, last);
      ExecEvolves(mid, TimeOf(mid, last), last.command, Step(mid, last));
      EvolvesTransitive(w.db, mid.db, Run(w, evs).db, mid.clock, Run(w, evs).clock, PurgedIn(front),
          PurgedBy(last.command));
    }
  }
}
