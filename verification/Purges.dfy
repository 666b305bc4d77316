/** When history goes: a purge takes exactly the versions of the deleted entries it names at their
    current revision, and nothing else takes unexpired history. */
module Purges {
  import opened Wrappers
  import opened Tables
  import opened Policies
  import opened Services
  import opened Accounting
  import opened Runs
  import opened Evolution

  /** Some content of the entry is still within the retention window. */
  ghost predicate Restorable(db: Db, e: EntryId, now: nat) {
    exists v :: v in db.versions && db.versions[v].entryId == e && db.versions[v].content.Upsert?
                && db.versions[v].capturedAt + db.retentionDays * DAY_IN_MS >= now
  }

  /** The entry is there, deleted, at the named revision, and has something to restore. */
  ghost predicate Purgeable(db: Db, now: nat, r: PurgeRequest) {
    && r.entryId in db.entries && db.entries[r.entryId].content.Delete?
    && db.entries[r.entryId].revision == r.revision && Restorable(db, r.entryId, now)
  }

  lemma PurgeDecided(db: Db, now: nat, r: PurgeRequest)
    ensures var d := PurgeDecisionFor(db, now, r);
            && (d.PurgeAccepted? <==> Purgeable(db, now, r))
            && (d.PurgeNotFound? <==> r.entryId !in db.entries)
            && (d.PurgeNotDeleted? <==> r.entryId in db.entries && db.entries[r.entryId].content.Upsert?)
            && (d.PurgeStale? ==>
                  r.entryId in db.entries && d.expectedRevision == db.entries[r.entryId].revision != r.revision)
            && (d.PurgeNoHistory? ==> !Restorable(db, r.entryId, now))
  {
  }

  /** The entries of the purgeable requests. */
  ghost function Purged(db: Db, now: nat, rs: seq<PurgeRequest>): set<EntryId> {
    set i | 0 <= i < |rs| && Purgeable(db, now, rs[i]) :: rs[i].entryId
  }

  ghost predicate WithoutHistoryOf(versions: Versions, purged: set<EntryId>, versions': Versions) {
    && (forall v | v in versions' :: v in versions && versions'[v] == versions[v])
    && (forall v | v in versions :: v in versions' <==> versions[v].entryId !in purged)
  }

  /** The blobs that history refers to. */
  ghost predicate BlobsOf(versions: Versions, purged: set<EntryId>, ids: set<BlobId>) {
    forall b :: b in ids <==> exists v :: v in versions && versions[v].entryId in purged
                                          && versions[v].content == Upsert(b)
  }

  lemma StillPurgeable(db: Db, db': Db, purged: set<EntryId>, now: nat, r: PurgeRequest)
    requires db' == db.(versions := db'.versions) && WithoutHistoryOf(db.versions, purged, db'.versions)
    ensures Purgeable(db', now, r) <==> Purgeable(db, now, r) && r.entryId !in purged
  {
    if Purgeable(db, now, r) && r.entryId !in purged {
      var v :| v in db.versions && db.versions[v].entryId == r.entryId && db.versions[v].content.Upsert?
               && db.versions[v].capturedAt + db.retentionDays * DAY_IN_MS >= now;
      assert v in db'.versions;
    }
  }

  /** A purge of any requests removes exactly the versions of the entries of the purgeable ones, hands
      exactly their blobs on to collection, and writes nothing else. */
  lemma {:induction false} PurgeExactly(db: Db, now: nat, rs: seq<PurgeRequest>)
    ensures var acc, purged := PurgeFold(db, now, rs), Purged(db, now, rs);
            && acc.db == db.(versions := acc.db.versions)
            && WithoutHistoryOf(db.versions, purged, acc.db.versions)
            && BlobsOf(db.versions, purged, acc.candidates)
            && |acc.results| == |rs|
  {
    if rs != [] {
      var front, last := rs[..|rs| - 1], rs[|rs| - 1];
      PurgeExactly(db, now, front);
      var acc := PurgeFold(db, now, front);
      StillPurgeable(db, acc.db, Purged(db, now, front), now, last);
      PurgeDecided(acc.db, now, last);
      PurgedNext(db, now, rs);
      if Purgeable(acc.db, now, last) {
        OneMorePurged(db.versions, Purged(db, now, front), acc, last.entryId, PurgeStep(acc, now, last));
      }
    }
  }

  lemma PurgedNext(db: Db, now: nat, rs: seq<PurgeRequest>)
    requires rs != []
    ensures Purged(db, now, rs) == Purged(db, now, rs[..|rs| - 1])
            + if Purgeable(db, now, rs[|rs| - 1]) then {rs[|rs| - 1].entryId} else {}
  {
    var front, last := rs[..|rs| - 1], rs[|rs| - 1];
    forall e ensures e in Purged(db, now, rs)
            <==> e in Purged(db, now, front) || (Purgeable(db, now, last) && e == last.entryId)
    {
      if e in Purged(db, now, front) {
        var i :| 0 <= i < |front| && Purgeable(db, now, front[i]) && front[i].entryId == e;
        assert rs[i] == front[i];
      }
      if e in Purged(db, now, rs) {
        var i :| 0 <= i < |rs| && Purgeable(db, now, rs[i]) && rs[i].entryId == e;
        assert i < |front| ==> front[i] == rs[i];
      }
    }
  }

  lemma OneMorePurged(versions: Versions, purged: set<EntryId>, acc: PurgeBatch, e: EntryId, acc': PurgeBatch)
    requires WithoutHistoryOf(versions, purged, acc.db.versions) && BlobsOf(versions, purged, acc.candidates)
    requires e !in purged && acc'.db.versions == DeleteEntryVersions(acc.db.versions, e)
    requires acc'.candidates == acc.candidates + ListBlobIds(acc.db.versions, e)
    ensures WithoutHistoryOf(versions, purged + {e}, acc'.db.versions)
    ensures BlobsOf(versions, purged + {e}, acc'.candidates)
  {
    forall b ensures b in acc'.candidates <==> exists v :: v in versions && versions[v].entryId in purged + {e}
                                                           && versions[v].content == Upsert(b)
    {
      if b in ListBlobIds(acc.db.versions, e) {
        var v :| v in acc.db.versions && acc.db.versions[v].entryId == e && acc.db.versions[v].content.Upsert?
                 && acc.db.versions[v].content.blobId == b;
        assert versions[v].content == Upsert(b);
      }
      if v :| v in versions && versions[v].entryId == e && versions[v].content == Upsert(b) {
        assert v in acc.db.versions && acc.db.versions[v] == versions[v];
      }
    }
  }

  /** Each request is answered by its own decision: accepted exactly if it is purgeable and no request
      before it in the batch has purged the entry. */
  lemma {:induction false} PurgeAnswers(db: Db, now: nat, rs: seq<PurgeRequest>, k: nat)
    requires k < |rs|
    ensures var results := PurgeFold(db, now, rs).results;
            && |results| == |rs|
            && (results[k].PurgeAccepted?
                <==> Purgeable(db, now, rs[k]) && rs[k].entryId !in Purged(db, now, rs[..k]))
            && (results[k].PurgeNotFound? <==> rs[k].entryId !in db.entries)
            && (results[k].PurgeNotDeleted?
                <==> rs[k].entryId in db.entries && db.entries[rs[k].entryId].content.Upsert?)
            && (results[k].PurgeStale? ==>
                  && rs[k].entryId in db.entries
                  && results[k].expectedRevision == db.entries[rs[k].entryId].revision != rs[k].revision)
  {
    var front, last := rs[..|rs| - 1], rs[|rs| - 1];
    PurgeExactly(db, now, front);
    if k < |front| {
      PurgeAnswers(db, now, front, k);
      assert front[..k] == rs[..k];
    } else {
      var acc := PurgeFold(db, now, front);
      StillPurgeable(db, acc.db, Purged(db, now, front), now, last);
      PurgeDecided(acc.db, now, last);
    }
  }

  // ---- the command and whole runs ----

  /** What follows a purge drops at most versions that have expired. */
  lemma CollectionAfterPurge(w: World, now: nat, mayCollect: bool, ids: set<BlobId>, faults: Faults, w': World)
    requires w' == CollectPurged(w, now, mayCollect, ids, faults)
    ensures w'.db.versions == w.db.versions || w'.db.versions == ExpireVersions(w.db.versions, now)
  {
  }

  lemma PurgeCommandTables(
      w: World, now: nat, mayCollect: bool, rs: seq<PurgeRequest>, faults: Faults, w': World, acc: PurgeBatch)
    requires w.db.pause.None? && acc == PurgeFold(w.db, now, rs)
    requires w' == PurgeDeletedEntries(w, now, mayCollect, rs, faults).0
    ensures w'.db.versions == acc.db.versions || w'.db.versions == ExpireVersions(acc.db.versions, now)
  {
    CollectionAfterPurge(w.(clock := now, db := acc.db), now, mayCollect, acc.candidates, faults, w');
  }

  /** The command takes exactly the unexpired history of the entries it purges, and refuses on a paused
      vault. */
  lemma PurgeCommandExactly(
      w: World, now: nat, mayCollect: bool, rs: seq<PurgeRequest>, faults: Faults, v: VersionId, w': World,
      results: seq<PurgeDecision>)
    requires (w', results) == PurgeDeletedEntries(w, now, mayCollect, rs, faults)
    requires v in w.db.versions && w.db.versions[v].expiresAt > now
    ensures v !in w'.db.versions
            <==> w.db.pause.None? && w.db.versions[v].entryId in Purged(w.db, now, rs)
    ensures v in w'.db.versions ==> w'.db.versions[v] == w.db.versions[v]
    ensures w.db.pause.None? ==> results == PurgeFold(w.db, now, rs).results
  {
    if w.db.pause.None? {
      PurgeExactly(w.db, now, rs);
      PurgeCommandTables(w, now, mayCollect, rs, faults, w', PurgeFold(w.db, now, rs));
    }
  }

  /** The command purges the entry: unpaused, with a purgeable request for it. */
  ghost predicate Purges(w: World, now: nat, c: Command, e: EntryId) {
    c.Purge? && w.db.pause.None? && e in Purged(w.db, now, c.requests)
  }

  lemma ExecHistory(w: World, now: nat, c: Command, v: VersionId, w': World)
    requires Bookkept(w.db) && w' == Exec(w, now, c)
    requires v in w.db.versions && w.db.versions[v].expiresAt > now
    ensures if v in w'.db.versions then w'.db.versions[v] == w.db.versions[v]
            else Purges(w, now, c, w.db.versions[v].entryId)
  {
    if c.Purge? {
      PurgeCommandExactly(w, now, c.mayCollect, c.requests, c.faults, v, w',
                          PurgeDeletedEntries(w, now, c.mayCollect, c.requests, c.faults).1);
    } else {
      ExecChanges(w, now, c, w');
    }
  }

  /** Event `k` of the run purges the entry, which is deleted at that moment. */
  ghost predicate PurgedAt(w: World, evs: seq<Event>, k: nat, e: EntryId)
    requires k < |evs|
  {
    Purges(Run(w, evs[..k]), TimeOf(Run(w, evs[..k]), evs[k]), evs[k].command, e)
  }

  lemma NextHistory(w: World, evs: seq<Event>, n: nat, v: VersionId)
    requires Inv(w) && n < |evs| && v in Run(w, evs[..n]).db.versions
    requires Run(w, evs[..n]).db.versions[v].expiresAt > Run(w, evs[..n + 1]).clock
    ensures var before, after := Run(w, evs[..n]), Run(w, evs[..n + 1]);
            if v in after.db.versions then after.db.versions[v] == before.db.versions[v]
            else PurgedAt(w, evs, n, before.db.versions[v].entryId)
  {
    RunInv(w, evs[..n]);
    assert evs[..n + 1][..n] == evs[..n];
    var before := Run(w, evs[..n]);
    StepInv(before, evs[n]);
    ExecHistory(before, TimeOf(before, evs[n]), evs[n].command, v, Run(w, evs[..n + 1]));
  }

  lemma ClockAdvances(w: World, evs: seq<Event>, n: nat)
    requires Inv(w) && n < |evs|
    ensures Run(w, evs[..n]).clock <= Run(w, evs[..n + 1]).clock
  {
    RunInv(w, evs[..n]);
    assert evs[..n + 1][..n] == evs[..n];
    StepInv(Run(w, evs[..n]), evs[n]);
  }

  /** Over any run, unexpired history is lost only to an accepted purge of its entry, deleted at that
      moment; otherwise it stays as it was. */
  lemma {:induction false} HistoryLostOnlyToPurge(w: World, evs: seq<Event>, n: nat, v: VersionId)
    requires Inv(w) && n <= |evs| && v in w.db.versions && w.db.versions[v].expiresAt > Run(w, evs[..n]).clock
    ensures var w' := Run(w, evs[..n]);
            || (v in w'.db.versions && w'.db.versions[v] == w.db.versions[v])
            || exists k :: 0 <= k < n && PurgedAt(w, evs, k, w.db.versions[v].entryId)
  {
    if n == 0 {
      assert evs[..0] == [];
    } else {
      ClockAdvances(w, evs, n - 1);
      HistoryLostOnlyToPurge(w, evs, n - 1, v);
      var before := Run(w, evs[..n - 1]);
      if v in before.db.versions && before.db.versions[v] == w.db.versions[v] { NextHistory(w, evs, n - 1, v); }
    }
  }

  /** An entry that is not deleted loses no unexpired history to any command. */
  lemma LiveEntriesKeepHistory(w: World, now: nat, c: Command, v: VersionId, w': World)
    requires Bookkept(w.db) && w' == Exec(w, now, c)
    requires v in w.db.versions && w.db.versions[v].expiresAt > now
    requires var e := w.db.versions[v].entryId; e !in w.db.entries || w.db.entries[e].content.Upsert?
    ensures v in w'.db.versions && w'.db.versions[v] == w.db.versions[v]
  {
    ExecHistory(w, now, c, v, w');
  }
}
