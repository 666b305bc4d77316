/** The vault's world and what each coordinator command does to it, as functions of values.
    The class in Coordinator.dfy runs the same commands step by step and is proved equal. */
module Services {
  import opened Wrappers
  import opened Tables
  import opened Policies
  import opened Ordering
  import opened Sums
  import opened JobTable

  const GC_BATCH_SIZE: nat := 1000
  const MAX_REPAIRABLE: nat := 100
  const SUSPENDED_RETRY_MS: nat := 60 * 60 * 1000
  const FLUSH_DELAY_MS: nat := 10 * 60 * 1000

  /** Tables, stored objects, maintenance jobs, time of the last command, the staging grace period, and
      the health flush the service remembers having scheduled. */
  datatype World = World(
    db: Db, objects: set<BlobId>, jobs: Jobs, clock: nat, grace: nat, flushAt: Option<nat>)

  /** How the object store misbehaves during one command: a bulk call that throws, keys it fails
      to delete, and keys that disappear although their deletion was not confirmed. */
  datatype Faults = Faults(threw: bool, failed: set<BlobId>, gone: set<BlobId>)

  function Confirmed(keys: set<BlobId>, faults: Faults): set<BlobId> {
    if faults.threw then {} else keys - faults.failed
  }

  function ObjectsAfterDelete(objects: set<BlobId>, keys: set<BlobId>, faults: Faults): set<BlobId> {
    objects - Confirmed(keys, faults) - keys * faults.gone
  }

  function Sizes(blobs: Blobs): map<BlobId, nat> {
    map b | b in blobs :: blobs[b].size
  }

  function Unreferenced(db: Db, b: BlobId, now: nat): bool {
    !CurrentRef(db.entries, b) && !Retained(db.versions, b, now)
  }

  // ---- health-service.ts: scheduling only ----

  /** A flush already remembered for no later than ten minutes from now is enough. */
  function ScheduleFlush(w: World, now: nat): World {
    if w.flushAt.Some? && w.flushAt.value <= now + FLUSH_DELAY_MS then w
    else
      w.(jobs := Defer(w.jobs, HealthSummaryFlush, now + FLUSH_DELAY_MS), flushAt := Some(now + FLUSH_DELAY_MS))
  }

  /** What a flush run from the alarm answers: nothing to report, or reported with the next warning
      time, if there is one, or failed. */
  datatype FlushOutcome = NothingToReport | Reported(next: Option<nat>) | ReportFailed

  function AlarmFlush(w: World, now: nat, outcome: FlushOutcome): World {
    var w := w.(clock := now);
    if HealthSummaryFlush !in w.jobs || w.jobs[HealthSummaryFlush].dueAt > now then w
    else
      var retryCount := w.jobs[HealthSummaryFlush].retryCount;
      match outcome
      case NothingToReport => w.(jobs := w.jobs - {HealthSummaryFlush})
      case Reported(next) =>
        if next.None? then w.(jobs := w.jobs - {HealthSummaryFlush}, flushAt := None)
        else
          w.(jobs := Reschedule(Defer(w.jobs, HealthSummaryFlush, next.value), HealthSummaryFlush, next.value),
             flushAt := next)
      case ReportFailed =>
        w.(jobs := RescheduleFailed(w.jobs, HealthSummaryFlush, retryCount, now), flushAt := None)
  }

  // ---- blob-service.ts and blob-record-operations.ts: staging ----

  datatype StageOutcome = StageRefusedPaused | Decided(decision: StageDecision)

  function PauseSync(pause: Option<Pause>, now: nat, reason: string): Option<Pause> {
    if pause.Some? then pause else Some(Pause(now, reason))
  }

  function StageDecisionFor(db: Db, now: nat, b: BlobId, size: nat): StageDecision {
    DecideBlobStage(b, size, now, Get(db.blobs, b),
                    b in db.blobs && Pinned(db.entries, db.versions, b, now),
                    db.used, db.storageLimit, db.maxFileSize)
  }

  function StageBlobRecord(db: Db, now: nat, b: BlobId, size: nat, deleteAfter: nat): Db {
    match StageDecisionFor(db, now, b, size)
    case StagePaused(reason) => db.(pause := PauseSync(db.pause, now, reason))
    case StageAccepted(delta) =>
      db.(blobs := PersistStage(db.blobs, b, size, now, deleteAfter), used := db.used + delta)
    case _ => db
  }

  function StageBlob(w: World, now: nat, b: BlobId, size: nat): (r: (World, StageOutcome)) {
    if w.db.pause.Some? then (w.(clock := now), StageRefusedPaused)
    else
      var decision := StageDecisionFor(w.db, now, b, size);
      var db := StageBlobRecord(w.db, now, b, size, now + w.grace);
      (w.(db := db, clock := now,
          jobs := if decision.StageAccepted? then Defer(w.jobs, BlobGc, now + w.grace) else w.jobs),
       Decided(decision))
  }

  /** Compensation for a failed upload: keeps the row and makes sure a collection is scheduled. */
  function AbortStagedBlob(w: World, now: nat, vaultId: string, b: BlobId): World {
    if vaultId == w.db.vaultId && b in w.db.blobs
       && w.db.blobs[b].state.Staged? && w.db.blobs[b].deleteAfter.Some? then
      var deadline := w.db.blobs[b].deleteAfter.value;
      w.(clock := now, jobs := Defer(w.jobs, BlobGc, if now < deadline then deadline else now))
    else w.(clock := now)
  }

  ghost function DeleteBlobRecord(db: Db, b: BlobId): Db {
    if b in db.blobs then
      db.(blobs := db.blobs - {b}, used := Release(db.used, db.blobs[b].size))
    else db
  }

  /** Explicit deletion: the pin check applies only when a row exists. */
  ghost function DeleteBlob(w: World, now: nat, b: BlobId, faults: Faults): World {
    var w := w.(clock := now);
    if w.db.pause.Some? then w
    else if b in w.db.blobs && Pinned(w.db.entries, w.db.versions, b, now) then w
    else
      var w := w.(objects := ObjectsAfterDelete(w.objects, {b}, faults));
      if Confirmed({b}, faults) == {} || b !in w.db.blobs then w
      else ScheduleFlush(w.(db := DeleteBlobRecord(w.db, b)), now)
  }

  datatype DeleteAnswer = DeleteRefusedPaused | KeptPinned | DeleteFailed | DeleteDone

  /** What the caller is told: the first two touch nothing. */
  ghost function DeleteAnswerOf(w: World, now: nat, b: BlobId, faults: Faults): DeleteAnswer {
    if w.db.pause.Some? then DeleteRefusedPaused
    else if b in w.db.blobs && Pinned(w.db.entries, w.db.versions, b, now) then KeptPinned
    else if Confirmed({b}, faults) == {} then DeleteFailed
    else DeleteDone
  }

  // ---- mutation-service.ts ----

  datatype Mutation = Mutation(
    mutationId: string, entryId: EntryId, content: Content, baseRevision: nat, metadata: string)

  datatype RejectCode =
    | DuplicateMutationId | StaleBase(expected: nat, received: nat) | BlobNotFound | BlobNotStaged

  datatype MutationResult =
    | Accepted(mutationId: string, cursor: nat, entryId: EntryId, revision: nat)
    | Rejected(mutationId: string, entryId: EntryId, code: RejectCode)

  /** Everything a commit reads besides the tables; restores force a version of what they replace. */
  datatype Context = Context(
    now: nat, grace: nat, author: Author, restoring: bool, objects: set<BlobId>)

  function Decide(db: Db, ctx: Context, m: Mutation): MutationDecision {
    DecideEntryMutation(Get(db.entries, m.entryId), m.mutationId, m.baseRevision, m.content,
                        if ctx.restoring then Some(BeforeRestore) else None, ctx.now)
  }

  /** The version that preserves what the mutation is about to replace. */
  function HistoryBefore(db: Db, ctx: Context, m: Mutation, reason: Reason): VersionRow
    requires m.entryId in db.entries
  {
    var current := db.entries[m.entryId];
    VersionRow(m.entryId, current.revision, current.content, current.metadata, reason, None,
               ctx.now, ctx.now + db.retentionDays * DAY_IN_MS, ctx.author)
  }

  /** The sampled version of the content the mutation installs. */
  function AutoVersion(db: Db, ctx: Context, m: Mutation, revision: nat, bucket: Option<nat>): VersionRow {
    VersionRow(m.entryId, revision, m.content, m.metadata, Auto, bucket,
               ctx.now, ctx.now + db.retentionDays * DAY_IN_MS, ctx.author)
  }

  function NewRow(db: Db, ctx: Context, m: Mutation, revision: nat): EntryRow {
    EntryRow(revision, m.content, m.metadata, db.cursor + 1, ctx.now, ctx.author, m.mutationId)
  }

  function MakeLive(blobs: Blobs, content: Content): Blobs {
    if content.Upsert? then UpdateState(blobs, content.blobId, Live, None) else blobs
  }

  /** A pending-delete blob that is wanted again is staged first, then made live with the entry. */
  function Rescue(blobs: Blobs, ctx: Context, content: Content): Blobs {
    if content.Upsert? && content.blobId in blobs && blobs[content.blobId].state.PendingDelete? then
      UpdateState(blobs, content.blobId, Staged, Some(ctx.now + ctx.grace))
    else blobs
  }

  /** Replacing the last current reference starts retirement. */
  function Retire(blobs: Blobs, entries: Entries, replaced: Option<EntryRow>, content: Content, now: nat): Blobs {
    if replaced.Some? && replaced.value.content.Upsert? && replaced.value.content != content
       && !CurrentRef(entries, replaced.value.content.blobId) then
      UpdateState(blobs, replaced.value.content.blobId, PendingDelete, Some(now))
    else blobs
  }

  function ApplyMutation(db: Db, ctx: Context, m: Mutation, d: MutationDecision): Db
    requires d.Apply?
  {
    var replaced := Get(db.entries, m.entryId);
    var capture := d.forcedHistory.Some? && replaced.Some?;
    var versions := if capture
                    then InsertVersion(db.versions, db.nextId, HistoryBefore(db, ctx, m, d.forcedHistory.value))
                    else db.versions;
    var nextId := if capture then db.nextId + 1 else db.nextId;
    var entries := db.entries[m.entryId := NewRow(db, ctx, m, d.revision)];
    db.(entries := entries,
        cursor := db.cursor + 1,
        versions := if d.captureAuto
                    then InsertVersion(versions, nextId, AutoVersion(db, ctx, m, d.revision, d.bucket))
                    else versions,
        nextId := if d.captureAuto then nextId + 1 else nextId,
        blobs := Retire(MakeLive(Rescue(db.blobs, ctx, m.content), m.content), entries, replaced, m.content, ctx.now))
  }

  function Blocked(db: Db, ctx: Context, content: Content): Option<RejectCode> {
    if content.Delete? then None
    else if content.blobId !in ctx.objects then Some(BlobNotFound)
    else if content.blobId !in db.blobs then Some(BlobNotStaged)
    else None
  }

  /** One mutation, already known not to repeat an id of its batch. */
  function CommitOne(db: Db, ctx: Context, m: Mutation): (r: (Db, MutationResult)) {
    match Decide(db, ctx, m)
    case Idempotent =>
      var current := db.entries[m.entryId];
      (db, Accepted(m.mutationId, current.updatedSeq, m.entryId, current.revision))
    case StaleRevision(expected, received) =>
      (db, Rejected(m.mutationId, m.entryId, StaleBase(expected, received)))
    case Apply(revision, _, _, _) =>
      var blocked := Blocked(db, ctx, m.content);
      if blocked.Some? then (db, Rejected(m.mutationId, m.entryId, blocked.value))
      else
        (ApplyMutation(db, ctx, m, Decide(db, ctx, m)),
         Accepted(m.mutationId, db.cursor + 1, m.entryId, revision))
  }

  datatype Batch = Batch(db: Db, results: seq<MutationResult>, seen: set<string>)

  function BatchStep(acc: Batch, ctx: Context, m: Mutation): Batch {
    if m.mutationId in acc.seen then
      acc.(results := acc.results + [Rejected(m.mutationId, m.entryId, DuplicateMutationId)])
    else
      var (db, result) := CommitOne(acc.db, ctx, m);
      Batch(db, acc.results + [result], acc.seen + {m.mutationId})
  }

  function BatchFold(db: Db, ctx: Context, ms: seq<Mutation>): Batch {
    if ms == [] then Batch(db, [], {})
    else BatchStep(BatchFold(db, ctx, ms[..|ms| - 1]), ctx, ms[|ms| - 1])
  }

  /** The largest cursor among accepted results. */
  function HighestCursor(results: seq<MutationResult>): Option<nat> {
    if results == [] then None
    else
      var rest := HighestCursor(results[..|results| - 1]);
      var last := results[|results| - 1];
      if last.Rejected? then rest
      else if rest.Some? && rest.value >= last.cursor then rest
      else Some(last.cursor)
  }

  datatype CommitOutcome =
    | CommitRefusedPaused
    | VaultMismatch
    | Committed(results: seq<MutationResult>, cursor: nat, broadcast: Option<nat>)

  datatype Session = Session(vaultId: string, author: Author)

  /** One transaction: on a vault mismatch nothing is kept. The cursor is read, and the vault
      checked, by the first applied mutation, or at the end when nothing was accepted. */
  function CommitDb(db: Db, session: Session, ctx: Context, ms: seq<Mutation>): (r: (Db, CommitOutcome)) {
    if db.pause.Some? then (db, CommitRefusedPaused)
    else
      var acc := BatchFold(db, ctx, ms);
      var highest := HighestCursor(acc.results);
      if session.vaultId != db.vaultId && (acc.db.cursor != db.cursor || highest.None?) then (db, VaultMismatch)
      else
        (acc.db,
         Committed(acc.results, if highest.Some? then highest.value else db.cursor,
                   if acc.db.cursor != db.cursor then Some(acc.db.cursor) else None))
  }

  function ContextOf(w: World, now: nat, session: Session, restoring: bool): Context {
    Context(now, w.grace, session.author, restoring, w.objects)
  }

  function CommitMutations(
      w: World, now: nat, session: Session, restoring: bool, ms: seq<Mutation>): (r: (World, CommitOutcome))
  {
    var (db, outcome) := CommitDb(w.db, session, ContextOf(w, now, session, restoring), ms);
    var w' := w.(db := db, clock := now);
    (if outcome.Committed? && outcome.broadcast.Some? then ScheduleFlush(ScheduleNext(w', now), now) else w', outcome)
  }

  // ---- blob-gc-service.ts ----

  /** The deadlines of collectable rows and of retained history; only the least is fetched. */
  function ReadGcDeadlines(db: Db, now: nat): set<nat> {
    (set b | b in db.blobs && db.blobs[b].deleteAfter.Some?
             && ((db.blobs[b].state.Staged? && (db.blobs[b].deleteAfter.value > now || Unreferenced(db, b, now)))
                 || (db.blobs[b].state.PendingDelete? && Unreferenced(db, b, now)))
       :: db.blobs[b].deleteAfter.value)
    + (set v | v in db.versions :: db.versions[v].expiresAt)
  }

  function ReadNextGcAt(db: Db, now: nat): Option<nat> {
    EarliestGcDeadline(ReadGcDeadlines(db, now), now)
  }

  function ScheduleNext(w: World, now: nat): World {
    var next := ReadNextGcAt(w.db, now);
    if next.None? then w else w.(jobs := Defer(w.jobs, BlobGc, next.value))
  }

  function CollectibleIds(db: Db, now: nat): set<BlobId> {
    set b | b in db.blobs && SqlCollectible(db, b, now)
  }

  function DeadlineRank(blobs: Blobs): map<BlobId, int> {
    map b | b in blobs :: if blobs[b].deleteAfter.Some? then blobs[b].deleteAfter.value else 0
  }

  function ListCollectible(db: Db, now: nat, limit: nat): seq<BlobId> {
    Select(CollectibleIds(db, now), DeadlineRank(db.blobs), limit)
  }

  /** `DELETE ... WHERE blob_id IN (ids) AND collectible(now)`, with the counter following what was deleted. */
  ghost function DeleteCollectibleRows(db: Db, ids: set<BlobId>, now: nat): Db {
    var doomed := set b | b in ids && SqlCollectible(db, b, now);
    db.(blobs := db.blobs - doomed,
        used := Release(db.used, Total(Sizes(Restrict(db.blobs, doomed)))))
  }

  /** Objects first, then the rows of the objects the store confirmed. */
  ghost function Collect(
      db: Db, objects: set<BlobId>, keys: set<BlobId>, faults: Faults, now: nat): (r: (Db, set<BlobId>))
  {
    (DeleteCollectibleRows(db, Confirmed(keys, faults), now), ObjectsAfterDelete(objects, keys, faults))
  }

  function Expire(db: Db, now: nat): Db {
    db.(versions := ExpireVersions(db.versions, now))
  }

  function GcKeys(db: Db, now: nat): set<BlobId> {
    set b | b in ListCollectible(db, now, GC_BATCH_SIZE)
  }

  datatype GcOutcome = GcSuspended(retryAt: nat) | GcFailed | GcDone(nextGcAt: Option<nat>)

  /** What `runGc` itself does to the job table, depending on how it was called. */
  function JobsAfterGc(jobs: Jobs, outcome: GcOutcome, scheduleNextGc: bool): Jobs {
    match outcome
    case GcSuspended(retryAt) => Defer(jobs, BlobGc, retryAt)
    case GcFailed => jobs
    case GcDone(next) => if scheduleNextGc && next.Some? then Defer(jobs, BlobGc, next.value) else jobs
  }

  /** One collection, before its own job is rescheduled; a completed one asks for a health flush now. */
  ghost function RunGc(w: World, now: nat, mayCollect: bool, faults: Faults): (r: (World, GcOutcome)) {
    var w := w.(clock := now);
    if !mayCollect then (w, GcSuspended(now + SUSPENDED_RETRY_MS))
    else
      var expired := Expire(w.db, now);
      var keys := GcKeys(expired, now);
      var (db, objects) := Collect(expired, w.objects, keys, faults, now);
      var w := w.(db := db, objects := objects);
      if keys != {} && Confirmed(keys, faults) != keys then (w, GcFailed)
      else (w.(jobs := Defer(w.jobs, HealthSummaryFlush, now)), GcDone(ReadNextGcAt(db, now)))
  }

  /** A collection run from the maintenance alarm: its result moves or removes the job. */
  ghost function AlarmGc(w: World, now: nat, mayCollect: bool, faults: Faults): World {
    if BlobGc !in w.jobs || w.jobs[BlobGc].dueAt > now then w.(clock := now)
    else
      var (w', outcome) := RunGc(w, now, mayCollect, faults);
      match outcome
      case GcSuspended(retryAt) => w'.(jobs := Reschedule(Defer(w'.jobs, BlobGc, retryAt), BlobGc, retryAt))
      case GcFailed => w'.(jobs := RescheduleFailed(w'.jobs, BlobGc, w.jobs[BlobGc].retryCount, now))
      case GcDone(next) =>
        if next.None? then w'.(jobs := w'.jobs - {BlobGc})
        else w'.(jobs := Reschedule(w'.jobs, BlobGc, next.value))
  }

  /** A collection requested directly: it only ever brings the job forward. */
  ghost function DirectGc(w: World, now: nat, mayCollect: bool, faults: Faults): World {
    var (w', outcome) := RunGc(w, now, mayCollect, faults);
    match outcome
    case GcSuspended(retryAt) => w'.(jobs := Defer(w'.jobs, BlobGc, retryAt))
    case GcFailed => w'
    case GcDone(next) => if next.None? then w' else w'.(jobs := Defer(w'.jobs, BlobGc, next.value))
  }

  function MarkUnpinned(db: Db, b: BlobId, now: nat): BlobRow
    requires b in db.blobs
  {
    var row := db.blobs[b];
    match DecidePendingDelete(row.state, row.deleteAfter, CurrentRef(db.entries, b),
                              Retained(db.versions, b, now), now)
    case MarkPendingDelete(deleteAfter) => row.(state := PendingDelete, deleteAfter := Some(deleteAfter))
    case Retain => row
  }

  function MarkAll(db: Db, ids: set<BlobId>, now: nat): Db {
    db.(blobs := map b | b in db.blobs :: if b in ids then MarkUnpinned(db, b, now) else db.blobs[b])
  }

  function PurgedKeys(db: Db, ids: set<BlobId>, now: nat): set<BlobId> {
    set b | b in ids && SqlCollectible(db, b, now)
  }

  /** Immediate collection of what a purge released; store failures are swallowed. */
  ghost function CollectPurged(w: World, now: nat, mayCollect: bool, ids: set<BlobId>, faults: Faults): World {
    if !mayCollect || ids == {} then w
    else
      var marked := MarkAll(Expire(w.db, now), ids, now);
      var (db, objects) := Collect(marked, w.objects, PurgedKeys(marked, ids, now), faults, now);
      ScheduleFlush(ScheduleNext(w.(db := db, objects := objects), now), now)
  }

  // ---- entry-service.ts: purge and restore ----

  predicate HasRestorableHistory(db: Db, e: EntryId, now: nat) {
    exists v :: v in db.versions && db.versions[v].entryId == e && db.versions[v].content.Upsert?
             && db.versions[v].capturedAt + db.retentionDays * DAY_IN_MS >= now
  }

  function ListBlobIds(versions: Versions, e: EntryId): set<BlobId> {
    set v | v in versions && versions[v].entryId == e && versions[v].content.Upsert? :: versions[v].content.blobId
  }

  datatype PurgeRequest = PurgeRequest(entryId: EntryId, revision: nat)
  datatype PurgeBatch = PurgeBatch(db: Db, results: seq<PurgeDecision>, candidates: set<BlobId>)

  function PurgeDecisionFor(db: Db, now: nat, r: PurgeRequest): PurgeDecision {
    DecideDeletedEntryPurge(Get(db.entries, r.entryId), r.revision, HasRestorableHistory(db, r.entryId, now))
  }

  function PurgeStep(acc: PurgeBatch, now: nat, r: PurgeRequest): PurgeBatch {
    var decision := PurgeDecisionFor(acc.db, now, r);
    if decision.PurgeAccepted? then
      PurgeBatch(acc.db.(versions := DeleteEntryVersions(acc.db.versions, r.entryId)),
                 acc.results + [decision],
                 acc.candidates + ListBlobIds(acc.db.versions, r.entryId))
    else acc.(results := acc.results + [decision])
  }

  function PurgeFold(db: Db, now: nat, rs: seq<PurgeRequest>): PurgeBatch {
    if rs == [] then PurgeBatch(db, [], {})
    else PurgeStep(PurgeFold(db, now, rs[..|rs| - 1]), now, rs[|rs| - 1])
  }

  /** A paused vault refuses the first entry and the rest with it. */
  ghost function PurgeDeletedEntries(
      w: World, now: nat, mayCollect: bool, rs: seq<PurgeRequest>, faults: Faults): (r: (World, seq<PurgeDecision>))
  {
    var w := w.(clock := now);
    if w.db.pause.Some? && rs != [] then (w, [])
    else
      var acc := PurgeFold(w.db, now, rs);
      (CollectPurged(w.(db := acc.db), now, mayCollect, acc.candidates, faults), acc.results)
  }

  datatype Restore = Restore(entryId: EntryId, versionId: VersionId, baseRevision: nat, content: Content,
      metadata: string)

  datatype RestoreOutcome =
    | RestoreNotFound
    | RestoreStale(expected: nat, received: nat)
    | VersionMismatch
    | RestoreFailed(outcome: CommitOutcome)
    | Restored(fromRevision: nat, cursor: nat, revision: nat)

  /** Why a restore is refused before anything is committed, if it is. */
  function RestoreRefusal(db: Db, now: nat, r: Restore): Option<RestoreOutcome> {
    var current := Get(db.entries, r.entryId);
    var target := Get(db.versions, r.versionId);
    if current.None? then Some(RestoreNotFound)
    else if target.None? || target.value.entryId != r.entryId
            || target.value.capturedAt + db.retentionDays * DAY_IN_MS < now then Some(RestoreNotFound)
    else if current.value.revision != r.baseRevision then Some(RestoreStale(current.value.revision, r.baseRevision))
    else if target.value.content != r.content then Some(VersionMismatch)
    else None
  }

  function RestoreMutation(r: Restore, id: string): Mutation {
    Mutation(id, r.entryId, r.content, r.baseRevision, r.metadata)
  }

  /** `mutationId` is the fresh identifier the service draws for the commit. */
  function RestoreEntryVersion(
      w: World, now: nat, session: Session, r: Restore, mutationId: string): (o: (World, RestoreOutcome))
  {
    var refusal := RestoreRefusal(w.db, now, r);
    if refusal.Some? then (w.(clock := now), refusal.value)
    else
      var (w', outcome) := CommitMutations(w, now, session, true, [RestoreMutation(r, mutationId)]);
      if outcome.Committed? && |outcome.results| == 1 && outcome.results[0].Accepted? then
        (w', Restored(w.db.versions[r.versionId].sourceRevision, outcome.results[0].cursor,
            outcome.results[0].revision))
      else (w', RestoreFailed(outcome))
  }

  /** A restore of a batch with the fresh identifier the service draws for its mutation. */
  datatype DrawnRestore = DrawnRestore(restore: Restore, mutationId: string)

  /** What becomes of one restore of a batch. */
  datatype RestoreItem =
    | ItemRefused(outcome: RestoreOutcome)
    | ItemPending
    | ItemRestored(fromRevision: nat, cursor: nat, revision: nat)
    | ItemRejected(code: RejectCode)

  /** The restores that passed their checks become one batch of mutations; `indexes` remembers whose
      they are and `sources` the revisions they go back to. */
  datatype RestorePlan = RestorePlan(
    items: seq<RestoreItem>, indexes: seq<nat>, sources: seq<nat>, mutations: seq<Mutation>)

  function PlanRestores(db: Db, now: nat, rs: seq<DrawnRestore>): (p: RestorePlan)
    ensures |p.items| == |rs| && |p.indexes| == |p.sources| == |p.mutations| <= |rs|
  {
    if rs == [] then RestorePlan([], [], [], [])
    else
      var n := |rs| - 1;
      var p := PlanRestores(db, now, rs[..n]);
      var refusal := RestoreRefusal(db, now, rs[n].restore);
      if refusal.Some? then p.(items := p.items + [ItemRefused(refusal.value)])
      else
        RestorePlan(p.items + [ItemPending], p.indexes + [n],
                    p.sources + [db.versions[rs[n].restore.versionId].sourceRevision],
                    p.mutations + [RestoreMutation(rs[n].restore, rs[n].mutationId)])
  }

  function ItemOf(result: MutationResult, fromRevision: nat): RestoreItem {
    if result.Accepted? then ItemRestored(fromRevision, result.cursor, result.revision) else ItemRejected(result.code)
  }

  /** Writes each commit result over the item it belongs to. */
  function MergeResults(items: seq<RestoreItem>, p: RestorePlan, results: seq<MutationResult>): (r: seq<RestoreItem>)
    requires |results| <= |p.indexes| == |p.sources|
    ensures |r| == |items|
  {
    if results == [] then items
    else
      var n := |results| - 1;
      var merged := MergeResults(items, p, results[..n]);
      if p.indexes[n] < |merged| then merged[p.indexes[n] := ItemOf(results[n], p.sources[n])] else merged
  }

  datatype RestoreBatchOutcome =
    | NothingToRestore(items: seq<RestoreItem>, cursor: nat)
    | BatchFailed(outcome: CommitOutcome)
    | BatchRestored(items: seq<RestoreItem>, cursor: nat, broadcast: Option<nat>)

  function RestoreEntryVersions(
      w: World, now: nat, session: Session, rs: seq<DrawnRestore>): (o: (World, RestoreBatchOutcome))
  {
    var p := PlanRestores(w.db, now, rs);
    if p.mutations == [] then (w.(clock := now), NothingToRestore(p.items, w.db.cursor))
    else
      var (w', outcome) := CommitMutations(w, now, session, true, p.mutations);
      if outcome.Committed? && |outcome.results| <= |p.indexes| then
        (w', BatchRestored(MergeResults(p.items, p, outcome.results), outcome.cursor, outcome.broadcast))
      else (w', BatchFailed(outcome))
  }

  // ---- vault-service.ts ----

  datatype PauseOutcome = RepairRequired | PauseState(pause: Option<Pause>)

  function SetSyncPause(w: World, now: nat, reason: Option<string>): (r: (World, PauseOutcome)) {
    var w := w.(clock := now);
    if w.db.pause.Some? && !(MANUAL_SYNC_PAUSE_PREFIX <= w.db.pause.value.reason) then (w, RepairRequired)
    else
      var pause := if reason.None? then None
                   else PauseSync(w.db.pause, now, MANUAL_SYNC_PAUSE_PREFIX + reason.value);
      (w.(db := w.db.(pause := pause)), PauseState(pause))
  }

  function ApplyVaultPolicy(w: World, now: nat, storageLimit: nat, maxFileSize: nat, retentionDays: nat): World {
    ScheduleFlush(
      w.(clock := now,
         db := w.db.(storageLimit := storageLimit, maxFileSize := maxFileSize, retentionDays := retentionDays)), now)
  }

  datatype RepairIssue = UnsupportedPauseReason | ReferencedStagedBlob | BlobStorageDeleteFailed | RepairLimitExceeded
  datatype RepairResult =
    | ManualRepairRequired(
        pause: Option<Pause>, deleted: nat, remaining: nat, nextGcAt: Option<nat>, issue: RepairIssue)
    | RepairedOk(deleted: nat, nextGcAt: Option<nat>)
    | NotPaused(nextGcAt: Option<nat>)

  function StaleIds(blobs: Blobs, now: nat): set<BlobId> {
    set b | b in blobs && blobs[b].state.Staged? && blobs[b].createdAt + STAGED_BLOB_STALE_MS <= now
  }

  function CreationRank(blobs: Blobs): map<BlobId, int> {
    map b | b in blobs :: blobs[b].createdAt
  }

  function ListStaleStaged(blobs: Blobs, now: nat): seq<BlobId> {
    Select(StaleIds(blobs, now), CreationRank(blobs), MAX_REPAIRABLE + 1)
  }

  datatype RepairState = RepairState(db: Db, objects: set<BlobId>, deleted: nat, issue: Option<RepairIssue>)

  /** Drops the staged row first, then the object; `faults` decides the store's answer per blob. */
  ghost function RepairStep(s: RepairState, now: nat, b: BlobId, faults: Faults): RepairState {
    if b in s.db.blobs && (!s.db.blobs[b].state.Staged? || Pinned(s.db.entries, s.db.versions, b, now)) then
      s.(issue := Some(ReferencedStagedBlob))
    else
      var missing := b !in s.db.blobs;
      var s' := s.(db := DeleteBlobRecord(s.db, b), objects := ObjectsAfterDelete(s.objects, {b}, faults));
      if Confirmed({b}, faults) == {} then s'.(issue := Some(BlobStorageDeleteFailed))
      else s'.(deleted := if missing then s.deleted else s.deleted + 1)
  }

  ghost function RepairFold(s: RepairState, now: nat, ids: seq<BlobId>, faults: Faults): RepairState {
    if ids == [] then s
    else RepairStep(RepairFold(s, now, ids[..|ids| - 1], faults), now, ids[|ids| - 1], faults)
  }

  ghost function RepairSyncState(w: World, now: nat, faults: Faults): (r: (World, RepairResult)) {
    var w := w.(clock := now);
    var stale := ListStaleStaged(w.db.blobs, now);
    if w.db.pause.Some? && !(STALE_STAGED_BLOB_PAUSE_PREFIX <= w.db.pause.value.reason) then
      (w, ManualRepairRequired(w.db.pause, 0, |stale|, None, UnsupportedPauseReason))
    else if |stale| > MAX_REPAIRABLE then (w, ManualRepairRequired(w.db.pause, 0, |stale|, None, RepairLimitExceeded))
    else
      var s := RepairFold(RepairState(w.db, w.objects, 0, None), now, stale, faults);
      var remaining := |ListStaleStaged(s.db.blobs, now)|;
      var nextGcAt := ReadNextGcAt(s.db, now);
      var w' := w.(db := s.db, objects := s.objects, jobs := Defer(w.jobs, BlobGc, now));
      if s.issue.Some? || remaining > 0 then
        (w', ManualRepairRequired(w.db.pause, s.deleted, remaining, nextGcAt,
                                  if s.issue.Some? then s.issue.value else ReferencedStagedBlob))
      else
        (w'.(db := s.db.(pause := None)),
         if w.db.pause.Some? || s.deleted > 0 then RepairedOk(s.deleted, nextGcAt) else NotPaused(nextGcAt))
  }
}
