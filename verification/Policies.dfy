/** The coordinator's pure decisions: `domain/entry-policy.ts`, `blob-policy.ts`, `blob-gc-policy.ts`. */
module Policies {
  import opened Wrappers
  import opened Tables
  import opened Ordering

  const AUTO_VERSION_BUCKET_MS: nat := 5 * 60 * 1000
  const STAGED_BLOB_STALE_MS: nat := 60 * 60 * 1000
  const STALE_STAGED_BLOB_PAUSE_PREFIX := "staged blob "
  const MANUAL_SYNC_PAUSE_PREFIX := "manual: "

  // ---- entry-policy.ts ----

  datatype MutationDecision =
    | Idempotent
    | StaleRevision(expected: nat, received: nat)
    | Apply(revision: nat, forcedHistory: Option<Reason>, captureAuto: bool, bucket: Option<nat>)

  function BucketStart(now: nat): nat {
    now / AUTO_VERSION_BUCKET_MS * AUTO_VERSION_BUCKET_MS
  }

  function DecideEntryMutation(
      current: Option<EntryRow>, mutationId: string, baseRevision: nat, content: Content,
      forced: Option<Reason>, now: nat): MutationDecision
  {
    if current.Some? && current.value.lastMutationId == mutationId then Idempotent
    else
      var previous := if current.Some? then current.value.revision else 0;
      if previous != baseRevision then StaleRevision(previous, baseRevision)
      else
        var forcedHistory := if content.Delete? then Some(BeforeDelete) else forced;
        var captureAuto := forcedHistory.None? && baseRevision > 0;
        Apply(previous + 1, forcedHistory, captureAuto,
              if captureAuto then Some(BucketStart(now)) else None)
  }

  datatype PurgeDecision =
    | PurgeNotFound | PurgeNotDeleted | PurgeStale(expectedRevision: nat) | PurgeNoHistory | PurgeAccepted

  function DecideDeletedEntryPurge(
      current: Option<EntryRow>, receivedRevision: nat, hasRestorableHistory: bool): PurgeDecision
  {
    if current.None? then PurgeNotFound
    else if !current.value.content.Delete? then PurgeNotDeleted
    else if current.value.revision != receivedRevision then PurgeStale(current.value.revision)
    else if !hasRestorableHistory then PurgeNoHistory
    else PurgeAccepted
  }

  // ---- blob-policy.ts ----

  datatype StageDecision =
    | StagePaused(reason: string)
    | FileTooLarge
    | BlobAlreadyLive
    | BlobSizeChanged(previous: nat)
    | QuotaExceeded
    | StageAccepted(delta: nat)

  function DecideBlobStage(
      blobId: BlobId, size: nat, now: nat, existing: Option<BlobRow>, isPinned: bool,
      used: nat, storageLimit: nat, maxFileSize: nat): StageDecision
  {
    if isPinned && existing.Some? && existing.value.state.Staged?
       && now as int - existing.value.createdAt >= STAGED_BLOB_STALE_MS then
      StagePaused(STALE_STAGED_BLOB_PAUSE_PREFIX + blobId + " remained staged for at least one hour")
    else if maxFileSize > 0 && size > maxFileSize then FileTooLarge
    else if existing.Some? && isPinned then BlobAlreadyLive
    else if existing.Some? && existing.value.size != size then BlobSizeChanged(existing.value.size)
    else if existing.None? && storageLimit > 0 && used + size > storageLimit then QuotaExceeded
    else StageAccepted(if existing.Some? then 0 else size)
  }

  // ---- blob-gc-policy.ts ----

  datatype CollectionDecision =
    | Collectible
    | RetainedLive | RetainedMissingDeadline | RetainedGracePeriod
    | RetainedCurrentReference | RetainedHistory

  function DecideBlobCollection(
      state: BlobState, deleteAfter: Option<nat>, hasCurrentReference: bool, hasRetainedHistory: bool,
      now: nat): CollectionDecision
  {
    if state.Live? then RetainedLive
    else if deleteAfter.None? then RetainedMissingDeadline
    else if deleteAfter.value > now then RetainedGracePeriod
    else if hasCurrentReference then RetainedCurrentReference
    else if hasRetainedHistory then RetainedHistory
    else Collectible
  }

  datatype PendingDeleteDecision = MarkPendingDelete(deleteAfter: nat) | Retain

  function DecidePendingDelete(
      state: BlobState, deleteAfter: Option<nat>, hasCurrentReference: bool, hasRetainedHistory: bool,
      now: nat): PendingDeleteDecision
  {
    if state.Staged? || hasCurrentReference || hasRetainedHistory then Retain
    else MarkPendingDelete(if deleteAfter.Some? && deleteAfter.value < now then deleteAfter.value else now)
  }

  function EarliestGcDeadline(deadlines: set<nat>, now: nat): Option<nat> {
    if deadlines == {} then None
    else
      var earliest := MinOf(deadlines);
      Some(if earliest <= now then now else earliest)
  }

  /** The policy applied to one row and the facts read beside it. */
  predicate PolicyCollectible(db: Db, b: BlobId, now: nat)
    requires b in db.blobs
  {
    DecideBlobCollection(db.blobs[b].state, db.blobs[b].deleteAfter,
                         CurrentRef(db.entries, b), Retained(db.versions, b, now), now).Collectible?
  }
}
