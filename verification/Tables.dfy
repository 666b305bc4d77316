/** The rows one vault's coordinator keeps, and the reference facts read from them. */
module Tables {
  import opened Wrappers

  type BlobId = string
  type EntryId = string
  type VersionId = nat  // drawn from an endless supply of fresh identifiers

  const DAY_IN_MS: nat := 24 * 60 * 60 * 1000

  /** What an upsert or a delete leaves behind: an upsert always names a blob, a delete never. */
  datatype Content = Upsert(blobId: BlobId) | Delete

  datatype BlobState = Staged | Live | PendingDelete

  datatype BlobRow = BlobRow(
    state: BlobState, size: nat, createdAt: nat, uploadedAt: nat, deleteAfter: Option<nat>)

  datatype Author = Author(userId: string, localVaultId: string)

  datatype EntryRow = EntryRow(
    revision: nat, content: Content, metadata: string,
    updatedSeq: nat, updatedAt: nat, author: Author, lastMutationId: string)

  datatype Reason = Auto | BeforeDelete | BeforeRestore | Manual

  datatype VersionRow = VersionRow(
    entryId: EntryId, sourceRevision: nat, content: Content, metadata: string,
    reason: Reason, bucketStart: Option<nat>, capturedAt: nat, expiresAt: nat, author: Author)

  datatype Pause = Pause(pausedAt: nat, reason: string)

  type Entries = map<EntryId, EntryRow>
  type Versions = map<VersionId, VersionRow>
  type Blobs = map<BlobId, BlobRow>

  /** The tables of one vault. `nextId` is the supply behind `crypto.randomUUID()`. */
  datatype Db = Db(
    vaultId: string,
    entries: Entries,
    versions: Versions,
    blobs: Blobs,
    cursor: nat,
    used: nat,
    storageLimit: nat,
    maxFileSize: nat,
    retentionDays: nat,
    pause: Option<Pause>,
    nextId: nat)

  predicate CurrentRef(entries: Entries, b: BlobId) {
    exists e :: e in entries && entries[e].content == Upsert(b)
  }

  predicate Retained(versions: Versions, b: BlobId, now: nat) {
    exists v :: v in versions && versions[v].content == Upsert(b) && versions[v].expiresAt > now
  }

  /** A blob somebody could still ask for: through an entry as it is, or through a version in its window. */
  predicate Pinned(entries: Entries, versions: Versions, b: BlobId, now: nat) {
    CurrentRef(entries, b) || Retained(versions, b, now)
  }

  /** The WHERE clause of collection: `state IN (...) AND delete_after <= now AND unreferenced`,
      where a NULL deadline satisfies no comparison. */
  predicate SqlCollectible(db: Db, b: BlobId, now: nat) {
    && b in db.blobs
    && db.blobs[b].state in {Staged, PendingDelete}
    && db.blobs[b].deleteAfter.Some? && db.blobs[b].deleteAfter.value <= now
    && !CurrentRef(db.entries, b) && !Retained(db.versions, b, now)
  }

  // ---- single-table writes ----

  function UpdateState(blobs: Blobs, b: BlobId, state: BlobState, deleteAfter: Option<nat>): Blobs {
    if b in blobs then blobs[b := blobs[b].(state := state, deleteAfter := deleteAfter)] else blobs
  }

  /** Inserts a staged row, or re-stages the row that is there, keeping its size and creation time. */
  function PersistStage(blobs: Blobs, b: BlobId, size: nat, now: nat, deleteAfter: nat): Blobs {
    if b in blobs then
      blobs[b := blobs[b].(state := Staged, uploadedAt := now, deleteAfter := Some(deleteAfter))]
    else
      blobs[b := BlobRow(Staged, size, now, now, Some(deleteAfter))]
  }

  /** Rows conflict on (entry, reason, bucket); a row without a bucket conflicts with none. */
  predicate BucketTaken(versions: Versions, row: VersionRow) {
    && row.bucketStart.Some?
    && exists v :: v in versions && versions[v].entryId == row.entryId
                && versions[v].reason == row.reason && versions[v].bucketStart == row.bucketStart
  }

  function InsertVersion(versions: Versions, id: VersionId, row: VersionRow): Versions {
    if id in versions || BucketTaken(versions, row) then versions else versions[id := row]
  }

  function ExpireVersions(versions: Versions, now: nat): Versions {
    map v | v in versions && versions[v].expiresAt > now :: versions[v]
  }

  function DeleteEntryVersions(versions: Versions, e: EntryId): Versions {
    map v | v in versions && versions[v].entryId != e :: versions[v]
  }

  function Restrict(blobs: Blobs, ids: set<BlobId>): Blobs {
    map b | b in blobs && b in ids :: blobs[b]
  }

  /** `storageUsedBytes = max(0, used - bytes)`. */
  function Release(used: nat, bytes: nat): nat {
    if used >= bytes then used - bytes else 0
  }
}
