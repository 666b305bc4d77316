# Synch coordinator: a verified model

Synch stores end-to-end encrypted vaults. One coordinator per vault owns the encrypted entries, their
version history, the rows of the ciphertext blobs with their quota counter, and the change cursor that
devices pull from. Around it sit smaller protocols: scheduling of garbage collection, revocation of
access tokens, the sharing outbox that feeds revocation, enrolment of organization members, and the
per-vault lock. This project models them in Dafny and proves what no single function of the program
checks: that ciphertext in use is never lost, that devices converge, that a deletion can be undone,
that counters add up, that revocation reaches the vault.

`dafny verify dfyconfig.toml` checks everything.

## How the model is laid out

- `Tables`, `Policies`, `JobTable`, `Ordering`, `Sums`: the rows of one vault, the pure decisions of
  the domain layer, the job table, SQL ordering, and sums over tables.
- `Services`: what each coordinator command does, as a function from one world (tables, stored objects,
  jobs, the remembered health flush, clock) to the next. `Coordinator` is the same coordinator as an
  object: its methods write fields one statement at a time, with the program's loops, and each is proved
  equal to its function. `CoordinatorLemmas` holds what the loops need.
- `Lifecycle`, `Accounting`, `Runs`: the invariant (which rows exist in which state and who pins them,
  what the counters mean), kept by every command and so by every run. A run is any sequence of commands
  with a clock that never goes back, and uploads that may arrive between any two commands. The object
  store may throw, refuse keys, or delete keys it did not confirm.
- `Commits`, `Undo`, `Purges`, `BatchRefinement`, `BatchRestore`, `AutoHistory`: what commits, restores and
  purges leave, answer and keep. `DeltaPull`, `Pulls`: what devices learn, and what they can base edits on.
- `Evolution`, `Theorems`, `Effects`, `Upkeep`, `GcSchedule`, `GcWitness`, `Scheduling`: what blobs, counters,
  pauses, repairs, collections and their scheduling come to, over all runs. `Induction` says when a property
  holds along a whole run.
- `GcPhases`, `GcObjects`: the coordinator without its lock. What a command does between two awaits is
  one step, so existence checks, transactions, listings, and the object and row deletions of collections,
  explicit deletions and repairs interleave freely. The first is about rows, the second about objects.
- `Scheduler`, `SyncAccess`, `Outbox`, `VaultLock`, `Enrollment`, `ObjectStorage`: the protocols around the
  coordinator, each with the object that runs it and results over all its runs; those of enrolment are in
  `EnrollmentTheorems`, `Approvals` and `Membership`. `Revocation` runs enrolment, the outbox and the
  coordinator's access records together.

## What the model assumes

- Commands are atomic, which is what the vault lock provides (`src/runtime/node-coordinator.ts:34-43`,
  proved in `VaultLock`); `GcPhases` and `GcObjects` show what holds without it. One command reads the
  clock once.
- A message that reaches a service has passed its schema: an upsert names a blob, a delete names none,
  and identifiers carry no surrounding white space, so trimming them changes nothing.
- Random identifiers are fresh. Version ids come from a supply; mutation and request ids are parameters.
- The object store answers truthfully when it confirms: a key it reports deleted is gone. An existence
  check that throws makes the whole commit throw before anything is written.
- The coordinator's state row exists. Times and sizes are natural numbers, as the program's are in the
  range where its floating-point integers are exact.

## Findings

- The `sync_paused` answer of staging and the `referenced_staged_blob` issue of repair cannot occur in
  a reachable state: only an operator ever pauses a vault. Repair therefore lifts a pause only on
  states that some other writer left behind.
- A batch commit differs from committing one by one exactly when a mutation id repeats.
- The row-level re-check in `deleteCollectibleBlobs` protects rows, not objects: it is the lock that
  protects objects. Without it two things lose an object in use: a deletion that strikes a blob pinned by
  then, and a transaction that pins a blob deleted since its commit was told it exists. Nothing else does.
- An explicit deletion has no such re-check: without the lock, a commit that overtakes it leaves a current
  entry with neither row nor object.
- A removal queues a refresh for vaults marked deleted too, and the refresh of such a vault always throws.
  A row queued then stays until the vault is taken back or erased, and until then no flush that reads
  it reports completion.
- A purge made while sharing is suspended schedules no collection. It is harmless exactly under the
  condition of `SuspendedPurgeCoveredIff`, and `GcWitness.SuspendedPurgeUncovers` reaches a harmful one
  from every vault's first state.
- A collection that goes through puts the health flush back at `now`. A drain therefore follows a
  collection with a flush that was not due, and a flush that failed just before is tried again at once
  rather than after its backoff. `HandlersComeUpAgain` gives the exact condition.

## Model

| member | source | states |
|---|---|---|
| `Theorems.NoDanglingCiphertext` | src/sync-coordinator/application/services/mutation-service.ts:46-231 | after any run of commands and uploads, and at any later moment, every blob a current entry or an unexpired version refers to has both a row and a stored object, through partial and failed bulk deletes and deletions without a row |
| `Theorems.BlobLifecycle` | src/sync-coordinator/application/services/mutation-service.ts:161-231 | in every reachable state a blob is live iff a current entry references it iff its deadline is null, and a staged blob is pinned by no current entry and no unexpired version |
| `Lifecycle.StageNeverPauses` | src/sync-coordinator/domain/blob-policy.ts:48-59 | in a state that keeps the lifecycle invariant, staging never answers `sync_paused` |
| `Theorems.PausesAreManual` | src/sync-coordinator/domain/blob-policy.ts:31-59 | hence in every reachable state a pause is one an operator set |
| `Theorems.RepairOutcome` | src/sync-coordinator/application/services/vault-service.ts:127-224 | on a reachable state repair asks for manual work iff the vault is paused, more than 100 blobs are stale, or the store fails on one; it never reports a referenced staged blob, when it succeeds nothing stale is left, and its `nextGcAt` is the next collection time of the tables it leaves, or null when it stopped before the list |
| `Theorems.CountersAreSums` | src/sync-coordinator/application/services/blob-record-operations.ts:9-104 | in every reachable state used bytes are the sum of the sizes of all blob rows and the cursor is the sum of all entry revisions |
| `Accounting.ReleaseExact` | src/sync-coordinator/adapters/outbound/sqlite/coordinator-state-store.ts:186-194 | what deleted rows held never exceeds the counter, so subtracting it never reaches the clamp at zero |
| `Theorems.UsageNeverRaisedAboveLimit` | src/sync-coordinator/domain/blob-policy.ts:70-104 | no command raises used bytes above a non-zero current limit, also after the limit has been lowered below the usage |
| `Theorems.SequenceNumbersDistinct` | src/sync-coordinator/application/services/mutation-service.ts:187-202 | update sequence numbers are pairwise distinct, at least one, and at most the cursor |
| `Theorems.AppliedOnce` | src/sync-coordinator/domain/entry-policy.ts:36-68 | once a mutation has been applied at any position of a batch, no later mutation of that batch for the same entry and the same or an older base revision is applied, and after any further run no batch of such mutations changes anything: replays are harmless and each (entry, base revision) is applied at most once |
| `Theorems.PassedStaysPassed` | src/sync-coordinator/domain/entry-policy.ts:36-68 | a base revision once passed stays passed through every run |
| `Commits.EveryRowWasCommitted` | src/sync-coordinator/application/services/mutation-service.ts:187-201 | in every reachable state each entry's row says what some mutation applied in that run said (content, metadata, id, next revision, author, time, place in the order), and no later command has touched the entry |
| `Commits.LastWriteStands` | src/sync-coordinator/application/services/mutation-service.ts:187-201 | what the last mutation applied to an entry said, at any position of any batch of a commit or restore, stays in its row through every later command until the next that applies a mutation to that entry |
| `Commits.BatchRow` | src/sync-coordinator/application/services/mutation-service.ts:74-231 | of several mutations a batch applies to an entry, the last is what it leaves in the row |
| `Commits.AnswerTells` | src/sync-coordinator/application/services/mutation-service.ts:104-160 | an accepted answer names the revision and place of the row, which is the mutation's; it is given exactly to the mutation the row came from and to one on the current revision whose blob is there; a rejection changes nothing and its code is true |
| `Commits.CommitTells` | src/sync-coordinator/application/services/mutation-service.ts:233-259 | a commit's cursor is the largest of its accepted results, or the current one, and others are told of a cursor exactly if it has advanced |
| `Commits.ForeignCommit` | src/sync-coordinator/application/services/mutation-service.ts:64-68 | a session of another vault writes nothing, and is refused unless something it sent had been committed before |
| `Theorems.CollectionReclaims` | src/sync-coordinator/application/services/blob-gc-service.ts:93-117 | an unobstructed collection removes a page of rows with their objects and leaves a collectible blob only behind a full page of blobs with no later deadlines |
| `Theorems.BacklogCleared` | src/sync-coordinator/application/services/blob-gc-service.ts:93-117 | unobstructed collections at one moment work off the backlog a page of 1000 at a time: after n of them max(0, backlog - 1000 n) collectible blobs are left |
| `Evolution.RunEvolves` | src/sync-coordinator/application/services/mutation-service.ts:74-244 | over any run every entry is untouched or newer than the old cursor, the size recorded for an unchanged entry's blob stays, and unexpired history survives unless its entry is named in a purge |
| `Undo.UndoAlwaysWorks` | src/sync-coordinator/application/services/mutation-service.ts:170-186 | after a delete applied at any position of any batch, whatever the rest of the batch and later commits, stages, collections, restores and repairs do, restoring the `before_delete` version at the current revision is accepted at every time before delete time plus retention, with the vault unpaused, the entry not purged and retention not lowered, and it brings back content and metadata |
| `Undo.ReplacedCanBeRestored` | src/sync-coordinator/application/services/mutation-service.ts:170-186 | the same for everything a delete or a restore replaces, at any position of any batch, single and batch restores alike: the version left behind holds content, metadata and revision of the replaced row and can be restored throughout its window |
| `Undo.RestoreCanBeUndone` | src/sync-coordinator/domain/entry-policy.ts:49-53 | a restore that succeeded can be undone in its turn: what it replaced is kept as `before_restore` history and comes back on request throughout its window |
| `Undo.RestoreAccepted` | src/sync-coordinator/application/services/entry-service.ts:181-271 | a restore of retained history of the current revision passes all its checks and its commit, and its row carries that content, the metadata sent, its id, author and time, at the next revision and the next place |
| `Undo.RestoreRefusedExactly` | src/sync-coordinator/application/services/entry-service.ts:188-224 | a restore is refused for the first of its four reasons that applies, naming both revisions if it is stale, and goes on to the commit if and only if none does |
| `Runs.RunInv` | src/sync-coordinator/application/services/mutation-service.ts:36-263 | every command keeps the whole invariant (lifecycle, stored objects, both counters, distinct sequence numbers, fresh version ids), so every run does, with a clock that never goes back |
| `Effects.StageAcceptedExactly` | src/sync-coordinator/domain/blob-policy.ts:37-105 | on a sound vault a stage is accepted exactly when the file may be that large and either the blob is new and fits the limit, or a row of the same size exists that nothing refers to |
| `Effects.StageAnswers` | src/sync-coordinator/domain/blob-policy.ts:61-104 | any other stage is answered by the first thing in its way, with the size that was recorded |
| `Effects.StagePausesExactly` | src/sync-coordinator/domain/blob-policy.ts:48-59 | also on a broken vault, a stage pauses only over a row that is staged, pinned and an hour old, for a reason repair recognises as its own |
| `Effects.StagedRow` | src/sync-coordinator/application/services/blob-record-operations.ts:17-60 | an accepted stage leaves a staged row whose deadline is the end of the grace period, keeps size and creation time of a row that was there, and touches no other row; a refused one touches none |
| `Effects.DeletedBlob` | src/sync-coordinator/application/services/blob-service.ts:85-114 | an explicit deletion answers with what it did: nothing while paused or for a pinned blob, no row when the store failed, and otherwise blob, row and bytes are gone |
| `Effects.ReplacedBecomesGarbage` | src/sync-coordinator/application/services/mutation-service.ts:220-231 | a replaced blob without another current reference is collectible at every later time exactly while no unexpired version keeps it |
| `Effects.ChangeIsSampled` | src/sync-coordinator/application/services/mutation-service.ts:203-219 | an applied change of an existing entry leaves an automatic version in the five-minute bucket of that moment; if the bucket was empty it is the change, with its content, metadata, revision and author, kept for the retention window |
| `Effects.NewHistory` | src/sync-coordinator/domain/entry-policy.ts:49-66 | no other history comes of a mutation: at most one version, the sample of a change or what a delete or restore replaced, and none for an entry's first mutation |
| `Effects.PurgedBlobsGo` | src/sync-coordinator/application/services/blob-gc-service.ts:131-181 | after an unobstructed immediate collection a released blob's row remains exactly if something pins it or it is a stage still in its grace period, and its object goes with it |
| `Effects.MarkNeverDelays` | src/sync-coordinator/domain/blob-gc-policy.ts:63-82 | marking released blobs puts no deadline off and touches neither staged nor pinned rows |
| `Effects.PurgeCollectsAtOnce` | src/sync-coordinator/application/services/entry-service.ts:501-513 | after a purge that sharing allows and the store does not obstruct, a blob that only purged history kept has lost its row and its object |
| `Effects.OnlyGarbageCollected` | src/sync-coordinator/application/services/blob-gc-service.ts:93-115 | a collection fails iff the store leaves one of its keys unconfirmed, and failed or not every row and object it takes was garbage |
| `Effects.CollectionExpires` | src/sync-coordinator/application/services/blob-gc-service.ts:94 | a collection drops exactly the versions that have expired |
| `Effects.SuspendedCollectsNothing` | src/sync-coordinator/application/services/blob-gc-service.ts:88-92 | under suspension a collection touches neither tables nor objects and asks to come back in an hour |
| `Purges.PurgeExactly` | src/sync-coordinator/application/services/entry-service.ts:430-509 | a purge of any requests removes exactly the versions of the entries that are deleted, at the named revision and have content within retention, hands exactly their blobs on, and writes nothing else |
| `Purges.PurgeAnswers` | src/sync-coordinator/domain/entry-policy.ts:96-117 | each request is accepted iff it is purgeable and none before it purged the entry, and the refusals say what they mean |
| `Purges.PurgeCommandExactly` | src/sync-coordinator/application/services/entry-service.ts:422-523 | the command takes unexpired history exactly of the entries it purges, none on a paused vault, and keeps every other version as it is |
| `Purges.HistoryLostOnlyToPurge` | src/sync-coordinator/application/services/entry-service.ts:488-490 | over any run, unexpired history is lost only to an accepted purge of its entry, which is deleted at that moment at the named revision |
| `Purges.LiveEntriesKeepHistory` | src/sync-coordinator/domain/entry-policy.ts:104-106 | an entry that is not deleted loses no unexpired history to any command |
| `Upkeep.PauseFollowsOperator` | src/sync-coordinator/application/services/vault-service.ts:59-79 | in a reachable state asking for no pause ends it, asking for one starts it at that time for the operator's reason or leaves the one there is, and the answer is the pause there is |
| `Upkeep.OtherPausesKept` | src/sync-coordinator/application/services/vault-service.ts:59-79 | a pause the operator did not set is refused and kept |
| `Upkeep.PausedStandsStill` | src/sync-coordinator/application/services/mutation-service.ts:62 | while a vault is paused no command changes an entry, adds a row or history, or takes unexpired history |
| `Upkeep.PolicyApplied` | src/sync-coordinator/adapters/outbound/sqlite/coordinator-state-store.ts:148-171 | a policy replaces exactly the two limits and the retention window |
| `Upkeep.NextGcExact` | src/sync-coordinator/domain/blob-gc-policy.ts:89-100 | the next collection time is the first moment at which a version expires, a stage leaves its grace period or an unreferenced blob reaches its deadline, or now if that has passed, and there is one iff there is such a moment |
| `Upkeep.RepairReports` | src/sync-coordinator/application/services/vault-service.ts:157-223 | a repair takes exactly the rows staged for an hour, reports how many objects the store let it take, lifts the pause iff the store failed on none, and says `repaired` iff there was a pause or something to take |
| `Upkeep.RepairSchedules` | src/sync-coordinator/application/services/vault-service.ts:198-201 | a repair that got as far as its list asks for a collection at once |
| `Scheduling.StageSchedules` | src/sync-coordinator/application/services/blob-service.ts:65 | an accepted stage brings the collection job to the half hour after its grace period, no earlier, and any other stage leaves it |
| `Scheduling.AbortSchedules` | src/sync-coordinator/application/services/blob-service.ts:78-82 | compensation brings it to the blob's own deadline, or to now if that has passed |
| `Scheduling.CommitSchedules` | src/sync-coordinator/application/services/mutation-service.ts:257-260 | a commit that applied something brings it to the collection its tables call for, no earlier, and any other commit leaves it |
| `Scheduling.AlarmMovesJob` | src/sync-coordinator/adapters/outbound/scheduler/maintenance-scheduler.ts:54-80 | a due collection moves its job by what it came to: an hour on, the backoff with one more retry, the next deadline without retries, or away; a completed one has the health flush due |
| `Scheduling.FlushMovesJob` | src/sync-coordinator/application/services/health-service.ts:43-83 | a due flush moves its job by what it came to: gone, at the next warning without retries, or the backoff with one more retry, and the remembered time follows |
| `Scheduling.CommitRemembers` | src/sync-coordinator/application/services/health-service.ts:33-41 | while the remembered flush is really scheduled, every applied commit has a health flush due within ten minutes |
| `Scheduling.RememberedThroughoutIff` | src/sync-coordinator/application/services/health-service.ts:33-82 | from the first state row on, the remembered flush is really scheduled throughout a run iff no flush of the run finds nothing to report while one is remembered |
| `Scheduling.ForgottenSchedulesNothing` | src/sync-coordinator/application/services/health-service.ts:50-54 | after such a flush further touches schedule nothing |
| `BatchRefinement.BatchRefinesSequence` | src/sync-coordinator/application/services/mutation-service.ts:61-255 | for pairwise distinct mutation ids, on an unpaused vault of the session's own, a batch leaves the same tables and gives the same per-mutation results as committing the mutations one at a time at the same clock value |
| `BatchRefinement.ResultsAgreeIffDistinct` | src/sync-coordinator/application/services/mutation-service.ts:74-86 | the per-mutation results agree with the one-at-a-time results if and only if the mutation ids are pairwise distinct |
| `BatchRestore.BatchRestoreRefinesSequence` | src/sync-coordinator/application/services/entry-service.ts:273-420 | for distinct entries and identifiers, the batch planned for a set of restores leaves the same tables as the steps of RestoreDbIsService one after another, and every step is answered by its refusal or by the result of its mutation in that batch |
| `BatchRestore.CommandRefinesSequence` | src/sync-coordinator/application/services/entry-service.ts:273-420 | the batch restore command, on an unpaused vault of the session's own and for distinct entries and identifiers: its tables are those the service's single restores would leave one after another at the same clock value, and each item says what that single restore answers, none being left open |
| `BatchRestore.RestoreDbIsService` | src/sync-coordinator/application/services/entry-service.ts:181-271 | the step both sequences are made of is the single restore: same tables, and its refusal, its result or its rejection code is the item |
| `BatchRestore.AnswersLineUp` | src/sync-coordinator/application/services/entry-service.ts:278-408 | whatever the batch, each refused restore keeps its own refusal and every other is answered by the commit result of the mutation made for it |
| `BatchRestore.CommandTells` | src/sync-coordinator/application/services/entry-service.ts:343-419 | the batch restore's cursor is its commit's, or the current one if nothing passed, and others are told of a cursor exactly if it has advanced |
| `AutoHistory.AutoHistoryBounded` | src/sync-coordinator/domain/entry-policy.ts:53-67 | while retention never exceeds d days, every entry has at most 288 d + 1 unexpired automatic versions at any time, however many commits occur |
| `CoordinatorLemmas.SqlMatchesPolicy` | src/sync-coordinator/adapters/outbound/sqlite/blob-collectability.ts:15-27 | the SQL condition for collection and the collection policy agree on every row at every time |
| `GcSchedule.GcNeverForgotten` | src/sync-coordinator/adapters/outbound/sqlite/blob-gc-queries.ts:42-76 | in every reachable state, if some blob is collectible at time t in the tables as they stand, a collection job exists and is due before max(t, last command) plus 30 minutes, failed collections included, and plus a further hour where sharing suspended one; the run's purges under suspension must be harmless where they happen, which CoveredThroughoutIff shows is also necessary |
| `GcSchedule.SuspendedPurgeCoveredIff` | src/sync-coordinator/application/services/blob-gc-service.ts:131-138 | a purge of any requests made while sharing is suspended, on a covered unpaused vault, keeps every collectible blob covered iff each retired blob whose history it drops either keeps other history until its first collectible moment, or has a collection due before the new first moment plus the slack |
| `GcSchedule.CoveredThroughoutIff` | src/sync-coordinator/application/services/blob-gc-service.ts:131-138 | along a run, coverage holds after every command iff every purge made under suspension is harmless in the state where it happens |
| `GcWitness.SuspendedPurgeUncovers` | src/sync-coordinator/application/services/blob-gc-service.ts:131-138 | the condition can fail in every vault and for every slack: policy, stage, upload, commit, delete, collection and one suspended purge lead from the first state row to a blob collectible now with no collection due within the slack |
| `GcSchedule.NextGcPrecedes` | src/sync-coordinator/domain/blob-gc-policy.ts:89-100 | the next collection time read now exists and is not after any moment at which something becomes collectible |
| `GcPhases.UnlockedRowsKeptIff` | src/sync-coordinator/application/services/blob-service.ts:93-110 | without the vault lock, in any interleaving of what commands do between two awaits (staging, existence checks, transactions, uploads, listings, object and row deletions of collections, explicit deletions and repairs), every pinned blob has its row throughout iff no explicit deletion drops the row of a blob that has been pinned since the deletion began |
| `GcPhases.InterleavedGcKeepsRows` | src/sync-coordinator/adapters/outbound/sqlite/blob-store.ts:71-85 | in particular collections and repairs never lose the row of a pinned blob, however old their lists and whatever commits were told about objects |
| `GcPhases.UnlockedCountersHold` | src/sync-coordinator/application/services/blob-record-operations.ts:9-104 | no interleaving breaks the byte counter, the cursor as the sum of revisions, or the distinctness of update sequence numbers |
| `GcObjects.LockIsNeeded` | src/runtime/node-coordinator.ts:34-43 | without the vault lock, whatever the grace period and the limits, some interleaving of stage, upload, listing, commit and object deletion leaves a current entry whose object is gone |
| `GcObjects.UnlockedObjectsKeptIff` | src/sync-coordinator/application/services/mutation-service.ts:46-61 | without the lock every pinned blob keeps its object throughout a run iff no object deletion takes, confirmed or not, the object of a blob pinned when it strikes, and no transaction leaves a blob pinned whose object has gone since its commit was told it exists |
| `GcObjects.DisciplineKeepsObjects` | src/sync-coordinator/application/services/mutation-service.ts:46-61 | what the lock provides suffices: no object is lost if no deletion takes what is pinned or what an unfinished commit has found |
| `GcObjects.SparingPinnedIsNotEnough` | src/sync-coordinator/application/services/mutation-service.ts:46-61 | a run in which no deletion ever takes a pinned blob and a current entry still loses its object: the deletion falls between the existence check of a commit and its transaction |
| `GcObjects.DeletionLosesRow` | src/sync-coordinator/application/services/blob-service.ts:93-110 | a run without the lock in which an explicit deletion, overtaken by a commit, takes object and row of a current entry, since it looks at the row only before it awaits the store |
| `DeltaPull.DeltaPullConverges` | src/sync-coordinator/application/services/entry-service.ts:45-94 | from a replica that agrees up to `since`, paging to `target` through `nextAfter`, with any commands between pages, is never rejected, finishes within target - since + 1 pages, and then shows every entry in scope up to `target` as it is in the tables: revision, content, metadata, sequence number and time of its row, and the size of its blob's row |
| `DeltaPull.ReplicaEqualsServer` | src/sync-coordinator/adapters/outbound/sqlite/entry-store.ts:22-101 | a finished unfiltered pull up to the current cursor leaves the replica with exactly the server's entries, each shown field by field as it is in the tables |
| `DeltaPull.PullRefusedExactly` | src/sync-coordinator/application/services/entry-service.ts:534-563 | a page request is refused as ahead of the server or as out of range exactly when it is, and otherwise covers the range asked for, up to the current cursor if no end was named |
| `Pulls.PulledEditApplies` | src/sync-coordinator/domain/entry-policy.ts:36-47 | after a finished pull, an edit based on the revision it delivered is applied on that server, and accepted if its blob is there |
| `Pulls.AnyEditApplies` | src/sync-coordinator/domain/entry-policy.ts:36-47 | after a finished full pull this holds of every entry, new ones included, based on what the device has or on nothing |
| `Pulls.EditAppliesIffUnchanged` | src/sync-coordinator/domain/entry-policy.ts:36-47 | an edit based on a state the server showed at some time is applied, after any further run, iff nothing has changed the entry since: no edit overwrites what its device has not seen |
| `Pulls.PullDeliversCommit` | src/sync-coordinator/application/services/entry-service.ts:83-92 | a pull that follows a commit delivers content, metadata, revision, time and place of its mutation, whatever else happens before and between pages short of another mutation of that entry |
| `Pulls.PagesSendTotal` | src/sync-coordinator/adapters/outbound/sqlite/entry-store.ts:85-102 | the total every page announces is what the pages of the pull send together while the server stands still |
| `Ordering.SelectIsPage` | src/sync-coordinator/adapters/outbound/sqlite/entry-store.ts:59-60 | an ordered, limited query returns distinct matching rows in order, and every matching row left out comes after all returned, which then fill the limit |
| `CoordinatorObject.Coordinator.constructor` | src/sync-coordinator/adapters/outbound/sqlite/coordinator-state-store.ts:35-62 | a vault's first state row: empty tables, no pause, no usage, for any contents of the object store |
| `CoordinatorObject.Coordinator.StageBlobRecord` | src/sync-coordinator/application/services/blob-record-operations.ts:17-60 | the rows, the pause test and the answer of staging are those of the specification whose results StageNeverPauses, CountersAreSums and UsageNeverRaisedAboveLimit are about |
| `CoordinatorObject.Coordinator.StageBlob` | src/sync-coordinator/application/services/blob-service.ts:36-66 | a paused vault refuses; otherwise rows, usage and answer follow the staging decision and an accepted stage schedules a collection after the grace period |
| `CoordinatorObject.Coordinator.AbortStagedBlob` | src/sync-coordinator/application/services/blob-service.ts:69-83 | compensation keeps every row, makes sure a collection is due by the later of now and the stage's deadline, and reports a foreign vault |
| `CoordinatorObject.Coordinator.DeleteBlob` | src/sync-coordinator/application/services/blob-service.ts:85-114 | an explicit deletion is refused while the vault is paused, leaves a pinned blob alone, removes the object, and the row only when the store confirmed; a failed deletion is reported, and a completed one schedules a health flush |
| `CoordinatorObject.Coordinator.WriteMutation` | src/sync-coordinator/application/services/mutation-service.ts:132-231 | one applied mutation: forced history, the entry, the sampled version, and the states of the new and the replaced blob, as the specification says |
| `CoordinatorObject.Coordinator.CommitTransaction` | src/sync-coordinator/application/services/mutation-service.ts:64-255 | the batch loop with its cursors and seen ids equals the fold over the batch, and nothing is kept when the session belongs to another vault |
| `CoordinatorObject.Coordinator.CommitMutations` | src/sync-coordinator/application/services/mutation-service.ts:36-263 | the whole command: availability of every wanted object, the transaction, and a collection and a health flush scheduled when something was applied |
| `CoordinatorObject.Coordinator.ScheduleNext` | src/sync-coordinator/application/services/blob-gc-service.ts:60-73 | defers the collection job to the earliest deadline, never making it later |
| `CoordinatorObject.Coordinator.AccountForDeleted` | src/sync-coordinator/application/services/blob-record-operations.ts:9-15 | the loop over returned rows takes exactly the sum of their sizes off the counter |
| `CoordinatorObject.Coordinator.DeleteCollectibleRecords` | src/sync-coordinator/adapters/outbound/sqlite/blob-store.ts:71-85 | deletes exactly the listed rows that are collectible when deleted, with the counter following |
| `CoordinatorObject.Coordinator.DeleteCollectibleBatch` | src/sync-coordinator/application/services/blob-gc-service.ts:183-218 | objects first, then the rows of exactly the keys the store confirmed; fails iff some key was not confirmed |
| `CoordinatorObject.Coordinator.RunGc` | src/sync-coordinator/application/services/blob-gc-service.ts:79-129 | one collection: suspended, failed or done, with tables, objects and jobs of the specification, the health flush deferred to now when it went through |
| `CoordinatorObject.Coordinator.AlarmGc` | src/sync-coordinator/adapters/outbound/scheduler/maintenance-scheduler.ts:54-80 | a due collection job is run and moved, removed or retried by its outcome, with the health job it defers; a job not due is left alone |
| `CoordinatorObject.Coordinator.MarkPurged` | src/sync-coordinator/application/services/blob-gc-service.ts:143-153 | the loop marks every released blob that is unpinned and keeps exactly those that are then collectible |
| `CoordinatorObject.Coordinator.CollectPurged` | src/sync-coordinator/application/services/blob-gc-service.ts:131-181 | immediate collection of purged blobs: store failures are swallowed, and the next collection and a health flush are scheduled |
| `CoordinatorObject.Coordinator.PurgeDeletedEntries` | src/sync-coordinator/application/services/entry-service.ts:422-523 | the purge loop: each accepted request drops its entry's history, answers line up with requests, and a paused vault refuses |
| `CoordinatorObject.Coordinator.RestoreEntryVersion` | src/sync-coordinator/application/services/entry-service.ts:181-271 | a single restore: four refusals that change nothing, or the commit of one mutation with forced history |
| `CoordinatorObject.Coordinator.RestoreEntryVersions` | src/sync-coordinator/application/services/entry-service.ts:273-420 | the two loops of a batch restore equal the plan, one commit and the merge of its results that AnswersLineUp is about |
| `CoordinatorObject.Coordinator.SetSyncPause` | src/sync-coordinator/application/services/vault-service.ts:59-79 | an operator sets or clears only manual pauses; a repair pause is refused and kept |
| `CoordinatorObject.Coordinator.ApplyVaultPolicy` | src/sync-coordinator/adapters/outbound/sqlite/coordinator-state-store.ts:148-171 | limits and retention are replaced even below current usage, a health flush is scheduled, nothing else changes |
| `CoordinatorObject.Coordinator.ScheduleFlush` | src/sync-coordinator/application/services/health-service.ts:33-41 | a flush is asked for one delay ahead unless the remembered one is at least as early, and the remembered time is updated |
| `CoordinatorObject.Coordinator.AlarmFlush` | src/sync-coordinator/application/services/health-service.ts:43-82 | a due health job is flushed and moved to its next warning time, removed, or retried after its backoff; the remembered time follows, and a job not due is left alone |
| `CoordinatorObject.Coordinator.DeleteUnreferencedStaged` | src/sync-coordinator/application/services/blob-record-operations.ts:62-77 | a missing row is left missing, a pinned or non-staged row is refused, any other row goes with its bytes |
| `CoordinatorObject.Coordinator.RepairSyncState` | src/sync-coordinator/application/services/vault-service.ts:127-224 | the repair loop, its counts, its issue, the pause and next collection time of its answer, and the lifting of the pause are those RepairOutcome is about |
| `CoordinatorObject.Coordinator.Serve` | src/runtime/node-coordinator.ts:34-43 | every command through the object, batch restores and health flushes included, has the effect runs are made of, and keeps the invariant of every run |
| `JobTable.RetryDelayBounds` | src/sync-coordinator/adapters/outbound/scheduler/maintenance-scheduler.ts:241-246 | a failed job waits between 30 seconds and 15 minutes, whatever its retry count |
| `Scheduler.DeferNeverLater` | src/sync-coordinator/adapters/outbound/scheduler/maintenance-scheduler.ts:28-52 | deferring makes no job later, brings the asked one to the asked time or before, and when it writes the table the alarm is the least due time |
| `Scheduler.FailureBacksOff` | src/sync-coordinator/adapters/outbound/scheduler/maintenance-scheduler.ts:206-231 | a job whose handler throws counts one more retry and waits exactly that retry's delay, between 30 seconds and 15 minutes, whatever the handler deferred meanwhile |
| `Scheduler.BackoffDoubles` | src/sync-coordinator/adapters/outbound/scheduler/maintenance-scheduler.ts:241-246 | the first retry waits half a minute and each further one twice as long as the one before, up to a quarter of an hour |
| `Scheduler.SuccessStartsOver` | src/sync-coordinator/adapters/outbound/scheduler/maintenance-scheduler.ts:66-71 | a job that succeeds starts over without retries at the time its handler asked for, or is gone |
| `Scheduler.ArmedAtStart` | src/sync-coordinator/adapters/outbound/scheduler/maintenance-scheduler.ts:95-105 | at start-up the alarm ends up no later than any job, is set only to a due time and is never put off |
| `Scheduler.DrainRunsOnlyDueJobs` | src/sync-coordinator/adapters/outbound/scheduler/maintenance-scheduler.ts:54-80 | every handler run is of a job due by then with no job due earlier, and a drain that stops early leaves nothing due |
| `Scheduler.AlarmAfterDrain` | src/sync-coordinator/adapters/outbound/scheduler/maintenance-scheduler.ts:54-93 | a drain runs at most 16 handlers; afterwards the alarm is the least due time, absent iff the table is empty, and in the future unless all 16 runs were used |
| `Scheduler.EachJobRunsOnce` | src/sync-coordinator/adapters/outbound/scheduler/maintenance-scheduler.ts:58-77 | a drain that stops because nothing is due runs each job due at its start once and no other job, iff no turn puts back a job that has run or was not due |
| `Scheduler.ComesUpAgainIff` | src/sync-coordinator/adapters/outbound/scheduler/maintenance-scheduler.ts:54-80 | for arbitrary handlers: a job that has run comes up again in the drain (it runs, or is still due when the 16 turns are used) iff some turn from its own onward put it back at a due time, by a deferral or by its own answer |
| `Scheduler.RunsAgainIff` | src/sync-coordinator/adapters/outbound/scheduler/maintenance-scheduler.ts:54-80 | in a drain that stops because nothing is due, the same condition decides whether the job runs again |
| `Scheduler.HandlersComeUpAgain` | src/sync-coordinator/application/services/maintenance-service.ts:20-31 | for the program's own handlers: the health flush comes up again iff a collection goes through after it, and a collection iff one from itself on answers with now at an exact half hour |
| `Scheduler.FlushRunsAfterCollection` | src/sync-coordinator/application/services/blob-gc-service.ts:121-124 | an input: a collection alone in the table is followed by a health flush that was not due |
| `Scheduler.FailedFlushRunsAgain` | src/sync-coordinator/application/services/blob-gc-service.ts:121-124 | an input: a health flush that fails before a collection runs a second time in the same drain, without its backoff |
| `Scheduler.NeverStranded` | src/sync-coordinator/adapters/outbound/scheduler/node-maintenance-scheduler.ts:85-131 | over any run of deferrals, firings, callbacks queued behind the lock, drains, callbacks that fail after any part of a drain, and restarts: while a table has jobs, a fired callback is still to run or an alarm is set, no later than each job is due or the last retry asked for |
| `Scheduler.MaintenanceScheduler.Defer` | src/sync-coordinator/adapters/outbound/scheduler/maintenance-scheduler.ts:28-52 | a job already due early enough is left alone; otherwise it is inserted or moved earlier and the alarm re-armed |
| `Scheduler.MaintenanceScheduler.Drain` | src/sync-coordinator/adapters/outbound/scheduler/maintenance-scheduler.ts:54-80 | the bounded loop, with handlers that may defer jobs, equals the recursive drain the scheduler lemmas are about |
| `Scheduler.MaintenanceScheduler.Arm` | src/sync-coordinator/adapters/outbound/scheduler/maintenance-scheduler.ts:95-105 | at start-up a missing or too late alarm is set to the least due time; an earlier one is kept |
| `SyncAccess.SyncAccessService.Require` | src/sync-coordinator/application/services/sync-access-service.ts:40-45 | sync must be allowed; then, through the cache, a token is decided exactly as a direct scan of the unexpired stored records decides it, or the store is reported out of reach |
| `SyncAccess.SyncAccessService.Load` | src/sync-coordinator/application/services/sync-access-service.ts:107-120 | the cache is the stored table, and loading discards exactly what has expired |
| `SyncAccess.SyncAccessService.OpenSocket` | src/sync-coordinator/application/services/sync-access-service.ts:39-45 | a socket is accepted exactly when sync is allowed and the scan of the stored records allows it at that moment |
| `SyncAccess.SyncAccessService.Refresh` | src/sync-coordinator/application/services/sync-access-service.ts:69-105 | one snapshot applied grant by grant, with failure at any write or reload; the cache never outlives a partial write, and success closes exactly the denied sockets |
| `SyncAccess.SyncAccessService.CloseDenied` | src/sync-coordinator/application/services/sync-access-service.ts:137-143 | the loop closes every open socket the records deny and no other |
| `SyncAccess.MinimumNeverFalls` | src/sync-coordinator/application/services/sync-access-service.ts:76-85 | until a user's record expires neither its minimum version nor its expiry falls, over any run of snapshots, half-failed refreshes, renewals and checks |
| `SyncAccess.RevokedUntilExpiry` | src/sync-coordinator/application/services/sync-access-service.ts:69-105 | once a refresh has succeeded, every token older than a granted version is refused at all times before refresh time plus token lifetime, whatever happens later |
| `SyncAccess.SuspensionFollowsSnapshot` | src/sync-coordinator/application/services/sync-access-service.ts:86-95 | after a successful refresh the vault is suspended if and only if the snapshot says so |
| `SyncAccess.CurrentTokensAllowed` | src/sync-coordinator/application/services/sync-access-service.ts:76-95 | a successful refresh of a vault not suspended refuses no token at or above its user's granted version, unless an earlier unexpired record already demanded more |
| `SyncAccess.NoDeniedSocketOpen` | src/sync-coordinator/application/services/sync-access-service.ts:101-143 | whenever the last refresh was a success no open socket is one the records deny, including sockets accepted since |
| `SyncAccess.SocketsExactly` | src/sync-coordinator/application/services/sync-access-service.ts:101-143 | a successful refresh closes exactly the sockets its records deny, a failed one closes none, and a socket is opened exactly if the records allow it |
| `SyncAccess.BlocksEnd` | src/sync-coordinator/application/services/sync-access-service.ts:72-91 | a block lasts no longer than a token can: over any run no record reaches further than a token lifetime ahead, or than the records did to begin with |
| `SyncAccess.OnlyRaisedAreWritten` | src/sync-coordinator/application/services/sync-access-service.ts:76-78 | a refresh writes records for members whose version has been raised and for nobody else |
| `SyncAccess.PruningInvisible` | src/sync-coordinator/application/services/sync-access-service.ts:107-120 | pruning leaves no expired record and changes no decision, then or later |
| `SyncAccess.LegacyTokens` | src/sync-coordinator/application/services/sync-access-service.ts:40-60 | a token without a version is decided as one of the first version |
| `Outbox.DeliveredAtLeastOnce` | src/sharing/application/refresh.ts:8-24 | with any number of overlapping flushers, failures and new changes, whenever a vault that has not been erased has no outbox row its coordinator has applied a snapshot that includes the last queued change |
| `Outbox.SnapshotsNeverGoBack` | src/sync-coordinator/application/services/sync-access-service.ts:69-105 | serialised refreshes never replace a newer applied snapshot by an older one |
| `Outbox.CanDeliverIff` | src/composition/create-coordinator-application.ts:102-109 | in every reachable state deliveries alone can still empty the outbox iff it is empty, or the vault is still there, or a delivery of the row as it is has at least read its snapshot |
| `Outbox.DeletedVaultStuck` | src/sharing/adapters/drizzle-sharing-store.ts:308-311 | an input: a change queued for a vault marked deleted, as a removal queues one for every vault of the organization, is never delivered while the vault stays deleted |
| `Outbox.RowGoneIffDelivered` | src/sharing/adapters/drizzle-sharing-store.ts:316-337 | after a flush a task's row is gone iff its refresh and completion succeeded and nothing queued the vault again meanwhile |
| `Outbox.SharingOutbox.Flush` | src/sharing/application/refresh.ts:8-24 | the loop reports complete iff every task was refreshed and finished, and leaves the rows RowGoneIffDelivered is about |
| `Outbox.SharingOutbox.Finish` | src/sharing/adapters/drizzle-sharing-store.ts:319-328 | deletes a row only while it carries the delivered revision |
| `Revocation.RemovalReachesVault` | src/sharing/adapters/drizzle-sharing-store.ts:295-314 | end to end, with enrolment, flushers and the coordinator's records interleaved: once the outbox row a removal queued is gone, every token issued to the user before the removal is refused for a token lifetime after it, whatever follows short of the erasure of the vault |
| `VaultLock.MutualExclusion` | src/sync-coordinator/adapters/outbound/sqlite/vault-lock.ts:21-41 | in every interleaving of promise steps at most one callback runs per vault |
| `VaultLock.FirstComeFirstServed` | src/sync-coordinator/adapters/outbound/sqlite/vault-lock.ts:21-41 | a callback starts only after every earlier caller of its vault has returned or thrown |
| `VaultLock.TailsAreBusyVaults` | src/sync-coordinator/adapters/outbound/sqlite/vault-lock.ts:30-39 | the map of tails holds a vault iff one of its callers is queued or running |
| `VaultLock.Progress` | src/sync-coordinator/adapters/outbound/sqlite/vault-lock.ts:21-41 | while a caller waits, a callback of its vault is running or a promise step of its vault can be taken: no deadlock |
| `VaultLock.VaultsIndependent` | src/sync-coordinator/adapters/outbound/sqlite/vault-lock.ts:18-42 | what the registry does for one vault is what that vault's own steps do, in any interleaving with the others |
| `VaultLock.VaultLockRegistry.Enter` | src/sync-coordinator/adapters/outbound/sqlite/vault-lock.ts:22-30 | a caller chains behind the vault's tail and becomes it |
| `VaultLock.VaultLockRegistry.Leave` | src/sync-coordinator/adapters/outbound/sqlite/vault-lock.ts:33-40 | the same release and clean-up whether the callback returned or threw |
| `EnrollmentTheorems.VersionsSeparatePeriods` | src/sharing/adapters/drizzle-sharing-store.ts:272-314 | two non-revoked periods of a place with a revocation between them have different versions, strictly rising |
| `Enrollment.RunAdvances` | src/sharing/adapters/drizzle-sharing-store.ts:272-314 | over any run, deletions of vaults included, no place loses its row before its vault is erased, no access version falls, and a version that was revoked is never un-revoked |
| `EnrollmentTheorems.OneOpenRequest` | src/sharing/adapters/drizzle-sharing-store.ts:362-376 | in every reachable state at most one key request per vault and user is open |
| `EnrollmentTheorems.StaleRequestsNeverComplete` | src/sharing/adapters/drizzle-sharing-store.ts:418-477 | a request at a version read before a removal is never completed after it, even when it is inserted later, approved, and the member rejoins |
| `EnrollmentTheorems.RemovalClosesRequests` | src/sharing/adapters/drizzle-sharing-store.ts:306-307 | every request a removal finds stays canceled for as long as its vault has rows |
| `EnrollmentTheorems.ActiveOnlyByApproval` | src/sharing/adapters/drizzle-sharing-store.ts:418-477 | a place becomes active only by creating its vault or by completing an approved request at its current version |
| `Approvals.ActiveWasGranted` | src/sharing/adapters/drizzle-sharing-store.ts:377-477 | in every reachable state an active place was made active by creating its vault as a manager, or by completing a request that, while pending, unexpired and at the place's version, an owner or admin with an active place in the vault had approved, whom it names; and it has been active since |
| `Approvals.ApprovedWasGranted` | src/sharing/adapters/drizzle-sharing-store.ts:377-399 | every approved request was approved by such a manager, whose name and envelope it carries |
| `Approvals.ApproveExactly` | src/sharing/adapters/drizzle-sharing-store.ts:377-399 | an approval takes effect iff the request is pending, unexpired and at its place's version, and the approver is at that moment an owner or admin with an active place in a vault not marked deleted |
| `Approvals.CompleteExactly` | src/sharing/adapters/drizzle-sharing-store.ts:418-477 | a completion takes effect iff the request is approved, unexpired and at its place's version and its user still a member; then the place is active, its wrapper the one sent, and the request keeps no envelope |
| `Membership.PlacesMatch` | src/sharing/adapters/drizzle-sharing-store.ts:272-477 | in every reachable state a place is active iff it has a password wrapper that is not revoked, only members have places that are not revoked, and a request carries an envelope iff it is approved |
| `Membership.RemovalTakesAll` | src/sharing/adapters/drizzle-sharing-store.ts:295-314 | a removal revokes every place once at a new version, revokes every wrapper, closes every request without its envelope and drops the member, and takes nothing from others |
| `Membership.EnrollExactly` | src/sharing/adapters/drizzle-sharing-store.ts:272-284 | only members get places, only in vaults not marked deleted, at the first version or one after the revoked one |
| `Membership.AskExactly` | src/sharing/adapters/drizzle-sharing-store.ts:362-376 | asking closes what was open for the place and opens one pending request that lasts two days |
| `Membership.PruneExactly` | src/sharing/adapters/drizzle-sharing-store.ts:33-43 | pruning closes exactly the open requests whose time is over |
| `Membership.PasswordExactly` | src/vault/adapters/outbound/drizzle-vault-store.ts:403-439 | only an active member of a vault not marked deleted replaces the wrapper, and whatever recovery of the place was open is closed |
| `Membership.RolesExactly` | src/sharing/adapters/drizzle-sharing-store.ts:285-293 | apart from joining and removal only roles that are not the owner's change |
| `Membership.VaultsExactly` | src/vault/adapters/outbound/drizzle-vault-store.ts:269-281 | a vault's mark changes only by creation, deletion, taking back and erasure, and an erased one never comes back |
| `Membership.QueueExactly` | src/sharing/adapters/drizzle-sharing-store.ts:308-311 | the queued rows carry a revision newer than any row had, so that no delivery under way can delete them |
| `EnrollmentTheorems.RemovedTokensRefused` | src/sharing/adapters/drizzle-sharing-store.ts:295-314 | once the coordinator has applied any snapshot read after a removal, every token issued to the user before it is refused until it expires |
| `Enrollment.SharingStore.CompleteKeyRequest` | src/sharing/adapters/drizzle-sharing-store.ts:418-477 | three statements, each re-testing the request after the one before, have all three effects or none, and report which |
| `Enrollment.SharingStore.ApproveKeyRequest` | src/sharing/adapters/drizzle-sharing-store.ts:377-399 | a pending, unexpired request at the current version is approved iff the approver is an active manager of a vault that still exists |
| `Enrollment.SharingStore.RemoveOrganizationMember` | src/sharing/adapters/drizzle-sharing-store.ts:295-314 | one batch revokes every place once with a new version, revokes wrappers, cancels requests, drops the member and queues an outbox row, in every vault of the organization |
| `Enrollment.SharingStore.HardDeleteVault` | src/vault/adapters/outbound/drizzle-vault-store.ts:366-368 | erasing a vault takes its places, requests, wrappers and its outbox row, and nothing else |
| `Enrollment.SharingStore.EnsureVaultEnrollment` | src/sharing/adapters/drizzle-sharing-store.ts:272-284 | a member gets a place at version one, or a revoked place reopened at the next version; nothing else changes |
| `Enrollment.SharingStore.CreateKeyRequest` | src/sharing/adapters/drizzle-sharing-store.ts:362-376 | the open request of the place is closed and the new one inserted, or nothing happens |
| `ObjectStorage.RoundTrip` | src/sync-blob-transfer/adapters/outbound/s3-object-storage.ts:187-203 | every string survives encoding and decoding, both being sequences of whole-string replacements (section 4.6 of XML 1.0) |
| `ObjectStorage.EncodeEscapes` | src/sync-blob-transfer/adapters/outbound/s3-object-storage.ts:187-194 | the five replacements together escape each character on its own, exactly once |
| `ObjectStorage.EncodedHasNoMarkup` | src/sync-blob-transfer/adapters/outbound/s3-object-storage.ts:158-161 | an encoded key contains no angle bracket and no quote |
| `ObjectStorage.OrderMatters` | src/sync-blob-transfer/adapters/outbound/s3-object-storage.ts:196-203 | decoding the ampersand first would turn an encoded entity look-alike into markup |
| `ObjectStorage.DeleteMany` | src/sync-blob-transfer/adapters/outbound/s3-object-storage.ts:78-96 | the chunk loop throws iff the first chunk gets no answer; otherwise every key whose deletion was not confirmed is listed, and every listed key was unconfirmed or reported |

## Left out

- GcSchedule.GcNeverForgotten: takes runs whose purges under suspension are harmless; CoveredThroughoutIff shows that any other purge under suspension ends coverage at once.
- GcPhases.InterleavedGcKeepsRows: leaves out runs with the second half of an explicit deletion, which can take a row in use; UnlockedRowsKeptIff says exactly when.
- Enrollment.RunAdvances: does not model the deletion of a user account or of the organization, whose cascades take places without their vault.
- Revocation.RemovalReachesVault: stops at the erasure of the vault, which takes the outbox row undelivered; the purge that comes before it in the coordinator is not modelled.
- SyncAccess.RevokedUntilExpiry: takes a snapshot with one grant per user, which the primary key of the membership table provides.
- Undo.UndoAlwaysWorks: takes a fresh identifier for the restoring mutation, different from the entry's last one.
- Outbox.DeliveredAtLeastOnce: follows one vault; a flusher working through many is, for each vault, a delivery that starts late.
- VaultLock.VaultLockRegistry.Enter: the awaits of `run` are separate promise steps, so the object has one method for the part before the first await and one for the `finally` block.
- The report a health flush writes and the statuses it is computed from: its outcome is a parameter, while its scheduling, its retries and the remembered flush time are modelled. `lastCommitAt`, `lastGcAt`, storage status notices, presence and broadcasts change none of the modelled state.
- `assertSyncAllowed`: its answer is a parameter of the access check.
- `ensureVaultState` on an existing vault, `purgeVault`, process shutdown and crashes between a transaction and the scheduling that follows it.
- Token signatures and expiry, the size check of `uploadBlob`, key and path encoding of object stores, R2 and disk storage: uploads and their compensation appear as separate steps of a run.
- Listings of deleted entries and of versions: read-only pages of the same kind as the delta pull.
- Sharing: key versions, wrappers that belong to no user, invitations and seat limits, role rules of `changeMember`, audit rows, and the idempotent answers of `startKeyRequest` and `completeKeyRequest` for a request that already exists. A second organization would only repeat the first, since every statement is scoped to the organization of its vault.
- HTTP and socket routes, schemas, error mapping, billing, e-mail, the web client.
