# Verification of the CDN cache's core

This project models the logic of the CDN cache in Dafny and proves properties of
it that hold for all inputs, all runs and all interleavings.

**Expiration queue.** `CacheExpirationStore` is a write-behind log: submitters
append batches to a bounded channel, one writer commits them in transactions and
syncs later. `CacheExpirationQueue` keeps a binary min-heap of deadlines on top;
a scheduler takes due tasks, workers delete the objects in S3 and report
completion. The imperative pieces are classes (`MinHeap`,
`CacheExpirationStore`, `CacheExpirationQueue`); `WriteBehind` and `StoreClosing`
run the store alone, and `ExpirationSystem` interleaves enqueuers, scheduler,
workers, writer, changing settings, crashes and restarts, each step using the same
specification functions as the class methods. `NoLostTasks`, `WakeUps` and
`Justifications` are its invariants, `ExpirationSafety` states what they mean in
every reachable state, `ErasedRecords` is about records erased too early, and
`Progress` shows that nothing gets stuck.

**Transfer.** `ByteRanges` cuts objects into parts and downloads ranges with
retries; `Transfers` runs the multipart upload; `TransferDedup` is the
reservation protocol that keeps one upload in flight per object.

**Cache identity.** `QueryCodec` parses and canonically encodes query strings,
`CacheIdentity` projects them by a rule, `CachePaths` builds the saved name,
`CacheRules` chooses the rule, and `CacheKeys` puts these together.

**Derived state.** `Settings` relates files, cached settings, S3 clients and load
balancers; `LoadBalance` has the request counters and the weighted choice.

## Assumptions

- What the outside does is a parameter: whether a transaction, a sync, a read or
  a write succeeds, what S3 answers, what each download attempt meets, the random
  draw, the clock. Nothing is assumed about it unless said here.
- A bbolt transaction is atomic, and a crash leaves the database as it was after
  some commit that is no older than the last successful sync. When only the
  process dies, what is found afterwards may still be in the system's cache; after
  a power loss it was read from the disk. A run starts from a database on disk.
- A failed settings write leaves the file as it was; JSON encoding round-trips.
- Handing a transfer to the pool can fail. The pool of the code waits when it is
  full and is never released, so today only an error of the pool itself can make
  it fail; the loop has a branch for that, and the model keeps it.
- An opened download reader yields exactly the bytes of the range it was opened
  for. The code also accepts a plain 200 answer to a ranged request, for which
  this would not hold.
- SHA-256 has no collisions: a fingerprint is represented by the string that is
  hashed. MD5 is a parameter; results about saved names name the two hashes that
  must not collide.
- Strings of URLs are byte strings; the path part of a URL is opaque and the
  whole has no fragment.

## Where the code and its promises differ

- `Close` returning nil does not by itself mean that everything was written.
  `syncDB` clears the error of a failed last flush when an earlier commit is
  still unsynced, and that commit may be made after `Close` was called, from the
  batches still queued (`StoreClosing.CloseCanLoseAnEvent`;
  `StoreClosing.CloseGuaranteeIsExact` gives the exact condition).
- A restarted store is not dirty although what it found may not be on disk, and
  does not sync it until it commits something else
  (`WriteBehind.RecoveredCommitsCanBeLost`, `WriteBehind.SettlesExactly`).
- Completing an old task erases a newer record of the same object
  (`ErasedRecords.NewerRecordCanBeErased`;
  `ErasedRecords.HeapTaskIsRecordlessExactly` says exactly when).
- A request whose path spells out a saved name shares that cached object
  (`CachePaths.LiteralNameCollides`, `CachePaths.SharedNamesExactly`).
- A transfer loop that fails once to hand over to the pool ends, and keeps the
  waiting keys reserved (`TransferDedup.LoopCanEnd`,
  `TransferDedup.FreedUnlessLoopEnded`).
- After a failed download the text of the error follows the bytes already sent
  (`ByteRanges.BodyHasAnnouncedLength`).
- The success count can exceed the total and has no lower bound
  (`LoadBalance.SuccessesCanExceedTotal`, `LoadBalance.ExceedsExactlyWhen`,
  `LoadBalance.FailuresDecrementForever`).

## Model

| member | source | states |
|---|---|---|
| MinHeaps.MinHeap.Push | common/helper/min_heap.go:40-42 | adds the value to the bag of items and keeps the heap order |
| MinHeaps.MinHeap.Pop | common/helper/min_heap.go:45-51 | removes a minimum of the bag and nothing else; reports nothing exactly when the heap is empty |
| MinHeaps.MinHeap.Peek | common/helper/min_heap.go:31-37 | a minimum of the bag, or nothing exactly when it is empty |
| MinHeaps.MinHeap.Up | common/helper/min_heap.go:60-68 | sift-up from a state that is ordered but for one item restores order and conserves the bag |
| MinHeaps.MinHeap.Down | common/helper/min_heap.go:60-68 | sift-down within the first n items restores order there, touches nothing after them and conserves the bag |
| MinHeaps.RootIsLeast | common/helper/min_heap.go:5-6 | for any strict weak order, no item of a heap-ordered sequence is smaller than its root |
| MinHeaps.RisingStep | common/helper/min_heap.go:62-68 | one swap with the parent moves the only order violation to the parent |
| MinHeaps.SinkingStep | common/helper/min_heap.go:62-68 | one swap with the smaller child moves the only order violation to that child |
| ExpirationLog.LatestEventWins | app/application/logic/cache_expiration_store.go:194-224 | what a log of events records under a key is decided by the latest event of that key alone, in both directions |
| ExpirationLog.TaskKeyIdentifies | app/application/logic/cache_expiration_store.go:327-329 | for NUL-free hosts and buckets two tasks share a record exactly when host, bucket and object key are equal |
| ExpirationLog.LastEventOfObjectStands | app/application/logic/cache_expiration_store.go:194-224 | a put stays recorded, and a delete keeps the record away, as long as no later event is for the same object of the same bucket and host |
| ExpirationLog.BothObjectsRecorded | app/application/logic/cache_expiration_store.go:194-224 | saving tasks of two objects leaves both recorded |
| ExpirationLog.DeletesErase | app/application/logic/cache_expiration_store.go:214-217 | a batch of deletes removes exactly the keys of its tasks |
| ExpirationLog.LogSplits | app/application/logic/cache_expiration_store.go:203-222 | applying a log equals applying its batches up to any boundary and then the rest |
| ExpirationStore.CacheExpirationStore.SaveTasks | app/application/logic/cache_expiration_store.go:242-255 | refuses exactly the lists with a task without host, bucket, key or deadline and, when closed, every other non-empty list; otherwise appends one batch of puts in order and changes nothing else |
| ExpirationStore.CacheExpirationStore.DeleteTasks | app/application/logic/cache_expiration_store.go:257-269 | the same for deletes |
| ExpirationStore.CacheExpirationStore.WriteEvents | app/application/logic/cache_expiration_store.go:194-224 | a transaction applies all events in order or changes nothing |
| ExpirationStore.CacheExpirationStore.FlushPending | app/application/logic/cache_expiration_store.go:169-192 | a failed flush keeps the pending events and sets the error; a successful one commits them all, marks the store dirty and clears the error |
| ExpirationStore.CacheExpirationStore.SyncDb | app/application/logic/cache_expiration_store.go:226-240 | nothing when clean; a successful sync makes the committed records durable and clears the error |
| ExpirationStore.CacheExpirationStore.WriterReceive | app/application/logic/cache_expiration_store.go:136-156 | the writer takes the oldest batch and flushes at 1000 pending events |
| ExpirationStore.CacheExpirationStore.WriterTick | app/application/logic/cache_expiration_store.go:157-164 | the ticker flushes, and syncs only when nothing is left pending |
| ExpirationStore.CacheExpirationStore.WriterDrain | app/application/logic/cache_expiration_store.go:136-152 | once the closed channel is empty, the flush loop and the sync equal one flush of what is pending and one sync |
| ExpirationStore.CacheExpirationStore.WriteLoop | app/application/logic/cache_expiration_store.go:128-167 | after close the writer takes the queued batches and ticks in any order, each with its own outcome, and then drains |
| ExpirationStore.CacheExpirationStore.Close | app/application/logic/cache_expiration_store.go:331-350 | closes to submitters, lets the writer finish, and returns nil exactly when neither the writer nor the database reports an error; a second call reports the same and changes nothing |
| ExpirationStore.CacheExpirationStore.TasksSnapshot | app/application/logic/cache_expiration_store.go:283-313 | lists every record exactly once; fails exactly when reading fails or a record is invalid |
| WriteBehind.WriteBehindRefinement | app/application/logic/cache_expiration_store.go:128-240 | over every run with failed transactions, failed syncs, process deaths and power losses: committed records plus pending plus queued events equal all accepted events applied in order; durable and committed records are prefixes of that log; the store is dirty exactly when it committed something since its last sync and since it was opened, so a clean store is on disk exactly when what it was opened with is |
| WriteBehind.StepKeepsInv | app/application/logic/cache_expiration_store.go:128-167 | every step of submitters, writer, close and crash keeps the correspondence of the store with its log |
| WriteBehind.CrashKeepsWholeBatches | app/application/logic/cache_expiration_store.go:194-240 | after a crash the records are a prefix of the accepted batches, no shorter than the synced and no longer than the committed one, and no batch is split; only a power loss settles what is on disk |
| WriteBehind.RecoveredCommitsCanBeLost | app/application/logic/cache_expiration_store.go:84-118 | a run after which a restarted store is not dirty and yet a power loss takes back what it was opened with |
| WriteBehind.PrefixesGrow | app/application/logic/cache_expiration_store.go:128-240 | without a crash the log and its received, committed and synced prefixes only grow |
| WriteBehind.ClosedStoreAcceptsNothing | app/application/logic/cache_expiration_store.go:271-279 | no event is accepted after close |
| WriteBehind.CleanCloseIsDurable | app/application/logic/cache_expiration_store.go:331-350 | over every run: if no commit is unsynced when the drain starts, not even a recovered one, and no error is reported, all accepted events are on disk |
| WriteBehind.WriterCanSettle | app/application/logic/cache_expiration_store.go:128-167 | if anything is left to commit or to sync, or nothing recovered is unsynced, receiving what is queued and one error-free tick put every accepted event on disk |
| WriteBehind.SettlesExactly | app/application/logic/cache_expiration_store.go:226-240 | in every state with that invariant, the writer alone can bring all accepted events to the disk if and only if that is so |
| WriteBehind.RecoveredStaysUnsynced | app/application/logic/cache_expiration_store.go:226-229 | otherwise nothing the writer does syncs what the store was opened with |
| WriteBehind.RecordsStayValid | app/application/logic/cache_expiration_store.go:294-308 | only valid tasks are ever recorded, each under its own key |
| WriteBehind.WriterErrorIsTrue | app/application/logic/cache_expiration_store.go:169-240 | over every run: a failed commit is reported only while its events are pending, a failed sync only while a commit is unsynced, and 1000 events are pending in a running writer only after a failed commit that it still reports |
| WriteBehind.ReceiveCommitsExactly | app/application/logic/cache_expiration_store.go:153-156 | receiving a batch commits exactly when at least 1000 events are pending then and the transaction succeeds |
| WriteBehind.TickSyncsExactly | app/application/logic/cache_expiration_store.go:157-164 | a tick syncs exactly when nothing is left pending, a commit is unsynced and the sync succeeds |
| StoreClosing.CloseGuaranteeIsExact | app/application/logic/cache_expiration_store.go:136-164 | in every reachable state, and for every order of queued batches, ticks, failures and successes until the writer ends: a nil result means that everything is on disk if and only if, at every batch boundary where a commit has been or can be made, the later events change nothing, and an idle clean store is on disk |
| StoreClosing.CloseCanLoseAnEvent | app/application/logic/cache_expiration_store.go:136-164 | a run that starts closing with nothing dirty or pending, ends without an error and has lost an accepted event |
| StoreClosing.ServedIsRun | app/application/logic/cache_expiration_store.go:128-167 | the writer steps of that statement are runs of the store |
| ExpirationQueue.CacheExpirationQueue.constructor | app/application/logic/cache_expiration.go:108-123 | the heap starts as exactly the recovered tasks |
| ExpirationQueue.CacheExpirationQueue.EnqueueMany | app/application/logic/cache_expiration.go:153-190 | an accepted list is submitted to the store, added to the heap and signalled; a refused or empty one changes nothing |
| ExpirationQueue.CacheExpirationQueue.TakeDue | app/application/logic/cache_expiration.go:269-308 | takes due tasks only, in deadline order, at most the limit, losing and duplicating none, leaving none behind that expires before a taken one, nor a due one unless the limit is reached; an empty result reports the delay to the true next deadline |
| ExpirationQueue.CacheExpirationQueue.PopDue | app/application/logic/cache_expiration.go:273-290 | the pop loop, with the same exactness |
| ExpirationQueue.CacheExpirationQueue.DrainDue | app/application/logic/cache_expiration.go:195-201 | with the clock stopped, the take loop ends after ceil(due / limit) non-empty rounds, having taken every due task once in deadline order throughout |
| ExpirationQueue.TakeRound | app/application/logic/cache_expiration.go:195-201 | two consecutive takes are in deadline order across their boundary |
| ExpirationQueue.RoundsAreCeiling | app/application/logic/cache_expiration.go:195-201 | rounds that are full but for the last are ceil(n / limit) in number |
| ExpirationQueue.CacheTtlNeverOverflows | app/application/logic/cache_expiration.go:471-476 | a time to live is used exactly when it is positive and its nanoseconds fit 64 bits, and is then that many minutes |
| ExpirationQueue.CacheExpirationQueue.ProcessTaskGroup | app/application/logic/cache_expiration.go:312-447 | what a group comes to, and that exactly its completed tasks are submitted for deletion |
| TaskGroups.GroupTasks | app/application/logic/cache_expiration.go:235-243 | one group for each host/bucket key that occurs, holding its tasks in order |
| TaskGroups.GroupsConserve | app/application/logic/cache_expiration.go:239-243 | the groups together are the taken batch as a multiset |
| TaskGroups.GroupShape | app/application/logic/cache_expiration.go:239-243 | a group has exactly the tasks of its key, no more than the batch, and stays in deadline order |
| TaskGroups.GroupHasOneTarget | app/application/logic/cache_expiration.go:236-242 | with NUL-free host names a group has one host and one bucket |
| TaskGroups.GroupedExactlyByTarget | app/application/logic/cache_expiration.go:239-243 | with NUL-free hosts two tasks of a batch are in one group exactly when host and bucket are equal |
| TaskGroups.ProcessGroup | app/application/logic/cache_expiration.go:312-425 | the loops of processTaskGroup compute the specified outcome: early returns, stale tasks, one request, and per-key results |
| TaskGroups.OutcomeConserves | app/application/logic/cache_expiration.go:346-424 | completed and failed tasks are exactly the group, unless it is empty or its host is not configured |
| TaskGroups.CompletedIffStaleOrDeleted | app/application/logic/cache_expiration.go:348-424 | a task is completed if and only if it is stale or was sent and came back without error |
| TaskGroups.RequestIsOnTarget | app/application/logic/cache_expiration.go:345-380 | the request uses the client and bucket recorded in each of its tasks, and its object list is theirs |
| TaskGroups.SentExactlyWhenCurrent | app/application/logic/cache_expiration.go:346-380 | a task is sent exactly when its fingerprint is that of the setting and of the client and its bucket the configured one |
| TaskGroups.CompletedExactlyWhen | app/application/logic/cache_expiration.go:346-424 | a task is completed exactly when it was not to be sent, or S3 answered and did not name its key; it has failed otherwise |
| TaskGroups.CurrentGroupIsSent | app/application/logic/cache_expiration.go:359-380 | a group for the storage in force is sent as a whole, in order, each object by its key and by its version if it has one |
| ExpirationSystem.StepKeepsAccounted | app/application/logic/cache_expiration.go:153-447 | every step of the service keeps each pushed task in exactly one place: heap, dispatch, a worker, abandoned or done |
| ExpirationSafety.NoRecordedTaskIsLost | app/application/logic/cache_expiration.go:108-447 | in every interleaving with crashes: if the latest accepted event of a key puts t, then t is with an enqueuer, in the heap, being dispatched, with a worker, or abandoned after a logged failure |
| ExpirationSafety.NoCachedObjectIsForgotten | app/application/logic/cache_expiration.go:108-447 | the same by objects: if a task was put and no later event is for its object, it is recorded and someone still has it, whatever happens to other objects |
| NoLostTasks.StepKeepsTracked | app/application/logic/cache_expiration.go:153-447 | each step keeps that |
| ExpirationSafety.RestartLoadsExactlyTheRecords | app/application/logic/cache_expiration.go:108-134 | after a crash and restart the heap holds each recovered record once and nothing else, and recovery is a committed state no older than the last successful sync |
| ExpirationSafety.EveryTaskIsAccountedOnce | app/application/logic/cache_expiration.go:195-447 | over every run, pushed tasks equal those in the heap, dispatch, workers, abandoned and done |
| ExpirationSafety.BoundsHold | app/application/logic/cache_expiration.go:21-26 | over every run: four workers, 256 queued batches, takes of at most 1000 tasks, and of exactly 1000 when a due task is left behind |
| Progress.SchedulerCanStep | app/application/logic/cache_expiration.go:195-230 | in every state the scheduler has a step, other than a failed hand-over, exactly when it does not wait for a free worker, the wake channel or its timer; a take always exists |
| Progress.WorkerCanStep | app/application/logic/cache_expiration.go:312-447 | a busy worker has a step exactly when it does not wait to report to a full channel, whatever S3 answers |
| Progress.WriterCanStep | app/application/logic/cache_expiration_store.go:128-167 | in every reachable state the writer has a step until it is done, and a crash can be recovered from |
| ExpirationSafety.NoWakeUpIsLost | app/application/logic/cache_expiration.go:172-230 | over every run: from the moment the scheduler has read the next deadline until it wakes, nothing in the heap precedes that deadline, or the wake channel is full, or an enqueuer is about to signal |
| WakeUps.StepKeepsWakeUp | app/application/logic/cache_expiration.go:185-229 | each step keeps that, for any number of enqueuers |
| WakeUps.SleeperWithDueTaskWakes | app/application/logic/cache_expiration.go:203-229 | a sleeping scheduler with a due task is at most two steps from waking, its timer being late by no more than the time it took to start it |
| WakeUps.TimerIsNotEarly | app/application/logic/cache_expiration.go:303-306 | the timer never fires before the deadline |
| ExpirationSafety.EveryDeletionIsJustified | app/application/logic/cache_expiration.go:235-447 | over every run and any change of settings and clients: each accepted batch of deletions is the report of one job and no job is reported twice; each of its tasks was in that job, was due when the job was taken, and was found stale by the comparison of that job or deleted without error by its request, with the setting and the client of its host that were in force when the job read them, after it was dispatched and before S3 answered |
| ExpirationSafety.EveryRequestIsOnTarget | app/application/logic/cache_expiration.go:345-380 | over every run each request has at most 1000 objects, and the client fingerprint and bucket of each of its tasks |
| Justifications.StepKeepsJustified | app/application/logic/cache_expiration.go:195-447 | each step keeps that correspondence of deletions, jobs and takes |
| ExpirationSafety.StoreStep | app/application/logic/cache_expiration.go:161-447 | every step of the service is a step of the store or leaves it alone |
| ExpirationSafety.RequestReachesUploadTarget | app/application/logic/s3_client.go:85-100 | with NUL-free fields, a request reaches the very storage whose fingerprint the task recorded |
| ErasedRecords.CompletionErasesByKey | app/application/logic/cache_expiration_store.go:327-329 | a completion erases a record exactly when some completed task shares its host, bucket and object key |
| ErasedRecords.CompletionErasesByObject | app/application/logic/cache_expiration_store.go:327-329 | for NUL-free hosts and buckets: exactly when a completed task is for the same object of the same bucket and host |
| ErasedRecords.NewerRecordCanBeErased | app/application/logic/cache_expiration_store.go:327-329 | a run of the whole service, for any storage and any two tasks of one object, after which the newer task is in the heap and has no record |
| ErasedRecords.RecordlessExactlyWhenReported | app/application/logic/cache_expiration_store.go:194-224 | over every run, a key that the log touches is without a record if and only if the last batch touching it is the report of a job, which completed a task of that key; otherwise its record was put by that batch |
| ErasedRecords.HeapTaskIsRecordlessExactly | app/application/logic/cache_expiration.go:153-447 | over every run, a heap task, recovered or saved, is without a record of its object if and only if the last batch touching its key is the report of a job |
| NulKeys.JoinInjective | app/application/logic/cache_expiration_store.go:327-329 | keys joined with NUL are equal exactly when their fields are, if all fields but the last are NUL-free |
| NulKeys.KeyFormat | app/application/logic/cache_expiration_store.go:327-329 | the fields with one zero byte between them |
| NulKeys.JoinAmbiguous | app/application/logic/cache_expiration_store.go:327-329 | without that, for any three fields, a NUL can move from one field to the next |
| StorageTarget.FingerprintIdentifies | app/application/logic/s3_client.go:85-100 | fingerprints are equal exactly when the storage configurations are |
| StorageTarget.FingerprintFormat | app/application/logic/s3_client.go:85-100 | the hashed bytes: endpoint, access key, secret key, bucket and region, each after a zero byte |
| ByteRanges.CalculateChunks | common/helper/function.go:28-42 | consecutive numbered chunks from the first to the last byte, each of the chunk size but for the last |
| ByteRanges.TilingStarts | common/helper/function.go:28-42 | chunk k starts at k times the size; all but the last are exactly that long |
| ByteRanges.TilingCount | common/helper/function.go:28-42 | there are ceil(total / size) chunks |
| ByteRanges.ChunksReassemble | common/helper/function.go:28-42 | the bytes of the chunks in order are the object |
| ByteRanges.DownloadChunk | app/application/logic/storage.go:197-239 | whatever attempts meet, what is appended to the writer is a prefix of the range and all of it on success |
| ByteRanges.DownloadWritesPrefix | app/application/logic/storage.go:197-239 | no byte is skipped or repeated across sub-ranges, retries and mid-copy failures |
| ByteRanges.FetchRangeIsExact | app/application/logic/storage.go:204-233 | one sub-range: at most three attempts; a copy error writes a prefix, a close error or success all of it, a failed open or interruption nothing |
| ByteRanges.FirstOpenDecides | app/application/logic/storage.go:204-233 | what comes of a sub-range is decided by the first of three attempts that opens or is cancelled, for each way it can go on; without one the sub-range fails |
| ByteRanges.FetchRangeSucceedsExactly | app/application/logic/storage.go:204-233 | a sub-range succeeds if and only if one of three attempts opens, copies and closes and those before it fail to open |
| ByteRanges.DownloadSucceedsExactly | app/application/logic/storage.go:197-239 | a download succeeds if and only if each of its sub-ranges does, within three attempts each |
| ByteRanges.RangeCountIsCeiling | app/application/logic/storage.go:198-203 | a range has one sub-range for each 2 MiB + 1 begun |
| ByteRanges.AttemptsAreBounded | app/application/logic/storage.go:198-206 | at most three attempts for each sub-range |
| ByteRanges.FailureIsReal | app/application/logic/storage.go:206-233 | an interruption or a failed chunk is what the last attempts met |
| ByteRanges.FailureStopsBetweenRanges | app/application/logic/storage.go:206-235 | an interrupted or failed download stops after whole sub-ranges |
| ByteRanges.BodyHasAnnouncedLength | app/application/http/controller/file.go:239-267 | for a range within the object: the download writes a prefix of the requested bytes; on success the body is these bytes, as many as announced; after a failure, when the error text is appended, it is them only if the missing bytes are that text |
| Transfers.Transfer | app/application/logic/transfer.go:96-151 | parts in order, then complete with their numbers if every chunk went through, in which case they assemble to the source, or else abort and never complete; it completes when nothing fails |
| Transfers.TransferIsByteExact | app/application/logic/transfer.go:96-142 | the uploaded parts carry the chunks exactly and assemble to the source when all went through, to a prefix of it otherwise; all but the last have 5 MiB |
| Transfers.TransferSucceedsExactly | app/application/logic/transfer.go:96-142 | a transfer is completed if and only if every sub-range of every chunk succeeds and S3 accepts every part |
| Transfers.PartNumbersAreConsecutive | app/application/logic/transfer.go:108-124 | part numbers are 1, 2, ... exactly when an int32 can count the parts |
| TransferDedup.AtMostOneUploadPerKey | app/application/logic/transfer.go:52-63 | in every interleaving at most one transfer of a key is in flight, and a push of it is dropped exactly while there is one |
| TransferDedup.BoundsHold | app/application/logic/transfer.go:24-33 | over every run at most 1000 transfers wait in the channel, 100 run and the loop holds one |
| TransferDedup.StepKeepsOneEach | app/application/logic/transfer.go:52-191 | every step keeps one transfer in flight for each reserved key and none for others |
| TransferDedup.EndedLoopBlocksKeys | app/application/logic/transfer.go:178-191 | after a failed hand-over the loop is gone: waiting keys stay reserved in every later state and their pushes are dropped |
| TransferDedup.FreedUnlessLoopEnded | app/application/logic/transfer.go:52-191 | in every reachable state, some continuation frees a reserved key if and only if the loop has not ended with the key waiting |
| TransferDedup.LoopCanEnd | app/application/logic/transfer.go:178-191 | a run from the start into that situation |
| TransferDedup.SameKeyIsSameObject | app/application/logic/transfer.go:170-176 | with NUL-free host and bucket, one key is one object |
| QueryCodec.UnescapeInvertsEscape | app/application/logic/cache_rule.go:157-175 | unescaping an escaped query component gives it back |
| QueryCodec.EscapeOfOneByte | app/application/logic/cache_rule.go:157-175 | which bytes stay, which become a plus sign, and which a percent sign with two upper-case digits |
| QueryCodec.UnescapeOfOnePiece | app/application/logic/cache_rule.go:157-175 | reading a character, a plus sign, and a percent sign with two digits of either case |
| QueryCodec.UnescapeFails | app/application/logic/cache_rule.go:157-175 | a percent sign without two digits after it is an error |
| QueryCodec.SegmentMeans | app/application/logic/cache_rule.go:157-175 | a segment is a key and a value around the first equals sign, or a key alone; it is dropped when empty, with a semicolon or with an error |
| QueryCodec.SmallerKeyFirst | app/application/logic/cache_rule.go:157-175 | the canonical encoding lists keys in byte order, whatever order the query had |
| QueryCodec.ParseInvertsEncode | app/application/logic/cache_rule.go:157-175 | parsing the canonical encoding of a query gives the query back |
| QueryCodec.EncodeIsInjective | app/application/logic/cache_rule.go:157-175 | canonical encodings are equal exactly when the queries are |
| CacheIdentity.ProjectQuery | app/application/logic/cache_rule.go:151-176 | the loops over the rule keys and query values compute the projection |
| CacheIdentity.KeepListedMeaning | app/application/logic/cache_rule.go:157-164 | keep_specified keeps the first value of each listed key that is present, once per listing |
| CacheIdentity.ProjectionsAgree | app/application/logic/cache_rule.go:151-176 | projections are equal exactly when the queries agree through the rule |
| CacheIdentity.RebuildIsIdempotent | app/application/logic/cache_rule.go:145-179 | rebuilding a rebuilt path changes nothing, for every rule and path |
| CachePaths.ExtSurvives | app/application/logic/cache_rule.go:189-200 | the extension of a saved name is that of the file |
| CachePaths.SavedNamesEqual | app/application/logic/cache_rule.go:181-203 | among requests that keep a query, saved names are equal exactly when file and hash are |
| CachePaths.SavedNameIsInvertible | app/application/logic/cache_rule.go:181-203 | file and hash can be read back from a saved name |
| CachePaths.LiteralNameCollides | app/application/logic/cache_rule.go:181-203 | every hashed name is shared with one request without a query: the one that spells it out |
| CachePaths.CollidesExactlyWhenSpelled | app/application/logic/cache_rule.go:181-203 | a request without a query shares the name of one with a query if and only if its path has a dash before the 32 characters that precede its extension, and reads as that file and hash |
| CachePaths.SharedNamesExactly | app/application/logic/cache_rule.go:181-203 | for any two requests, with or without queries, exactly when they share a saved name |
| CachePaths.CacheKeyIsExact | app/application/logic/cache_rule.go:145-203 | for one path, two requests get the same saved name if and only if their queries agree through the rule and, when nothing of them is kept, both or neither came with a bare question mark; up to a hash collision on the two queries |
| CacheKeys.SharedObjectsExactly | app/application/http/controller/file.go:119-133 | two requests for one path are both cached or both not, and share a cached object if and only if their queries agree through the key rule of the path |
| CacheKeys.IgnoreDropsQuery | app/application/logic/cache_rule.go:153-154 | under "ignore" nothing of the query remains but a bare question mark |
| CacheKeys.KeepKeepsQuery | app/application/logic/cache_rule.go:155-156 | under "keep" file and query stay |
| CacheKeys.KeepSpecifiedKeepsListed | app/application/logic/cache_rule.go:157-164 | under "keep_specified" exactly the listed keys that are present remain, with their first value once per listing |
| CacheKeys.IgnoreSpecifiedDropsListed | app/application/logic/cache_rule.go:165-176 | under "ignore_specified" exactly the keys not listed remain, with all values |
| CacheKeys.OtherTextsLeaveAlone | app/application/logic/cache_rule.go:145-179 | under any other text, and without a chosen rule, a request is left alone |
| CacheKeys.CachedExactlyWhenEnabled | app/application/http/controller/file.go:125-128 | a path is cached exactly when a path rule is chosen that enables caching |
| CacheKeys.NoRuleNoChange | app/application/logic/cache_rule.go:34-75 | a path to which no rule applies is not cached and its requests are not changed |
| CacheKeys.KeyRuleIsLightest | app/application/logic/cache_rule.go:77-143 | on sorted rules that key rule is the one of a lightest rule that applies, else of the last "all" rule; when a rule of unknown type comes before all that apply, the query is left alone |
| CacheRules.MatchRule | app/application/logic/cache_rule.go:77-143 | the matcher computes the specified choice |
| CacheRules.AppliesExactly | app/application/logic/cache_rule.go:82-123 | a suffix, path or dir rule applies exactly when some pattern ends, is or begins the path, both lower-cased if the rule ignores case; other rules never do |
| CacheRules.TrimLeftIsExact | app/application/logic/cache_rule.go:82-82 | all leading slashes are removed and nothing else |
| CacheRules.FirstDecidingRuleWins | app/application/logic/cache_rule.go:34-75 | the first rule that applies or is of unknown type decides; if none does, the last "all" rule or the zero rule |
| CacheRules.LightestApplicableRuleWins | app/application/logic/setting.go:92-101 | on rules sorted by weight, unless matching fails on an unknown type, no applicable rule weighs less than the chosen one; without one the last "all" rule or the zero rule is chosen |
| CacheRules.UnknownTypeFailsExactlyWhenFirst | app/application/logic/cache_rule.go:133-138 | matching fails exactly when a rule of unknown type precedes every applicable one |
| CacheRules.SortedOrderIsUnique | app/application/logic/setting.go:92-101 | with distinct weights the unstable sort has one result |
| Settings.SettingStore.Set | app/application/logic/setting.go:74-132 | the new files, cache, clients and balancers after a set, for a rejected endpoint, a failed write and success |
| Settings.SettingStore.Get | app/application/logic/setting.go:177-206 | the returned setting and the new cache and clients after a get |
| Settings.SettingStore.Load | app/application/logic/setting.go:134-175 | loads a site from its file on a cache miss and builds its client |
| Settings.GetAfterDel | app/application/logic/setting.go:255-261 | a get after a delete returns the empty setting while the client stays; deleting the global group returns inheriting sites to their own storage |
| Settings.SettingsAgreeWithFiles | app/application/logic/setting.go:74-261 | over every run of set, get and delete: a get returns what the files say, storage resolved against the global group, rules sorted, with a client of the same fingerprint; a balancer serves the current endpoints |
| Settings.ClientMatchesAfterGet | app/application/logic/setting.go:186-202 | after a get the client has the fingerprint of the returned storage, and is built from it if fields are NUL-free |
| Settings.GetIsEffective | app/application/logic/setting.go:134-206 | a get returns the effective setting read off the files and leaves cache, clients and balancers in agreement with them |
| Settings.GetAfterSet | app/application/logic/setting.go:74-132 | a get after a set returns the sorted rules, purge method, mode and parent that were set, the source with its endpoints derived and, unless the site inherits, the storage with its normalised endpoint |
| Settings.InheritedStorage | app/application/logic/setting.go:177-206 | over every run an inheriting site gets the connection of the global group, with its own bucket if it names one |
| Settings.InheritingSiteStoresBucketOnly | app/application/logic/setting.go:83-90 | of its own storage an inheriting site keeps the bucket only |
| Settings.BalancerForSeveralEndpoints | app/application/logic/loadbalance.go:19-35 | choosing a backend makes a balancer exactly for a site with several endpoints |
| Settings.OtherSitesUnaffected | app/application/logic/setting.go:74-261 | a set or delete affects another site only through the global group |
| Settings.SplitIsExact | app/application/logic/setting.go:155-158 | the derived endpoints joined by commas are the endpoint text, and none contains a comma |
| LoadBalance.CountersStayBounded | common/helper/loadbalance.go:101-132 | over any requests: total in 0..max+1, successes at most max+1 and at most one above the total |
| LoadBalance.FailuresDecrementForever | common/helper/loadbalance.go:101-109 | n failures bring the successes to -n |
| LoadBalance.SuccessesCanExceedTotal | common/helper/loadbalance.go:111-123 | for every positive limit, limit + 3 successes leave the counters at 2 of 1 |
| LoadBalance.SuccessesExceedTotalAtTheLimitInUse | app/application/logic/loadbalance.go:29 | so for the limit 100000 of every balancer |
| LoadBalance.ExceedsExactlyWhen | common/helper/loadbalance.go:101-132 | after any requests, one more leaves more successes than requests if and only if it succeeds, the successes are not above the limit, and the total falls back to them or they exceeded it by one |
| LoadBalance.ExceedsForPositiveLimits | common/helper/loadbalance.go:101-132 | some requests make the successes exceed the total if and only if the limit is positive |
| LoadBalance.WeightIsBounded | common/helper/loadbalance.go:71-78 | with minimum rate 0.1 every weight is between 1 and 100 |
| LoadBalance.WeightOfCounts | common/helper/loadbalance.go:71-99 | the weight of s successes of t requests: 100 times the square of s / t, within the limits of the minimum rate and of 1 |
| LoadBalance.MoreSuccessesWeighNoLess | common/helper/loadbalance.go:71-99 | of the same number of requests, more successes never weigh less |
| LoadBalance.LoadBalancer.GetBackend | common/helper/loadbalance.go:35-68 | the chosen backend is the only one whose interval contains the scaled draw; the loop falls through exactly when all weights are zero |
| LoadBalance.SomeBackendIsPicked | common/helper/loadbalance.go:56-67 | with minimum rate 0.1 every draw picks a backend, so the fallback is unreachable |
| LoadBalance.DrawsOfBackend | common/helper/loadbalance.go:52-64 | the draws that pick a backend are exactly those between its cumulative weights as fractions of the total |
| LoadBalance.EveryBackendGetsAShare | common/helper/loadbalance.go:39-64 | each of n backends owns at least 1 / (1 + 100 (n - 1)) of the draws |

## Left out

- HTTP, S3, bbolt, JSON, the file system, the worker pool and gin themselves: they appear only through the outcomes listed under Assumptions.
- Logging, the Kubernetes proxy, middleware, the UI, Helm charts and configuration loading: no algorithmic content.
- The unknown-operation branch of `writeEvents` and nil databases: events are only ever built as put or delete, and a store is only built with an open database.
- Context cancellation of the scheduler: it is started with a context that is never cancelled.
- Waiting on a full channel or a busy pool: a step that would wait is not enabled, and the methods that send require room.
- The identity of storage used at upload: the task records the setting captured with the request, while the upload takes the client when it runs, so no property claims that they agree.
- Aliasing of settings: `StorageCacheSetting` holds pointers that callers may share; settings are values here.
- Concurrent readers of settings, which can store old file content after an invalidation: the settings model is sequential. Setting files hold only the "/" entry.
- Endpoint normalisation, lower-casing and URL path parsing: their results are parameters.
- What the HTTP server does with bytes beyond the announced Content-Length: the body is what the controller writes.
- Suffix ranges and range ends beyond the object, where the code does not follow section 14.1.2 of RFC 9110.
- Rounding of floating-point weights and racing updates of the request counters: weights are real numbers and requests are recorded one after another.
- ExpirationQueue.CacheExpirationQueue.EnqueueMany: does not model the points between save, push and signal, which `ExpirationSystem` separates into steps.
