# A model of the relay's delivery core

The relay receives CloudEvents from Tekton, deduplicates them, fans them out to action handlers
and then batches, accumulates, answers 503 or keeps what failed in a dead letter queue (DLQ). This
project models that core in Dafny and proves what it keeps: over every input, every history, and
every interleaving of the parts that are modelled as concurrent steps. `dafny verify dfyconfig.toml`
checks all of it.

| part | files |
|---|---|
| shared run buffer: abstract map, Olric protocol, three backends | `RunStore`, `OlricProtocol`, `RunBuffers` |
| accumulator: LRU buffer, groups, handler, store-backed variant | `Lru`, `LruBuffer`, `GroupMerge`, `GroupHistory`, `SummarySpec`, `Accumulator`, `GroupPosts`, `GroupWinners`, `GroupProtocol`, `Silence`, `AccumulatorRuns`, `StoreAccumulator` |
| batching protocol and handler | `BatchProtocol`, `BatchHandler` |
| dead letter queue: file format, histories, file object | `DlqFormat`, `DlqHistory`, `DlqContents`, `DlqFile` |
| replay: worker pool, overrides | `ReplayPool`, `Override` |
| chain, dispatcher, error classification, delivery over time | `Errors`, `Dispatcher`, `SharedStore`, `Chain`, `Delivery` |
| event model, small state and arithmetic | `Domain`, `MemoryDedupe`, `NotifierDedupe`, `Registry`, `Status`, `Retry`, `Markers`, `Comments` |

## How the model is set up

- Concurrent parts (Olric callers, callers of the grouped accumulator, the batch worker against
  Handle and Close, the replay workers) are step systems: one step for each locked section, channel operation or remote call, in any
  order. Sequential code that changes state is a class whose methods are proved against functions
  on the abstract state.
- An Olric lock is an entry of the same DMap under `"lock:"` + uid, set only if absent and removed
  only by its owner; a lease expires only when its owner has left the section; a failed operation
  has no effect. JSON is a lossless, non-empty, newline-free encoding. LRU caches follow the
  ordinary LRU contract. Time is a supplied number. `path.Match`, dashboard links, handler answers
  and I/O failures are parameters or free choices.
- Floating point error rates are exact reals: with at most 100 outcomes a rate differs from 0.1 by
  nothing or by at least a thousandth, so the comparison comes out the same.

## What the code does not keep

Each of these is a lemma or an if-and-only-if below; the code is followed where it and its comments
disagree.

- Olric run keys and lock keys share one DMap. Adds can be lost exactly when a run in use is named
  `"lock:"` + another run in use (`OlricProtocol.AddsAreSafeIffSeparate`).
- Batch `Handle` can be caught between its check and its send; the handler can then panic after
  Close, and only then (`BatchProtocol.PanicsIffHandleCaught`). The batch that Close flushes itself
  goes to no queue when it fails: the error Close returns is its only trace
  (`BatchProtocol.CloseReports`).
- A DLQ entry larger than the bound reports success, is not stored and empties the queue
  (`DlqHistory.OversizedEventEmptiesQueue`); an entry of 4 MiB or more that fits the bound makes
  the file unreadable for good (`EnqueueLeavesReadableIff`, `UnreadableIsForever`).
- A replay runs the handlers if and only if its event is wanted and the dedupe store fails or does not
  know the ID (`Delivery.ReplayRunsIff`). On a store that neither evicts nor refuses that never
  happens: the event is dropped and its entry removed (`Delivery.ReplayRunsNothing`); the bounded
  memory store forgets an ID exactly after as many distinct other keys as it can hold
  (`Delivery.FansOutIff`). A timestamp override gives all entries of a request one ID, so all but the
  first wanted one are dropped the same way (`Delivery.SharedOverrideDropsTheRest`).
- `applyOverride` is documented to work on a copy. Its copy shares numbers and results with the
  original, which changes exactly when the payload changes a number or result the original has
  (`Override.ApplyOverride`), as by renumbering a pull request (`Override.RenumberingLeaks`). The
  merge also turns numbers into doubles, so one beyond 2^53 changes without being mentioned
  (`Override.LargeNumberLeaks`).
- A group can be flushed early when calls overlap: AddWithGroup, IsGroupComplete and FlushGroup lock
  one after the other, and a flush is early if and only if a run joined between a caller's test and
  its flush and has not ended (`GroupProtocol.EarlyIff`, `GroupProtocol.EarlyFlushHappens`).
- `FlushGroup` does not give the latest event per task: the outcome is independent of the visiting
  order exactly when the winner is the only holder or strictly newer than every member
  (`GroupMerge.OrderIrrelevantIff`); a whole summary is, when the clock moves on, exactly when no two
  runs compete for a task the ending run does not have (`AccumulatorRuns.GroupOrderFreeIff`).
- Decoded TaskRun events carry their own uid. When no run ID is shared by TaskRun and PipelineRun
  events, and none contains a colon, the accumulator never posts, grouped or not
  (`AccumulatorRuns.HandleAll`).
- A successful fallback does not clear its primary's error, so the event is still kept in the DLQ
  (`Dispatcher.Deliver`). Deduplicated handlers that share a name suppress each other
  (`NotifierDedupe.RunsExactlyOnce`).
- Very large backoff settings wrap around: one attempt is exact if and only if its shift fits or
  lands where the cap catches it (`Retry.CappedIsExactIff`), all attempts if and only if the first
  64 are (`Retry.AlwaysExactIff`); `Retry.LargeWaitsCollapse` is an input that is not.
- A large `Retry-After` wraps too (`Retry.RetryAfterIsExactIff`), even to a negative wait
  (`Retry.RetryAfterCanBeNegative`).
- For run IDs with spaces a marked comment can carry another pair's marker: exactly when its own
  marker text does (`Markers.CarriesMarkerIff`, `Markers.SpacesCollide`).

## Model

| member | source | states |
|---|---|---|
| `RunStore.ReplayHoldsLastPerTask` | internal/store/store.go:35-42 | after any history a task is held exactly when an add of it is newer than every flush and every other add of it, and then with that add's event |
| `RunStore.LegalFlushAnswersLastPerTask` | internal/store/store.go:35-42 | in a legal history every flush answers exactly the last event per task added since the previous flush |
| `OlricProtocol.MutualExclusion` | internal/store/olric.go:155-197 | two callers are never inside the locked section of one run |
| `OlricProtocol.StepKeepsInv` | internal/store/olric.go:155-216 | every lock, get, put, delete, unlock, failure and lease expiry step keeps the protocol invariant |
| `OlricProtocol.RunKeepsInv` | internal/store/olric.go:155-216 | so does every interleaving of any number of callers |
| `OlricProtocol.NoAddIsLost` | internal/store/olric.go:155-216 | in every interleaving the completed operations form a legal history and the DMap holds what it leaves, when no run is named like another's lock |
| `OlricProtocol.HistoryIsOfCalls` | internal/store/olric.go:155-216 | in every interleaving that history gains exactly one entry at each commit, that of the call its caller made last, and one at a read that finds nothing to flush; no failing step adds any |
| `OlricProtocol.EveryCallSettles` | internal/store/olric.go:155-197 | no call vanishes: whoever is about to unlock has met an error since making the call, or has it in the history |
| `OlricProtocol.LeaseGoes` | internal/store/olric.go:155-197 | a lease goes away only by its owner unlocking, by expiring, or by a commit on a run of that very name |
| `OlricProtocol.AddIsLost` | internal/store/olric.go:155-216 | a reachable interleaving in which a flush misses a committed add, when one run is named like another's lock |
| `OlricProtocol.AddsAreSafeIffSeparate` | internal/store/olric.go:155-216 | adds can be lost if and only if some run in use is named like the lock of another |
| `RunBuffers.MemoryBuffer.Add` | internal/store/memory.go:85-97 | the whole map is the abstract add, after the least recently used run has gone when there is no room |
| `RunBuffers.MemoryBuffer.Flush` | internal/store/memory.go:99-115 | answers and removes exactly the run, as the abstract flush does |
| `RunBuffers.MemoryBuffer.Expire` | internal/store/memory.go:50-52 | an expired run is gone and nothing else changes |
| `RunBuffers.DecodeFlat` | internal/store/valkey.go:120-130 | the pair-stepping loop gives back the hash, whatever the order of the reply, or fails when a value does not decode |
| `RunBuffers.RunKeyInjective` | internal/store/valkey.go:87-89 | two runs never share a key |
| `RunBuffers.ValkeyBuffer.Add` | internal/store/valkey.go:92-105 | refines the abstract add; a refused transaction changes nothing, a lost reply hides an add that happened |
| `RunBuffers.ValkeyBuffer.Flush` | internal/store/valkey.go:108-131 | refines the abstract flush for every order of the reply; a refused script changes nothing, a lost reply loses the run |
| `RunBuffers.ValkeyBuffer.Delete` | internal/store/valkey.go:98-101 | an expired hash takes its run away and nothing else |
| `RunBuffers.OlricBuffer.Add` | internal/store/olric.go:155-176 | one caller: refines the abstract add; fails without effect exactly when a remote call fails or a run or a left-over lease stands in the way; a failing unlock leaves the lease behind |
| `RunBuffers.OlricBuffer.Flush` | internal/store/olric.go:179-197 | one caller: refines the abstract flush, with the same failures |
| `MemoryDedupe.ResidentIff` | internal/store/memory.go:67-73 | an ID is resident exactly when it occurred and fewer than capacity distinct others were presented since |
| `MemoryDedupe.Store.FirstSeen` | internal/store/memory.go:67-73 | false exactly when the ID occurred before and fewer than capacity distinct other IDs came since, for every call history |
| `LruBuffer.KeyRoundTrip` | internal/accumulator/buffer.go:125-130 | a composite key of a colon-free uid gives back group and uid |
| `LruBuffer.Buffer.Add` | internal/accumulator/buffer.go:65-78 | stores the updated run; nothing else changes, except that without room the least recently used entry goes |
| `LruBuffer.Buffer.Flush` | internal/accumulator/buffer.go:101-111 | answers and removes exactly the run |
| `LruBuffer.Buffer.AddWithGroup` | internal/accumulator/buffer.go:135-162 | the run under its composite key, with the same eviction, and the group's member set with its terminal mark |
| `LruBuffer.Buffer.IsGroupComplete` | internal/accumulator/buffer.go:166-180 | the loop decides whether the group exists, is non-empty and has only terminal members |
| `LruBuffer.Buffer.FlushGroup` | internal/accumulator/buffer.go:185-223 | the merge of the still cached members in some order, each once; exactly their entries and the group are gone |
| `LruBuffer.MergeTasks` | internal/accumulator/buffer.go:205-213 | merging one member gives the same result for every order of its tasks |
| `GroupMerge.MergedNames` | internal/accumulator/buffer.go:199-215 | the merged names are the union of the members' names |
| `GroupMerge.MergedEventHasHolder` | internal/accumulator/buffer.go:199-215 | every merged event comes from a member holding that task |
| `GroupMerge.MergedTimeIsMaximum` | internal/accumulator/buffer.go:211-213 | LastUpdate is the maximum |
| `GroupMerge.NewestWins` | internal/accumulator/buffer.go:205-213 | in every order a task of the strictly newest member takes that member's event |
| `GroupMerge.OnlyHolderWins` | internal/accumulator/buffer.go:205-213 | in every order a task held by one member takes its event |
| `GroupMerge.OrderIrrelevantIff` | internal/accumulator/buffer.go:199-215 | where holders disagree, a member's event wins in every order if and only if it is the only holder or strictly newer than all members |
| `GroupMerge.LatestEventCanLose` | internal/accumulator/buffer.go:199-215 | three members for which one order keeps the older event |
| `GroupHistory.GroupCompleteIff` | internal/accumulator/buffer.go:135-180 | in every history a group is complete exactly when something was added since its last flush or Close and every run added since has ended since, whatever the cache lost |
| `GroupHistory.UnendedRunKeepsGroupOpen` | internal/accumulator/buffer.go:135-180 | a run that sends no PipelineRun event keeps its group open |
| `GroupHistory.AddIsolated` | internal/accumulator/buffer.go:125-162 | with colon-free uids an add leaves every other group's and run's flush result unchanged |
| `GroupHistory.FlushIsolated` | internal/accumulator/buffer.go:185-223 | so does flushing a group |
| `GroupHistory.RunFlushIsolated` | internal/accumulator/buffer.go:101-111 | so does flushing an ungrouped run |
| `GroupHistory.SameViewSameFlush` | internal/accumulator/buffer.go:185-223 | a group flush depends on the group's members and their entries only |
| `GroupHistory.KeysCollideIff` | internal/accumulator/buffer.go:125-130 | two runs share an entry if and only if they are equal or one uid spells out the rest of the other group's name |
| `SummarySpec.PostIff` | internal/accumulator/handler.go:60-84 | among any events, an ungrouped summary is posted exactly at an ungrouped event that ends a run some TaskRun event of which arrived since the run's last flush |
| `SummarySpec.PostLists` | internal/accumulator/handler.go:128-161 | it lists exactly the last event of every task since then |
| `Domain.EndsRunIff` | internal/accumulator/handler.go:281-289 | an event ends a run exactly when its resource text is "pipelinerun" and its state text one of "success", "failure", "canceled" and "error" |
| `Accumulator.Handler.FlushAndPost` | internal/accumulator/handler.go:128-161 | posts the run's tasks, if any, and removes the run |
| `Accumulator.Handler.HandleSingle` | internal/accumulator/handler.go:74-84 | add, then flush and post when the event ends the run |
| `Accumulator.SingleEffect` | internal/accumulator/handler.go:74-84 | without eviction: what one call posts, what becomes of the run, and that no other entry changes |
| `Accumulator.Handler.HandleGrouped` | internal/accumulator/handler.go:86-103 | one call by itself: add and join, then flush and post the merge when the group is complete |
| `Silence.CompleteIsTaskless` | internal/accumulator/handler.go:163-167 | a group whose ended runs and task runs are disjoint has nothing to post |
| `Accumulator.Handler.Handle` | internal/accumulator/handler.go:60-72 | ignores events without a run ID and chooses the grouped or the single path |
| `AccumulatorRuns.FlushesIff` | internal/accumulator/handler.go:86-103 | one call at a time, an event flushes its group if and only if it ends a run and every run of the group since its last flush has ended |
| `GroupProtocol.TestsNext` | internal/accumulator/handler.go:86-103 | every step of every caller keeps: whoever is about to flush found the group complete |
| `GroupProtocol.OpenIff` | internal/accumulator/buffer.go:135-180 | a group found complete is open later if and only if a run has joined since that has not ended |
| `GroupProtocol.EarlyIff` | internal/accumulator/handler.go:86-103 | in every interleaving a flush is early if and only if such a run joined between its caller's test and the flush; never when the caller was left alone |
| `GroupProtocol.EveryFlushPosts` | internal/accumulator/handler.go:163-196 | in every interleaving without loss, early or not, a flush posts if and only if a task event arrived since the group's last flush, and lists exactly those tasks |
| `GroupProtocol.EarlyFlushHappens` | internal/accumulator/handler.go:86-103 | two callers: an open run's task is posted at the end of another run and the group is gone |
| `GroupProtocol.OperationsAreOfSteps` | internal/accumulator/handler.go:86-103 | in every interleaving an add puts its own event into its group and run, and a flush flushes the group of the event its caller added last |
| `GroupProtocol.CallerGoesOn` | internal/accumulator/handler.go:91-100 | a caller looks at its group exactly after an event that ends a run, and goes on to flush it exactly when it finds the group complete |
| `Silence.StaysSilent` | internal/accumulator/handler.go:60-103 | no post as long as TaskRun and PipelineRun identifiers are disjoint, under any eviction and expiry |
| `GroupPosts.AddKeepsAll` | internal/accumulator/buffer.go:135-162 | after an add every run of every group is cached exactly when it joined since the group's last flush, with the last event of each task |
| `GroupPosts.FlushKeepsAll` | internal/accumulator/buffer.go:185-223 | so it is after a group flush |
| `GroupPosts.FlushMerges` | internal/accumulator/buffer.go:185-223 | for every visiting order a flush lists exactly the task names seen in the group since its last flush, each with the last event of that task in some run |
| `GroupPosts.FlushPosts` | internal/accumulator/handler.go:163-196 | a complete group posts if and only if some task event of it arrived since its last flush |
| `AccumulatorRuns.GroupStep` | internal/accumulator/handler.go:86-103 | one call at a time, a grouped event posts if and only if it ends a run, every run joined since the group's last flush has ended and a task event arrived since; then exactly those tasks |
| `GroupWinners.NewestRunWins` | internal/accumulator/buffer.go:199-215 | in every map order a flush lists the events of the strictly newest run |
| `GroupWinners.SoleRunWins` | internal/accumulator/buffer.go:199-215 | and the event of a task that one run alone has |
| `GroupWinners.OrderFreeIff` | internal/accumulator/buffer.go:199-215 | the merged tasks are the same in every map order if and only if no two runs compete for a task the newest does not have |
| `AccumulatorRuns.GroupStepSettles` | internal/accumulator/handler.go:86-103 | when the clock moves on, a group's summary lists the events of the run that ended it, and those of tasks one run alone has |
| `AccumulatorRuns.GroupOrderFreeIff` | internal/accumulator/handler.go:86-103 | and it does not depend on map order if and only if no two other runs compete |
| `AccumulatorRuns.PlainStep` | internal/accumulator/handler.go:74-84 | an ungrouped event is one step of the specification |
| `AccumulatorRuns.PlainPostsAreSpecified` | internal/accumulator/handler.go:60-84 | at ungrouped events of a mixed sequence the posts are those of the specification |
| `AccumulatorRuns.HandleAll` | internal/accumulator/handler.go:60-103 | over every sequence of grouped and ungrouped events, one call at a time and without loss, each post is as specified, for runs and for groups, with the ending run's events listed when the clock moves on; every sequence with disjoint identifiers posts nothing |
| `StoreAccumulator.StoreBuffer.Add` | internal/accumulator/storebuffer.go:38-52 | task events only, into the abstract map; an erring store drops the event, or kept it although the reply was lost |
| `StoreAccumulator.StoreBuffer.Flush` | internal/accumulator/storebuffer.go:62-78 | the abstract flush; an erring store answers nothing, and the run stays or is lost with the reply |
| `StoreAccumulator.Handle` | internal/accumulator/handler.go:60-84 | over a store, one step of the specification; grouped events are dropped, and an erring store posts nothing |
| `StoreAccumulator.HandleAll` | internal/accumulator/storebuffer.go:38-78 | every event sequence posts as specified over memory, Valkey and Olric, while the backend neither evicts nor fails |
| `StoreAccumulator.PostsAgree` | internal/accumulator/storebuffer.go:38-93 | the in-memory and every store-backed accumulator post the same summaries at ungrouped events |
| `BatchProtocol.StepKeepsInv` | internal/notifier/batch/batch.go:111-261 | every step keeps order, bounds, shutdown and dead-letter accounting |
| `BatchProtocol.RunKeepsInv` | internal/notifier/batch/batch.go:111-261 | so does every run |
| `BatchProtocol.NothingLostInOrder` | internal/notifier/batch/batch.go:111-226 | in every reachable state the accepted events are the batches, the flushing batch, the buffer, the event in hand and the channel, in order; every batch has 1 to MaxSize events |
| `BatchProtocol.CloseDeliversEverything` | internal/notifier/batch/batch.go:128-209 | once Close returned every accepted event was flushed exactly once, in order, and every failed batch but Close's own went to the DLQ |
| `BatchProtocol.CloseReports` | internal/notifier/batch/batch.go:128-152 | in every run the first Close returns an error if and only if the flush it made itself failed |
| `BatchProtocol.AcceptedIsSent` | internal/notifier/batch/batch.go:111-136 | in every run the accepted events are those of the calls that sent before Close, each the event its call was made with, in order |
| `BatchProtocol.ProgressLowers` | internal/notifier/batch/batch.go:156-209 | after Close every step of the worker, whatever a flush answers, lowers a measure that nothing raises; only a tick on an empty buffer is no progress |
| `BatchProtocol.WaitingCloseReturns` | internal/notifier/batch/batch.go:128-152 | under every schedule the worker makes boundedly many steps after Close, is never stuck before it stops, and Close then returns whatever its own flush answers |
| `BatchProtocol.PanicsIffHandleCaught` | internal/notifier/batch/batch.go:112-121 | after Close the handler can panic if and only if a Handle is between its check and its send |
| `BatchProtocol.HandleCanBeCaught` | internal/notifier/batch/batch.go:112-136 | such a run exists |
| `BatchHandler.Handler.constructor` | internal/notifier/batch/batch.go:82-98 | starts the protocol with the defaulted size |
| `BatchHandler.Handler.Check` | internal/notifier/batch/batch.go:111-118 | refuses exactly when closed, as one protocol step |
| `BatchHandler.Handler.Send` | internal/notifier/batch/batch.go:119-122 | sends on an open channel with room, blocks exactly on a full one, panics exactly on a closed one, as the protocol step does |
| `BatchHandler.Handler.Receive` | internal/notifier/batch/batch.go:162-167 | takes the oldest event, as one protocol step |
| `BatchHandler.Handler.Append` | internal/notifier/batch/batch.go:168-173 | buffers it and asks for a flush exactly at MaxSize |
| `BatchHandler.Handler.DrainBuffer` | internal/notifier/batch/batch.go:221-226 | hands out the whole buffer, by size or tick |
| `BatchHandler.Handler.FlushReturned` | internal/notifier/batch/batch.go:178-206 | a failed batch goes to the DLQ, whole |
| `BatchHandler.Handler.EnqueueFailed` | internal/notifier/batch/batch.go:244-261 | the loop hands over every event of the batch in order, or nothing without a queue |
| `BatchHandler.Handler.Close` | internal/notifier/batch/batch.go:128-137 | only the first call closes |
| `BatchHandler.Handler.FinishClose` | internal/notifier/batch/batch.go:138-152 | an error exactly when the buffer was not empty and its flush failed; everything accepted has then been delivered |
| `BatchHandler.ExtractEvents` | internal/notifier/batch/batch.go:235-241 | the events of the batch, in order |
| `DlqFormat.ParseImage` | internal/dlq/file.go:246-331 | what was written is read back, and reading fails as a whole exactly when a line reaches the scanner's limit |
| `DlqFormat.ParseLines` | internal/dlq/file.go:246-275 | any file, whoever wrote it: it cannot be read if and only if some line has 4 MiB or more; otherwise every line that decodes gives its entry, in order, and empty and corrupt lines give none |
| `DlqFormat.KeepIsLongestSuffix` | internal/dlq/file.go:290-293 | a suffix fits the bound if and only if it is no longer than the one kept |
| `DlqHistory.EveryHistoryRuns` | internal/dlq/file.go:73-136 | every sequence of operations with any I/O failures has its run, in which an operation succeeds exactly when it is possible and its I/O works |
| `DlqHistory.RunFits` | internal/dlq/file.go:279-293 | in every run, with any failures, the encoded size stays within the bound |
| `DlqHistory.EntryHasEntered` | internal/dlq/file.go:73-103 | in every run each RetryCount is the number of re-enqueues since the ID last entered |
| `DlqHistory.EntriesInOrder` | internal/dlq/file.go:73-136 | in every run entries stand in first-enqueue order with pairwise distinct IDs |
| `DlqContents.EntryHoldsLastEnqueue` | internal/dlq/file.go:73-103 | in every run an entry holds the envelope, the cause and the time of the last successful enqueue of its ID |
| `DlqContents.EnqueueIsExact` | internal/dlq/file.go:73-103 | a successful enqueue in any run: the new event with one more retry in the place of the old one, or at the end with none, and of the result the longest suffix that fits |
| `DlqContents.RemoveIsExact` | internal/dlq/file.go:121-136 | a successful removal in any run: exactly the entries with another ID, in their order |
| `DlqContents.PurgeIsExact` | internal/dlq/file.go:215-244 | a successful retention pass in any run: exactly the entries not older than the cutoff, in their order |
| `DlqContents.PresentIff` | internal/dlq/file.go:73-136 | in every run without compaction an ID is in the queue if and only if some successful enqueue of it has no later successful enqueue, removal or retention pass beyond its time |
| `DlqHistory.EnqueueKeepsItselfIff` | internal/dlq/file.go:279-293 | an enqueue keeps its event if and only if it and everything behind it fit |
| `DlqHistory.OversizedEventEmptiesQueue` | internal/dlq/file.go:290-293 | a new event larger than the bound empties the queue |
| `DlqHistory.EnqueueLeavesReadableIff` | internal/dlq/file.go:255-273 | an enqueue leaves the file readable if and only if it does not store a line at the scanner's limit |
| `DlqHistory.UnreadableIsForever` | internal/dlq/file.go:246-275 | after that every operation fails and nothing changes |
| `DlqHistory.SmallQueuesStayReadable` | internal/dlq/file.go:246-293 | a bound within the scanner's limit rules it out |
| `DlqFile.FileQueue.constructor` | internal/dlq/file.go:40-70 | a queue on a new file or on whatever is there, under the defaulted bound |
| `DlqFile.FileQueue.ReadAll` | internal/dlq/file.go:246-275 | the line loop computes the parse of the file |
| `DlqFile.FileQueue.WriteAll` | internal/dlq/file.go:279-331 | stores the longest suffix that fits; at every file-system operation the file holds the old contents or the complete new ones, and the old ones after an error |
| `DlqFile.FileQueue.Enqueue` | internal/dlq/file.go:73-103 | on any file, the longest fitting suffix of what was read and upserted, or no change; on a file the queue wrote, one step of its history, whose contents the DlqContents rows state |
| `DlqFile.FileQueue.Remove` | internal/dlq/file.go:121-136 | on any file, the longest fitting suffix of what was read without the ID, or no change; on a file the queue wrote, one step of its history, of which DlqContents.RemoveIsExact says what is left |
| `DlqFile.FileQueue.PurgeExpired` | internal/dlq/file.go:215-244 | drops the expired entries; nothing is written when there are none; one step of the history within the bound |
| `DlqFile.FileQueue.List` | internal/dlq/file.go:106-118 | the oldest entries up to the limit |
| `DlqFile.FileQueue.Scan` | internal/dlq/file.go:164-197 | the callback sees the readable entries in file order until it stops or fails; an error exactly when it failed or a line is too long |
| `DlqFile.ScanText` | internal/dlq/file.go:176-196 | the loop over any file contents |
| `DlqFile.FileQueue.CollectReplayEntries` | internal/http/dlq.go:321-339 | all entries, or the matching ones in file order |
| `DlqFile.Upsert` | internal/dlq/file.go:88-100 | the first entry with the ID gives way to the new one with one more retry than it had, all others stay; without one the new entry is appended |
| `DlqFile.Without` | internal/dlq/file.go:129-134 | keeps exactly the positions with another ID, in order |
| `DlqFile.Unexpired` | internal/dlq/file.go:225-232 | the loop keeps every entry not older than the cutoff |
| `ReplayPool.RunKeepsInv` | internal/http/dlq.go:240-295 | every interleaving of the workers keeps counts, failed IDs, queue and the limit of ten |
| `ReplayPool.RunTells` | internal/http/dlq.go:240-295 | in every interleaving every verdict, every removal and the position of the main loop are what the steps taken decided |
| `ReplayPool.ReplayOutcome` | internal/http/dlq.go:240-295 | at the end the three counters add up to the entries with an envelope and each counts the workers whose steps took that way; failed_ids are the original IDs of those whose chain failed, one each; the queue has lost exactly what some step removed, in its old order |
| `ReplayPool.EntryStaysIff` | internal/http/dlq.go:271-292 | an entry stays in the queue if and only if no step removed it: its worker after the chain returned nil, or the main loop for one without an envelope |
| `ReplayPool.NeverStuck` | internal/http/dlq.go:243-295 | until the request is done some step is possible |
| `Override.ApplyOverride` | internal/http/dlq.go:127-171 | the patched report with its numbers as doubles, under the new ID and time; the original reads as before if and only if the merged payload changes no number and no result it has |
| `Override.PatchedReads` | internal/http/dlq.go:141-153 | field by field: what the payload gives replaces what the report had, an absent part keeps it, null clears a number, an element beyond the old list starts empty, and keys that are no field are ignored |
| `Override.LeftReads` | internal/http/dlq.go:131-153 | what the shared storage does to the original: numbers it had and its first elements are overwritten, its length, missing numbers and plain fields stay |
| `Override.ResolveReads` | internal/http/dlq.go:135-149 | a number of the report or the payload reaches the decoder as its nearest double, or as junk beyond 64 bits |
| `Override.NearestIs` | internal/http/dlq.go:135-149 | that double is a multiple of the spacing within half of it, the even one on a tie |
| `Override.SpacingIs` | internal/http/dlq.go:135-149 | the spacing is the power of two that leaves 53 bits |
| `Override.SmallNumbersAreExact` | internal/http/dlq.go:135-149 | below 2^53 the merge is exact and the payload as given decides |
| `Override.LargeNumberLeaks` | internal/http/dlq.go:135-149 | a number beyond is changed by a payload that does not mention it |
| `Override.Decode` | internal/http/dlq.go:131-153 | what decoding into the shared copy gives, and what it leaves of the original |
| `Override.DecodeItems` | internal/http/dlq.go:149-151 | a list decoded into a slice overwrites the shared elements up to the capacity |
| `Override.LeftIffSpared` | internal/http/dlq.go:131-153 | the original is unchanged exactly when the payload spares it |
| `Override.RenumberingLeaks` | internal/http/dlq.go:131-153 | a payload that renumbers the pull request renumbers the original |
| `Errors.IsRetryableIff` | internal/errors/classification.go:27-46 | retryable if and only if a RetryableError stands on some path of the wrap and join tree |
| `Dispatcher.MatchHandlers` | internal/pipeline/dispatcher.go:98-107 | keeps exactly the positions of handlers that are not fallback-only and, unless the event names no provider or the handler only notifies, have the event's provider; in order |
| `Dispatcher.FanOut` | internal/pipeline/dispatcher.go:115-206 | in any completion order one result per handler that ran, and the errors collected from them |
| `Dispatcher.ExecuteFallbacks` | internal/pipeline/dispatcher.go:249-301 | for every order of results one call per permanent failure whose name the map sends to a registered name, to the first handler so named, and the errors those calls return |
| `Dispatcher.Handle` | internal/pipeline/dispatcher.go:88-240 | an error exactly when a handler failed or was skipped; retryable exactly when a handler's or an invoked fallback's error is; a call for a primary if and only if it failed permanently and the map sends its name to the name of some handler, and then to the first handler so named |
| `Dispatcher.HandleChainResult` | internal/http/handler.go:181-218 | 503 for a retryable error; otherwise 200, with a hand-off to the DLQ exactly for an error |
| `Dispatcher.Deliver` | internal/http/handler.go:181-218 | with a live context: 503 if and only if some handler or invoked fallback error holds a RetryableError anywhere; otherwise 200, and DLQ exactly when some handler failed; the same fallback calls |
| `Chain.MatchNamespace` | internal/pipeline/filter.go:85-99 | true exactly when the last matching pattern is not negated |
| `Chain.NegatedPattern` | internal/pipeline/filter.go:85-99 | a leading exclamation mark turns the rest of a pattern around, any other pattern is taken whole |
| `Chain.Filter` | internal/pipeline/filter.go:49-115 | passes exactly when the type does not end in .unknown.v1 while those are ignored, the resource's own switch is on, no deny pattern selects the namespace and, if there are allow patterns, one does |
| `Chain.Validate` | internal/pipeline/validator.go:20-42 | refuses exactly a nil envelope, an empty ID, an empty run name and, unless it is an event listener's, an empty provider |
| `Chain.Enrich` | internal/pipeline/enricher.go:26-31 | changes the target only, and that only when it is empty and there is a dashboard |
| `Chain.Build` | internal/pipeline/chain.go:34-42 | every link but the last gets its successor and nothing else changes; distinct links with an open end form exactly the given chain |
| `Chain.HandleStage` | internal/pipeline/deduper.go:35-62 | what each link does up to its call of the next; the deduper records first and fails open |
| `Chain.Next` | internal/pipeline/chain.go:26-31 | walking the links does what the sequence of stages does |
| `Delivery.StandardFlow` | cmd/receiver/main.go:320-344 | what the five links do together |
| `Delivery.BuildChain` | cmd/receiver/main.go:320-344 | builds those five links in that order |
| `Delivery.HistoriesAreSound` | internal/pipeline/deduper.go:35-62 | in every history of deliveries, retransmissions and replays each call is explained by the calls before it |
| `Delivery.RecordedIff` | internal/pipeline/deduper.go:35-62 | an ID has been presented to the store exactly when a wanted call with it was not refused, or another user of the store presented it |
| `Delivery.CallsMade` | internal/http/handler.go:181-218 | every delivery makes one call of the chain with its envelope, a replay one exactly when its entry is queued, with the override or else with the entry's envelope |
| `Delivery.QueuedIff` | internal/http/handler.go:181-218 | in every history an ID is in the DLQ if and only if some delivery of it returned a permanent error with a working queue and since then none did again, no replay of it returned nil with a working queue, and nothing else removed it; the entry holds that delivery's envelope |
| `Delivery.FansOutIff` | internal/pipeline/deduper.go:35-62 | on a memory store of capacity n, in every history, a wanted call is fanned out if and only if the store failed, the ID was never presented, or at least n distinct other keys were since |
| `Delivery.FansOutAtMostOnce` | internal/pipeline/deduper.go:35-62 | on a store that neither evicts nor refuses one fan-out per ID; later valid calls return nil and run nothing |
| `Delivery.FanOutsOfHistory` | internal/pipeline/deduper.go:36-47 | without eviction, fan-outs of an ID are the wanted calls that met a failing store, reply lost or not, plus one if the first to be recorded met none |
| `Delivery.ReplayRunsIff` | internal/http/dlq.go:271-292 | in every history and on any store a replay without override runs the handlers if and only if the event is wanted and the store fails or does not know its ID |
| `Delivery.ReplayRunsNothing` | internal/http/dlq.go:271-292 | on a store that neither evicts nor refuses it runs none; a valid event's entry is removed unless the queue fails, an invalid one stays |
| `Delivery.SharedOverrideDropsTheRest` | internal/http/dlq.go:156-168 | once the shared override ID is recorded every further entry is removed unseen |
| `Delivery.Receiver.Deliver` | internal/http/handler.go:181-218 | one delivery is one step of the history: 503 exactly for a retryable error, and after a permanent one the event is in the queue, unless the queue fails |
| `Delivery.Receiver.Replay` | internal/http/dlq.go:255-292 | one replayed entry is one step of the history; it is removed exactly when the call returned nil and the queue works |
| `NotifierDedupe.KeysEqualIff` | internal/notifier/dedupestore.go:46-48 | two keys are equal if and only if the pairs are or one overlaps the other |
| `NotifierDedupe.KeyInjective` | internal/notifier/dedupestore.go:46-48 | keys of colon-free handler names are injective |
| `NotifierDedupe.Dedupers.Handle` | internal/notifier/dedupe_handler.go:47-80 | the inner handler runs exactly when there is no ID, the store fails or does not know the pair |
| `NotifierDedupe.RunsExactlyOnce` | internal/notifier/dedupe_handler.go:47-80 | on a store that evicts nothing, shared with the pipeline, a pair is known exactly when a call under its name with that ID came before |
| `SharedStore.DedupeStore.FirstSeen` | internal/store/store.go:27-32 | false exactly when the key came before and, in the bounded store, fewer distinct others came since than it holds |
| `Registry.HandlerRegistry.Register` | internal/notifier/notifier.go:80-88 | appends and keeps both indexes equal to the filters of the list |
| `Registry.HandlerRegistry.FindByName` | internal/notifier/notifier.go:91-95 | exactly the handlers with the name, each registration in its place |
| `Registry.HandlerRegistry.FindByType` | internal/notifier/notifier.go:98-102 | exactly the handlers with the action, each registration in its place |
| `Registry.HandlerRegistry.Lookup` | internal/notifier/notifier.go:114-122 | the first registered handler with the name, if any |
| `Registry.HandlerRegistry.Names` | internal/notifier/notifier.go:125-151 | the ascending sequence of exactly the registered names, cached or not |
| `Registry.AscendingUnique` | internal/notifier/notifier.go:125-151 | there is only one such sequence |
| `Registry.LessIff` | internal/notifier/notifier.go:141-147 | the order is that of bytes: a proper prefix comes first, otherwise the first difference decides |
| `Status.HoldsNext` | internal/pipeline/status.go:26-32 | recording keeps the ring equal to the last hundred outcomes |
| `Status.Ring.Record` | internal/pipeline/status.go:26-32 | the array after any history holds exactly the last min(100, n) outcomes |
| `Status.Ring.ErrorRate` | internal/pipeline/status.go:34-45 | the error rate of those outcomes |
| `Status.Ring.HasRecentSuccess` | internal/pipeline/status.go:47-54 | whether one of them succeeded |
| `Status.DegradedIff` | internal/pipeline/status.go:117-138 | degraded exactly when at least a tenth failed and one succeeded |
| `Status.Rings.Record` | internal/pipeline/status.go:94-99 | one handler's ring advances, all others stay |
| `Status.Rings.DegradedHandlers` | internal/pipeline/status.go:122-143 | exactly the degraded handlers, with their rates |
| `Status.StatusReadsHistory` | internal/pipeline/status.go:79-92 | Succeeded + Failed is the number of outcomes, Failed the failures, and the last failure is remembered, none without one |
| `Status.Observe` | internal/pipeline/status.go:72-100 | status and ring of the handler move on together |
| `Retry.CappedIsExactIff` | internal/httpx/retry.go:181-185 | one attempt's capped delay is min(minWait * 2^n, maxWait) if and only if the shift does not overflow or lands where the cap catches it |
| `Retry.AlwaysExactIff` | internal/httpx/retry.go:181-185 | all attempts are exact if and only if the first 64 shifts are safe |
| `Retry.CappedIsExact` | internal/httpx/retry.go:181-185 | with minWait * maxWait below 2^63 every attempt is exact |
| `Retry.DelaysGrow` | internal/httpx/retry.go:181-185 | so delays never decrease |
| `Retry.BackoffBounds` | internal/httpx/retry.go:181-188 | always between half the capped delay and all of it, within 0..maxWait, and half plus the draw; a negative attempt waits longest |
| `Retry.LargeWaitsCollapse` | internal/httpx/retry.go:181-185 | an input that is not exact: the delay collapses to four nanoseconds |
| `Retry.NormalizedIsSane` | internal/httpx/retry.go:76-90 | field by field: a positive one is kept, another gets its default, and the maximum is raised to the initial wait; a fixed point, and the default policy is exact |
| `Retry.RetryAfterIsExactIff` | internal/httpx/retry.go:151-164 | the header counts exactly for 429 and 503 with a number that is not negative, and is honoured up to maxWait if and only if the product does not wrap below it |
| `Retry.RetryAfterCanBeNegative` | internal/httpx/retry.go:159-164 | the first value that wraps gives a negative wait |
| `Markers.ForeignMarker` | internal/notifier/scm/upsert.go:33-45 | for plain identifiers a marked comment contains a pair's marker if and only if it is its own |
| `Markers.CarriesMarkerIff` | internal/notifier/scm/upsert.go:33-45 | for any identifiers without line breaks, if and only if its own marker text contains it |
| `Markers.SpacesCollide` | internal/notifier/scm/upsert.go:33-45 | with a space in the run ID that can be another pair's |
| `Comments.FindMarked` | internal/notifier/scm/github/comment_common.go:48-63 | the first marked comment among the first hundred, none if the listing fails |
| `Comments.Thread.Post` | internal/notifier/scm/github/comment_common.go:18-43 | edits the marked comment or creates one; a template error, a body over the limit and a failing write change nothing |
| `Comments.OneCommentEach` | internal/notifier/scm/github/comment_common.go:18-63 | over any upserts that see their comment, one comment per run and action, with the latest body, others unchanged |
| `Comments.DuplicatesUnless` | internal/notifier/scm/github/comment_common.go:48-63 | a pair keeps one comment if and only if the listing succeeds and shows it on the first page |

## Left out

- Individual notifiers and SCM clients other than the GitHub comment upsert, configuration, factories, CEL, templates and summary rendering: plumbing with easy properties.
- The wording of error messages: an error is what it wraps or joins, and whether it is there.
- Config reload, tracing, metrics, logging, health endpoints, DLQ analytics and listing pages, authentication and rate limiting.
- Olric start-up and membership, Valkey connections, the clock behind store TTLs, and FirstSeen of Valkey and Olric, which is one atomic remote command.
- Memory FirstSeen under interleaving: it is a lookup followed by an insert and is modelled one call at a time.
- HTTP-date values of Retry-After, and `DoWithRetryPolicy`, which changes one shared client.
- Go value sharing: task maps and events are values in the run buffers, so the shallow copy in the memory backend (internal/store/memory.go:93) cannot be observed.
- Get of the accumulator buffers: the handler never calls it.
- Status.Observe: the two maps of the tracker are two objects, and the 64-bit counters do not wrap.
- DlqFile.FileQueue.WriteAll: the best-effort sync of the parent directory after the rename is not modelled.
- Accumulator.Handler.HandleSingle: one call by itself; between its add and its flush another call may add to the same run, whose event is then posted too.
- Delivery.Receiver.Deliver: the DLQ is a map by ID here, which may fail; its order and size bound are in DlqHistory and DlqFile.
- Override.ApplyOverride: the timestamp is taken as parsed, as the handler checks it beforehand; keys match fields exactly; numbers among the plain fields, which the original does not share, are not rounded.
