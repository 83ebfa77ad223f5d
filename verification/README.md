# Verified models of evgo's stateful core

This project models, in Dafny 4.11, the parts of evgo that keep state under concurrency or under
in-place update, and proves what they promise for every input, every interleaving or every
reachable state. `dafny verify dfyconfig.toml` checks the whole project.

| files | component |
|---|---|
| `WorkModel`, `WorkInvariant`, `WorkTheorems`, `WorkAbort`, `WorkScheduler`, `WorkQueue` | the work scheduler shared by several instances |
| `FanIn`, `FanInRemoval`, `FanInReading`, `FanInProgress` | the dynamic fan-in of channels |
| `Selectors`, `SelectorTrie` | the two subscriber tries over a flat registry |
| `ReplacingQueue`, `Ledger`, `Turns`, `Consumer` | the replacing queue and the consumer loop above it |
| `Int64`, `FileParts`, `ByteRange`, `UploadModel`, `UploadTheorems`, `Storage` | part arithmetic, range headers and publication of uploaded files |
| `Bits64`, `PackedDatetime` | the packed datetime |
| `ResourceTree` | the API resource tree and its cached paths |
| `AccessControl` | the access decision |

## How the components are modelled

**Work scheduler.** `WorkModel` is a transition system. Every statement of `ClaimDueWorks`,
`AcquireWork`, `DoWork`, `UpdateWorkNextTime`, `PostWork` and `RemoveWork` that touches shared state
is one `Action`; `Enabled` and `Apply` give its guard and its effect. Row locks last until commit or
abort, a transaction's writes appear at commit, each claim carries its own captured `now` and its
own hold period, and the lock of a reference id is exclusive and does not expire. A claim
transaction lists without locks, re-reads and leases row by row, lists the leased ids again in the
view of the transaction, and commits; each of these is an action of its own. A log records
every committed change; the invariant says that the table is what the log replays to
(`WorkInvariant.Replay`), so the promises become statements about logs. `WorkScheduler` is the code
itself, statement by statement, as methods of a class; between any two statements any number of
actions of other processes may happen (`OthersMove`). `WorkQueue` models the two atomic counters and
the bounded channel of one instance, load by load and add by add.

**Fan-in.** Critical sections are single actions; spawning, reading, sending, cancelling, waiting and
closing are separate steps of separate goroutines. A send on a closed channel and a second close are
allowed to happen and set a flag, so that their absence is proved.

**Tries.** `SelectorTrie.Trie` keeps heap nodes whose maps are changed in place. Ghost fields hold the
live registrations and the node of every path. `FindLevels` is `LevelTrie.Find`, `FindGreedy` is
`SelectorTrie.Find`. A selector is the pair (value, set flag) that Go uses as the map key.

**Consumer.** `ReplacingQueue.Queue` pairs a list of heap elements with a table of the same elements.
`Consumer.Consumer` keeps a ghost `Ledger` in which every consumed position has exactly one fate, and
`Turns.Turn` says what one attempt makes of every position.
The feeder is a channel that its reader may empty at any time and that refuses exactly when it is
full; another goroutine may set the closed flag at every load, cancel the context, or close the close
channel.

**Uploads.** `UploadModel` is a transition system over directory entries, file contents and atomic
rename. A file is named by the call that created it, so an open file can be written and read whether or
not it is still linked; scratch names carry the fresh id of their call; removal of temporary entries
is one path at a time and may happen at any moment; readers of the final path read chunk by chunk.
`Storage` is the code with arbitrary interference between system calls; the source of a part may
return its last byte with or without EOF.

**Datetime.** Shifts, masks and ors are defined bit by bit on two's complement (`Bits64`) and proved
equal to arithmetic where the fields do not overlap.

**Resource tree.** `ResourceTree.Resource` has mutable parents, children and caches. A ghost `Layout`
numbers the nodes so that lists of children lead upwards in the numbers. A resource may be listed by a
former parent as well, and the root may hang under a resource outside, so that a subtree has a layout
of its own. Each resource owns its id.

**Access decision.** Tag and rule lookups are function parameters that may fail.

## Where code and documentation differ

The models follow the code.

- `Enqueue` replaces in place (one of its comments says that it moves the item to the back).
- `SelectorTrie`'s header says that (unset, unset, C) is not found by (A, B, C); the code finds it
  exactly when no stored path begins with (A) or (unset, B): `Selectors.LeadingWildcardsMayBeFound`.
- A worker registered before the fan-in is closed may be spawned after the flag is set
  (`FanIn.SpawnMayFollowClosed`); exactly the registered and not yet spawned ones may
  (`FanIn.StartAfterClosedExactly`), and the wait group already counts them.
- `PartCount` is not positive when size + part size - 1 exceeds the 64-bit range:
  `FileParts.CountOverflows`, for example `FileParts.CountMayOverflow`. The final file is then empty:
  `UploadTheorems.UploadPublication`.
- A part past the count may have a length, because its start wraps around (and so may a negative
  index, which a URL can carry): `FileParts.LaterPartsMayHaveLength`. It is empty if and only if the
  wrapped start is not before the end of the file: `FileParts.PartIsEmptyExactly`.
- `UploadPart` looks only at the error of the read after the part. A source that is one byte too long
  passes when that byte arrives together with EOF, and the byte is dropped; a source of the right
  length fails when that read returns nothing and no error: `Storage.FileSystem.UploadPart`.
- A malformed range bound is not rejected. A leading plus sign is skipped; digits followed by anything
  else count as 0 if and only if the digits fit 64 unsigned bits, and as the largest int64 otherwise:
  `ByteRange.ParseIntIsTakenFor`, `ByteRange.MalformedBoundExactly`. Which headers
  are accepted then: `ByteRange.AcceptedExactly`; an example: `ByteRange.MalformedRangeIsAccepted`.
- `AcquireWork` probes only for existence, so a stale copy of a work may be started although the work
  was rescheduled into the future and not claimed since: `WorkTheorems.StartIgnoresNextTime`, with the
  run `WorkTheorems.StaleStartHappens`.
- Packing an unpacked time is not stable for times less than a millisecond after the zero instant in a
  zone other than UTC: `PackedDatetime.RepackIsStable` gives the exact condition,
  `PackedDatetime.RepackMayFail` such a time.
- A negative `MAX_QUEUE_DEPTH` behaves like a limit of 1: `Consumer.WhileOpen`.
- `AddChild` of a resource that has a parent leaves it listed there as well. That is harmless
  (`ResourceTree.Resource.MoveChild`) unless the new parent is reached from the resource through lists
  of children; then no numbering exists and `RebuildPaths` does not end.
- `SetParent` without `AddChild` lets the child's cached path go stale
  (`ResourceTree.SetParentAloneGoesStale`), exactly when a rebuild changes the full paths of its parent:
  `ResourceTree.Resource.RebuildUnaware` and, in terms of the new id,
  `ResourceTree.Resource.SetIdUnaware`.

## Model

| member | source | states |
|---|---|---|
| `WorkTheorems.LeaseExclusivity` | pkg/work_schedule/work_schedule.go:506-596 | in every interleaving two successive committed claims of a row are separated by a reschedule or delete of it, or the second claimer's own time is at least the first one's plus its hold period |
| `WorkTheorems.ClaimReturnsWhatItLeased` | pkg/work_schedule/work_schedule.go:526-595 | a committed claim returns a permutation of the leased rows, at most as many as its limit; all of them were due under the row lock and are held until now plus hold, every other row is untouched, no lock is left, and the log has one claim per returned row |
| `WorkTheorems.RelistingReturnsTheLeases` | pkg/work_schedule/work_schedule.go:565-573 | in every interleaving and whatever order the database answers in, the second listing of the transaction gives exactly the leased works, each once: their rows cannot vanish under the locks and ids are unique |
| `WorkTheorems.UndisturbedClaim` | pkg/work_schedule/work_schedule.go:512-577 | a claim that nobody disturbs commits and leases exactly the listed rows: the oldest due ones within the limit |
| `WorkTheorems.ListedAreTheOldest` | pkg/work_schedule/work_schedule.go:511-533 | what the listing leaves out is not older than what it takes, and it leaves a due row out only at the limit |
| `WorkTheorems.ReReadLocksTheRow` | pkg/work_schedule/work_schedule.go:539-559 | re-reading takes the row's lock whether or not the row is still due; only a due row is leased |
| `WorkAbort.AbortedClaimLeavesNoTrace` | pkg/work_schedule/work_schedule.go:525-581 | a run in which a claim starts and aborts, interleaved with anything, leaves the same table, log, workers, locks and other claims as the run without that claim, which is feasible too |
| `WorkAbort.UncommittedIsInvisible` | pkg/work_schedule/work_schedule.go:525-581 | as long as a claim has not committed, erasing its actions from a run gives a run whose state differs only by the claim's progress and row locks |
| `WorkAbort.RowLocksEndWithTheirTransaction` | pkg/work_schedule/work_schedule.go:525-581 | in every reachable state a row lock belongs to a claim in its transaction or to the worker whose second transaction has that row |
| `WorkTheorems.AtMostOneRunPerReference` | pkg/work_schedule/work_schedule.go:320-338 | in every reachable state no two workers between acquiring and releasing share a reference id |
| `WorkTheorems.LockKeyIsReference` | pkg/cache/global_lock.go:18-30 | two works contend for the same lock exactly when their reference ids are equal |
| `WorkTheorems.NoRunAfterDone` | pkg/work_schedule/work_schedule.go:340-357 | once a done run's deletion has committed, a later start of the same work is preceded by a new posting of it |
| `WorkTheorems.StartIgnoresNextTime` | pkg/work_schedule/work_schedule.go:340-365 | an attempt on a copy of a work reaches the run if and only if the row exists and neither its reference lock nor its row lock is taken, whatever its next time and whether or not it was claimed; next times are left as they were |
| `WorkTheorems.StaleStartHappens` | pkg/work_schedule/work_schedule.go:340-369 | a run from the empty table in which a work rescheduled into the future and never claimed is started |
| `WorkTheorems.StartAfterReschedule` | pkg/work_schedule/work_schedule.go:359-369 | a run that starts after a reschedule of its work has its own flag reset after that reschedule, with no other reset, reschedule or deletion of the work since |
| `WorkTheorems.RescheduleHandshake` | pkg/work_schedule/work_schedule.go:737-777 | the row left by a not-done run is decided by the last event since the flag reset: an explicit next time is kept untouched, after a reset or a later claim the run's own next time is stored |
| `WorkTheorems.DoneRunDeletesItsWork` | pkg/work_schedule/work_schedule.go:746-763 | in every reachable state in which a done worker has found its row, the commit removes exactly that row, leaves every other as it was, logs exactly that deletion and gives up the row lock |
| `WorkTheorems.NotDoneRunReschedules` | pkg/work_schedule/work_schedule.go:765-777 | a not-done commit leaves its row with the flag set: an explicit next time since the reset is kept, otherwise the run's own is stored and logged; no other row changes |
| `WorkTheorems.FinishReadFinds` | pkg/work_schedule/work_schedule.go:746-755 | the second transaction finds its row exactly when there is one, and then holds its lock |
| `WorkTheorems.DecisionExists` | pkg/work_schedule/work_schedule.go:359-365 | every finishing run has such a last deciding event, at the latest its own reset |
| `WorkTheorems.OwnNextTimeIsStored` | pkg/work_schedule/work_schedule.go:765-773 | without an explicit update or repost since the reset the run's own next time is stored |
| `WorkInvariant.StepKeepsInv` | pkg/work_schedule/work_schedule.go:312-823 | every action of every process keeps the invariant: the table is the replay of the log, ids are unique, locks are held by their owners, leased rows stay due until commit, claims stay within their limits, no one else resets, reschedules or retires a work that is being run |
| `WorkInvariant.ReachableInv` | pkg/work_schedule/work_schedule.go:312-823 | the invariant holds after every interleaving from the empty table |
| `WorkScheduler.Cluster.ClaimDueWorks` | pkg/work_schedule/work_schedule.go:506-596 | under arbitrary interference the caller's new log events are exactly one claim per returned work, at most as many as the limit; none on error, and nothing changes when the bucket is full |
| `WorkScheduler.Cluster.RelistWorks` | pkg/work_schedule/work_schedule.go:560-573 | the second listing is skipped when nothing was leased, may fail, and changes nothing but the claim's progress |
| `WorkScheduler.Cluster.HoldWorks` | pkg/work_schedule/work_schedule.go:536-559 | the loop over the listed works handles all of them or stops at a failed lock, and commits nothing by itself |
| `WorkScheduler.Cluster.AcquireWork` | pkg/work_schedule/work_schedule.go:312-369 | it ends with the flag reset logged and the work owned, or with the worker idle and nothing logged; it reports the work as locked only if it saw the reference locked or the row gone |
| `WorkScheduler.Cluster.ReleaseWork` | pkg/work_schedule/work_schedule.go:371-390 | the worker ends idle, whether or not the locker reports an error, and writes nothing |
| `WorkScheduler.Cluster.DoWork` | pkg/work_schedule/work_schedule.go:699-789 | one call logs nothing, or a reset, one start and the events of its second transaction: committed, a done run ends with the deletion; a not-done run with a reschedule to the time its runner chose, else its clock plus initial delay or interval, unless an explicit next time was set during the call; nothing when rolled back or the row was gone |
| `WorkScheduler.Cluster.FinishWork` | pkg/work_schedule/work_schedule.go:741-785 | committed, a done run has deleted its row, a not-done run has left it with the flag set and, where it logged a reschedule, with its own next time; the row is reported gone only if it was absent when read; a rollback writes nothing |
| `WorkQueue.QueueCapacity` | pkg/work_schedule/work_schedule.go:869-881 | in every interleaving the running count equals the works in progress, the queue size is between the channel length and the bucket size, and an announced item finds room |
| `WorkQueue.ScanClaimsExactly` | pkg/work_schedule/work_schedule.go:518-523 | in every interleaving the scan may claim exactly the counts that fit into the bucket beside the running count and the queue size it loaded; if those fill the bucket, it rests |
| `WorkQueue.ClaimedBatchIsSent` | pkg/work_schedule/work_schedule.go:598-627 | a batch of claimed works is sent completely unless the scan gives up at shutdown |
| `WorkQueue.QueuedItemCanBeServed` | pkg/work_schedule/work_schedule.go:829-850 | a queued item can be received, acquired and released by a free worker, after which both counters are as without it |
| `WorkQueue.StepKeepsInv` | pkg/work_schedule/work_schedule.go:518-523 | reserved plus announced items never exceed the bucket, at every load, add, send and receive |
| `FanIn.ShutdownSafety` | pkg/message_queue/fan_in.go:148-163 | no send on a closed output and no second close in any interleaving; the output is closed at most once and only after every registered worker has signed off |
| `FanIn.NoWorkerAfterClosed` | pkg/message_queue/fan_in.go:82-100 | once closed is set it stays set and no worker is ever registered again |
| `FanIn.StartAfterClosedExactly` | pkg/message_queue/fan_in.go:82-100 | once closed is set, a worker's goroutine can still start in some continuation if and only if it is registered and not yet spawned |
| `FanIn.SpawnMayFollowClosed` | pkg/message_queue/fan_in.go:93-99 | a concrete interleaving in which a registered worker's goroutine starts after closed is set, with the wait group still counting it |
| `FanIn.ValueAccounting` | pkg/message_queue/fan_in.go:102-120 | values read = sent + in flight + discarded, sent values keep the input's order, discards only after cancellation |
| `FanInRemoval.RemovedInputIsSilent` | pkg/message_queue/fan_in.go:131-144 | when RemoveInput(ch) finds its input and has returned, the worker that was registered for ch has left and no continuation makes it emit |
| `FanInRemoval.RemovalCancelsOnlyItsInput` | pkg/message_queue/fan_in.go:131-144 | the cancellation of RemoveInput(ch) changes the worker registered for ch and no other |
| `FanInRemoval.OneWorkerPerInput` | pkg/message_queue/fan_in.go:82-100 | while the fan-in is open the table is exactly the workers that no RemoveInput has unlinked, one per input, each under its own |
| `FanInReading.EveryValueIsReadOnce` | pkg/message_queue/fan_in.go:102-120 | each value taken from an input is in exactly one worker's account |
| `FanInReading.LeavesOnlyWhenToldOrDone` | pkg/message_queue/fan_in.go:102-129 | a worker leaves only when cancelled or when its input is closed and drained |
| `FanInReading.NextValueCanBeDelivered` | pkg/message_queue/fan_in.go:102-120 | a waiting worker can read the next value that has arrived and send it |
| `FanInProgress.CloseCancelsEverybody` | pkg/message_queue/fan_in.go:148-163 | while Close waits every worker has been cancelled |
| `FanInProgress.CloseCanFinish` | pkg/message_queue/fan_in.go:148-163 | from every reachable state a begun Close can run to its end |
| `FanInProgress.RemovalCanReturn` | pkg/message_queue/fan_in.go:131-144 | from every reachable state a RemoveInput that unlinked its input can get to return |
| `FanIn.LeftWorkerIsSilent` | pkg/message_queue/fan_in.go:105-119 | a worker that left its loop never emits again |
| `FanIn.StepKeepsInv` | pkg/message_queue/fan_in.go:64-163 | every step keeps wait group, flags, tables and accounts consistent |
| `SelectorTrie.Trie.Register` | pkg/message_queue/selector_trie.go:46-72 | the registry gains exactly one entry under a new index and the trimmed path, and the tree stays canonical |
| `SelectorTrie.Trie.Unregister` | pkg/message_queue/selector_trie.go:85-124 | a live subscription is removed and its object returned, anything else yields the zero value and changes nothing, and no empty node remains |
| `SelectorTrie.Trie.Prune` | pkg/message_queue/selector_trie.go:112-121 | bottom-up pruning restores the canonical shape and only removes nodes |
| `SelectorTrie.Trie.AnyRemainingSet` | pkg/message_queue/selector_trie.go:36-43 | true exactly before the last set selector, for any start |
| `Selectors.StoredPath` | pkg/message_queue/selector_trie.go:55-68 | the stored path is the prefix up to the last set selector, cut at the maximum |
| `SelectorTrie.Trie.FindLevels` | pkg/message_queue/level_trie.go:25-62 | returns, each once, exactly the live objects that the flat filter accepts |
| `SelectorTrie.Trie.Search` | pkg/message_queue/level_trie.go:33-58 | the recursive search returns exactly the matching live objects at or below its node |
| `SelectorTrie.FilterByLevel` | pkg/message_queue/level_trie.go:44-57 | the flat filter splits disjointly into here, the key's branch and the unset branch |
| `SelectorTrie.Trie.FindGreedy` | pkg/message_queue/selector_trie.go:136-168 | returns, each once, exactly the live objects stored along the greedy walk |
| `SelectorTrie.Trie.Values` | pkg/message_queue/selector_trie.go:126-131 | the objects of a node, each once, in any order |
| `SelectorTrie.GreedyVersusFull` | pkg/message_queue/selector_trie.go:136-168 | greedy results are full results; a full result is greedy exactly when unshadowed; exact well-formed prefixes are always found; equal results when no stored path has an unset level |
| `Selectors.GreedyFindsExactlyUnshadowed` | pkg/message_queue/selector_trie.go:145-166 | the greedy walk passes a stored path if and only if it matches and no stored path takes the key's own branch at one of its unset levels |
| `Selectors.ExactPrefixIsFound` | pkg/message_queue/selector_trie.go:147-162 | a literal prefix of the key is found if and only if its unset selectors carry no leftover value |
| `Selectors.WildcardFoundUnlessSibling` | pkg/message_queue/selector_trie.go:10-20 | the documented (A, unset, C) example, as an equivalence |
| `Selectors.LeadingWildcardsMayBeFound` | pkg/message_queue/selector_trie.go:10-20 | when (unset, unset, C) is found by (A, B, C), as an equivalence |
| `SelectorTrie.ShapeOfLive` | pkg/message_queue/selector_trie.go:46-124 | nodes are exactly the root and the prefixes of live paths, none deeper than the maximum |
| `SelectorTrie.SameLiveSameTree` | pkg/message_queue/selector_trie.go:46-124 | equal registries give equal trees, node by node |
| `SelectorTrie.RegisterThenUnregister` | pkg/message_queue/selector_trie.go:46-124 | returns the same object and restores registry and nodes; a second unregister changes nothing |
| `ReplacingQueue.EnqueueLaws` | pkg/message_queue/replacing_queue.go:29-43 | the key has the new value, all others keep value and place, length grows exactly for a new key |
| `ReplacingQueue.RemoveLaws` | pkg/message_queue/replacing_queue.go:92-101 | the key is gone, what stood before and behind it keeps its order, an absent key changes nothing, all others keep their value, removal is idempotent |
| `ReplacingQueue.Queue.Enqueue` | pkg/message_queue/replacing_queue.go:33-43 | list and table stay in bijection and the contents are replaced in place or appended; replaced flag and depth are exact |
| `ReplacingQueue.Queue.Dequeue` | pkg/message_queue/replacing_queue.go:46-58 | removes and returns the front, or nothing |
| `ReplacingQueue.Queue.Front` | pkg/message_queue/replacing_queue.go:60-70 | the front value without change |
| `ReplacingQueue.Queue.Get` | pkg/message_queue/replacing_queue.go:73-80 | the value under the key wherever it stands |
| `ReplacingQueue.Queue.Update` | pkg/message_queue/replacing_queue.go:83-90 | changes a present key in place, leaves an absent one absent |
| `ReplacingQueue.Queue.Remove` | pkg/message_queue/replacing_queue.go:93-101 | deletes the key from any position, order of the rest unchanged |
| `ReplacingQueue.Queue.DropFront` | pkg/message_queue/replacing_queue.go:115-128 | drops the front from list and table |
| `ReplacingQueue.Queue.DepthIsLength` | pkg/message_queue/replacing_queue.go:111-113 | the table's size is the list's length |
| `Consumer.WhileOpen` | pkg/message_queue/consumer.go:128-171 | conservation, per-key order, freshness without a limit, and the depth bound with one (1 for a negative limit), between any two items while open |
| `Consumer.Consumer.TryNext` | pkg/message_queue/consumer.go:128-171 | one exact turn: the first messages of the backlog are delivered in order; while open the new one is delivered behind all of them or waits; only when it was refused and what still waits is at the limit is the front dropped; what waits afterwards is given exactly |
| `Turns.DroppedOnlyAtLimit` | pkg/message_queue/consumer.go:166-168 | whatever a run dropped was, in one of its turns, the front of a backlog at or above the limit while a new message was refused |
| `Turns.FewKeysLoseNothing` | pkg/message_queue/consumer.go:166-169 | where fewer keys are about than the limit, a run drops nothing |
| `Turns.TraceConsumes` | pkg/message_queue/consumer.go:173-192 | a run consumes the messages of its items in order |
| `Consumer.Consumer.Drain` | pkg/message_queue/consumer.go:136-147 | delivers backlog messages from the front, in order, until refusal, closing or emptiness, and changes nothing else |
| `Consumer.Consumer.Trim` | pkg/message_queue/consumer.go:166-168 | at the limit exactly the front is dropped, so that there is room for one more; below the limit and without one nothing changes |
| `Consumer.Consumer.File` | pkg/message_queue/consumer.go:158-170 | the refused message waits under its own key, replacing a waiting one of that key; at the limit, and only there, the front is dropped first |
| `Consumer.Consumer.Process` | pkg/message_queue/consumer.go:120-193 | the handled items are exact turns one after the other, and all items are handled unless the context is done or the close signal was given; then what still waits is discarded |
| `Consumer.Consumer.Select` | pkg/message_queue/consumer.go:173-192 | of the ready cases any is taken; the loop stops only on a signal that was given, and the close signal follows the closed flag |
| `Consumer.Feeder.Push` | pkg/message_queue/feeder.go:57-77 | refuses if and only if all places of the channel are taken, otherwise queues and logs the message |
| `Ledger.Conservation` | pkg/message_queue/consumer.go:128-171 | consumed = delivered + waiting + superseded + dropped + discarded |
| `Ledger.Freshness` | pkg/message_queue/consumer.go:153-169 | the latest message of a key that was not lost waits or is the last delivered of its key |
| `FileParts.PartsTileTheFile` | pkg/filestorage/upload_part_helper.go:37-88 | parts below the count are non-empty, start where the previous end and add up to the size; any index names an empty part if and only if its wrapped start is not before the end, which past the count holds while the start does not overflow |
| `FileParts.CountOverflows` | pkg/filestorage/upload_part_helper.go:50-62 | the count is positive if and only if the rounding fits 64 bits |
| `FileParts.CountMayOverflow` | pkg/filestorage/upload_part_helper.go:50-62 | the largest size with parts of two bytes |
| `FileParts.PartLengthExact` | pkg/filestorage/upload_part_helper.go:64-88 | the length of a part of any index: the bytes of the file from its wrapped start on, or a negative number where those overflow |
| `FileParts.PartIsEmptyExactly` | pkg/filestorage/upload_part_helper.go:70-76 | a part is empty if and only if its wrapped start is at or past the end of the file |
| `FileParts.LaterPartsMayHaveLength` | pkg/filestorage/upload_part_helper.go:70-88 | an index past the count and a negative index whose parts are not empty |
| `ByteRange.AcceptedRangeIsInside` | pkg/filestorage/filedata_service/filedata_controller.go:161-208 | every accepted range of any header is non-empty and inside the file |
| `ByteRange.WellFormedRangeFollowsStandard` | pkg/filestorage/filedata_service/filedata_controller.go:161-208 | on every well-formed single range, with numbers of any length, the result is what section 14.1.2 of RFC 9110 selects, and rejection is the same |
| `ByteRange.ParseIntIsCapped` | pkg/filestorage/filedata_service/filedata_controller.go:178-193 | on digits the ignored-error parse is the number capped at the largest int64 |
| `ByteRange.ParseIntIsTakenFor` | pkg/filestorage/filedata_service/filedata_controller.go:178-193 | on any bound the ignored-error parse is its digits capped at the largest int64; anything after the digits makes it 0, unless the digits overflow 64 unsigned bits |
| `ByteRange.MalformedBoundExactly` | pkg/filestorage/filedata_service/filedata_controller.go:178-193 | digits followed by anything else count as 0 if and only if the digits fit 64 unsigned bits, else as the largest int64 |
| `ByteRange.AnyRangeIsTakenFor` | pkg/filestorage/filedata_service/filedata_controller.go:161-208 | for every header with one dash the result is what the standard selects for the numbers its bounds are taken for, and rejection is the same |
| `ByteRange.AcceptedHasOneDash` | pkg/filestorage/filedata_service/filedata_controller.go:163-170 | an accepted header is the prefix and two bounds around a single dash |
| `ByteRange.AcceptedExactly` | pkg/filestorage/filedata_service/filedata_controller.go:161-208 | which headers with one dash are accepted, by the numbers their bounds are taken for, as an equivalence |
| `ByteRange.MalformedRangeIsAccepted` | pkg/filestorage/filedata_service/filedata_controller.go:190-207 | a malformed range that is accepted |
| `ByteRange.AcceptedRangeIsFetched` | pkg/filestorage/filesystem_storage.go:302-313 | an accepted range fetches exactly its slice |
| `ByteRange.TrimSpaceExactly` | pkg/filestorage/filedata_service/filedata_controller.go:173 | trimming takes away the spaces at both ends, all of them and nothing else |
| `ByteRange.SpacesDoNotMatter` | pkg/filestorage/filedata_service/filedata_controller.go:173 | spaces around the bounds do not change the result |
| `ByteRange.RangeWrittenOut` | pkg/filestorage/filedata_service/filedata_controller.go:161-208 | bytes=2-5 of ten |
| `UploadTheorems.UploadPublication` | pkg/filestorage/filesystem_storage.go:139-260 | in every interleaving a published part has its computed length and the final path is absent or one published version of every part in order; it totals the declared size if and only if the numbers are within bounds or the size is 0, and is empty otherwise |
| `UploadModel.StepKeepsInv` | pkg/filestorage/filesystem_storage.go:139-260 | every system call of every upload, finalization, reader and clean-up keeps that, and a published part or file is never written again |
| `UploadTheorems.ReaderSeesOnePublication` | pkg/filestorage/filesystem_storage.go:262-313 | whatever is finalized, replaced, cleaned up or deleted after a reader has opened the final path, what it has read are the bytes from its offset on of the one complete publication it opened, never past its end or the limit |
| `UploadTheorems.DeletedStaysAbsent` | pkg/filestorage/filesystem_storage.go:320-324 | after a deletion nobody can open the file until it is finalized anew |
| `Storage.FileSystem.UploadPart` | pkg/filestorage/filesystem_storage.go:139-201 | unless a system call fails, success if and only if the source is as long as the part, or one byte longer with that byte arriving with EOF; the first bytes up to the part's length are then a published version of the part; no scratch file is left either way |
| `Storage.CheckPassesExactly` | pkg/filestorage/filesystem_storage.go:175-185 | the check after the copy passes exactly those sources |
| `Storage.FileSystem.FinalizeUpload` | pkg/filestorage/filesystem_storage.go:203-260 | on success the file renamed into place is the concatenation of one published version of every part and is never written again, and no temporary entry of that moment is left |
| `Storage.FileSystem.RemoveTemps` | pkg/filestorage/filesystem_storage.go:255-256 | entries are removed one by one under interference; none that was there comes back for the same file |
| `Storage.FileSystem.Fetch` | pkg/filestorage/filesystem_storage.go:262-313 | under interference a complete read gives, byte by byte, the complete publication that was in place at the opening, from the offset to its end or the limit; a missing file and a negative offset are errors that change nothing |
| `Storage.FileSystem.FetchAccepted` | pkg/filestorage/filesystem_storage.go:302-313 | a range that the parser accepts for the size of the file is fetched as exactly that slice |
| `Storage.FileSystem.CopyPart` | pkg/filestorage/filesystem_storage.go:233-242 | the next part is copied to its end or the copy fails |
| `PackedDatetime.RoundTrip` | pkg/utils/date.go:319-365 | for every time that fits, unpacking restores zone and instant, 1 ms later exactly at local midnight other than the UTC epoch |
| `PackedDatetime.RoundTripExact` | pkg/utils/date.go:319-365 | whole-millisecond times in quarter-hour zones come back as they were, or 1 ms later at local midnight |
| `PackedDatetime.ShiftByLocalClock` | pkg/utils/date.go:319-365 | in terms of day, hour, minute, second and millisecond of the local clock: 1 ms later exactly at 0:00:00.000 other than the epoch in UTC |
| `PackedDatetime.ZeroIsFirstOfYearOne` | pkg/utils/date.go:319-325 | the zero time is midnight of the first day of year 1 |
| `PackedDatetime.OnlyZeroPacksToZero` | pkg/utils/date.go:319-340 | packing gives 0 if and only if the time is the zero time |
| `PackedDatetime.RepackIsStable` | pkg/utils/date.go:319-365 | packing the unpacked value gives the same value, with the exact exception |
| `PackedDatetime.RepackMayFail` | pkg/utils/date.go:319-365 | one nanosecond after the zero instant, a quarter of an hour east |
| `PackedDatetime.PackedFields` | pkg/utils/date.go:330-339 | the packed value as the sum of its three fields |
| `PackedDatetime.TimeOfDayExact` | pkg/utils/date.go:333-337 | the doubled remainder is the time of day |
| `Bits64.OrDisjoint` | pkg/utils/date.go:339 | or of disjoint bit ranges is addition |
| `Bits64.AndMask` | pkg/utils/date.go:353 | and with a mask of ones is the remainder |
| `ResourceTree.Resource.RebuildPaths` | pkg/api/resource.go:176-216 | everything that is reached through lists of children agrees with its parent, nothing else is touched |
| `ResourceTree.BelowIsReached` | pkg/api/resource.go:213-215 | everything below a resource is reached from it |
| `ResourceTree.ReachedIsBelow` | pkg/api/resource.go:213-215 | where no former parent lists a child, only what is below a resource is reached from it |
| `ResourceTree.Resource.SetHasId` | pkg/api/resource.go:311-314 | keeps the whole tree fresh |
| `ResourceTree.Resource.SetId` | pkg/api/resource.go:284-296 | keeps the whole tree fresh when a rebuild is asked for or the id is not empty; clearing an id without a rebuild keeps it fresh if and only if the segment stays the same |
| `ResourceTree.Resource.AddChild` | pkg/api/resource.go:363-377 | hangs a tree under a resource of another, also one that had a parent elsewhere, and makes one linked tree, fresh after a rebuild, the upper tree's caches unchanged; a former parent keeps listing the child |
| `ResourceTree.Resource.MoveChild` | pkg/api/resource.go:363-377 | a resource moved within its tree stays listed by its former parent, and the whole tree is fresh after a rebuild and can be numbered, so that every other result applies to it |
| `ResourceTree.NotReachedFromListed` | pkg/api/resource.go:213-215 | what lists a resource is never reached from it: the one condition of a move is necessary |
| `ResourceTree.Resource.SetParent` | pkg/api/resource.go:363-368 | the subtree agrees with the new parent after a rebuild and is untouched without one; nothing outside it changes |
| `ResourceTree.Resource.RebuildUnaware` | pkg/api/resource.go:176-216 | a rebuild above a child that the tree does not list leaves the child fresh if and only if the full paths of its parent do not change |
| `ResourceTree.Resource.SetIdUnaware` | pkg/api/resource.go:284-296 | the same for a change of the parent's id, in terms of the old and the new segment |
| `ResourceTree.UnlistedChildFresh` | pkg/api/resource.go:200-203 | a child that agreed with its parent's former paths and was not rebuilt is fresh if and only if those paths are still the same |
| `ResourceTree.Resource.FillActualPaths` | pkg/api/resource.go:517-532 | supplied ids reach exactly the id-bearing resources on the chain and the whole tree is fresh |
| `ResourceTree.Resource.ResetIds` | pkg/api/resource.go:534-544 | ids on the chain are cleared and the whole tree is fresh |
| `ResourceTree.CacheAgrees` | pkg/api/resource.go:176-216 | in a fresh tree every cached full path and prototype is the concatenation of segments from the root |
| `ResourceTree.FilledEqualsBuilt` | pkg/api/resource.go:489-532 | after filling, the cached path equals the built one if and only if every resource on the chain agrees |
| `ResourceTree.NonEmptyIdsAgree` | pkg/api/resource.go:489-532 | non-empty ids for every id-bearing resource on the chain are enough |
| `ResourceTree.NewIdResourcesChain` | pkg/api/resource.go:623-646 | the leaf's prototype is the full literal-and-parameter chain in a fresh tree |
| `ResourceTree.SetParentAloneGoesStale` | pkg/api/resource.go:363-368 | a parent set without listing the child leaves a stale cache after the parent changes |
| `AccessControl.CheckAccess` | pkg/access_control/access_control.go:36-104 | the answer is the owner's grant, else the first hit in the flattened order, else the default; failed tag lookups fail it |
| `AccessControl.CheckLevel` | pkg/access_control/access_control.go:74-92 | the tags of one level, the empty one last, with every role, in order |
| `AccessControl.AllowedHasSharedBit` | pkg/access_control/access.go:48-54 | a passing check has a bit set in both masks |
| `AccessControl.SharedBitIsAllowed` | pkg/access_control/access.go:48-54 | with such a bit it passes |
| `AccessControl.DecisionIsUnique` | pkg/access_control/access_control.go:36-104 | the loop-free description determines one answer |
| `AccessControl.FailsExactlyWhen` | pkg/access_control/access_control.go:55-81 | an error if and only if, without owner's grant, a tag lookup fails or the first hit is a failed lookup |

## Left out

- Database, locker and file system internals: SQL text, GORM, Redis, lock expiry, directories and
  permissions; they are an abstract row store, an exclusive lock, and entries and contents of files.
- Liveness, fairness, real time and timeouts: the transition systems state safety only.
- Pubsub nudges, tenancy contexts, works without a database row, logging and tracing of the scheduler.
- Works whose reference fields change or whose id is reused for another reference: a work's id and
  reference are one immutable value.
- Producers other than the scan goroutine on the scheduler's channel, and 32-bit wrap-around of the
  two counters.
- The fan-in is modelled on values as interleaved steps; its methods are not repeated as class methods.
- Contents of the fan-in's output buffer and of its inputs: values are identified by their position.
- Wrap-around of the tries' 64-bit index counter; the tries' read-write mutex (each call is atomic).
- Mixing indexed and unindexed uploads of one file; a plan is one or the other.
- ResourceTree.Resource.AddChild: for a child moved from another tree nothing is said about later rebuilds of that other tree, because a layout describes one tree.
- Service paths, tenancy lookups, hosts, operations, cloning and shared id wrappers of resources.
- Access masks' grant and revoke, HTTP method mapping, and rules' own contents.
- Subscriber and feeder fan-ins, in-memory queues, dispatchers, controllers, servers, consoles,
  authentication, signed URLs, filters and configuration loading: thin layers, input and output, or
  unseen libraries.
