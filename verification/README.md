# Verified models of the concurrent and stateful cores of common.v2

This project models the parts of the Go library whose correctness spans several
functions, goroutines or heap objects, and proves what they are for:

- **broadcast**: one notifier and any number of listeners share a growing chain of
  capacity-1 channels. `BroadcastChain` is a transition system over every channel
  operation and callback, with arbitrary interleaving; `BroadcastTyped` puts the
  read-write lock of the typed broadcaster around it, `BroadcastCalls` follows its calls
  from beginning to return; `BroadcastInstance` is the imperative form over channels on
  the heap, each step proved to be the chain's.
- **joint**: the pump between two channels. `PumpSpec` is the transition system,
  `Joint` the scheduler and its pipe as a class, over the pointer queue of `LinkedList`.
- **mfs**: the in-memory file system. `SortedFileSet`, `MemFile` (event bus and file
  objects), `FileExistCache` and `FileSystem` are classes; `FsSpec` and `PersistSpec`
  are the states they are proved against; `PersistResult`, `PersistHooks` and
  `PersistExample` say what Persist achieves; `Paths` is the string level.
- **pinyin**: `PinyinMatch` (the backtracking matcher against a declarative notion of
  segmentation), `PinyinText` (cutting UTF-8 text into terms) and `PinyinLaws` (what a
  caller can rely on).
- **stringutil**: `StringLists`, intersection, union, difference and equality of string
  multisets.
- **fn**: `WaterfallSpec` and `Waterfall`, the reflection-typed function pipeline, and
  `WaterfallLaws`, what its pieces come to on runs.
- **static/mockgen** and **structs**: `FreshNames` and `StructPaths`, over `Decimal`.

`Ordering` is Go's string order with the contract of `sort.Strings`; `Sequences` and
`Wrappers` are shared. A class field marked as history (`sent`, `read`, `calls`, ...) is written by
the steps and read by none of them.

`dafny verify dfyconfig.toml` checks everything.

## What the proofs show about the code

Where code and documentation or expectation differ, the model follows the code:

- `Copy` of an existing file, or of a directory with files in it, onto itself removes the
  (first) file and then dereferences nil. `FsSpec.CopyPanics` gives the exact condition.
- `OnErr` is documented as called when an error occurs. When a function panics, `Run`
  returns an error without calling it; when the checks reject the pipeline, neither it
  nor `Always` is called. `Waterfall.FunctionRunner.Run` says exactly when they are.
- `Case` is documented to stop the runner when its condition holds. The wrapper calls the
  function it gets last. If the function before it returned that function itself, the run
  goes on when calling it does nothing, stops when it sets the abort flag in turn, and
  crashes when it is nil or panics: `WaterfallSpec.CaseAfter` is the exact condition,
  `CaseGuard` what the signatures alone decide, `CaseMayNotStop` an example of each kind.
- `tryReadOrWrite` puts the input back into the select after a turn with a full queue even
  when its close was already seen, so the closed input can be read again
  (`PumpSpec.ClosedReadRecurs`, from a new joint `ClosedReadRecursFromStart`). It takes a
  change of the capacity (`ClosedReadNeedsSetCap`), each allows one more such read, and
  `ClosedPumpEnds` bounds the turns of every run.
- Persist reads the original of a clean file at that file's turn, in name order. Two files
  swapped by renames and persisted to where they came from both end with the second one's
  content (`PersistExample.SwapLosesContent`). `PersistResult.PersistExact` says, file by
  file, exactly when a file ends with what it held before.
- `OS.Exist` is false only for "no such file", so a path below a regular file exists.
  A lazily cached answer about a dropped path therefore differs from the one when Persist
  began exactly if the path did not exist then and an undropped live file above it is
  written (`PersistHooks.AnswerIsInitial`; `PersistExample.AnswerChanges` is an input).
  All files at or under the path still get the same answer, those it drops could not have
  been written (`DropIsHarmless`), and the disk ends the same.
- `Contain` puts the words of the text into lower case but not the keyword, so a keyword
  with a capital letter is never found, not even in itself (`PinyinLaws.CapitalsNotFound`);
  in lower case every part of a text is (`FindsItsParts`).
- A path marks a place of a struct as visited. Where a map key has a bracket in it, two
  places can share one (`StructPaths.PathsCollide`); clean names never do
  (`PathInjective`).
- `sortedFileSet.Set` on a present name lists it twice, and `Rename` of a name to itself
  deletes it (`SetPresentDuplicates`, `RenameToSelfDeletes`). The file system does neither:
  its operations keep list and map in step, which excludes the first, and the contract of
  `RenameFile` (through `FsSpec.RenamedOne`) leaves everything alone when the names are
  equal.

## Model

| member | source | states |
|---|---|---|
| BroadcastChain.StepInv | broadcast/listener.go:14-28 | every step of the notifier or a listener keeps the token-passing invariant: a filled slot's message is in its channel or held by exactly one listener, the tail slot is empty, and each listener's position, pending message and history agree |
| BroadcastChain.RunInv | broadcast/broadcast_instance.go:50-67 | the invariant holds at every state of every interleaving that starts from a new instance |
| BroadcastChain.RunGrows | broadcast/broadcast_instance.go:50-67 | along a run, sent payloads and handled payloads are only extended, and registration points never change |
| BroadcastChain.Delivery | broadcast/listener.go:14-28 | in every interleaving, what a listener has handled is a prefix of the payloads sent after its registration step: contiguous, in order, without gaps or repeats |
| BroadcastChain.TokenOfSlot | broadcast/listener.go:16-22 | a filled slot's message is in its channel and nobody holds it, or exactly one listener holds it and holds that very message |
| BroadcastChain.HandledSoFar | broadcast/listener.go:14-28 | under the invariant a listener has handled a prefix of what was sent since it registered, and all of it once it returned |
| BroadcastChain.SendsNeverBlock | broadcast/broadcast_instance.go:56-62 | neither the notifier's send into the tail, nor its termination send, nor a listener's put-back ever blocks |
| BroadcastChain.StubClosesLast | broadcast/listener.go:20-22 | a listener at or past its stub's close has handled everything sent since it registered, and the instance is closed |
| BroadcastChain.StoppedIsDrained | broadcast/listener.go:62-70 | when all stubs are closed, every listener has handled every payload from its registration on |
| BroadcastChain.WorkDecreases | broadcast/broadcast_instance.go:39-42 | each internal step, whoever takes it, decreases one measure |
| BroadcastChain.Progress | broadcast/broadcast_instance.go:39-42 | a closed instance that is not at rest always has an enabled internal step: no deadlock |
| BroadcastChain.QuietIsDelivered | broadcast/listener.go:14-28 | without Stop too: whenever no goroutine can move by itself, every listener has handled everything sent since it registered |
| BroadcastChain.StopTerminates | broadcast/broadcast_instance.go:39-42 | after close every internal run is finite, and one that cannot be extended ends with the notifier and all listeners returned and everything delivered |
| BroadcastTyped.TStepInv | broadcast/typed_broadcast.go:31-73 | every step of any client or goroutine keeps the lock discipline, each instance's chain invariant, and the drained state of retired instances |
| BroadcastTyped.NoSendAfterClose | broadcast/typed_broadcast.go:31-38 | no client is ever in Send or AddListener on an instance that is closed or whose notifier is ending, so no send on a closed channel |
| BroadcastTyped.RendezvousServed | broadcast/broadcast_instance.go:25-37 | a Send or AddListener under way is enabled now or right after the notifier's pending publish |
| BroadcastTyped.InstanceRun | broadcast/typed_broadcast.go:31-38 | every instance of a reachable broadcaster is the end of a run of its own chain, and receives only payloads of Notify calls of its type |
| BroadcastTyped.SentExactly | broadcast/typed_broadcast.go:31-38 | what an instance was sent is exactly the payloads of the Notify calls of its type since the last Stop, each once, in the order of their rendezvous |
| BroadcastTyped.EndToEnd | broadcast/typed_broadcast.go:31-73 | a listener added by AddListener has handled, at every later state before the next Stop returns, a prefix of the payloads that later Notify calls of its type sent; when that Stop returns, all of them |
| BroadcastCalls.NotifySends | broadcast/typed_broadcast.go:31-38 | a Notify call that has returned made exactly one send, of its payload to its type's instance, if the map held the type when it began, and none otherwise |
| BroadcastCalls.AddRegisters | broadcast/typed_broadcast.go:59-73 | an AddListener call that has returned made exactly one rendezvous, which added one listener of its type, in a map that holds it |
| BroadcastCalls.StaysKnown | broadcast/typed_broadcast.go:40-73 | a type with a listener stays in the map until the next Stop returns |
| BroadcastCalls.NotifyDelivered | broadcast/typed_broadcast.go:31-73 | from call to call: an AddListener returns, then a Notify(v) of its type begins and returns, then a Stop returns; the listener has handled v, at the place that call's send gave it |
| BroadcastTyped.StopDrainsEverything | broadcast/typed_broadcast.go:40-56 | when Stop returns, every instance it dropped is at rest with all payloads delivered, and the map is empty |
| BroadcastTyped.StopStepDecreases | broadcast/typed_broadcast.go:40-56 | while Stop holds the lock only goroutine steps, closes and its return are possible, and all but the return decrease the total work |
| BroadcastTyped.StopProgress | broadcast/typed_broadcast.go:40-56 | inside Stop some step is always enabled |
| BroadcastTyped.StopReturns | broadcast/typed_broadcast.go:40-56 | no run of more than the total work avoids Stop's return |
| BroadcastInstance.Instance.constructor | broadcast/broadcast_instance.go:14-23 | a new instance, with one empty channel on the heap, is the initial state of the chain |
| BroadcastInstance.Instance.NotifierStep | broadcast/broadcast_instance.go:50-67 | the select of the notifier on the fields is the chain's step; a new listener shares the tail channel |
| BroadcastInstance.Instance.PublishStep | broadcast/broadcast_instance.go:59-62 | filling the shared tail channel with a message that points at a freshly allocated one is the chain's publish; every other channel, message and listener is as before |
| BroadcastInstance.Instance.TerminateStep | broadcast/broadcast_instance.go:55-57 | the termination message goes into the tail |
| BroadcastInstance.Instance.TakeStep | broadcast/listener.go:16-16 | taking a message empties the channel that other listeners share, and is the chain's step |
| BroadcastInstance.Instance.PutBackStep | broadcast/listener.go:17-22 | the same message goes back, and the listener follows its pointer to the next channel or closes its stub |
| BroadcastInstance.Instance.CallOrClose | broadcast/listener.go:20-26 | the callback and the stub's close are the chain's steps |
| BroadcastInstance.Instance.Ready | broadcast/broadcast_instance.go:50-67 | a step would neither block nor panic on the heap exactly when it is enabled in the chain |
| BroadcastInstance.Instance.Step | broadcast/broadcast_instance.go:50-67 | every step on the heap is exactly the chain's and keeps the invariant |
| BroadcastInstance.Instance.CloseSendc | broadcast/broadcast_instance.go:39-42 | closing is the chain's close |
| BroadcastInstance.Instance.RunSchedule | broadcast/broadcast_instance.go:50-67 | under any schedule of wanted steps the heap follows the chain; each listener has handled a prefix, and once stopped all, of the payloads sent since it registered |
| LinkedList.List.Push | joint/linked_list.go:21-32 | the pointer queue refines a sequence: push appends |
| LinkedList.List.Pop | joint/linked_list.go:34-47 | pop returns and removes the first element, or nothing when empty |
| PumpSpec.StepInv | joint/scheduler.go:84-196 | every turn, capacity change, Breakoff and input close keeps conservation, filter-once, the queue counter's meaning and the closing facts |
| PumpSpec.Conservation | joint/scheduler.go:93-196 | at every reachable state, written ++ staged ++ filter(queued) = filter(read); the counter is 0 with an empty list or list length plus one; each value that left the list was filtered once, in order |
| PumpSpec.KeptAppend | joint/scheduler.go:148-161 | the filter distributes over concatenation |
| PumpSpec.KeptIs | joint/scheduler.go:148-161 | with no filter every value is kept; with one, each value as often as it came if the filter answers yes, and never otherwise |
| PumpSpec.StagingKept | joint/scheduler.go:148-161 | looking for the next value to write loses nothing that the filter lets through |
| PumpSpec.StagingTried | joint/scheduler.go:148-161 | it asks the filter about exactly the values it takes off the list |
| PumpSpec.AbortMeansDone | joint/pipe.go:106-118 | if the pump aborted and there was no Breakoff, the input was closed and the output is the whole filtered input |
| PumpSpec.OpenTurnAborts | joint/scheduler.go:93-196 | while the input is open a turn aborts exactly on the break signal, or with an empty queue on the closed reload channel, and only after Breakoff |
| PumpSpec.BreakAborts | joint/scheduler.go:171-176 | a broken pump can always take the break signal, also with its input open, and then stops with its queue as it is |
| PumpSpec.ClosedTurnDecreases | joint/scheduler.go:135-196 | once the input is closed, every turn but timer and reload ones aborts, shortens the queue, or takes the read case off the closed channel |
| PumpSpec.ClosedReadRecurs | joint/scheduler.go:135-146 | after the close was seen, a full queue's turn and a raised capacity make the closed read possible again |
| PumpSpec.ClosedReadRecursFromStart | joint/scheduler.go:135-146 | a run of a new joint reads the close twice, for every filter that lets some value through |
| PumpSpec.ClosedReadNeedsSetCap | joint/scheduler.go:135-146 | once the close was seen below the limit, it is never read again unless the capacity is set |
| PumpSpec.ClosedPumpEnds | joint/scheduler.go:93-103 | with the input closed, the number of turns other than timer and reload ones is bounded over whole runs by the state and the number of capacity changes: each allows at most one more closed read |
| PumpSpec.ClosedPumpMoves | joint/scheduler.go:84-91 | a closed pump that has not aborted always has a turn that makes progress |
| PumpSpec.ReadBelowLimit | joint/scheduler.go:135-146 | a value is read only while the queue is below the limit loaded in that turn |
| PumpSpec.QueueBounded | joint/scheduler.go:135-146 | under a fixed capacity the queue never exceeds it at any state of a run |
| PumpSpec.TotalBuffered | joint/pipe.go:56-74 | with capacity l (raised to the channels' buffers plus one), set at any time when the queue is not above it, read buffer, queue and write buffer never hold more than l together |
| PumpSpec.RoomExactly | joint/pipe.go:56-74 | with the input open and the buffers full, a value can be taken exactly while buffers and queue hold less than the capacity and the pump has not aborted: the whole of it is available |
| PumpSpec.FillRun | joint/scheduler.go:93-146 | for every limit and every list of values no longer than it, the first of which the filter lets through, a run of a new joint takes them all before anything is written |
| PumpSpec.FillsUp | joint/pipe.go:56-74 | with SetCap, a run of a new joint takes exactly what the capacity leaves beside the buffers, and then no value more |
| PumpSpec.LimitFor | joint/pipe.go:56-74 | the stored limit is at least 1, and with the channels' buffers makes up the capacity asked for, or one more than the buffers if that is larger |
| Joint.Scheduler.SetCap | joint/pipe.go:56-74 | on 64-bit unsigned numbers the subtraction does not wrap; it fails exactly on the largest number; otherwise limit and buffers make up the capacity, and the new state is the specified one |
| Joint.Scheduler.Breakoff | joint/pipe.go:87-95 | breaks the joint once and is idempotent |
| Joint.Scheduler.RunOnce | joint/scheduler.go:84-91 | one turn of the class is the specified turn and keeps the invariant |
| Joint.Scheduler.WaitRead | joint/scheduler.go:93-119 | the turn with an empty queue, as specified |
| Joint.Scheduler.WaitReadOrWrite | joint/scheduler.go:121-133 | the turn with a waiting value, as specified: queue, select cases, flags and history |
| Joint.Scheduler.WriteTurn | joint/scheduler.go:126-128 | a turn that writes, as specified |
| Joint.Scheduler.ReadTurn | joint/scheduler.go:129-132 | a turn that reads, sees the input closed or is broken off, as specified |
| Joint.Scheduler.TryReadOrWrite | joint/scheduler.go:135-146 | a full queue hides the input and leaves the real channel in the read case afterwards |
| Joint.Scheduler.HandleSend | joint/scheduler.go:163-169 | the staged value is written and the next value that passes the filter is staged |
| Joint.Scheduler.PrepareNextWrite | joint/scheduler.go:148-161 | the loop stages the first queued value the filter keeps, and asks the filter about each popped value once |
| Joint.Scheduler.HandleRecv | joint/scheduler.go:171-196 | a value is queued; a break aborts; a closed input is replaced in both selects and remembered |
| Joint.Scheduler.RunTurns | joint/pipe.go:114-116 | the loop makes the specified turns and stops at the abort |
| Joint.Scheduler.Transport | joint/pipe.go:106-118 | the output is always a prefix of the filtered input; an abort without outside Breakoff means all of it; then the joint is broken off |
| Ordering.SortedOfSorted | mfs/sorted_fileset.go:95-98 | the model of sort.Strings sorts (its own contract: it permutes) |
| Ordering.AddedName | mfs/sorted_fileset.go:95-98 | appending an absent name and sorting keeps a list strictly sorted and adds just that name |
| Ordering.StrictListingUnique | mfs/sorted_fileset.go:29-44 | a set of names has only one strictly sorted listing, so Foreach's order is determined |
| SortedFileSet.SetPresentDuplicates | mfs/sorted_fileset.go:59-67 | Set on a present name would list it twice |
| SortedFileSet.RenameToSelfDeletes | mfs/sorted_fileset.go:80-93 | Rename of a name to itself would delete it |
| SortedFileSet.NamesInSorted | mfs/sorted_fileset.go:29-44 | the names Foreach visits are strictly sorted and exactly those in the directory |
| SortedFileSet.SortedFileSet.Set | mfs/sorted_fileset.go:59-67 | the map gains the entry and the list the name; list and map stay in step exactly if the name was absent |
| SortedFileSet.SortedFileSet.Remove | mfs/sorted_fileset.go:69-78 | the entry goes, from map and list, exactly if present |
| SortedFileSet.SortedFileSet.Rename | mfs/sorted_fileset.go:80-93 | the entry moves to the new name, replacing what was there, and renaming to itself deletes it; list and map stay in step |
| SortedFileSet.SortedFileSet.InsertName | mfs/sorted_fileset.go:95-98 | the list is the sorted one with the name once more |
| SortedFileSet.SortedFileSet.RemoveName | mfs/sorted_fileset.go:100-110 | the shift in place leaves the strictly sorted list without just that name |
| SortedFileSet.SortedFileSet.Snapshot | mfs/sorted_fileset.go:29-44 | each live file under the directory once, in name order, with its own object |
| MemFile.WithoutHas | mfs/event.go:103-113 | dropping an id keeps exactly the other handlers |
| MemFile.RemoveHandlerByID | mfs/event.go:103-113 | the shift in place drops exactly the handlers with the id |
| MemFile.Bus.OnEvent | mfs/event.go:47-67 | a fresh id, and one more subscription in the list of its type |
| MemFile.Bus.UnEvent | mfs/event.go:74-81 | the handlers with the stub's id go from its type's list and the wildcard one, and no others; unbinding again changes nothing |
| MemFile.Bus.UnboundIs | mfs/event.go:74-81 | unbinding the stub of a subscription in force drops just that one, since ids are given once |
| MemFile.Bus.TriggerRemoved | mfs/event.go:83-97 | over the snapshot of handlers, exactly the file objects of that name unsubscribe |
| MemFile.Bus.TriggerRenamed | mfs/event.go:83-97 | exactly the subscribed objects of the old name take the new one |
| MemFile.Bus.TriggerMoved | mfs/event.go:83-97 | after a move in an index, the rename event makes every indexed object go by its key again |
| MemFile.MFile.RegistListener | mfs/mem_file.go:32-35 | a new file gets its two subscriptions and the bus stays consistent with all objects |
| MemFile.MFile.UnregistListener | mfs/mem_file.go:37-44 | only for its own name, a file gives up both subscriptions |
| MemFile.MFile.Rename | mfs/mem_file.go:46-51 | the name changes exactly if it was the old one |
| MemFile.MFile.Map | mfs/mem_file.go:61-75 | the function sees the old content and the last of its writes is the new one; the file is dirty |
| Paths.UnderIs | mfs/utils.go:61-86 | a file in a clean directory is that directory followed by a clean rest, which is what trimPrefix returns |
| Paths.UnderLinear | mfs/utils.go:81-86 | two directories above one file are nested |
| Paths.SlashIgnored | mfs/utils.go:81-96 | a trailing slash of a dropped path changes nothing, and no path means the root |
| Paths.JoinInjective | mfs/utils.go:72-72 | joining clean names to a directory is injective |
| Paths.JoinKeepsUnder | mfs/utils.go:72-86 | joining keeps and reflects lying in a directory |
| Paths.AncestorIsAbove | mfs/utils.go:81-86 | the directories MkdirAll creates are exactly those the path lies in |
| Paths.ParentIsAncestor | mfs/mem_filesystem.go:331-343 | a path's directory and that directory's ancestors are all its ancestors |
| Paths.DirOfJoined | mfs/utils.go:111-113 | the target directory recovered from an absolute name is the persist root, whatever path is then joined to it |
| FsSpec.ApplyOpInv | mfs/mem_filesystem.go:130-165 | create, set content, remove, erase, rename and copy keep names clean and tombstones off live files |
| FsSpec.ApplyOpsInv | mfs/mem_filesystem.go:304-310 | so does any sequence of them: tombstones never name a live file |
| FsSpec.TargetFacts | mfs/mem_filesystem.go:214-224 | the targets of a directory rename are distinct and none is a source |
| FsSpec.RenamedEachMoves | mfs/mem_filesystem.go:214-242 | the loop of single renames moves every listed file, replaces what was at the targets and leaves the rest |
| FsSpec.RenameDirectory | mfs/mem_filesystem.go:214-242 | renaming a directory, neither path equal to or inside the other and the source no file, is exactly the old map with every from/rest at to/rest and everything else as it was |
| FsSpec.RebasedIs | mfs/mem_filesystem.go:268-281 | replacing the leading directory is what Rename's join does, stays clean, and is undone by the reverse |
| FsSpec.RenameFileIs | mfs/mem_filesystem.go:226-242 | renaming a file moves its entry, over what was there; the old name becomes no tombstone and the new one is none |
| FsSpec.RemovedIs | mfs/mem_filesystem.go:144-165 | Remove takes exactly the file, or with none of that name everything below it, and leaves exactly those names as new tombstones |
| FsSpec.ErasedIs | mfs/mem_filesystem.go:167-183 | Erase takes the same files and leaves the tombstones as they were |
| FsSpec.TrailingSlashIgnored | mfs/mem_filesystem.go:300-302 | removing, erasing or copying a name with a trailing slash, or to one, does nothing |
| Paths.SlashOptional | mfs/utils.go:54-59 | the leading slash of a name may be left out |
| FsSpec.CopyPanics | mfs/mem_filesystem.go:268-298 | Copy panics if and only if source and target are equal and there is something to copy |
| FsSpec.CopiedEachCopies | mfs/mem_filesystem.go:268-298 | the loop of single copies gives every target what a copy of its source holds and leaves the rest |
| FsSpec.CopyDirectory | mfs/mem_filesystem.go:268-298 | copying a directory, under the conditions of RenameDirectory, is exactly the old map with every to/rest set to a copy of from/rest, whose tombstones go |
| PersistSpec.CopyFileReads | mfs/mem_filesystem.go:283-298 | after a Copy of a file, source and target read the same on every disk, one is dirty exactly if the other is, a clean copy still comes from the source's original, and no other file or tombstone changes |
| PersistSpec.CopyDirectoryReads | mfs/mem_filesystem.go:268-281 | the same for every file of a copied directory and its target |
| FileSystem.MemFileSystem.CreateFileWithOrigFile | mfs/mem_filesystem.go:130-142 | the new object is indexed under its name, the tombstone goes, and the invariant over all objects ever created holds, replaced ones included |
| FileSystem.MemFileSystem.SetContent | mfs/mem_file.go:110-114 | the data is the new content; the state changes exactly if the object is the indexed one |
| FileSystem.MemFileSystem.LoadContent | mfs/mem_file.go:89-97 | the set content, or what the original file holds on disk now |
| FileSystem.MemFileSystem.Map | mfs/mem_file.go:61-75 | the function gets the loaded content and its last write becomes the content; the state changes exactly if the object is the indexed one |
| FileSystem.MemFileSystem.RemoveFile | mfs/mem_filesystem.go:158-165 | a present file becomes a tombstone; otherwise nothing changes |
| FileSystem.MemFileSystem.RenameFile | mfs/mem_filesystem.go:226-242 | the entry moves, a target is replaced without a tombstone, and the moved file still goes by its key |
| FileSystem.MemFileSystem.MoveEntry | mfs/mem_filesystem.go:236-236 | the index entry moves while the file object still goes by its old name |
| FileSystem.MemFileSystem.MoveIndexed | mfs/mem_filesystem.go:236-237 | index and file object take the new name together |
| FileSystem.MemFileSystem.ReadDir | mfs/mem_filesystem.go:112-120 | exactly the live files of the directory, or of its tree, once each and in order |
| FileSystem.MemFileSystem.Rename | mfs/mem_filesystem.go:214-224 | the state is that of the single rename, or of the loop over the snapshot |
| FileSystem.MemFileSystem.Remove | mfs/mem_filesystem.go:144-156 | the file, or else every file in the directory, becomes a tombstone |
| FileSystem.MemFileSystem.Erase | mfs/mem_filesystem.go:167-183 | the same, leaving no tombstones |
| FileSystem.MemFileSystem.CopyFile | mfs/mem_filesystem.go:283-298 | a dirty file's content or a clean file's original path arrives at the target; on itself it panics with the file removed |
| FileSystem.MemFileSystem.Copy | mfs/mem_filesystem.go:268-281 | panics exactly when FsSpec.CopyPanics says, and otherwise ends in the specified state, which FsSpec.CopyDirectory gives for directories |
| FileSystem.MemFileSystem.RunOps | mfs/mem_filesystem.go:130-298 | after any sequence of creations (with or without an original), copies, renames, removals, erasures and content changes the heap invariant holds and the state is that of the sequence |
| FileSystem.MemFileSystem.IndexedFilesListen | mfs/mem_filesystem.go:130-165 | every indexed file goes by its key and holds its rename and removed subscriptions |
| FileSystem.MemFileSystem.DropIfExist | mfs/mem_filesystem.go:185-202 | one more hook around the persist function |
| FileSystem.MemFileSystem.PersistFile | mfs/mem_filesystem.go:324-343 | the effect of persisting one file on the disk, failures included |
| FileSystem.MemFileSystem.Dropped | mfs/mem_filesystem.go:191-202 | a file is dropped exactly if the decided answer of a dropped path it is at or under is yes; one that the initial disk drops is, and one dropped beyond that could not have been written |
| FileSystem.MemFileSystem.HookDrops | mfs/mem_filesystem.go:191-202 | one hook's test is the decided answer, whichever file at or under the path asks and whether it is cached |
| FileSystem.MemFileSystem.Persist | mfs/mem_filesystem.go:86-103 | the disk ends as if every drop decision had been taken at the start; an empty root is an error |
| FileSystem.MemFileSystem.RemoveMarked | mfs/mem_filesystem.go:98-101 | whatever order the map yields, all tombstones' trees are removed |
| FileExistCache.Cache.Exist | mfs/file_exist_cache.go:15-33 | a cached answer is repeated, a new one is asked for and kept |
| PersistSpec.RemoveMore | mfs/mem_filesystem.go:98-101 | removals of trees add up, so their order does not matter |
| PersistSpec.PersistFileGrows | mfs/mem_filesystem.go:331-343 | persisting a file makes exist at most its target, the directories above it and, as OS.Exist has it, what is below it; it removes nothing |
| PersistSpec.UnrelatedExistence | mfs/mem_filesystem.go:191-202 | a dropped path that a file is not at or under exists afterwards exactly if it did before or lies below the file written |
| PersistSpec.NewAnswer | mfs/mem_filesystem.go:331-343 | a path that comes to exist without a file at or under it being persisted has a file above it |
| PersistSpec.BelowBlocked | mfs/mem_filesystem.go:331-343 | below a path with a regular file above it persisting changes nothing |
| PersistSpec.BlockedByFile | mfs/mem_filesystem.go:331-343 | below a regular file nothing is written and no directory made |
| PersistSpec.PersistFileIs | mfs/mem_filesystem.go:331-343 | a file is written exactly if it is to be, has content and nothing stands in the way |
| PersistSpec.PersistFileSucceeds | mfs/mem_filesystem.go:331-343 | with the target free and no file above it, the write happens with the right content |
| PersistResult.ReadsGiven | mfs/mem_filesystem.go:324-329 | at its turn a file reads what was set, or what an earlier file wrote over its original, or what the original held initially |
| PersistResult.OpenAtTurn | mfs/mem_filesystem.go:331-343 | what is in a file's way at its turn: the initial disk, or an earlier file above it that was written |
| PersistResult.PersistTracks | mfs/mem_filesystem.go:86-97 | after any prefix of the listing the disk is the initial one with what lands of it |
| PersistResult.PersistedFiles | mfs/mem_filesystem.go:86-97 | Persist without hooks in closed form: the initial disk with what lands, file by file |
| PersistResult.TombsOver | mfs/mem_filesystem.go:98-101 | the tombstones take away a live file exactly if one lies above it |
| PersistResult.PersistExact | mfs/mem_filesystem.go:86-103 | on any disk whose files lie in directories, a live file with content ends on disk with its prior content if and only if no tombstone, file on disk, directory, file that lands above it, or different content landing earlier on its original is in the way |
| PersistResult.PersistPlacesFiles | mfs/mem_filesystem.go:86-103 | all of them do if and only if none is hindered, and nothing ever remains at or under a tombstone |
| PersistResult.PersistPairwise | mfs/mem_filesystem.go:86-103 | the same as conditions between pairs of files, where no original is missing on disk |
| PersistResult.PersistElsewhere | mfs/mem_filesystem.go:86-103 | a path that no file is written to and no tombstone is at or above holds on disk what it held |
| PersistResult.RemovedIsGone | mfs/mem_filesystem.go:86-103 | after a Remove, Persist leaves nothing at or under what it took |
| PersistResult.ErasedStaysOnDisk | mfs/mem_filesystem.go:167-183 | after an Erase, what was on disk under those names stays, unless an older tombstone lies above |
| PersistResult.PersistFileKeepsTree | mfs/mem_filesystem.go:331-343 | persisting a file keeps the disk a tree: the directories above what it writes exist |
| PersistResult.OverwrittenOriginal | mfs/mem_filesystem.go:324-343 | an earlier file landing on a later one's original: the later one ends with that content, which is wrong if it differed |
| PersistHooks.HooksRestrict | mfs/mem_filesystem.go:86-103 | with any DropIfExist hooks, Persist does to the disk what it does without hooks to the files that none of them drops by the disk at the start |
| PersistHooks.PersistExactWithHooks | mfs/mem_filesystem.go:86-103 | so a file that no hook drops ends with its prior content if and only if it is placeable among those |
| PersistHooks.DroppedStays | mfs/mem_filesystem.go:191-202 | a file at or under a dropped path where a file or directory stands stays on disk as it was, unless a tombstone takes it away |
| PersistHooks.MissingDropsNothing | mfs/mem_filesystem.go:191-202 | dropped paths where nothing stands on disk, nor a file above them, change nothing about Persist |
| PersistHooks.TracksAtTurn | mfs/mem_filesystem.go:86-97 | before the turn of any listed file the disk is the initial one with what lands of the undropped files before it |
| PersistHooks.AboveAtTurn | mfs/mem_filesystem.go:191-202 | at the turn of a file at or under a dropped path, a file stands above the path exactly if one did initially or an undropped live file above it is written: that comes earlier |
| PersistHooks.CacheAnswer | mfs/file_exist_cache.go:15-33 | cached or not, the answer about a dropped path is the decided one, the same for every file at or under it: the path existed when Persist began, or an undropped live file above it is written |
| PersistHooks.AnswerIsInitial | mfs/file_exist_cache.go:15-33 | at every turn the answer is the one when Persist began if and only if the path existed then or no undropped live file above it is written |
| PersistHooks.CacheAsked | mfs/file_exist_cache.go:15-33 | a lookup keeps every cached answer the decided one |
| PersistHooks.CacheKept | mfs/file_exist_cache.go:15-33 | so does persisting a file whose hooks were all asked |
| PersistHooks.DropIsHarmless | mfs/mem_filesystem.go:191-202 | a file dropped only because of a file written above its path could not have been written itself |
| PersistExample.SwapRenames | mfs/mem_filesystem.go:214-242 | loading two files and swapping them by three renames |
| PersistExample.SwapLosesContent | mfs/mem_filesystem.go:86-103 | persisting that to where they came from leaves both with the second one's content |
| PersistExample.StackedRuns | mfs/mem_filesystem.go:130-142 | creating /a and /a/b/c with content |
| PersistExample.AnswerChanges | mfs/mem_filesystem.go:191-202 | with /a/b dropped if it exists and nothing on disk: the path does not exist when Persist begins, and does when /a/b/c asks |
| PinyinMatch.MatchBytes | pinyin/pinyin.go:188-193 | the length of the longest common prefix |
| PinyinMatch.TryAliasesSound | pinyin/pinyin.go:66-96 | an index that the search returns ends a segmentation of the keyword |
| PinyinMatch.TryAliasesComplete | pinyin/pinyin.go:66-96 | a segmentation is never missed, through backtracking |
| PinyinMatch.FindKeywordExact | pinyin/pinyin.go:66-96 | an end index is returned exactly when the keyword splits into whole aliases of consecutive terms and a whole last one, or a non-empty prefix when not strict |
| PinyinMatch.Find | pinyin/pinyin.go:43-60 | the leftmost start that matches and the raw text from there to the end of the match the search meets first, or -1 exactly when no start matches |
| PinyinMatch.FoundUnique | pinyin/pinyin.go:43-60 | what Find promises fixes its result |
| PinyinLaws.FindKeywordFirst | pinyin/pinyin.go:66-96 | of several matches from one term the search meets the one whose choice of aliases comes first in dictionary order, and returns -1 exactly when there is no choice |
| PinyinMatch.Slice | pinyin/pinyin.go:48-55 | glued terms and gaps are one slice of the text |
| PinyinText.SpansOrdered | pinyin/pinyin.go:115-150 | terms are non-empty rune ranges in order without overlap |
| PinyinText.SpansCover | pinyin/pinyin.go:115-150 | every rune with a reading, letter or digit is in a term |
| PinyinLaws.TermsAreThePieces | pinyin/pinyin.go:115-150 | where no letter or digit has a reading, the terms are exactly the runes with a reading and the runs of letters and digits that cannot be made longer |
| PinyinLaws.EncodedRune | pinyin/pinyin.go:156-159 | a rune's bytes give the rune back, the first tells how many they are, and no fewer would do |
| PinyinText.EncodeSlice | pinyin/pinyin.go:119-126 | a rune range is, byte for byte, the slice of the text between the encoded lengths |
| PinyinText.AliasesOf | pinyin/pinyin.go:167-180 | a reading in lower case and then, if not strict, the initials it starts with, in their order |
| PinyinText.AliasesAre | pinyin/pinyin.go:167-180 | as a set the aliases are the readings in lower case and, if not strict, the initials they start with |
| PinyinText.MakePinyinTerm | pinyin/pinyin.go:167-186 | the aliases of all readings in order, at the given offset |
| PinyinText.WordTerm | pinyin/pinyin.go:130-143 | a maximal run of letters and digits, in lower case, at its byte offset |
| PinyinText.TextToSentence | pinyin/pinyin.go:115-150 | the terms render exactly the spans of the text |
| PinyinText.SentenceInText | pinyin/pinyin.go:39-41 | on valid UTF-8 the terms' offsets and lengths are byte-exact, ordered and non-overlapping |
| PinyinText.SentenceUnique | pinyin/pinyin.go:115-150 | a text has one sentence |
| PinyinText.KeywordToBytes | pinyin/pinyin.go:98-113 | first readings, letters and digits, nothing else |
| PinyinText.Contain | pinyin/pinyin.go:11-24 | on texts: the leftmost segmentation of the keyword and its raw text |
| PinyinText.ContainedUnique | pinyin/pinyin.go:11-24 | that promise fixes substring and index |
| PinyinLaws.FindsItsParts | pinyin/pinyin.go:11-24 | a text finds its own parts, whatever stands around them: for a part that cuts no word in two and has a term in it, with its letters in lower case as the keyword, the index is from 0 to where that term starts |
| PinyinLaws.CapitalsNotFound | pinyin/pinyin.go:98-113 | a keyword with a capital letter is found nowhere, since words of the text are put into lower case and keywords are not |
| StringLists.CommonCounts | stringutil/strings.go:156-173 | multiplicities of the intersection of two sorted lists are the lesser ones |
| StringLists.MergedCounts | stringutil/strings.go:233-256 | those of the union are the greater ones |
| StringLists.RestCounts | stringutil/strings.go:23-43 | those of the difference are truncated differences |
| StringLists.CommonSorted | stringutil/strings.go:156-173 | the intersection is sorted |
| StringLists.MergedSorted | stringutil/strings.go:233-256 | the union is sorted |
| StringLists.RestSorted | stringutil/strings.go:23-43 | the difference is sorted |
| StringLists.MinCountIsMin | stringutil/strings.go:12-20 | the multiplicity claimed for Interact is the minimum over all lists |
| StringLists.MaxCountIsMax | stringutil/strings.go:46-51 | the multiplicity claimed for Union is the maximum over all lists |
| StringLists.MinCountSplit | stringutil/strings.go:175-203 | the minimum over two halves combined |
| StringLists.MaxCountSplit | stringutil/strings.go:205-231 | the maximum over two halves combined |
| StringLists.InteractStrings | stringutil/strings.go:156-173 | the index loop yields a sorted list with the lesser multiplicities |
| StringLists.AndStrings | stringutil/strings.go:233-256 | the index loop yields a sorted list with the greater multiplicities |
| StringLists.InteractList | stringutil/strings.go:175-203 | the split recursion terminates and intersects the whole range |
| StringLists.AndList | stringutil/strings.go:205-231 | the split recursion terminates and unites the whole range |
| StringLists.Interact | stringutil/strings.go:12-20 | for any number of lists, sorted with the minimum multiplicities; the arguments keep their strings and end up sorted unless one is empty |
| StringLists.Union | stringutil/strings.go:46-51 | for any number of lists, sorted with the maximum multiplicities; the arguments end up sorted |
| StringLists.Substract | stringutil/strings.go:23-43 | sorted with the truncated differences, also when both arguments are one slice |
| StringLists.SubstractSorted | stringutil/strings.go:26-42 | the index loop yields a sorted list with the truncated differences |
| StringLists.SortedUnique | stringutil/strings.go:54-66 | sorted lists with equal multiplicities are equal |
| StringLists.EqualStrings | stringutil/strings.go:54-66 | decides multiset equality; lists of different length are left unsorted |
| WaterfallSpec.TransFits | fn/waterfall.go:288-325 | what an accepted predecessor returns fits the next function after error stripping and abort appending |
| WaterfallLaws.AcceptedExactly | fn/waterfall.go:288-315 | two neighbours are accepted exactly if the second takes the first's outputs but for an error in last place, or those and a parameterless function |
| WaterfallLaws.IsErrTypeIs | fn/waterfall.go:327-331 | an error type is one assignable to Go's interface type error |
| WaterfallLaws.ConditionFnIs | fn/waterfall.go:356-368 | Case and IfThen take exactly functions whose outputs are their inputs, but for a parameterless function in last place |
| WaterfallSpec.WrappedTypes | fn/waterfall.go:94-106 | a wrapper calls its function with what that declares, and either branch returns what it declares |
| WaterfallSpec.WrappersWellTyped | fn/waterfall.go:86-134 | Case and IfThen wrappers return what they declare |
| WaterfallSpec.RunStep | fn/waterfall.go:219-230 | one turn of the loop: a typed call that ends the run for one of four reasons, or passes suitable input on |
| WaterfallSpec.OrderlyCons | fn/waterfall.go:219-230 | one more call in front keeps a run orderly |
| WaterfallSpec.RunIsOrderly | fn/waterfall.go:201-230 | every call has the arity and types its function declares, each follows from the one before, and the run is a prefix that stops at the first error, abort or panic |
| WaterfallSpec.RunAllIsOrderly | fn/waterfall.go:201-230 | the same for a whole run; with arguments that are not assignable to the first function's parameters nothing is called |
| WaterfallLaws.FirstCall | fn/waterfall.go:214-221 | the first function is called with the run's arguments, and with the runner's abort function exactly if it wants one parameterless function more |
| WaterfallLaws.RunEnds | fn/waterfall.go:219-230 | a run goes on as long as each function returns without an error and without aborting; it fails exactly if its last call ends in an error, with that error, and an abort counts only where there is none |
| WaterfallLaws.PickErrIs | fn/waterfall.go:222-225 | the error picked is the last output if its type is assignable to error and it is no nil interface |
| WaterfallSpec.SkippedPassesInput | fn/waterfall.go:105-131 | a failed condition passes the input on and does not stop |
| WaterfallLaws.HitIsItsFunction | fn/waterfall.go:114-134 | in accepted pipelines, putting a function inside an IfThen whose condition holds changes neither how a run stops nor any call, but that the wrapper is also handed an abort function if its function takes none |
| WaterfallLaws.SkippedIsAbsent | fn/waterfall.go:105-131 | a skipped IfThen or Case is not there: the next function is called with what it would have been called with right after the function before |
| WaterfallLaws.CaseReturnsItsFunctions | fn/waterfall.go:94-106 | a hit Case that returns, returns what its function did |
| WaterfallSpec.InnerCallTyped | fn/waterfall.go:94-131 | in an orderly run the function inside a Case or IfThen is called with what it declares |
| WaterfallSpec.CasePasses | fn/waterfall.go:94-106 | a hit Case lets the run go on exactly if its function does and calling its last argument, whoever that is from, neither aborts nor panics |
| WaterfallSpec.CaseAfter | fn/waterfall.go:86-108 | in an accepted pipeline: exactly if its function does, and the function before it returned something for the last parameter whose call is inert |
| WaterfallSpec.CaseGuard | fn/waterfall.go:288-325 | by signatures alone: a hit Case always stops the run if and only if the function before it leaves the last parameter to the runner |
| WaterfallSpec.CaseMayNotStop | fn/waterfall.go:94-106 | the same accepted pipeline with a returned function: inert lets the run go on, one that aborts stops it, nil or panicking crashes it |
| Waterfall.FunctionRunner.CaseBy | fn/waterfall.go:86-108 | accepts exactly functions whose outputs repeat their inputs but for an abort function, and appends the wrapper that calls its last argument |
| Waterfall.FunctionRunner.IfThenBy | fn/waterfall.go:114-134 | the same for IfThen |
| Waterfall.FunctionRunner.MustBeConditionThenFunction | fn/waterfall.go:356-368 | the loop over the types decides that condition |
| Waterfall.FunctionRunner.CheckFunctions | fn/waterfall.go:254-267 | every element is a function |
| Waterfall.FunctionRunner.GenPipelineFunctions | fn/waterfall.go:239-252 | succeeds exactly when all neighbours' types match, with their transformations |
| Waterfall.FunctionRunner.RunPipeline | fn/waterfall.go:201-237 | the calls of the specified run; its error is a function's, a panic's or none as the run stopped; OnErr once exactly for a returned error |
| Waterfall.FunctionRunner.Run | fn/waterfall.go:146-171 | rejected pipelines call nothing; otherwise the specified calls and the error of the function that failed, of a panic, or none; OnErr once exactly for a returned error, Always once |
| Waterfall.PanicSkipsOnErr | fn/waterfall.go:146-237 | a run with a panicking function returns an error, calls Always once and OnErr not at all |
| Waterfall.RunFunctions | fn/waterfall.go:219-230 | the loop makes exactly the calls of the specified run |
| Decimal.ItoaRoundTrip | structs/structs.go:799-801 | printed numbers are digits without leading zeros and read back |
| Decimal.ItoaInjective | static/mockgen/mockgen.go:608-617 | decimal suffixes differ for different numbers |
| FreshNames.CandidatesDiffer | static/mockgen/mockgen.go:608-617 | the names tried are all different |
| FreshNames.CandidateNumber | static/mockgen/mockgen.go:608-617 | the names tried are the wanted one, then with _2, _3 and so on behind it |
| FreshNames.FreeStays | static/mockgen/mockgen.go:608-617 | a name keeps its wanted form exactly if that is free |
| FreshNames.NamedDistinct | static/mockgen/mockgen.go:608-617 | names given in turn, each the first free one, differ from the arguments and from each other |
| FreshNames.IdentifierAllocator.AllocateIdentifier | static/mockgen/mockgen.go:608-617 | terminates for every taken set, returns the first free candidate and adds only it |
| FreshNames.MockMethodIdentifiers | static/mockgen/mockgen.go:466-507 | each name of a mock method is the first candidate that neither an argument nor an earlier name has; all differ |
| FreshNames.RecorderIdentifiers | static/mockgen/mockgen.go:534-558 | the same for a recorder method |
| FreshNames.AliasesDiffer | static/mockgen/mockgen.go:320-325 | the aliases tried are all different |
| FreshNames.AliasNumber | static/mockgen/mockgen.go:320-325 | the aliases tried are the base, then with 0, 1 and so on behind it |
| FreshNames.FirstAliasesMore | static/mockgen/mockgen.go:308-335 | one more path, imported or not, keeps every alias the first one free at its path |
| FreshNames.FreeAlias | static/mockgen/mockgen.go:320-325 | the search terminates with the first alias neither used nor a keyword |
| FreshNames.InjectiveMore | static/mockgen/mockgen.go:332-333 | a fresh alias keeps the map injective |
| FreshNames.AssignAliases | static/mockgen/mockgen.go:308-335 | the alias map is injective and keyword-free, covers every path but the package's own, and gives each the first alias that no path before it has |
| StructPaths.IsIndexTokenLoop | structs/structs.go:704-719 | decides index tokens |
| StructPaths.BuildPath | structs/structs.go:722-733 | the loop builds the specified path |
| StructPaths.PathStart | structs/structs.go:722-733 | the first step stands behind a dot, index or not |
| StructPaths.PathInjective | structs/structs.go:679-685 | steps that are index tokens or non-empty names without dots and brackets have different paths if they differ, so a path marks one place as visited and no other |
| StructPaths.PathsCollide | structs/structs.go:722-733 | a name followed by an index, and the one name with that index in it, share a path |
| StructPaths.LastNodeAfterDot | structs/structs.go:468-471 | the last node is what follows the last dot |
| StructPaths.SplitFieldAndIndex | structs/structs.go:137-165 | splits exactly the steps of the form field[number] with the number in range; any other comes back whole with -1 |
| StructPaths.IndexedUnique | structs/structs.go:137-165 | a step has that form in one way only |
| StructPaths.SplitUnique | structs/structs.go:137-165 | so the split is determined |
| StructPaths.IndexStepIsToken | structs/structs.go:691-719 | a printed index step is an index token without dots |
| StructPaths.LastNodeOfSteps | structs/structs.go:722-733 | the last node of a path ending in a field and an index step is both together |
| StructPaths.FieldAndIndex | structs/structs.go:137-165 | field and printed index split back |
| StructPaths.PathRoundTrip | structs/structs.go:722-733 | the last node of the path built from steps ending in field and [n] splits back into that field and n, for n up to 2^63-1 |

## Left out

- Real channels, reflect.Select, timers and goroutines: their operations are steps with explicit enabling conditions, taken in any order; the one-hour timer is a step that changes nothing.
- Panicking or re-entrant listener callbacks: a callback is one step that returns.
- The reload signal itself and its race between SetCap and Breakoff; the unsynchronised reads in Len and Cap; changing the filter during a run.
- Joint.Scheduler.RunOnce: the select outcome is an argument of each turn, since the choice among ready channels is not the program's.
- LinkedList.List.Pop: the element type is a parameter; reflect values are not modelled.
- MemFile.Bus.OnEvent: ids are unbounded, so wrap-around after 2^32 subscriptions is not modelled.
- Created and modified events, and user callbacks on any event: no file object reacts to them, and callbacks that re-enter the file system are excluded.
- MemFile.MFile.Map: what the function does is a function of the old content, whatever part of it it reads; the sharing of a written byte slice with the caller is not modelled.
- FileSystem.MemFileSystem.Map: the same.
- FileSystem.MemFileSystem.CreateFileWithOrigFile: file names are clean paths; a valid name with empty or dot components is not covered, since join would not keep it.
- FileSystem.MemFileSystem.RenameFile: the same for the target.
- FileSystem.MemFileSystem.CopyFile: the same for the target.
- FileSystem.MemFileSystem.Rename: the same for source and target, nor a trailing slash on them.
- FileSystem.MemFileSystem.Copy: the same.
- FileSystem.MemFileSystem.RunOps: the same for every operation.
- FileSystem.MemFileSystem.Persist: the root is a clean absolute path, hooks are DropIfExist ones only, and the disk is a map of files and directories without links, permissions or a directory in place of an original file.
- FileSystem.MemFileSystem.DropIfExist: clean paths, with or without a trailing slash, or none; no dot components.
- CreateFile's panic on an invalid name, Create's walk of the disk, Mount, Walk, and expansion of home and environment in paths.
- PinyinText.Contain: the readings dictionary is a parameter, readings are lower-cased as ASCII, text is valid UTF-8, and FuzzyContain's fallback through strings.ToLower is not modelled.
- StringLists.Interact: arguments that overlap in part, and results that share storage with an argument, are not modelled; nil and empty results are one.
- Uniq, Remove, Contain and the other helpers of stringutil, which are easier relatives of those here.
- Waterfall.FunctionRunner.Run: a runner is run once, conditions are fixed booleans, a function value does the same each time it is called, OnErr and Always do not panic, functions are not variadic, and an untyped nil is not among a run's arguments.
- FreshNames.MockMethodIdentifiers: argument names are given, so their own collisions in getArgNames are not modelled; nor are parsing and emission of code.
- StructPaths.PathRoundTrip: int has 64 bits; filling and walking of structs through reflection is not modelled.
- fp, cli, http, sys, fmt, json, encoding and assert: thin wrappers, I/O or easier relatives of what is here.
