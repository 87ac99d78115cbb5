# A verified model of the AOS core of the robot code

The repository's `aos/` tree is the run-time of a robot: processes that talk through queues in shared memory, protected
by futex mutexes that survive the death of their owner, and a vision pipeline that turns camera images into blobs,
contours and lines. This project models the parts of it that are hard to get right and proves what they are for.

Two families are covered.

**Shared memory and logging.** `RobustMutex` is a state machine whose steps are single stores, atomic instructions and
futex calls of any number of threads, which may die between any two of them; its theorems hold in every state of every
run. `RobustCalls` says what its lock, trylock and condition wait return, and when. `QueueWait` is the state machine of blocking readers and writers over the generation-counter condition variable.
`RawQueues` is the queue itself, a class over a ring, a free list and reference counts, proved against the history of
all writes (`QueueSpec`, `QueueRing`, `QueuePool`); `IndexedReads` is what a reader with an index sees over a whole run,
and `QueueDriver` makes any calls on the class and shows that they are such a run. `FreeLists` is the state machine of the
lock-free free list and the reference counts. `WorkStacks` undoes pointer edits
after an interruption at any store. `BinaryLog`, `BinaryLogFile` and `LogFiles` are the paged log with its writer and reader.
`TypeCodec` and `TypeCaches` serialize message types and register them in shared memory. `RobustOffsets` is the
robust list on encoded links, whose offset can change while mutexes are locked.

**Vision.** `Thresholds`, `RangeImages`, `DisjointSets` and `FindBlobs` go from pixels to 4-connected components;
`Contours`, `ContourEdges` and `ContourTrace` trace outlines as linked nodes; `HierMerge` and `IntegralArrays` split a contour into
lines; `BoxFilters`, `Bresenham`, `BlobCodec` and `StreamReaders` are the in-place filter, line drawing, the blob
format and the length-delimited reader.

`dafny verify dfyconfig.toml` checks everything; there is nothing to run.

## Findings

- A log reader that comes to the end of a page when the next page has already been ended with nothing on it returns a
  record that was never written and then nothing for ever (aos/common/logging/binary_log_file.cc:146-163). Such a page
  arises exactly when `ForceNewPage` is called at position 0 of a later page; `GetWritePosition` does that only for a
  message that does not fit an empty page. `LogFiles.EmptyPageTrap` has the input, `LogFiles.AstrayIff` the exact condition.
- A log reader is led astray by a page that is ended at the wrong moment: `ReadNextMessage` loads the marker twice, once
  to see whether the page is over and once to see whether there is a record
  (aos/common/logging/binary_log_file.cc:146, aos/common/logging/binary_log_file.cc:153). If the first load gives 0 and
  `ForceNewPage` stores 2 before the second, the mark is taken for a record. `LogFiles.EndedPageTrap` has the input and
  `LogFiles.NeverAstray` with `LogFiles.RaceLeadsAstray` the condition.
- A log reader that waits is led astray by a signal: when `futex_wait` is interrupted, `continue` goes straight to the
  loop condition, and a marker that has meanwhile become 2 is taken for a record
  (aos/common/logging/binary_log_file.cc:139-155). The reader then returns a record that was never written, ends the
  process, or reads past the page, depending on its position alone. `LogFiles.EndedPageTrap` has the input.
- A message that does not fit an empty page gets a place all the same, with the writer's position past the page
  (aos/common/logging/binary_log_file.cc:221-227).
- `Serialize` adds up the field sizes in 16 bits and tests that sum against the space it is given
  (aos/common/queue_types.cc:18-27). It writes past the space exactly when the wrapped sum passes the test and the
  encoding is longer than the space, which takes field sizes of 65536 bytes or more. `TypeCodec.OverrunWitness` is a type
  that runs past the 768 bytes of `AddShm`.
- The offset of the robust list works exactly when it is even, because the lowest bit of a link is used as a flag
  (aos/linux_code/ipc_lib/aos_sync.cc:467-478).
- `IntegralArray::get` indexes before its vector exactly when both ends reduce to 0
  (aos/vision/blob/hierarchical_contour_merge.cc:27-28). `hier_merge` asks for that exactly when an arc, widened to the
  minimum length, goes round a whole number of times from the first point. Its first
  loop does so exactly when the number of points divides the length a pair is widened to, which is always so for one or
  two points; later on so does any event that covers the contour from its first to its last point and is not widened.
- After a split the left end of a piece of outline is one column before its run, outside the blob
  (aos/vision/blob/contour.cc:122-126): exactly when some run above touches both the run and the one before it.
- `GetMessage` takes the head off the free list with the link it has loaded before the compare-and-exchange
  (aos/linux_code/ipc_lib/queue.cc:169-178). If the head was meanwhile taken off and put back with another link,
  messages are lost or one that is in use goes back on the list. A pop breaks the free list exactly when the link is out
  of date (`FreeLists.StepExact`); `FreeLists.TakenTwice` is such a run.
- `DecrementMessageReferenceCount` decrements the count and then loads it (aos/linux_code/ipc_lib/queue.cc:103-119); the
  comment there takes it that only the last to decrement can see 0. When two references are dropped at once both threads
  can see 0, and the message is freed twice. `FreeLists.FreedAndTakenTwice` is such a run.
- The comment on `GetMessage` promises NULL for an error (aos/linux_code/ipc_lib/queue.h:130); the code ends the
  process instead (aos/linux_code/ipc_lib/queue.cc:172-174). The model follows the code.
- In `hier_merge` the end of the arc that comes after the joined one is looked up before the joined arc's own end is
  stored (aos/vision/blob/hierarchical_contour_merge.cc:204-206). When the two arcs make up the whole contour that
  reads an end which is out of date, which turns out to be harmless.

## How the original is modelled

- Integers are unbounded except where the width matters: 64-bit links, 16-bit and 32-bit fields in files and messages,
  the 16-bit sum in `Serialize`, and the casts of the blob format.
- A call that ends the process is a result (`Fatal`, `false`, `Aborted` or `dead`), not a precondition.
- The kernel's futex operations are steps with the effect their manual page gives them: FUTEX_LOCK_PI,
  FUTEX_TRYLOCK_PI, FUTEX_UNLOCK_PI, FUTEX_WAIT, FUTEX_WAKE, and the walk over the robust list of a dead thread.
- Memory is sequentially consistent.
- In `RawQueues` and `QueueDriver` whole calls are atomic, the recycle swap included, although GetMessage, FreeMessage
  and the swap do not hold `data_lock_`. What the free list and the counts do without a lock, load by load, is the
  subject of `FreeLists`.
- Reads, clocks, the error function of line fitting, pixels and thresholds are parameters.
- In `DoWriteMessage` with kOverride the model advances `data_start_` before it drops the reference to the oldest
  message, and the code after; both happen under the lock.

## Model

| member | source | states |
|---|---|---|
| `RobustMutex.RobustListUsable` | aos/linux_code/ipc_lib/aos_sync.cc:517-606 | In every run of any number of threads over any number of mutexes, with threads dying anywhere, at every store boundary: the forward walk of a live thread's robust list ends at its own head, and with the pending entry it covers every mutex whose futex word holds that thread's TID. |
| `RobustMutex.ListConsistentWhenIdle` | aos/linux_code/ipc_lib/aos_sync.cc:540-606 | Between operations, for any order of unlocking, the list holds exactly the mutexes the thread holds and owns, and every back pointer matches the forward pointers. |
| `RobustMutex.DeadThreadsOwnNothing` | aos/linux_code/ipc_lib/aos_sync.cc:517-606 | After the kernel has cleaned up after a dead thread, from nothing but its list and pending entry, no futex word holds that thread's TID, in any later state. |
| `RobustMutex.HeldIsOwned` | aos/linux_code/ipc_lib/aos_sync.cc:791-824 | A live thread whose acquisition has returned and whose release has not begun owns the futex word. |
| `RobustMutex.MutualExclusion` | aos/linux_code/ipc_lib/aos_sync.cc:665-864 | Over all interleavings of lock, trylock, unlock, condition wait and death, at most one live thread holds a mutex. |
| `RobustMutex.ReturnsOneIffOwnerDied` | aos/linux_code/ipc_lib/aos_sync.cc:651-728 | An acquisition, by lock, trylock or a condition wait, returns 1 if and only if some thread died owning the mutex since the last completed acquisition of it. |
| `RobustMutex.OwnerDiedSinceMeans` | aos/linux_code/ipc_lib/aos_sync.cc:651-661 | The bit of history that decides the return value says the same as the quantified statement about deaths and acquisitions. |
| `RobustMutex.StepInv` | aos/linux_code/ipc_lib/aos_sync.cc:502-606 | Every step, of any thread, keeps the invariant of every thread: list shape, back pointers, coverage and what each program point promises. |
| `RobustMutex.StepUntouched` | aos/linux_code/ipc_lib/aos_sync.cc:517-606 | No step of one thread touches what the invariant of another thread is about. |
| `RobustMutex.ListPushed` | aos/linux_code/ipc_lib/aos_sync.cc:540-560 | Adder::Add puts the mutex at the front of the list and leaves the rest in order. |
| `RobustMutex.ListRemoved` | aos/linux_code/ipc_lib/aos_sync.cc:573-594 | Unlinking a mutex from anywhere in the list leaves the others in order. |
| `RobustMutex.DeadOwnsNothing` | aos/linux_code/ipc_lib/aos_sync.cc:527-537 | If the list and the pending entry cover what a thread owns, the kernel's cleanup frees all of it. |
| `RobustMutex.NewsStep` | aos/linux_code/ipc_lib/aos_sync.cc:651-715 | Each step changes whether the next acquirer will be told of a death exactly as the history says it should. |
| `RobustMutex.RunInv` | aos/linux_code/ipc_lib/aos_sync.cc:502-945 | The invariant and the death news hold in every state of every run. |
| `RobustCalls.FailsOnlyIfTaken` | aos/linux_code/ipc_lib/aos_sync.cc:665-864 | In every run: a trylock returns 4 only if the mutex was owned at some time since it began, a lock returns 2 or 3 only if it was not free at some time since it began, and relocking after a wait returns only 0 or 1. |
| `RobustCalls.FreeIsTaken` | aos/linux_code/ipc_lib/aos_sync.cc:665-864 | Whatever the other threads do, a lock, trylock or relocking whose compare-and-swap finds the mutex free returns 0 with the mutex held at the fifth of its own steps after that, unless the thread dies before. |
| `RobustCalls.WinnerReturns` | aos/linux_code/ipc_lib/aos_sync.cc:651-728 | A thread that has got a mutex, with the kernel or without, keeps it: each of its steps brings it nearer to returning 0 or 1 with the mutex held. |
| `RobustCalls.CallInv` | aos/linux_code/ipc_lib/aos_sync.cc:665-864 | In every state of every run a thread inside an acquisition is there for the mutex and in the kind of call it began, in the kernel only if the word was not free since then, and about to fail only for that reason. |
| `RobustCalls.RunWords` | aos/linux_code/ipc_lib/aos_sync.cc:651-864 | In every state of every run a mutex without an owner is free, or its owner died. |
| `RobustCalls.KernelGives` | aos/linux_code/ipc_lib/aos_sync.cc:674-714 | A thread in the kernel for a mutex that nobody owns, or that was handed to it, can get it. |
| `RobustCalls.NeverStuck` | aos/linux_code/ipc_lib/aos_sync.cc:502-945 | In every state of every run each live thread that has not ended its process has a step other than dying. |
| `RobustCalls.WaitRelocks` | aos/linux_code/ipc_lib/aos_sync.cc:873-945 | Over any stretch of steps, whatever the others do: a thread that has begun condition_wait holds the mutex again the first time it is out of it, unless it dies or ends its process. |
| `RobustCalls.WaitStep` | aos/linux_code/ipc_lib/aos_sync.cc:873-945 | Each step keeps a thread in condition_wait, or it returns 0 or 1 with the mutex held, dies, or ends its process. |
| `RobustCalls.EndsOnlyByMisuse` | aos/linux_code/ipc_lib/aos_sync.cc:689-694 | A process ends itself only when it locks a mutex that it holds or unlocks one that it does not own. |
| `RobustCalls.SleeperIsSeen` | aos/linux_code/ipc_lib/aos_sync.cc:674-677 | A thread that goes to sleep for a mutex marks the word, and the owner's unlock then goes to the kernel instead of freeing it. |
| `RobustOffsets.LinkRoundTrip` | aos/linux_code/ipc_lib/aos_sync.cc:467-478 | A stored link leads back to its mutex if and only if the robust list offset is even, and is never mistaken for the head. |
| `RobustOffsets.LinkShift` | aos/linux_code/ipc_lib/aos_sync.cc:502-511 | Adding the change of offset to a stored link, with 64-bit wrap-around, gives the link for the new offset. |
| `RobustOffsets.AddLinks` | aos/linux_code/ipc_lib/aos_sync.cc:540-560 | The stores of Adder::Add on encoded links put the mutex first on the list, under any even offset. |
| `RobustOffsets.RemoveLinks` | aos/linux_code/ipc_lib/aos_sync.cc:573-594 | Copying the encoded link of a mutex over the link that leads to it takes exactly that mutex off the list, wherever it is. |
| `RobustOffsets.RemoveBacks` | aos/linux_code/ipc_lib/aos_sync.cc:573-594 | And redirecting one back pointer keeps all back pointers in agreement with the list. |
| `RobustOffsets.RobustList.Add` | aos/linux_code/ipc_lib/aos_sync.cc:540-560 | The mutex is first on the list, the others follow in order, and forward links and back pointers agree. |
| `RobustOffsets.RobustList.Remove` | aos/linux_code/ipc_lib/aos_sync.cc:573-594 | Exactly that mutex is off the list, from any place in it, and forward links and back pointers agree. |
| `RobustOffsets.RobustList.SetRobustListOffset` | aos/linux_code/ipc_lib/aos_sync.cc:502-511 | Changing the offset while mutexes are locked keeps the same mutexes in the same order under the new offset and the back pointers with them, touches no other link, and ends. |
| `RobustOffsets.Do` | aos/linux_code/ipc_lib/aos_sync.cc:502-594 | One lock, unlock or change of offset does to the list what its name says, whatever the offset was when the mutexes on it were locked. |
| `RobustOffsets.Run` | aos/linux_code/ipc_lib/aos_sync.cc:497-606 | After any locking, unlocking in any order and changing of the offset, in particular unlocking under another offset than locking: the list holds exactly the locked mutexes, the last one locked first, and the back pointers agree. |
| `QueueWait.NoLostWakeup` | aos/linux_code/ipc_lib/queue.cc:301-399 | In every run of blocking and non-blocking readers and writers, a thread committed to sleeping whose wait condition holds has a changed generation or a broadcast on its way, and one asleep with a changed generation has a wake call on its way, despite the skipped broadcasts. |
| `QueueWait.NobodyStuck` | aos/linux_code/ipc_lib/queue.cc:342-399 | When every thread is idle or asleep, no sleeper could proceed. |
| `QueueWait.OneHolder` | aos/linux_code/ipc_lib/queue.cc:309-344 | At most one thread is inside a queue's critical section. |
| `QueueWait.OwesOverStretch` | aos/linux_code/ipc_lib/aos_sync.cc:733-777 | Over any stretch of steps, what a thread owes goes down by exactly the steps it takes itself. |
| `QueueWait.OwesNeverBlocks` | aos/linux_code/ipc_lib/aos_sync.cc:733-777 | A thread that owes a wakeup waits for nobody. |
| `QueueWait.DeliveredBy` | aos/linux_code/ipc_lib/aos_sync.cc:733-777 | In every continuation, when a thread has just taken the last step it owes, nobody is asleep on the condition. |
| `QueueWait.WakeupDelivered` | aos/linux_code/ipc_lib/aos_sync.cc:733-777 | For a sleeper whose condition holds some other thread owes its wakeup: in every continuation of the run, whatever all threads do, that thread can always take its next step until it has taken the at most three steps it owes, and right after the last of them nobody is asleep on that condition. |
| `QueueWait.StepInv` | aos/linux_code/ipc_lib/aos_sync.cc:873-945 | Every step keeps the invariant that ties waiting threads to the queue, the `readable_waiting_` flag, the generations and the broadcasts in flight. |
| `QueueWait.RunInv` | aos/linux_code/ipc_lib/queue.cc:301-399 | That invariant holds in every state of every run. |
| `QueueWait.StepDecides` | aos/linux_code/ipc_lib/queue.cc:301-399 | With the lock held a call is decided, rightly, if and only if it does not block or can proceed; otherwise it goes on to wait; and nothing but deciding changes the queue. |
| `QueueWait.CallKept` | aos/linux_code/ipc_lib/queue.cc:301-399 | A thread stays in its call, through all waiting, until its own step with the lock held decides it, and keeps the result until it returns. |
| `QueueWait.RunLog` | aos/linux_code/ipc_lib/queue.cc:301-469 | In every run the queue is what the decided calls made it, none lost and none out of order: the history is exactly the messages of the writes that succeeded, in order, and each read takes out exactly what it is to take. |
| `QueueWait.BroadcastsIff` | aos/linux_code/ipc_lib/queue.cc:342-399 | In every run: `readable_waiting_` says exactly whether a read has gone to wait since the last write that succeeded; a write broadcasts if and only if it succeeds and one has; a read broadcasts if and only if it makes room in a full queue. |
| `QueueWait.WaitsUntilBroadcast` | aos/linux_code/ipc_lib/aos_sync.cc:873-900 | As long as nobody has broadcast since a waiting call loaded the generation, its own steps take it to sleep and nowhere else. |
| `QueueWait.NeverStuck` | aos/linux_code/ipc_lib/queue.cc:301-399 | In every state of every run each thread can take a step, or wants the lock and the thread that has it can. |
| `QueueWait.CanCall` | aos/linux_code/ipc_lib/queue.cc:301-399 | An idle thread can make any call. |
| `QueueRing.RingTests` | aos/linux_code/ipc_lib/queue.h:166-167 | The tests on `data_start_` and `data_end_` are true exactly when the abstract queue is empty or full. |
| `QueueRing.RingPush` | aos/linux_code/ipc_lib/queue.cc:338-340 | Storing at `data_end_` appends one message to the history the ring stands for. |
| `QueueRing.RingDrop` | aos/linux_code/ipc_lib/queue.cc:439-440 | Advancing `data_start_` drops exactly the oldest message. |
| `QueueRing.RingLast` | aos/linux_code/ipc_lib/queue.cc:401-407 | LastMessageIndex is the slot of the newest message, wrapped or not. |
| `QueueRing.RingIndexed` | aos/linux_code/ipc_lib/queue.cc:500-545 | The index arithmetic finds history position `*index`, or sees that it has left the ring, for every wrap-around. |
| `QueuePool.PoolGet` | aos/linux_code/ipc_lib/queue.cc:169-187 | Popping the free list gives one reference to a message that had none and keeps the pool invariant. |
| `QueuePool.PoolIncrement` | aos/linux_code/ipc_lib/queue.cc:121-127 | One more reference to a live message keeps the invariant. |
| `QueuePool.PoolDecrement` | aos/linux_code/ipc_lib/queue.cc:103-119 | Dropping a reference that is not the last keeps the invariant. |
| `QueuePool.PoolRelease` | aos/linux_code/ipc_lib/queue.cc:103-167 | Dropping the last reference and pushing the message on the free list keeps the invariant; it was not on it before. |
| `QueuePool.PoolExchange` | aos/linux_code/ipc_lib/queue.cc:135-151 | The recycle swap keeps the invariant and the size of the pool of the queue that frees the message. |
| `QueuePool.PoolAdopt` | aos/linux_code/ipc_lib/queue.cc:135-151 | The recycle swap keeps the invariant and the size of the recycle queue's pool. |
| `QueuePool.PoolNotExhausted` | aos/linux_code/ipc_lib/queue.cc:34-34 | A pool of ring capacity plus 20 messages is not empty while fewer than 20 messages are held outside the ring. |
| `RawQueues.BuildPool` | aos/linux_code/ipc_lib/queue.cc:225-235 | The allocation loop chains the new messages, each once, and touches no other header. |
| `RawQueues.RawQueue.constructor` | aos/linux_code/ipc_lib/queue.cc:189-242 | A new queue has an empty history and a full free list of capacity plus 20 messages. |
| `RawQueues.RawQueue.GetMessage` | aos/linux_code/ipc_lib/queue.cc:169-187 | Succeeds exactly when the free list is not empty; the caller then holds the only reference. |
| `RawQueues.RawQueue.GetMessageSucceeds` | aos/linux_code/ipc_lib/queue.cc:34-34 | While fewer than 20 messages are held outside the ring the free list is not empty. |
| `RawQueues.RawQueue.PushSlot` | aos/linux_code/ipc_lib/queue.cc:338-340 | A held message moves into the ring as the newest. |
| `RawQueues.RawQueue.PopSlot` | aos/linux_code/ipc_lib/queue.cc:439-446 | The oldest message leaves the ring and its reference becomes the caller's. |
| `RawQueues.RawQueue.Retain` | aos/linux_code/ipc_lib/queue.cc:121-127 | A reader of a message in the ring gets a reference of its own. |
| `RawQueues.RawQueue.PushFree` | aos/linux_code/ipc_lib/queue.cc:153-166 | The last reference gone, the message is first on the free list. |
| `RawQueues.RawQueue.Recycle` | aos/linux_code/ipc_lib/queue.cc:135-151 | A message from the recycle pool takes the freed one's place, the freed one is the newest in the recycle queue, and no message is lost or duplicated; fatal exactly when the recycle pool is empty. |
| `RawQueues.RawQueue.TakeSpare` | aos/linux_code/ipc_lib/queue.cc:136-141 | The freed message and the one taken from the recycle pool change pools with exact reference counts. |
| `RawQueues.RawQueue.FinishSwap` | aos/linux_code/ipc_lib/queue.cc:148-166 | The message taken from the recycle pool goes on the free list of the freeing queue. |
| `RawQueues.RawQueue.DecrementReferenceCount` | aos/linux_code/ipc_lib/queue.cc:103-151 | Exactly one reference goes, with the exact effect on the free list and on the recycle queue's history, holders and free list; fatal if and only if it was the last reference and the recycle queue has no free message to exchange for it. |
| `RawQueues.RawQueue.DoWriteMessage` | aos/linux_code/ipc_lib/queue.cc:301-344 | The exact new state of the queue and its recycle queue for each option, with room and without; fatal if and only if the message that loses its last reference cannot be exchanged, and never while fewer than 20 messages of the recycle queue are held; signals exactly when a reader was waiting. |
| `RawQueues.RawQueue.OverrideOldest` | aos/linux_code/ipc_lib/queue.cc:323-329 | kOverride on a full ring drops exactly the oldest message and its reference, with the exact effect on the recycle queue; fatal exactly when that message cannot be exchanged. |
| `RawQueues.RawQueue.FreeMessage` | aos/linux_code/ipc_lib/queue.h:135-138 | Gives back one reference, with the exact effect on the recycle queue, and is fatal exactly when the message cannot be exchanged; a NULL message changes nothing. |
| `RawQueues.RawQueue.ReadCommonStart` | aos/linux_code/ipc_lib/queue.cc:371-399 | Goes on exactly when there is something to read for this index, and otherwise fails or announces a waiting reader. |
| `RawQueues.RawQueue.ReadCommonEnd` | aos/linux_code/ipc_lib/queue.cc:361-369 | Signals exactly when the queue was full before the read and is not now. |
| `RawQueues.RawQueue.DoReadMessage` | aos/linux_code/ipc_lib/queue.cc:409-469 | Returns the oldest or newest message with a reference; the exact new state of the queue and its recycle queue; `readable_waiting_` is set exactly if the read goes to wait and otherwise as it was; signals exactly when it makes room in a full ring; fatal if and only if emptying the ring comes to a message that cannot be exchanged, and never while fewer than 20 messages of the recycle queue are held. |
| `RawQueues.RawQueue.DrainRing` | aos/linux_code/ipc_lib/queue.cc:434-451 | The kFromEnd loop does exactly what dropping the oldest message again and again, up to the last one, does, with the same condition for the fatal end. |
| `RawQueues.RawQueue.DrainTurn` | aos/linux_code/ipc_lib/queue.cc:437-450 | One turn: the oldest message leaves the ring, and its reference goes unless it was the last in the ring; fatal exactly when it cannot be exchanged. |
| `RawQueues.RawQueue.TakeMessage` | aos/linux_code/ipc_lib/queue.cc:425-459 | Peeking, emptying the ring or taking the oldest message, with the exact effect on ring, references and recycle queue and the exact condition for the fatal end. |
| `RawQueues.RawQueue.MakeRoom` | aos/linux_code/ipc_lib/queue.cc:309-329 | The three options for a full ring, with the exact new state and the exact condition for the fatal end. |
| `RawQueues.RawQueue.Append` | aos/linux_code/ipc_lib/queue.cc:331-344 | The message is the newest in the ring and the waiting flag is cleared. |
| `RawQueues.RawQueue.NotDry` | aos/linux_code/ipc_lib/queue.cc:34-34 | While fewer than 20 messages of the recycle queue are held by its users, it has one to exchange. |
| `RawQueues.RecycledMeans` | aos/linux_code/ipc_lib/queue.cc:135-151 | Recycling writes exactly the message to the recycle queue, over the oldest if need be, and leaves its holders alone. |
| `RawQueues.DropRefMeans` | aos/linux_code/ipc_lib/queue.cc:103-151 | Dropping a reference changes nothing in the ring; the recycle queue keeps its holders, its history only grows and its ring only moves on. |
| `RawQueues.AfterWriteMeans` | aos/linux_code/ipc_lib/queue.cc:301-344 | A write with room appends to the history; without, it only drops the caller's reference, does nothing, or drops exactly the oldest message first. |
| `RawQueues.AfterReadMeans` | aos/linux_code/ipc_lib/queue.cc:409-469 | A read gives one reference to the message, and unless it peeks that message and all before it leave the ring. |
| `RawQueues.DrainedMeans` | aos/linux_code/ipc_lib/queue.cc:434-451 | Emptying the ring leaves one more reference to the newest message only, and the recycle queue as after any number of drops. |
| `RawQueues.RawQueue.PeekMessage` | aos/linux_code/ipc_lib/queue.cc:427-432 | Peeking leaves the ring alone and adds a reference. |
| `RawQueues.RawQueue.DoReadMessageIndex` | aos/linux_code/ipc_lib/queue.cc:471-551 | Returns history position max(index, oldest in the ring), or the newest, moves the index just past it unless it peeks, sets `readable_waiting_` exactly if it goes to wait, and changes nothing else in the queue. |
| `RawQueues.RawQueue.IndexedSlot` | aos/linux_code/ipc_lib/queue.cc:491-546 | The slot computed from the index holds that history position. |
| `IndexedReads.RunLater` | aos/linux_code/ipc_lib/queue.h:109-113 | Over any run of a queue the history only grows and the ring only moves on. |
| `IndexedReads.PositionsIncrease` | aos/linux_code/ipc_lib/queue.h:109-113 | The positions one reader gets with one index never go back, and go up after every read that is not a peek. |
| `IndexedReads.ReaderSeesHistory` | aos/linux_code/ipc_lib/queue.h:109-116 | Whatever other readers and writers do, and with peeks in between: one reader gets no message again after a read that was not a peek, each read is the message of that history position, and what it skips had left the ring or was skipped by kFromEnd. |
| `IndexedReads.ReaderThatKeepsUp` | aos/linux_code/ipc_lib/queue.h:109-113 | A reader that is not behind the ring reads the next position, or the same one after a peek. |
| `QueueDriver.Users.Do` | aos/linux_code/ipc_lib/queue.cc:301-551 | Each call, blocking ones included, has exactly the effect of its specification on history, ring, free lists, references, recycle queue, index, waiting flag and what the readers got, answers and signals exactly as that says, and ends the process exactly when it says so: while fewer than 20 messages of the recycle queue are held, only in a GetMessage while 20 messages or more of this one are. |
| `QueueDriver.Drive` | aos/linux_code/ipc_lib/queue.cc:301-551 | Any sequence of calls by any number of readers on a queue comes out exactly as the specification says, dead or alive, and what each reader got stands in the history at increasing positions; while fewer than 20 messages of the recycle queue are held, only a GetMessage with 20 messages held can end the process. |
| `QueueDriver.AllSeeHistory` | aos/linux_code/ipc_lib/queue.h:109-116 | All readers of a run see the history. |
| `QueueDriver.CallKeepsSpare` | aos/linux_code/ipc_lib/queue.cc:135-151 | No call changes who holds messages of the recycle queue; its history only grows. |
| `QueueDriver.WriteWakes` | aos/linux_code/ipc_lib/queue.cc:342-399 | Over any sequence of calls: a write broadcasts if and only if it succeeds and some read has gone to wait since the last write that did. |
| `QueueDriver.WaitingIff` | aos/linux_code/ipc_lib/queue.cc:342-399 | Over any sequence of calls the waiting flag is set if and only if some read has gone to wait since the last write that succeeded. |
| `FreeLists.StepExact` | aos/linux_code/ipc_lib/queue.cc:103-187 | The free list and the counts as used without a lock, load by load: a step keeps every message in exactly one place, held with its exact count, on the list, or with one thread, if and only if it is not a pop with a link that is out of date nor the drop of the last reference while another thread has yet to look at the count. |
| `FreeLists.StepKeeps` | aos/linux_code/ipc_lib/queue.cc:103-187 | Every other step keeps it. |
| `FreeLists.StalePopBreaks` | aos/linux_code/ipc_lib/queue.cc:169-178 | A pop with a link that is out of date always loses messages or leaves one in two places. |
| `FreeLists.LateDropBreaks` | aos/linux_code/ipc_lib/queue.cc:103-119 | After such a drop two threads are going to free the message. |
| `FreeLists.QuietRunKeeps` | aos/linux_code/ipc_lib/queue.cc:103-187 | In any run in which no message is put back while another thread that is taking it off has loaded its link, and in which there is no such drop, every message is always in exactly one place. |
| `FreeLists.FreedTwice` | aos/linux_code/ipc_lib/queue.cc:103-119 | Two threads that look at the count after both have decremented it both free the message. |
| `FreeLists.TakenTwice` | aos/linux_code/ipc_lib/queue.cc:169-178 | A run in which two calls of GetMessage give out the same message: it was put back under a thread that was taking it off. |
| `FreeLists.FreedAndTakenTwice` | aos/linux_code/ipc_lib/queue.cc:103-119 | A run in which two references are dropped at once, the message is freed twice and given out twice. |
| `FreeLists.RetryPop` | aos/linux_code/ipc_lib/queue.cc:169-187 | A GetMessage whose compare-and-exchange fails starts again from the head as it is and, left alone, takes the first message off; on an empty list it gets no further. |
| `FreeLists.RetryPush` | aos/linux_code/ipc_lib/queue.cc:153-166 | A DoFreeMessage whose compare-and-exchange fails starts again in the same way and, left alone, puts the message in front of the list. |
| `WorkStacks.RecordedStore` | aos/common/transaction.h:72-87 | A store to a location that has been recorded makes no difference to what completing the work brings back. |
| `WorkStacks.RecordingKeeps` | aos/common/transaction.h:55-64 | Recording a location changes nothing about what comes back. |
| `WorkStacks.ChainDistinct` | aos/common/util/linked_list.h:25-30 | No node is on a list twice. |
| `WorkStacks.Unlinked` | aos/common/util/linked_list.h:54-68 | Redirecting the pointer that leads to a node takes exactly that node off the list. |
| `WorkStacks.Linked` | aos/common/util/linked_list.h:38-45 | The two stores of Add put the node at the front. |
| `WorkStacks.Recorder.AddWork` | aos/common/transaction.h:53-64 | Cut short before any of its stores, the stack is as before; completed, it has the location and its value on top. A full stack is fatal. |
| `WorkStacks.Recorder.CompleteWork` | aos/common/transaction.h:32-42 | Cut short before any store, the works still lead back to the memory at the time the stack was last empty; completed, the memory is that memory and the stack is empty. |
| `WorkStacks.Recorder.DropWork` | aos/common/transaction.h:44-48 | The edits so far become what later works lead back to. |
| `WorkStacks.Recorder.Add` | aos/common/util/linked_list.h:36-45 | Completes exactly when eight more stores and two more works are possible; then the node is first on the list and memory is otherwise as it was; if not, everything can still be undone. |
| `WorkStacks.Recorder.Remove` | aos/common/util/linked_list.h:51-68 | Completes exactly when the node is on the list and four more stores and one more work are possible; then exactly that node is off the list; if not, everything can still be undone, and a node not on the list changes nothing. |
| `WorkStacks.DoEdit` | aos/common/util/linked_list.h:36-68 | One add, remove or commit completes exactly when the stores and works left are enough, and then memory, list and works are exactly what its name says. |
| `WorkStacks.Recover` | aos/common/transaction.h:14-42 | Any edits stopped before any store, then any number of CompleteWork runs stopped before any store, then one that finishes: every word of memory is what it was at the last commit that completed, or at the start if none did. |
| `WorkStacks.CommitSurvives` | aos/common/transaction.h:44-48 | Edits that all complete and end in a commit are all there afterwards. |
| `WorkStacks.NoCommit` | aos/common/transaction.h:32-42 | Without a commit memory comes back as it was, word for word. |
| `WorkStacks.EditedChain` | aos/common/util/linked_list.h:36-68 | The edit of the memory is the edit of the list in it. |
| `WorkStacks.CommittedChain` | aos/common/transaction.h:14-48 | The memory that comes back holds the list as it was at that commit. |
| `BinaryLog.RecordRoundTrip` | aos/common/logging/binary_log_file.h:34-78 | The bytes of a record on a page decode to that record, sizes and marker. |
| `BinaryLog.RecordLayout` | aos/common/logging/binary_log_file.h:34-78 | The marker stands at 0, the size of the name at 16 and that of the message at 20, each with the least significant byte first, the name at 32 and the message behind it. |
| `BinaryLog.NewPageIff` | aos/common/logging/binary_log_file.cc:243-247 | At every aligned position the test for a new page is true if and only if the record and the next marker do not fit behind what is there. |
| `BinaryLog.RoomForMarker` | aos/common/logging/binary_log_file.cc:243-247 | A record placed without a new page leaves room for the next marker after alignment. |
| `BinaryLog.PlacesAdvance` | aos/common/logging/binary_log_file.h:130-141 | Places of records never go back, within a page or across pages. |
| `BinaryLog.FileKept` | aos/common/logging/binary_log_file.cc:221-227 | Stores at or after the writer's place leave everything written alone. |
| `BinaryLog.FileExtended` | aos/common/logging/binary_log_file.cc:221-259 | An item put at the writer's place extends the log by exactly that item. |
| `BinaryLogFile.EndPageStep` | aos/common/logging/binary_log_file.cc:249-259 | Marking the end of a page moves the log to the page mapped before. |
| `BinaryLogFile.FillStep` | aos/common/logging/binary_log_writer.cc:240-300 | Storing any value in any byte of a record behind its zero marker publishes nothing. |
| `BinaryLogFile.FilledAll` | aos/common/logging/binary_log_writer.cc:240-300 | Once every byte was last stored right, the record is there. |
| `BinaryLogFile.ReserveStep` | aos/common/logging/binary_log_file.cc:243-247 | A message that fits leaves room for the next marker; one that does not fit an empty page takes the position past the page. |
| `BinaryLogFile.PublishStep` | aos/common/logging/binary_log_writer.cc:302-308 | Setting the marker publishes exactly that record. |
| `BinaryLogFile.ItemSeen` | aos/common/logging/binary_log_file.cc:139-155 | What the reader finds at an item: its marker, and after an end of page a page that exists. |
| `BinaryLogFile.RecordSeen` | aos/common/logging/binary_log_file.cc:156-163 | A record is read back as written, and the reader's next position is on the page. |
| `BinaryLogFile.BreakTakenForRecord` | aos/common/logging/binary_log_file.cc:156-163 | The mark that ends a page, taken for a record, reads like an empty record followed by a zero marker. |
| `LogFiles.EmptyPageIff` | aos/common/logging/binary_log_file.cc:249-259 | Ending a page makes an empty page exactly when nothing was put on it and it is not the first page. |
| `LogFiles.LogFileWriter.ForceNewPage` | aos/common/logging/binary_log_file.cc:249-259 | The log goes on on a new page; no empty page arises if and only if something was put on the old page or it was the first. |
| `LogFiles.LogFileWriter.GetWritePosition` | aos/common/logging/binary_log_file.cc:221-227 | Returns the position if the record and the next marker fit behind it, and otherwise ends the page and returns the start of the next, if and only if they do not; moves on by the aligned size; for a message that does not fit an empty page the position goes past the page; an empty page arises exactly when such a message is asked for at the start of a page other than the first. |
| `LogFiles.LogFileWriter.Fill` | aos/common/logging/binary_log_writer.cc:240-300 | All bytes of the record are in place and nothing is published. |
| `LogFiles.LogFileWriter.StoreByte` | aos/common/logging/binary_log_writer.cc:240-300 | One byte of the record, right or to be stored over later; nothing is published. |
| `LogFiles.LogFileWriter.Publish` | aos/common/logging/binary_log_writer.cc:302-308 | Exactly this record is added to what is published. |
| `LogFiles.LogFileReader.ReadNextMessage` | aos/common/logging/binary_log_file.cc:137-164 | A whole call that does not wait, with nothing in between: its two parts, one after the other. |
| `LogFiles.LogFileReader.Load` | aos/common/logging/binary_log_file.cc:139-152 | A call, waiting or not, from its start or from being woken up, to the test for the end of the page: asleep, where it was, or on the next page, exactly as the log says; the next page is always there. |
| `LogFiles.LogFileReader.Retest` | aos/common/logging/binary_log_file.cc:153-163 | From the second load of the marker on: the next record, nothing, or back to sleep; but an end of page stored in the meantime is taken for a record. |
| `LogFiles.LogFileReader.Interrupted` | aos/common/logging/binary_log_file.cc:139-163 | A wait ended by a signal leaves out the first load: back to sleep when nothing was published, the next record when one was; but the end of a page is taken for a record, so that the reader returns one that was never written, ends the process or reads past the page, as the position says. |
| `LogFiles.LogFileReader.Take` | aos/common/logging/binary_log_file.cc:156-163 | The record at the reader's position; or, at an end of page, exactly what the code makes of it. |
| `LogFiles.BreakTraps` | aos/common/logging/binary_log_file.cc:137-164 | Behind the mark that ends a page there is a zero marker on a page the writer has left. |
| `LogFiles.ViewKept` | aos/common/logging/binary_log_file.cc:137-259 | What the writer does leaves the reader where it is: at the place of its next item, or stuck for ever. |
| `LogFiles.Run` | aos/common/logging/binary_log_file.cc:137-259 | For every interleaving of single byte stores, page changes and markers with the loads, waits, wakeups and signals of a reader: what is in the log, what the writer is at and what the reader has returned is exactly what the abstract log, a list of records and page ends, says. |
| `LogFiles.RecordPublished` | aos/common/logging/binary_log_writer.cc:240-308 | However the bytes of a record are stored, in any order, some more than once, those that are zero not at all, with anything the reader does in between: setting the marker publishes exactly that record once each byte is right, and nothing is published before. |
| `LogFiles.FillAnyOrder` | aos/common/logging/binary_log_writer.cc:240-300 | Until the marker is set the log stays as it was, and a byte is right exactly when it was stored right the last time. |
| `LogFiles.RunFaithful` | aos/common/logging/binary_log_file.cc:137-164 | In every run a reader that is not lost has returned a prefix of the published records, and a lost one that prefix and one record that was never written. |
| `LogFiles.AstrayIff` | aos/common/logging/binary_log_file.cc:137-164 | In every run a reader is lost or dead if and only if the second load of some call, or the load after some signal, found the end of a page. |
| `LogFiles.NeverAstray` | aos/common/logging/binary_log_file.cc:137-164 | Without empty pages, signals, and pages ended between the two loads of a call at the end of the log, no reader goes astray, waiting or not. |
| `LogFiles.RaceLeadsAstray` | aos/common/logging/binary_log_file.cc:146-163 | If the page is ended between those two loads, the reader goes astray at the second, whatever else is done until then. |
| `LogFiles.NothingLeft` | aos/common/logging/binary_log_file.cc:156-158 | Without empty pages a call that does not wait, with nothing in between, returns nothing exactly when everything published has been returned, and otherwise the next record. |
| `LogFiles.WaitReturnsRecord` | aos/common/logging/binary_log_file.cc:139-163 | A call that waits never returns without a record: at every step it is still in the call with nothing returned, asleep only with nothing published, or has returned exactly one record, or is dead. |
| `LogFiles.WokenReturns` | aos/common/logging/binary_log_file.cc:139-163 | Woken up with a record published, it returns that record at its second load. |
| `LogFiles.NoWaitReturns` | aos/common/logging/binary_log_file.cc:139-152 | A call that does not wait never sleeps. |
| `LogFiles.NoWaitEnds` | aos/common/logging/binary_log_file.cc:153-163 | It is over at its second load, and returns nothing exactly when nothing more is published there. |
| `LogFiles.Drain` | aos/common/logging/binary_log_file.cc:137-164 | Without empty pages, a reader that goes on until there is nothing more has delivered exactly what was published. |
| `LogFiles.EmptyPageTrap` | aos/common/logging/binary_log_file.cc:249-259 | Two ForceNewPage calls in a row: the reader returns a record that was never written and then misses the one that was. |
| `LogFiles.EndedPageTrap` | aos/common/logging/binary_log_file.cc:139-155 | The same from a page that is ended while the reader waits and then gets a signal, or between the two loads of a call that does not wait. |
| `TypeCodec.RoundTrip` | aos/common/queue_types.cc:16-119 | Deserialize inverts Serialize and leaves exactly the bytes behind it, for every type whose sizes fit their fields. |
| `TypeCodec.DecodeSound` | aos/common/queue_types.cc:59-119 | Whatever deserializes is a serialized type followed by the bytes that are left. |
| `TypeCodec.PrefixRejected` | aos/common/queue_types.cc:59-119 | A serialized type cut short anywhere does not deserialize. |
| `TypeCodec.Serialize` | aos/common/queue_types.cc:16-57 | Writes exactly the encoding and nothing behind it; returns -1 and writes nothing exactly when the test on the 16-bit sum fails; runs past the space it was given exactly when that sum passes the test and the encoding is longer than the space. |
| `TypeCodec.EncodeSize` | aos/common/queue_types.cc:18-30 | The size of the encoding: 10, the name and the sizes of the fields. |
| `TypeCodec.HeaderLayout` | aos/common/queue_types.cc:32-44 | The size of the superclass stands at 0, the id at 2, the size of the name at 6, the number of fields at 8, each with the most significant byte first, then the name, then the fields. |
| `TypeCodec.FieldLayout` | aos/common/queue_types.cc:46-56 | In a field its type stands at 0, its length at 4, then the size of its name and the name. |
| `TypeCodec.FieldAt` | aos/common/queue_types.cc:46-56 | Each field stands where the sizes of the name and of the fields before it say. |
| `TypeCodec.OverrunNeedsWrap` | aos/common/queue_types.cc:18-27 | It runs past its space only if the field sizes add up to 65536 or more; a type that fits is always written. |
| `TypeCodec.OverrunWitness` | aos/common/queue_types.cc:18-27 | A type of 6554 unnamed fields passes the test for 768 bytes and runs past them. |
| `TypeCodec.SumFieldSizes` | aos/common/queue_types.cc:18-24 | The sum of the field sizes modulo 65536. |
| `TypeCodec.Deserialize` | aos/common/queue_types.cc:59-119 | The loop decodes what the recursive decoder decodes, with and without serialized lengths, and leaves the same number of bytes. |
| `TypeCaches.ReachableListed` | aos/common/queue_types.cc:381-439 | On a list closed under field types everything reachable from a listed type through non-primitive fields is listed. |
| `TypeCaches.Appended` | aos/common/queue_types.cc:419-430 | Appending a type keeps ids distinct and the list closed but for that type. |
| `TypeCaches.Finished` | aos/common/queue_types.cc:434-438 | Once all types it refers to are listed, the list is closed again. |
| `TypeCaches.MakeEntry` | aos/common/queue_types.cc:412-424 | The entry decodes to the type, unless the 16-bit size test fails, which is fatal, or it passes and the type is longer than 768 bytes, which runs past the buffer. |
| `TypeCaches.FindShm` | aos/common/queue_types.cc:399-411 | Finds the entry with the id exactly if there is one. |
| `TypeCaches.PrimitiveIff` | aos/common/queue_types.h:58-60 | A type is primitive if and only if bit 13 of its id is set, whatever stands above it and below it. |
| `TypeCaches.TypeCache.Add` | aos/common/queue_types.cc:339-345 | The first definition of an id stays. |
| `TypeCaches.TypeCache.AddShm` | aos/common/queue_types.cc:381-439 | Ends for cyclic types too; only appends, never an id twice; lists the type and leaves the list closed if and only if there is no path of non-primitive fields, over cached types that are not listed yet, to a type that is not cached, fails the size test, or runs past the buffer; otherwise returns such a path; what it appends begins with the type itself, is all needed by it through non-primitive fields, and is what the cache holds. |
| `TypeCaches.NoBadPath` | aos/common/queue_types.cc:381-439 | If a type has been listed with everything it refers to, there was no such path. |
| `TypeCaches.TypeCache.AddFields` | aos/common/queue_types.cc:434-438 | The loop over the fields closes the list for the type that was appended, or a path leads to the type that is the reason why not. |
| `TypeCaches.TypeCache.Get` | aos/common/queue_types.cc:347-379 | The cached type, or what the list's entry decodes to; nothing exactly when the id is in neither. |
| `DisjointSets.ClimbIsRoot` | aos/vision/blob/disjoint_set.h:19-25 | The label of an element is where its chain of links ends. |
| `DisjointSets.Compress` | aos/vision/blob/disjoint_set.h:24-24 | Pointing an element straight at its root keeps the forest and every label. |
| `DisjointSets.DisjointSet.constructor` | aos/vision/blob/disjoint_set.h:13-13 | All elements are their own roots. |
| `DisjointSets.DisjointSet.Add` | aos/vision/blob/disjoint_set.h:14-17 | One more element, its own root; the others keep theirs. |
| `DisjointSets.DisjointSet.Find` | aos/vision/blob/disjoint_set.h:19-25 | Returns the root; exactly the elements on the way from the element to its root now point straight at the root, every other link is as it was, and no element's root changes. |
| `DisjointSets.DisjointSet.Link` | aos/vision/blob/find_blob.cc:77-77 | Exactly the class of the child gets the parent's root. |
| `RangeImages.ShareColumnTest` | aos/vision/blob/find_blob.cc:110-117 | The two comparisons of the sweep decide whether two runs share a column. |
| `FindBlobs.MergeRows` | aos/vision/blob/find_blob.cc:31-49 | The two-pointer loops merge two rows. |
| `FindBlobs.MergedElements` | aos/vision/blob/find_blob.cc:31-49 | The merged row has exactly the runs of both. |
| `FindBlobs.MergedSorted` | aos/vision/blob/find_blob.cc:31-49 | Merging sorted rows without overlaps gives a sorted row. |
| `FindBlobs.AddRange` | aos/vision/blob/find_blob.cc:13-18 | The run is appended to its row, the other rows stay, and no more rows are added than it takes. |
| `FindBlobs.MergeBuilder` | aos/vision/blob/find_blob.cc:20-51 | Every row of the merged builder is the merge of the two rows, for builders that start at different rows, and it ends where the lower of the two does. |
| `FindBlobs.BlobDisjointSet.AddBlob` | aos/vision/blob/find_blob.cc:63-68 | A new label for a new run; each root's builder still holds exactly the runs with its label, in order. |
| `FindBlobs.BlobDisjointSet.AddToBlob` | aos/vision/blob/find_blob.cc:58-62 | The run gets the label of the root of an existing blob. |
| `FindBlobs.BlobDisjointSet.MergeInBlob` | aos/vision/blob/find_blob.cc:69-79 | The two labels become one, whichever builder starts higher up. |
| `FindBlobs.PassCurrent` | aos/vision/blob/find_blob.cc:110-114 | Moving on to the next run of the current row leaves no touching pair behind unjoined. |
| `FindBlobs.PassPrevious` | aos/vision/blob/find_blob.cc:115-127 | Moving on to the next run of the previous row leaves no touching pair behind unjoined. |
| `FindBlobs.SweepStep` | aos/vision/blob/find_blob.cc:107-129 | One turn of the two-row sweep. |
| `FindBlobs.SweepRow` | aos/vision/blob/find_blob.cc:100-137 | After a row, every touching pair of it and the row above is joined and nothing else. |
| `FindBlobs.GetBlobs` | aos/vision/blob/find_blob.cc:80-88 | The builders of exactly the roots, each once, in the order of their numbers. |
| `FindBlobs.PathStaysJoined` | aos/vision/blob/find_blob.cc:92-139 | Runs connected through touching runs end up with one label. |
| `FindBlobs.FindBlobs` | aos/vision/blob/find_blob.cc:92-139 | For every image with sorted rows: each run is in exactly one blob, two runs share a blob if and only if they are connected through runs of adjacent rows sharing a column; every blob starts at the row it says, has no empty row and keeps its rows sorted; the blobs come in the order in which the image is read. |
| `FindBlobs.ComponentsSolid` | aos/vision/blob/find_blob.cc:92-139 | A connected component has a run in every row from its first to its last. |
| `FindBlobs.CollectedOrder` | aos/vision/blob/find_blob.cc:63-88 | Each blob has a run in its first row such that these runs come in the order of the image. |
| `Thresholds.ThresholdRow` | aos/vision/blob/threshold.h:14-31 | The runs are exactly the maximal stretches of accepted pixels. |
| `Thresholds.DoThreshold` | aos/vision/blob/threshold.h:10-35 | The same for every row of the image. |
| `Thresholds.RunPathToPixels` | aos/vision/blob/threshold.h:10-35 | Connected runs have 4-connected pixels. |
| `Thresholds.PixelPathToRuns` | aos/vision/blob/threshold.h:10-35 | 4-connected pixels lie in connected runs. |
| `Thresholds.BlobsOfImage` | aos/vision/blob/find_blob.cc:92-139 | Thresholding and finding blobs splits the accepted pixels into exactly their 4-connected components, each without empty rows and with a gap between any two runs of a row, in the order of the image. |
| `Contours.JoinPieces` | aos/vision/blob/contour.cc:28-39 | Linking a left end to a right end joins the two pieces of outline, or closes one. |
| `Contours.OutlineJoin` | aos/vision/blob/contour.cc:34-38 | Joining pieces keeps every node on an outline, except a right end that is bypassed; joining two different pieces closes nothing. |
| `Contours.OutlinedJoin` | aos/vision/blob/contour.cc:34-38 | And then the pixel of the bypassed node is still on an outline. |
| `Contours.CycleBack` | aos/vision/blob/contour.cc:28-39 | Whatever the links lead to from a node on a cycle leads back to it. |
| `Contours.Arena.Append` | aos/vision/blob/contour.h:17-20 | The new node follows a left end and becomes the left end. |
| `Contours.Arena.PAppend` | aos/vision/blob/contour.h:21-23 | The new node precedes a right end and becomes the right end. |
| `Contours.Arena.FwdRange` | aos/vision/blob/contour.cc:12-23 | The upper edge of a run is a new piece from its last to its first column, with one new node on each column and no other. |
| `Contours.Arena.CloseRange` | aos/vision/blob/contour.cc:28-39 | The lower edge of a run joins its two ends with new nodes on exactly the columns between them, keeps every node on an outline but possibly the right end itself, and from the left end the links now lead over every new node to the right end's pixel and on. |
| `Contours.Arena.ExtendStart` | aos/vision/blob/contour.cc:41-51 | The left end moves, pixel by pixel, along its row if need be, down one row and back to the given column, with exactly those nodes added. |
| `Contours.Arena.ExtendEnd` | aos/vision/blob/contour.cc:53-63 | The right end does the same against the direction of the links, with exactly those nodes added. |
| `Contours.Arena.CapRange` | aos/vision/blob/contour.cc:65-72 | The gap between two runs above one run is closed by joining their pieces with nodes on exactly the columns from the one to the other, one row down; if they are different pieces, nothing is closed. |
| `Contours.Arena.MakeCavity` | aos/vision/blob/contour.cc:74-81 | The edge between two runs below one run is a new piece with one new node on each of its columns and no other. |
| `ContourTrace.TraceGroup` | aos/vision/blob/contour.cc:112-136 | The inner loop over overlapping runs, with merges and splits, ends with one piece for each current run. |
| `ContourEdges.NoSplit` | aos/vision/blob/contour.cc:112-136 | When the loop turns to a run without a cavity, no run above touches both it and the one before it. |
| `ContourEdges.Splits` | aos/vision/blob/contour.cc:122-126 | When a cavity is made, the run above touches both runs. |
| `ContourEdges.SplitExample` | aos/vision/blob/contour.cc:122-126 | Five pixels above two runs: the left end of the second run is one column before it. |
| `ContourEdges.StartSeen` | aos/vision/blob/contour.cc:112-113 | Moving the left end down puts nodes on every pixel of the run above that is left of the run below and on every pixel of the run below that is left of the run above. |
| `ContourEdges.CapSeen` | aos/vision/blob/contour.cc:116-121 | Capping puts nodes below the gap between the two runs above. |
| `ContourEdges.SplitSeen` | aos/vision/blob/contour.cc:122-128 | Making a cavity puts nodes in the gap between the two runs below. |
| `ContourEdges.FinishSeen` | aos/vision/blob/contour.cc:129-134 | Moving the right end down puts nodes on what sticks out on the right, above or below. |
| `ContourEdges.AllEdges` | aos/vision/blob/contour.cc:83-155 | Rows done one by one, and the row below the image, give every edge of the image. |
| `ContourTrace.OnlyPiece` | aos/vision/blob/contour.cc:152-154 | If the piece that is closed was the only one, everything is on the cycle. |
| `ContourTrace.TraceRow` | aos/vision/blob/contour.cc:94-150 | After a row there is exactly one piece for each of its runs, its right end at the run's last column and its left end at the run's first column, or one column before it exactly when some run above touches both this run and the one before it; if every run above touches exactly one run below, each piece leads from its own right end to its own left end and nothing has been closed. |
| `ContourTrace.CloseLastRow` | aos/vision/blob/contour.cc:152-154 | Closing the pieces of the last row leaves no unfinished piece; the first run's left end is then on a cycle that goes through its right end too, and through every pixel if it was the only piece and nothing had been closed before. |
| `ContourTrace.RangeImgToObj` | aos/vision/blob/contour.cc:83-155 | For every image with sorted rows and a non-empty last row: there are nodes on every pixel with no pixel above it, on every pixel with none below it unless a cavity is there, and all over every cavity, and on no pixel outside the image and its cavities; every link leads at most one pixel away, every node's pixel is on a closed outline, and every run has a node at its last column and one at its first column, or one column before that exactly after a split; the returned node is at the first pixel of the first run of the last row, and following `next` from it goes through the last pixel of that run and comes back; if every run touches exactly one run below, down to a single run in the last row, it goes through every pixel that has a node. |
| `ContourTrace.ConnectedIsTree` | aos/vision/blob/contour.cc:94-150 | In a 4-connected image without splits every run touches exactly one run below, down to a single run in the last row. |
| `ContourTrace.OwnJoin` | aos/vision/blob/contour.cc:112-117 | Capping the gap between two neighbouring pieces joins two different pieces. |
| `ContourTrace.ContourPoints` | aos/vision/blob/hierarchical_contour_merge.cc:160-174 | The loops round a contour end, back at the first node for the first time; the points are those of the nodes in the order of the links, each at most one pixel from the one before, the last from the first too. |
| `HierMerge.AppendPartition` | aos/vision/blob/hierarchical_contour_merge.cc:202-206 | Joining two neighbouring arcs gives a partition into arcs again. |
| `HierMerge.BeforeStart` | aos/vision/blob/hierarchical_contour_merge.cc:204-204 | The point before the start of an arc is the end of one. |
| `HierMerge.AfterEnd` | aos/vision/blob/hierarchical_contour_merge.cc:205-205 | The point after the end of an arc is the start of one. |
| `HierMerge.JoinKeepsState` | aos/vision/blob/hierarchical_contour_merge.cc:202-219 | A join keeps: arcs partition the contour, every longer arc was accepted, and every neighbouring pair that may be joined has an event queued. |
| `HierMerge.MergeTurn` | aos/vision/blob/hierarchical_contour_merge.cc:195-220 | One turn takes out an event of the largest error among all those queued, joins two arcs exactly if it still names the start of one and the end of another, and then queues exactly the events of the joined arc with its neighbours that may be joined, each with the error of its own range; it keeps the state and decreases a measure, for any error function. |
| `HierMerge.MergeLoop` | aos/vision/blob/hierarchical_contour_merge.cc:195-220 | The loop is a run of such turns and ends with no event left in that state. |
| `HierMerge.TurnDetermined` | aos/vision/blob/hierarchical_contour_merge.cc:195-197 | With one event of the largest error there is only one turn: which event is taken and what comes out are determined. |
| `HierMerge.ErrorsAreOwn` | aos/vision/blob/hierarchical_contour_merge.cc:176-220 | In every run from the single points every queued event, the first ones included, has the error of its own range. |
| `HierMerge.ArcLength` | aos/vision/blob/hierarchical_contour_merge.cc:225-225 | The circular difference of the ends is the number of points of an arc less one. |
| `HierMerge.LongArcsMeans` | aos/vision/blob/hierarchical_contour_merge.cc:221-230 | What is reported are exactly the ends of the arcs longer than the limit. |
| `HierMerge.CollectLines` | aos/vision/blob/hierarchical_contour_merge.cc:221-230 | The loop reports each of those arcs once, in the order of their roots. |
| `HierMerge.HierMerge` | aos/vision/blob/hierarchical_contour_merge.cc:176-230 | For every number of points and any error function: a run from the single points, in which every turn takes an event of the largest error among all those queued, ends with the contour partitioned into contiguous arcs, every arc of more than two points accepted, no two neighbouring arcs that could be joined, and exactly the long arcs reported. The original's own error function has no answer for some arcs, see `IntegralArrays.NoAnswerIff`. |
| `IntegralArrays.ModIsEuclidean` | aos/vision/blob/hierarchical_contour_merge.cc:16-16 | The double remainder is the non-negative remainder for every sign. |
| `IntegralArrays.RoundSumIs` | aos/vision/blob/hierarchical_contour_merge.cc:18-32 | A circular sum is a difference of running sums, plus the total when it goes round. |
| `IntegralArrays.IntegralArray.Add` | aos/vision/blob/hierarchical_contour_merge.cc:33-39 | The running sums of the values so far and the new one. |
| `IntegralArrays.IntegralArray.Get` | aos/vision/blob/hierarchical_contour_merge.cc:18-32 | The circular sum from a up to b, for all integers a and b; undefined if and only if both come down to the first value. |
| `IntegralArrays.IntegralArray.GetRange` | aos/vision/blob/hierarchical_contour_merge.cc:80-87 | The sum over an arc widened to the minimum length, in C++ arithmetic; undefined exactly when the two arguments both come down to 0. |
| `IntegralArrays.NoAnswerIff` | aos/vision/blob/hierarchical_contour_merge.cc:80-87 | For all arcs: undefined if and only if the widened arc goes round a whole number of times and starts at the first point. |
| `IntegralArrays.WholeContourIff` | aos/vision/blob/hierarchical_contour_merge.cc:80-87 | An arc that is not widened has no answer if and only if it is the contour from its first to its last point. |
| `IntegralArrays.FirstNoAnswerIff` | aos/vision/blob/hierarchical_contour_merge.cc:190-193 | Exactly which of the pairs the first loop asks for have no answer. |
| `IntegralArrays.FirstEventsIff` | aos/vision/blob/hierarchical_contour_merge.cc:190-193 | The first loop asks for a range without an answer if and only if the number of points divides the length to which a pair is widened. |
| `IntegralArrays.SmallContours` | aos/vision/blob/hierarchical_contour_merge.cc:190-193 | It always does for a contour of one or two points. |
| `BoxFilters.MeanOfSum` | aos/vision/filters.h:19-38 | The running sum gives the mean at each position, at both borders too. |
| `BoxFilters.SlotsDiffer` | aos/vision/filters.h:26-40 | Buffer slots in use never collide. |
| `BoxFilters.MeanInRange` | aos/vision/image/image_types.h:250-257 | A filtered pixel lies between the smallest and the largest, so the 16-bit result loses nothing. |
| `BoxFilters.BoxFilter` | aos/vision/filters.h:10-43 | In place, with a buffer of one window, every cell becomes the truncated mean of the original cells at most box_num away; a line shorter than the window is left alone. |
| `Bresenham.NearEitherWay` | aos/vision/utils/bresenham.cc:13-15 | Swapping the endpoints does not change which pixels are near the line. |
| `Bresenham.ErrorStep` | aos/vision/utils/bresenham.cc:28-34 | The error term stays in range and stays the scaled distance from the line. |
| `Bresenham.ErrorAtEnd` | aos/vision/utils/bresenham.cc:25-34 | After the last step the minor coordinate has come to the endpoint. |
| `Bresenham.DrawLine` | aos/vision/utils/bresenham.cc:12-52 | For every pair of endpoints: one point for each coordinate of the longer axis, the nearest to the line and of two as near the one closer to where the drawing starts, from one endpoint to the other; exactly those of them inside the image are painted. |
| `Bresenham.LineUnique` | aos/vision/utils/bresenham.cc:12-52 | There is only one such list of points for two endpoints. |
| `StreamReaders.DecodesTo` | aos/vision/events/socket_types.h:97-122 | Framed data followed by anything decodes to the frames and then the rest. |
| `StreamReaders.BufferedLengthDelimReader.Up` | aos/vision/events/socket_types.h:28-52 | One call, with any number of bytes or a failed read, keeps: bytes consumed are the delivered frames and what is buffered; it delivers a frame exactly when it was reading one and the last of its bytes came; a length over 200000 is fatal. |
| `StreamReaders.DeliversTheStream` | aos/vision/events/socket_types.h:28-52 | The delivered frames are exactly those a decoder of all consumed bytes finds, but for an empty frame whose length has just been read. |
| `StreamReaders.Receive` | aos/vision/events/socket_types.h:28-52 | For every stream and every way of splitting it into reads, failed ones included: exactly which bytes are taken and which frames delivered, and that these are the frames a decoder of all those bytes finds, but for an empty frame exactly when its length is all that was read of it. |
| `StreamReaders.FrameLayout` | aos/vision/events/socket_types.h:97-100 | The length stands in the first four bytes, the least significant first, and the data behind it. |
| `StreamReaders.AllDelivered` | aos/vision/events/socket_types.h:28-52 | For all frames and every way of splitting their bytes into reads, failed ones included: what has been delivered is always the first frames, whole and in order, and after as many reads that may take a byte as there are bytes and frames every frame has been delivered and every byte taken. |
| `BlobCodec.PredictSize` | aos/vision/blob/codec.cc:6-15 | The size of the serialized list. |
| `BlobCodec.SerializeBlobTo` | aos/vision/blob/codec.cc:17-30 | Writes exactly the predicted number of bytes, the encoding of the list. |
| `BlobCodec.ParseBlobList` | aos/vision/blob/codec.cc:32-53 | For all bytes: what is read writes back to the bytes it was read from; the input is too short if and only if it does not start with the bytes of any list; and the bytes of a list whose counts fit 16 bits, followed by anything, give that list with each coordinate reduced to 16 bits and exactly the rest. |
| `BlobCodec.ListSound` | aos/vision/blob/codec.cc:32-53 | Whatever is read has counts and coordinates of 16 bits and writes back to its bytes. |
| `BlobCodec.ListComplete` | aos/vision/blob/codec.cc:17-53 | Whatever is written is read back, cut to 16 bits. |
| `BlobCodec.ShortIff` | aos/vision/blob/codec.cc:32-53 | Exactly which inputs end too soon. |
| `BlobCodec.ParseList` | aos/vision/blob/codec.cc:32-53 | The three nested loops read what the recursive reader reads. |
| `BlobCodec.ListUnchanged` | aos/vision/blob/codec.cc:17-53 | The list comes back as it was if and only if every coordinate fits 16 bits. |
| `BlobCodec.ListLayout` | aos/vision/blob/codec.cc:17-30 | Which 16-bit integer, the less significant byte first, stands at which offset: the number of blobs at 0, each blob's first line and number of rows where the blobs before it end, each row's number of runs where the rows before it end, and each run's start and end. |

## Left out

- RawQueues.RawQueue.DoWriteMessage: does not model a recycle queue that itself has a recycle queue, because only one level of recycling is modelled.
- RawQueues.RawQueue.Recycle: the same limit to one level of recycling.
- RawQueues.RawQueue.constructor: takes a queue length of at least 1 as given; the original ends the process for a smaller one.
- QueueWait.NoLostWakeup: does not model threads that die; in particular not one that dies between releasing the lock and broadcasting.
- TypeCodec.Serialize: what the original writes past the end of its space is not modelled; the result says that it does.
- LogFiles.LogFileReader.Interrupted: what the original finds past the end of the page is not modelled; the result says that it looks there.
- LogFiles.LogFileWriter.GetWritePosition: what is stored past the page after a message that is too large is not modelled; the writer takes no further step then.
- BoxFilters.BoxFilter: one row or column of a grey image as an array of its own; strided access and colour pixels would repeat the same proof.
- BlobCodec.ParseBlobList: where the original would go on past the end of its input, which it does not know, the result is `Short`.
- HierMerge.HierMerge: the error function is arbitrary and total, and the fitted line itself is not computed, because it is floating point; where the original's error function has no answer is stated in `IntegralArrays`.
- RobustMutex.MutualExclusion: `held` is what a caller may rely on; the debugging pthread shadow mutex is not modelled.
- RobustOffsets.Run: whole operations on the calling thread's own list, not interleaved with the single stores of `RobustMutex`.
- RobustOffsets.RobustList.SetRobustListOffset: takes the offset to be even, which `LinkRoundTrip` shows to be necessary.
- ContourTrace.RangeImgToObj: with splits, says of the returned cycle only that it goes through both ends of the first run of the last row, because a split can lead to holes and to outlines that never meet.
- QueueDriver.Drive: a call that has to wait is answered with `Blocked` and is over, and what it does once it is woken up is a call of its own; waiting itself is the subject of `QueueWait`.
- FreeLists.StepExact: one queue without a recycle queue; the recycle swap would only add steps of the same kinds.
- Weak memory ordering, the FUTEX_REQUEUE_PI variant of condition variables, fork handling and sanitizer hooks.
- Wrap-around of message counts, reader indices and condition generations.
- Finding and creating queues by name, shared memory allocation, and the option checks of the public queue calls.
- Memory mapping, the read(2) fallback, probing pages with signal handlers and skipping to seekable pages of a log file.
- Line fitting, convex hulls, segments and the other floating point parts of the vision code.
- Printing messages, generated message code, actions, the dashboard, cameras, sockets, viewers and process control.
- Time arithmetic, events, counters and small helpers, which would only add easy members.
