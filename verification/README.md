# A verified model of the kernel, the editor core and the Lua table cache

The project models the parts of the system in which many operations share one delicate state, and proves
what those operations keep over every run. Objects that the source updates in place are classes with the
source's fields, and loops are loops. Each method is proved against a function on values, and what the
source promises is then proved about those functions.

| Files | What they model |
|---|---|
| Rings, List | the circular doubly linked list and its round-robin cursor |
| HeapBlocks, Heap | the first-fit allocator that merges free neighbours, down to the block headers in memory |
| QueueProtocol, Queue | queues and semaphores: the ring buffer, and the blocking protocol between tasks and interrupts as a transition system |
| TickTime | timeouts and periodic delays on a tick count that wraps |
| EventList | the order of an event list by priority |
| TaskLists, Scheduling, SchedulerSteps, SchedulerLaws, Scheduler | the scheduler: ready lists, two delayed lists, pended ticks and pending tasks, as a state machine and as a class |
| PriorityInheritance | mutexes, recursive mutexes and inherited priorities |
| TimerLists, Timers, TimerStop, TimerOneShot, TimerDaemon | software timers on two lists that change places when the tick count wraps |
| EventGroups | event bits with waiting tasks, and the rendezvous |
| GapBuffer, UndoHistory, Editor | the editor's text buffer and its undo records |
| RotableCache | the least-recently-used cache of read-only table entries, and the scan it must agree with |
| Pack | the hexadecimal codec for lists of Lua values |
| Options | a result that may be missing |

Beside a tick count that wraps at 2^32 stands an unbounded one: in the scheduler it is the count of overflows
times 2^32 plus the tick count, in the timer daemon the count of list switches times 2^32 plus the time of the
last sample. "On time" always refers to the unbounded count.

## What turned out not to hold

Eight promises do not hold of the code on all inputs. For each there is a concrete run that breaks it and a
statement of when it holds.

- A reset of a queue wakes only one of the waiting senders (`QueueProtocol.ResetStrandsASender`, `ResetServes`).
- A timeout check that comes two wraps after the last one may miss an expired wait
  (`TickTime.TwoWrapsHideATimeOut`, `VerdictRightIff`).
- An item that comes back to a ready list while the cursor rests on a waiting item may be served twice before that
  one (`Rings.ReturningItemIsServedTwice`). `Rings.TurnsBeforeFirst` is the exact account over every run, and
  `NoSecondTurnIff` says when nobody gets a second turn first; re-entries at any other moment do no harm.
- A stop command does not stop a timer for which another command stands behind it in the queue, such as one by which
  the daemon restarts the timer itself (`TimerStops.StopIsOvertaken`). `StopHoldsIff` gives the exact condition.
- An event wakes a waiting task of lower priority than another one if a priority changed meanwhile
  (`EventLists.RaisedTaskIsNotFirst`, `BoostedTaskJoinsBehind`). `StepOrderedIff` and `FirstIsHighestIff` say when not.
- An edit right after a complete undo leaves the head of the undo list pointing to a freed record, unless malloc
  hands out its address again (`UndoHistory.StaleHeadAfterFullUndo`, `EditSoundIff`). The inverse laws are proved for
  histories without such an edit.
- Packed strings come back cut at the first byte with a zero digit, and lists of more than 255 values come back
  short (`PackCodec.RoundTripIff`).
- Setting the priority of a mutex holder may take it below a task that waits for it
  (`PriorityInheritance.SetPriorityBreaksBoost`, `BoostLastsIff`).

## Configuration and reading of the source

As FreeRTOS/Source/include/FreeRTOSConfig.h sets it: 32-bit ticks, preemption, mutexes and `INCLUDE_vTaskSuspend`; no
queue sets or co-routines; generic task selection. Further: no alternative queue API, no tickless idle, an alignment
and a block header of 8 bytes, and bit 31 of a block size as the allocated bit.

- The address-range guard in `uxListRemove` (FreeRTOS/Source/list.c:218-225) is read as "the item is in no list:
  return 0 and change nothing"; the one in `prvProcessReceivedCommands` as "the message names no timer".
- A critical section is one step. Between steps any interrupt, and any task that the scheduler lets run, may take
  a step of its own; which task that is, is left open.
- A word of event bits is the set of positions of its one bits.
- The tables that the cache works on do not change, and their keys are strings.

## Model

| member | source | states |
|---|---|---|
| `Rings.SelectServesFirstTurn` | FreeRTOS/Source/include/list.h:318-330 | selecting the next entry serves the first item in turn order and sends it to the back of that order |
| `Rings.FullRound` | FreeRTOS/Source/include/list.h:318-330 | n selections from a list of n items serve the n items once each, in turn order, and bring the turn order back to what it was |
| `Rings.InsertEndTurn` | FreeRTOS/Source/list.c:116-142 | an item inserted at the end gets the last turn, or, if the cursor is on an item, the turn just before that item, which was served last |
| `Rings.RemoveKeepsTurns` | FreeRTOS/Source/list.c:212-247 | removing an item, be it under the cursor or not, takes its turn out of the turn order and leaves all others in order |
| `Rings.StepBalance` | FreeRTOS/Source/list.c:116-142 | one selection, insertion or removal: serving y uses up the turn it has ahead of x, leaving gives it up, and y wins a new one only by an insertion made while the cursor rests on x; nothing else changes it |
| `Rings.TurnsBeforeFirst` | FreeRTOS/Source/list.c:116-142 | over any run in which x stays and is not served: the servings of y, its leaves while it is ahead of x and the turn ahead that it still has add up to the turn ahead that it had plus its insertions made while the cursor rests on x |
| `Rings.EnterAheadIff` | FreeRTOS/Source/list.c:116-142 | an item inserted at the end gets a turn ahead of x if and only if the cursor rests on x at that moment |
| `Rings.AheadOfNew` | FreeRTOS/Source/list.c:116-142 | a new item at the end waits for every other item but the one that the cursor rests on |
| `Rings.NoSecondTurnIff` | FreeRTOS/Source/list.c:116-142 | after x is inserted at the end, y is served at most once before x is served first if and only if its insertions made while the cursor rests on x are no more than the turns ahead that it gave up, still has or did not have at first; so it is if there is no such insertion, however often y leaves and comes back otherwise |
| `Rings.ReturningItemIsServedTwice` | FreeRTOS/Source/list.c:212-247 | an item that is inserted again while the cursor rests on a waiting item can be served twice before that one is served once |
| `Lists.List.constructor` | FreeRTOS/Source/list.c:79-101 | a new list is empty, its end marker linked to itself and its cursor on the end marker |
| `Lists.List.InsertEnd` | FreeRTOS/Source/list.c:116-142 | relinking the nodes gives the ring with the item just before the cursor; next and previous links stay inverse and the count exact |
| `Lists.List.FindPlace` | FreeRTOS/Source/list.c:155-196 | the walk ends, also for portMAX_DELAY, at the node behind which the value belongs: all values up to it are at most v and the next is larger |
| `Lists.List.Insert` | FreeRTOS/Source/list.c:145-209 | the item goes behind the last item with a value no greater; an ascending list stays ascending and the item stands behind all its equals; links stay inverse and the count exact |
| `Lists.List.RemoveAt` | FreeRTOS/Source/list.c:212-247 | unlinking the nodes gives the ring without the item; a cursor on it moves to its predecessor |
| `Lists.List.Remove` | FreeRTOS/Source/list.c:212-247 | removes an item of this list and returns the number left; for an item in no list it returns 0 and changes nothing |
| `Lists.List.SelectNext` | FreeRTOS/Source/include/list.h:318-330 | moves the cursor on, past the end marker, and gives the item whose turn it is |
| `HeapBlocks.TakeKeepsGood` | FreeRTOS/Source/heap_4.c:216-250 | taking the wanted bytes from a free block keeps the tiling without overlap and without adjacent free blocks, and lowers the free bytes by the allocated size |
| `HeapBlocks.ReleaseKeepsGood` | FreeRTOS/Source/heap_4.c:424-482 | releasing a block, merged with free neighbours on either side, keeps the tiling and leaves no two adjacent free blocks; the free bytes grow by its size |
| `HeapBlocks.TakeThenRelease` | FreeRTOS/Source/heap_4.c:214-345 | releasing what was just taken gives back exactly the blocks of before, whether the block was split or not |
| `HeapBlocks.NoFitBeyondFreeBytes` | FreeRTOS/Source/heap_4.c:200 | each free block is at most the sum of them, so a request above the free byte count fits nowhere: the early test loses no request |
| `HeapBlocks.FreeListRange` | FreeRTOS/Source/heap_4.c:424-482 | the free list is strictly ascending in address and its blocks do not overlap |
| `Heap.FirstFitInList` | FreeRTOS/Source/heap_4.c:203-215 | the first entry of the free list that is large enough is the lowest-addressed free block that is |
| `Heap.MergeLinks` | FreeRTOS/Source/heap_4.c:424-482 | the header writes that insert a block turn memory linked for the old free list into memory linked for the coalesced one |
| `Heap.PaddedIsLeast` | FreeRTOS/Source/heap_4.c:176-195 | the padded size is the least multiple of the alignment that holds the header and the bytes asked for |
| `Heap.MallocMeaning` | FreeRTOS/Source/heap_4.c:176-299 | a request that is not zero and not too large fails exactly if no free block has room for a header and the bytes asked for; otherwise the lowest such block is allocated, with that room and less than an alignment step and a least block more, and the free bytes fall by its size |
| `Heap.Heap.Init` | FreeRTOS/Source/heap_4.c:376-421 | after initialisation one aligned free block spans the heap up to the end marker |
| `Heap.Heap.Search` | FreeRTOS/Source/heap_4.c:203-215 | the walk along the links stops at the lowest fitting block, with its predecessor in the list, or at the end marker if none fits |
| `Heap.Heap.InsertBlockIntoFreeList` | FreeRTOS/Source/heap_4.c:424-482 | memory represents the free list with the block merged into its free neighbours; no other header changes but that of the list entry before it |
| `Heap.Heap.Malloc` | FreeRTOS/Source/heap_4.c:152-299 | NULL exactly if the request is zero, has the top bit set, or no free block has room for it and a header; otherwise the aligned address behind the header of the lowest free block that has, which alone is split or taken and has at least that room; tiling and free byte count are kept, the recorded minimum is that over all counts since initialisation, to which a successful request adds one, and no header at an address of a block allocated before is changed |
| `Heap.Heap.Free` | FreeRTOS/Source/heap_4.c:302-355 | a pointer to an allocated block releases that block and merges it, and no header at an address of another allocated block is changed; NULL, or a header without the allocated bit, changes nothing at all |
| `Heap.Heap.MallocThenFree` | FreeRTOS/Source/heap_4.c:302-355 | freeing what was just allocated restores all blocks and the free byte count |
| `Heap.Heap.FreeTwice` | FreeRTOS/Source/heap_4.c:314-345 | a second free of the same pointer has no effect beyond that of the first, even if the block was merged into its predecessor and its header is stale |
| `Heap.Heap.ApplicationWrite` | FreeRTOS/Source/heap_4.c:216-218 | an aligned write of the size of a header anywhere behind the header of the application's own block, over stale headers too, leaves the heap consistent |
| `QueueProtocol.SendSectionKeeps` | FreeRTOS/Source/queue.c:630-754 | the critical section of a send keeps both wake-up conditions |
| `QueueProtocol.ReceiveSectionKeeps` | FreeRTOS/Source/queue.c:1385-1490 | the critical section of a receive or peek keeps both wake-up conditions |
| `QueueProtocol.SendFromISRKeeps` | FreeRTOS/Source/queue.c:1085-1197 | a send from an interrupt keeps both conditions, by a wake-up or by the transmit lock count, and never lowers the count of messages below what the lock accounts for |
| `QueueProtocol.ReceiveFromISRKeeps` | FreeRTOS/Source/queue.c:1576-1632 | a receive from an interrupt keeps both conditions, by a wake-up or by the receive lock count |
| `QueueProtocol.UnlockTxKeeps` | FreeRTOS/Source/queue.c:1884-1959 | unlocking keeps both wake-up conditions |
| `QueueProtocol.UnlockTxWakes` | FreeRTOS/Source/queue.c:1884-1959 | unlocking takes as many receivers off the head of their list as messages were counted, or all if there are fewer, and wakes exactly these |
| `QueueProtocol.UnlockRxKeeps` | FreeRTOS/Source/queue.c:1961-1987 | unlocking keeps both wake-up conditions |
| `QueueProtocol.UnlockRxWakes` | FreeRTOS/Source/queue.c:1961-1987 | unlocking takes as many senders off the head of their list as slots were counted, or all if there are fewer, and wakes exactly these |
| `QueueProtocol.ResetServes` | FreeRTOS/Source/queue.c:260-310 | a reset keeps the condition of the receivers; it keeps that of the senders if and only if at most one sender waits or the slots beyond one are covered by senders woken earlier |
| `QueueProtocol.ResetStrandsASender` | FreeRTOS/Source/queue.c:268-290 | a run from an idle queue of two: two tasks block on the full queue, it is reset, the woken one sends, and the other one waits at a free slot with nobody left to wake it |
| `QueueProtocol.CapacityKept` | FreeRTOS/Source/queue.c:1784-1855 | the message count stays within the length if and only if it is not an overwrite of a full queue without storage |
| `QueueProtocol.JoinKeeps` | FreeRTOS/Source/queue.c:759-768 | no message or slot is missed between the test of the queue and joining the event list |
| `QueueProtocol.StepKeeps` | FreeRTOS/Source/queue.c:628-806 | every step of a task in its retry loop and every interrupt, in any interleaving, keeps the protocol invariant |
| `QueueProtocol.RunKeeps` | FreeRTOS/Source/queue.c:1383-1547 | so does every run of steps; the senders' part holds for runs in which each reset comes when at most one sender waits or those woken can fill the queue |
| `QueueProtocol.NoLostWakeUp` | FreeRTOS/Source/queue.c:1876-1988 | in every state reached from an idle queue: if receivers wait, there are no more messages than receivers woken and not yet retried plus counted by the transmit lock; the same for senders and free slots, if each reset of the run comes when at most one sender waits or those woken can fill the queue |
| `QueueProtocol.NobodyWaitsInVain` | FreeRTOS/Source/queue.c:628-806 | when all woken tasks have retried and the queue is not locked, a receiver waits only at an empty queue and a sender only at a full one, the latter in runs without a reset or with resets under that condition |
| `QueueProtocol.MessagesBalance` | FreeRTOS/Source/queue.c:1402 | over every run, of a queue or a semaphore: the count at the end, the successful receives that are no peeks, and what resets discarded add up to the count at the start and the successful sends that replace no item; without resets nothing is discarded |
| `Queues.StoredBack` | FreeRTOS/Source/queue.c:1805-1817 | writing at the write index appends to the sequence of stored items |
| `Queues.StoredFront` | FreeRTOS/Source/queue.c:1818-1850 | writing at the read index and moving it back, around the start of the storage if need be, prepends |
| `Queues.StoredRest` | FreeRTOS/Source/queue.c:1858-1873 | moving the read index on removes the first stored item |
| `Queues.Queue.constructor` | FreeRTOS/Source/queue.c:313-386 | a new queue is empty and unlocked |
| `Queues.Queue.Reset` | FreeRTOS/Source/queue.c:260-310 | the queue is empty and unlocked again, and the first waiting sender, if there is one, is woken; no receiver is |
| `Queues.Queue.CopyToBack` | FreeRTOS/Source/queue.c:1805-1817 | contents == old contents + [item], and write index == read index + 1 + count modulo the length |
| `Queues.Queue.CopyToFront` | FreeRTOS/Source/queue.c:1818-1850 | contents == [item] + old contents, or [item] alone for an overwrite; the index relation is kept |
| `Queues.Queue.CopyDataTo` | FreeRTOS/Source/queue.c:1784-1855 | the contents after a send to the back, to the front or over the only item, and the count after it |
| `Queues.Queue.CopyDataFrom` | FreeRTOS/Source/queue.c:1858-1873 | copies out the first item and leaves the read index on its slot |
| `Queues.Queue.TrySend` | FreeRTOS/Source/queue.c:630-754 | refuses exactly if full and not overwriting; the item goes behind the others, before them or over the only one; the count goes up by one unless an item is replaced; exactly the first waiting receiver is woken if the item went in |
| `Queues.Queue.TryReceive` | FreeRTOS/Source/queue.c:1385-1490 | refuses exactly if empty; takes or peeks the first item; for queues and semaphores alike the count goes down by one exactly if something was taken, and a peek leaves the contents alone; exactly the first waiting sender is woken after a take, and the first waiting receiver after a peek |
| `Queues.Queue.SendFromISR` | FreeRTOS/Source/queue.c:1054-1200 | as a send, for contents and count; the first waiting receiver is woken if the queue is not locked, and otherwise the transmit lock count goes up by one |
| `Queues.Queue.ReceiveFromISR` | FreeRTOS/Source/queue.c:1551-1635 | as a receive, for contents and count; the first waiting sender is woken if the queue is not locked, and otherwise the receive lock count goes up by one |
| `Queues.Queue.PeekFromISR` | FreeRTOS/Source/queue.c:1638-1689 | the first item, with the read index as before |
| `Queues.Queue.LockQueue` | FreeRTOS/Source/queue.c:245-257 | both lock counts run afterwards, those that ran go on, no wake-up counts as put off yet, what the event lists are owed is as before, and unlocking an unlocked queue again undoes it |
| `Queues.Queue.UnlockTransmit` | FreeRTOS/Source/queue.c:1884-1959 | the loop with its break takes as many receivers off the head of their list as messages were counted, or all if there are fewer, and wakes exactly these; the lock is open then |
| `Queues.Queue.UnlockReceive` | FreeRTOS/Source/queue.c:1961-1987 | the loop with its break does the same for senders and the slots that were counted |
| `TickTime.VerdictIsExact` | FreeRTOS/Source/tasks.c:2615-2661 | with at most one wrap since the last check, it expires exactly when the unbounded elapsed time reaches the wait, and otherwise the remaining wait is the difference |
| `TickTime.VerdictRightIff` | FreeRTOS/Source/tasks.c:2630-2656 | for any number of wraps: the verdict is right if and only if there was at most one wrap, or the tick is not below the entry tick, or the elapsed ticks modulo 2^32 reach the wait |
| `TickTime.TwoWrapsHideATimeOut` | FreeRTOS/Source/tasks.c:2630-2656 | with two wraps between calls an expired wait is reported as nearly untouched |
| `TickTime.FirstExpiryIsExact` | FreeRTOS/Source/tasks.c:2615-2661 | over repeated checks remaining plus elapsed stays the budget: the first check at or after the budget reports the timeout, and none before |
| `TickTime.ForeverNeverExpires` | FreeRTOS/Source/tasks.c:2622-2632 | a wait of portMAX_DELAY never times out |
| `TickTime.ShouldDelayMeaning` | FreeRTOS/Source/tasks.c:863-895 | the two wrap cases of the test come to: the increment exceeds the ticks since the previous wake time, modulo 2^32 |
| `TickTime.DelayUntilRightIff` | FreeRTOS/Source/tasks.c:863-895 | in unbounded time the task delays exactly if its wake time is still to come, if and only if the previous wake time is under 2^32 ticks ago or the increment is at most the ticks since then modulo 2^32 |
| `TickTime.PeriodicDelaysDoNotDrift` | FreeRTOS/Source/tasks.c:848-937 | call n of a periodic task waits for start + (n + 1) * increment, across any number of wraps, and delays exactly if that is still to come |
| `TickTime.OverflowListIsNextEpoch` | FreeRTOS/Source/tasks.c:3107-3134 | the wrapped wake time is below the tick count exactly if the unbounded wake time is in the next epoch |
| `TaskLists.UnlinkedIsRemove` | FreeRTOS/Source/list.c:212-247 | removing a task from a ready list is the removal of the kernel list |
| `TaskLists.InsertionSorted` | FreeRTOS/Source/list.c:145-209 | insertion keeps a list ordered by value |
| `TaskLists.InsertionAddsOne` | FreeRTOS/Source/list.c:145-209 | insertion adds that task and no other |
| `Scheduling.ReadyKeeps` | FreeRTOS/Source/tasks.c:411-414 | moving a task to the ready list of its priority keeps the invariant and moves that task only; it gets the last turn there, and all other turns stay in order |
| `Scheduling.WakeKeeps` | FreeRTOS/Source/tasks.c:2033-2049 | taking a task off its event list and its state list and making it ready keeps the invariant and moves that task only; it waits for no event then, and gets the last turn in the ready list of its priority |
| `Scheduling.MovedToBack` | FreeRTOS/Source/list.c:116-142 | a task that is moved to the end of a list gets the last turn there, or the one before the task under the cursor; every turn order else only loses the task |
| `Scheduling.UnblockWakes` | FreeRTOS/Source/tasks.c:1995-2072 | the loop wakes exactly the delayed tasks whose time has come, which wait for no event then, and leaves the next unblock time at or below every remaining wake time |
| `Scheduling.WrapEmptiesDelayed` | FreeRTOS/Source/tasks.c:391-403 | when the tick count wraps the current delayed list is empty, and after the lists change places the invariant holds for the new epoch |
| `Scheduling.CountTickWakesOnTime` | FreeRTOS/Source/tasks.c:1961-2116 | a tick adds one to the unbounded count and makes ready exactly the tasks due by then, at any wrap, and takes them off the event lists they waited on; all others keep their due time and their event |
| `Scheduling.ReplayCatchesUp` | FreeRTOS/Source/tasks.c:1740-1754 | replaying the pended ticks counts each of them, and wakes each task due in that time |
| `Scheduling.MovePendingKeeps` | FreeRTOS/Source/tasks.c:1715-1730 | exactly the tasks on the pending ready list become ready, at their priority, and wait for nothing any more; the list is empty then, and no other task moves |
| `SchedulerSteps.BlockKeeps` | FreeRTOS/Source/tasks.c:3107-3134 | a task blocked for 0 < d < 2^32 ticks is due at the unbounded count + d, in the current or the overflow list |
| `SchedulerSteps.RerankKeeps` | FreeRTOS/Source/tasks.c:1142-1299 | a new priority keeps every ready task in the list of its priority and no ready list above the recorded top in use |
| `SchedulerSteps.ResetKeeps` | FreeRTOS/Source/tasks.c:3383-3404 | the recomputed unblock time is no later than any wake time |
| `SchedulerSteps.SomeReady` | FreeRTOS/Source/tasks.c:331-336 | the search for a non-empty ready list ends at one, since the idle task is always ready |
| `SchedulerSteps.SwitchPicksHighest` | FreeRTOS/Source/tasks.c:2226-2288 | a context switch picks the task whose turn it is in the ready list of the highest priority that any ready task has, and sends it to the back of the turn order |
| `SchedulerSteps.WaitStep` | FreeRTOS/Source/tasks.c:2291-2347 | placing the running task on an event list, with or without time limit, keeps the invariant and moves no other task |
| `SchedulerSteps.SignalStep` | FreeRTOS/Source/tasks.c:2494-2559 | removing a task from an event list keeps the invariant, be the scheduler suspended or not |
| `SchedulerSteps.SuspendStep` | FreeRTOS/Source/tasks.c:1306-1341 | a suspended task, wherever it was, is in the suspended list and waits for no event; no other task moves, and the invariant is kept |
| `SchedulerSteps.ResumeStep` | FreeRTOS/Source/tasks.c:1441-1487 | exactly a task in the suspended list that waits for no event and does not run becomes ready, behind its equals; otherwise nothing changes |
| `SchedulerSteps.ResumeISRStep` | FreeRTOS/Source/tasks.c:1495-1560 | the same from an interrupt; while the scheduler is suspended the task goes to the pending ready list instead |
| `SchedulerSteps.CreateStep` | FreeRTOS/Source/tasks.c:671-726 | a created task is ready, behind its equals, at its priority cut to the highest that there is; no other task moves, and the invariant is kept |
| `SchedulerSteps.DeleteStep` | FreeRTOS/Source/tasks.c:766-811 | a deleted task, wherever it was, is in the termination list and waits for no event; no other task moves, and the invariant is kept |
| `SchedulerSteps.PrioritizeStep` | FreeRTOS/Source/tasks.c:1142-1299 | the base priority is the new one, cut to the highest that there is; the priority follows it unless one is inherited; a ready task whose base changed goes to the back of the list of its priority, and the invariant is kept |
| `SchedulerSteps.InheritStep` | FreeRTOS/Source/tasks.c:3454-3515 | the holder has the higher priority of its own and that of the running task and keeps its base; if that is new and the holder is ready it joins the list of that priority; nothing else changes |
| `SchedulerSteps.HoldStep` | FreeRTOS/Source/tasks.c:3920-3930 | the running task holds one mutex more; nothing else changes |
| `SchedulerSteps.ReturnStep` | FreeRTOS/Source/tasks.c:3520-3594 | the running task holds one mutex less; with the last one an inherited priority goes, and the task joins the ready list of its base priority; nothing else changes |
| `SchedulerSteps.ResumeAllStep` | FreeRTOS/Source/tasks.c:1693-1783 | when the last suspension ends, every pending task is ready at its priority and waits for nothing, every pended tick is counted, and exactly the tasks due by then are woken; before that nothing but the number of suspensions changes; the invariant is kept |
| `SchedulerSteps.TickStep` | FreeRTOS/Source/tasks.c:1961-2116 | a tick interrupt is counted or pended, and tasks are woken on time |
| `SchedulerSteps.StepKeeps` | FreeRTOS/Source/tasks.c:1306-1388 | every operation keeps the scheduler invariant: each live task in exactly one list, that of its state and priority; sorted delayed lists of the two epochs; nothing pending while the scheduler is not suspended; no ready list above the recorded top in use |
| `SchedulerSteps.RunsSwitchToHighest` | FreeRTOS/Source/tasks.c:319-341 | after any run, a context switch with the scheduler running ends at a ready task that no ready task exceeds in priority |
| `SchedulerSteps.NoTickIsLost` | FreeRTOS/Source/tasks.c:1740-1754 | over every run the tick interrupts seen are the ticks counted plus the ticks pended |
| `SchedulerSteps.WakesOnTime` | FreeRTOS/Source/tasks.c:944-1003 | over every run that does not signal, suspend or delete it, a delayed task stays delayed while the unbounded count is below its due time and is ready, at its priority then, in the first state that reaches it |
| `SchedulerSteps.Slept` | FreeRTOS/Source/tasks.c:944-1003 | a task that goes to sleep for d ticks starts such a run with due time count + d |
| `SchedulerLaws.StepUnmoved` | FreeRTOS/Source/tasks.c:671-3594 | no step but a context switch changes the running task, none but those that suspend and resume the scheduler changes the number of suspensions, and none changes the priorities of a task but those that name it |
| `SchedulerLaws.PendingBecomesReady` | FreeRTOS/Source/tasks.c:1715-1730 | over every run: a task on the pending ready list is ready in the state in which the last suspension ends, unless it is suspended or deleted before |
| `SchedulerLaws.SignalIsNotLost` | FreeRTOS/Source/tasks.c:2503-2537 | over every run: a task that is signalled while the scheduler is suspended is ready after the step that ends the suspension, whatever comes in between, unless it is suspended or deleted |
| `Schedulers.Scheduler.constructor` | FreeRTOS/Source/tasks.c:1565-1630 | the scheduler starts with the idle task ready and satisfies the invariant |
| `Schedulers.Scheduler.UnblockTasks` | FreeRTOS/Source/tasks.c:1995-2072 | the for(;;) loop over the delayed list ends; exactly the tasks whose time has come are ready, and wait for no event |
| `Schedulers.Scheduler.IncrementTick` | FreeRTOS/Source/tasks.c:1961-2125 | counts the tick, or pends it while the scheduler is suspended; a counted tick adds one to the unbounded count and wakes exactly the tasks due by then, and the scheduler invariant is kept |
| `Schedulers.Scheduler.ResumeAllTasks` | FreeRTOS/Source/tasks.c:1693-1783 | when the last suspension ends, every task on the pending ready list is ready at its priority and waits for nothing, every pended tick is counted, and the tasks due by then are woken; before that only the number of suspensions falls; the scheduler invariant is kept |
| `Schedulers.Scheduler.MovePendingTasks` | FreeRTOS/Source/tasks.c:1715-1730 | the loop over the pending ready list ends with an empty list; exactly the tasks that were on it are ready, at their priority, and wait for nothing |
| `Schedulers.Scheduler.ReplayTicks` | FreeRTOS/Source/tasks.c:1740-1754 | the loop over the pended ticks ends with none left, every one counted, and exactly the tasks due by then woken, although counting a tick and lowering the pended count are separate steps |
| `Schedulers.Scheduler.SwitchContext` | FreeRTOS/Source/tasks.c:2226-2288 | the search down from the recorded top priority ends at a non-empty list; the task that runs then is ready and none is ready at a higher priority; while the scheduler is suspended the running task stays |
| `Schedulers.Scheduler.Delay` | FreeRTOS/Source/tasks.c:944-1003 | the running task is delayed and due at the unbounded count plus the delay, no other task moves, and the scheduler invariant is kept |
| `Schedulers.Scheduler.DelayUntil` | FreeRTOS/Source/tasks.c:848-937 | the caller's variable moves on by the increment; the task is delayed exactly if some of the increment is left, counted from the previous wake time, and is then due when that is over in unbounded time; the scheduler invariant is kept |
| `Schedulers.Scheduler.PlaceOnEventList` | FreeRTOS/Source/tasks.c:2291-2347 | the running task waits for its event and is due at the unbounded count plus the block time, or is in the suspended list for portMAX_DELAY; no other task moves, and the scheduler invariant is kept |
| `Schedulers.Scheduler.RemoveFromEventList` | FreeRTOS/Source/tasks.c:2494-2559 | the task is ready at its priority and waits for nothing, or is held back where it was while the scheduler is suspended; no other task moves, the scheduler invariant is kept, and the answer says exactly if it has a higher priority than the running one |
| `Schedulers.Scheduler.TaskSuspend` | FreeRTOS/Source/tasks.c:1306-1341 | whatever lists it was in, the task is in the suspended list and waits for no event; no other task moves, and the scheduler invariant is kept |
| `Schedulers.Scheduler.PriorityInherit` | FreeRTOS/Source/tasks.c:3454-3515 | the holder's priority is then the higher one of its own and that of the running task, its base priority is as before, no other task moves, and the scheduler invariant, with ready tasks in the list of their priority, is kept |
| `Schedulers.Scheduler.PriorityDisinherit` | FreeRTOS/Source/tasks.c:3520-3594 | lowers the count of held mutexes; the priority is the base one after the last mutex and as before otherwise, and the answer tells exactly if it changed; no other task moves, and the scheduler invariant is kept |
| `Schedulers.Scheduler.ResetNextTaskUnblockTime` | FreeRTOS/Source/tasks.c:3383-3404 | the unblock time is no later than any wake time in the current delayed list, and is one of them, or portMAX_DELAY if there is none; the scheduler invariant is kept |
| `EventLists.OrderedWakesHighest` | FreeRTOS/Source/tasks.c:2494-2514 | in an ordered event list the first task, which an event wakes, has the highest priority of all on the list |
| `EventLists.JoinsBehind` | FreeRTOS/Source/tasks.c:2291-2304 | a task joins behind all tasks of its own priority or a higher one and before the others |
| `EventLists.StepOrderedIff` | FreeRTOS/Source/tasks.c:1218-1256 | a step keeps the event list ordered if and only if it does not set the base priority of a boosted task to another value than its present priority, and the new value of an item that is on the list fits between its neighbours; joining, waking and leaving always do |
| `EventLists.FirstIsHighestIff` | FreeRTOS/Source/tasks.c:1142-1299 | after a priority change of one task, the first task of the list is still of the highest priority if and only if that task is first and not below the second one, or not first and not above the first one |
| `EventLists.EventsWakeHighest` | FreeRTOS/Source/tasks.c:2503-2514 | in every run whose priority changes keep the order, each event wakes a task of the highest priority on the list |
| `EventLists.RaisedTaskIsNotFirst` | FreeRTOS/Source/tasks.c:1244-1256 | a waiting task whose priority is raised above that of the first one is still woken after it |
| `EventLists.BoostedTaskJoinsBehind` | FreeRTOS/Source/tasks.c:1224-1256 | a boosted task whose base priority is set joins the list behind a task of lower priority |
| `PriorityInheritance.StepKeeps` | FreeRTOS/Source/queue.c:485-575 | every mutex operation keeps: free exactly if nobody holds it; the held count of a task is the number of mutexes it holds; a task that holds none is at its base priority; recursion counts are positive exactly while held |
| `PriorityInheritance.RunKeeps` | FreeRTOS/Source/queue.c:1788-1803 | so does every run of operations in which only holders give |
| `PriorityInheritance.TakenOnce` | FreeRTOS/Source/queue.c:1402-1417 | over every run: after a take of a free mutex, recursive or not, no other task takes it until the taker has given it back |
| `PriorityInheritance.HolderExcludes` | FreeRTOS/Source/queue.c:1788-1803 | the same for any holder: it stays the holder, and every take by another task fails, as long as it has not given the mutex back |
| `PriorityInheritance.DepthBalance` | FreeRTOS/Source/queue.c:485-575 | over every run the recursion depth at the end and the gives that passed add up to the depth at the start and the takes that passed; a recursive mutex is free exactly at depth zero |
| `PriorityInheritance.BoostLastsIff` | FreeRTOS/Source/tasks.c:3454-3594 | once a task waits for a mutex, its holder's priority stays at least the waiter's priority of that moment in every state until it has returned its last mutex, if and only if no vTaskPrioritySet gives the holder a lower priority while it inherits none |
| `PriorityInheritance.LastGiveEndsBoost` | FreeRTOS/Source/tasks.c:3520-3594 | giving back the last mutex restores the base priority and frees the mutex |
| `PriorityInheritance.SetPriorityKeepsOrderIff` | FreeRTOS/Source/tasks.c:1142-1299 | vTaskPrioritySet with a new base keeps the priority at or above the base if and only if no priority is inherited or the new base is at most the inherited one |
| `PriorityInheritance.SetPriorityBreaksBoost` | FreeRTOS/Source/tasks.c:1224-1238 | setting the priority of a holder that needed no boost takes it below the task waiting for it |
| `PriorityInheritance.Kernel.TryTake` | FreeRTOS/Source/queue.c:1402-1417 | taken exactly if nobody held the mutex; then, recursive or not, it is no longer available, the taker is its holder and holds one mutex more, and nothing else changes; the mutex invariant is kept, for a recursive mutex once its first call is counted |
| `PriorityInheritance.Kernel.PriorityInherit` | FreeRTOS/Source/queue.c:1505-1522 | the holder, if any, has the higher priority of its own and that of the task that waits, and nothing else changes; the mutex invariant is kept |
| `PriorityInheritance.Kernel.PriorityDisinherit` | FreeRTOS/Source/tasks.c:3520-3594 | the giver's rank after one mutex is returned, and whether its priority changed |
| `PriorityInheritance.Kernel.TryGive` | FreeRTOS/Source/queue.c:1788-1803 | given exactly if the task held the mutex, which is free and available afterwards; the giver holds one mutex less and, with the last one, is at its base priority; nothing else changes, and the mutex invariant holds again |
| `PriorityInheritance.Kernel.TakeMutexRecursive` | FreeRTOS/Source/queue.c:540-575 | passes exactly if the mutex is free or the caller holds it; the caller holds it then, one recursion deeper; otherwise nothing changes |
| `PriorityInheritance.Kernel.GiveMutexRecursive` | FreeRTOS/Source/queue.c:485-533 | passes exactly for the holder; the recursion is one less deep then, and the mutex is free exactly at depth zero; otherwise nothing changes |
| `TimerLists.LateMeaning` | FreeRTOS/Source/timers.c:554-592 | the wrap cases of the test come to: at least a period of ticks has passed since the command, modulo 2^32 |
| `TimerLists.LateRightIff` | FreeRTOS/Source/timers.c:554-592 | in unbounded time the test is right if and only if the command is under 2^32 ticks old or the ticks since then modulo 2^32 reach the period |
| `TimerLists.ListOfEpoch` | FreeRTOS/Source/timers.c:561-589 | a timer that is not late goes into the list of the epoch of its expiry |
| `TimerLists.InsertKeeps` | FreeRTOS/Source/timers.c:554-592 | insertion keeps both lists sorted and duplicate-free and touches no other timer |
| `TimerLists.InsertIsExact` | FreeRTOS/Source/timers.c:554-592 | for a command under 2^32 ticks old, the timer is told to be processed at once exactly if its expiry has passed, and otherwise listed for exactly that expiry |
| `Timers.DrainOneKeeps` | FreeRTOS/Source/timers.c:735-774 | a round of the loop keeps the lists valid and uses up ticks of the ending epoch, so that the loop ends |
| `Timers.SwitchKeeps` | FreeRTOS/Source/timers.c:723-779 | the switch ends with valid lists, one epoch on |
| `Timers.SwitchPhase` | FreeRTOS/Source/timers.c:723-779 | the list switch gives a running auto-reload timer each of its expiries in the ending epoch and leaves it listed or restarted for the next one |
| `Timers.SampleTime` | FreeRTOS/Source/timers.c:531-551 | the time of the sample is the unbounded time, if less than 2^32 ticks passed since the sample before |
| `Timers.SamplePhase` | FreeRTOS/Source/timers.c:531-551 | taking the time, with or without a list switch, keeps a running timer in its series |
| `Timers.ExpiredPhase` | FreeRTOS/Source/timers.c:381-418 | processing an expired timer keeps every running timer in its series, whether the next expiry is late or not |
| `Timers.ProcessPhase` | FreeRTOS/Source/timers.c:445-502 | a round of the daemon over its lists keeps every running timer in its series |
| `Timers.ReceivePhase` | FreeRTOS/Source/timers.c:595-720 | a round of the daemon over its commands keeps every running timer in its series, catch-up by restart commands included |
| `Timers.RunPhase` | FreeRTOS/Source/timers.c:421-442 | so does every run of such rounds mixed with commands to other timers |
| `Timers.NoDrift` | FreeRTOS/Source/timers.c:656-686 | an auto-reload timer of period p started at time c, be it for the first time or after earlier series, gets its callbacks for c + p, c + 2p and so on, each once, in order and not before its time, over every run in which no further command is sent to it; whenever the daemon has nothing left to do, none that is due is missing |
| `OneShots.FiresOnce` | FreeRTOS/Source/timers.c:381-418 | a one-shot timer of period p started at time c while it does not run gets, over every run in which no further command is sent to it, exactly one callback, for c + p and not early, and none before while it is started or listed; whenever the daemon has nothing left to do at c + p or later it has had it, and is in no list |
| `TimerStops.StopIsOvertaken` | FreeRTOS/Source/timers.c:688-692 | a stop command that waits while the daemon restarts the timer by a command of its own is overtaken: the timer fires after the stop |
| `TimerStops.StopHoldsIff` | FreeRTOS/Source/timers.c:595-720 | for a timer in no list, with timely commands in the queue: it gets no callback in any run in which no new command is sent to it, if and only if every command for it that is still in the queue is a stop |
| `TimerStops.ObeyedStopHoldsIff` | FreeRTOS/Source/timers.c:688-692 | when a stop command is obeyed the timer is in no list, and it stays stopped if and only if only further stops for it stood behind that command in the queue |
| `TimerStops.RestingRun` | FreeRTOS/Source/timers.c:595-720 | a timer in no list, with nothing but stop commands on their way to it, stays so and gets no callback over every run without a new command for it |
| `TimerStops.DueTimerIsCalled` | FreeRTOS/Source/timers.c:381-418 | rounds of the daemon at or after the expiry time of a listed timer reach it, whatever other timers are reloaded on the way |
| `TimerStops.CommandIsObeyed` | FreeRTOS/Source/timers.c:595-720 | from any queue with a timely start or change of period for a stopped timer there is a run without further commands that calls it back |
| `TimerDaemons.TimerDaemon.InsertTimerInActiveList` | FreeRTOS/Source/timers.c:554-592 | for a command under 2^32 ticks old: true exactly if the expiry in unbounded time has come, and then the timer is in no list; otherwise it is listed for exactly that expiry; lists stay valid and no other timer is touched |
| `TimerDaemons.TimerDaemon.ProcessExpiredTimer` | FreeRTOS/Source/timers.c:381-418 | the head timer is called back for its expiry time; a one-shot timer stops, an auto-reload timer is listed for one period later, or restarted by a command if that has come too; lists stay valid and no other timer is touched |
| `TimerDaemons.TimerDaemon.SwitchTimerLists` | FreeRTOS/Source/timers.c:723-779 | the loop ends with valid lists, one epoch on, and has the effect of draining them round by round |
| `TimerDaemons.TimerDaemon.SampleTimeNow` | FreeRTOS/Source/timers.c:531-551 | switches the lists exactly if the tick count is below the last one; the daemon's time is then the unbounded time and the lists are valid |
| `TimerDaemons.TimerDaemon.ProcessTimerOrBlockTask` | FreeRTOS/Source/timers.c:445-502 | a round over the lists is the step of a run by that name: it ends at the given unbounded time with valid lists |
| `TimerDaemons.TimerDaemon.ProcessReceivedCommand` | FreeRTOS/Source/timers.c:595-720 | a round over the commands is the step of a run by that name and keeps the lists valid: afterwards a stopped timer is in no list, one with a new period expires that period from now, and a started one is listed for its first expiry or was called back for it; a message for no timer is taken from the queue and changes nothing else |
| `EventGroups.ItemValueParts` | FreeRTOS/Source/event_groups.c:322-349 | the bits waited for and both options can be read back from the packed list item value |
| `EventGroups.ReleaseValueParts` | FreeRTOS/Source/event_groups.c:550-555 | a released task can tell that it was released and reads the event bits of that moment |
| `EventGroups.MetMeaning` | FreeRTOS/Source/event_groups.c:613-645 | a wait for all bits is over when each of them is set, and a wait for any when one of them is |
| `EventGroups.KeptMembers` | FreeRTOS/Source/event_groups.c:506-562 | exactly the waiters satisfied by old or new bits leave the list |
| `EventGroups.ReleasedMembers` | FreeRTOS/Source/event_groups.c:506-562 | every satisfied waiter is released, with the event bits; nobody else is |
| `EventGroups.ClearedMembers` | FreeRTOS/Source/event_groups.c:540-548 | a bit is cleared exactly if a waiter that is released asked for clearing on exit and waited for that bit |
| `EventGroups.OrderDoesNotMatter` | FreeRTOS/Source/event_groups.c:480-571 | who is released, who stays and what is cleared do not depend on the order of the list |
| `EventGroups.SetBitsKeeps` | FreeRTOS/Source/event_groups.c:480-571 | after bits are set, in any group, no waiter is satisfied by the bits that remain |
| `EventGroups.ClearBitsKeeps` | FreeRTOS/Source/event_groups.c:422-446 | clearing bits satisfies nobody |
| `EventGroups.WaitKeeps` | FreeRTOS/Source/event_groups.c:274-415 | a task joins the list only while its condition is not met |
| `EventGroups.SyncKeeps` | FreeRTOS/Source/event_groups.c:158-266 | a synchronising task joins the list only while bits it waits for are missing |
| `EventGroups.TimeOutResult` | FreeRTOS/Source/event_groups.c:364-408 | after a timeout the task gets the bits as they are; those it waited for are cleared exactly if its condition is met after all and it asked for that; nobody is released |
| `EventGroups.StepKeeps` | FreeRTOS/Source/event_groups.c:274-415 | every operation, timeouts included, keeps: no waiter has its condition met, and no event bit is a control bit |
| `EventGroups.NobodyWaitsSatisfied` | FreeRTOS/Source/event_groups.c:480-571 | so does every run of operations |
| `EventGroups.MeetingWaits` | FreeRTOS/Source/event_groups.c:158-266 | before the last of n tasks arrives at a rendezvous, all others wait, in order of arrival, and the bits add up |
| `EventGroups.RendezvousReleasesAll` | FreeRTOS/Source/event_groups.c:158-266 | when the last task arrives it returns, and all others are released, each with every bit set; the bits of the rendezvous are clear again and nobody waits |
| `EventGroups.EventGroup.Set` | FreeRTOS/Source/event_groups.c:480-571 | exactly the waiters satisfied by old and new bits leave the list and are released with these bits; a bit remains exactly if it was set and no such waiter that asked for clearing on exit waited for it; no waiter is left whose condition is met |
| `EventGroups.EventGroup.ReleaseWaiters` | FreeRTOS/Source/event_groups.c:506-562 | removing items while walking skips none and visits none twice |
| `EventGroups.EventGroup.Match` | FreeRTOS/Source/event_groups.c:613-645 | true exactly if all bits waited for are set, or any of them, as the packed option says |
| `EventGroups.EventGroup.Clear` | FreeRTOS/Source/event_groups.c:422-446 | exactly the masked bits go, the bits of before are returned, and since that satisfies nobody no waiter is left whose condition is met |
| `EventGroups.EventGroup.Wait` | FreeRTOS/Source/event_groups.c:292-357 | blocks exactly if the condition is not met and a wait is allowed, with an item from which the bits and both options can be read; otherwise returns the bits of before and clears those asked for exactly if the condition was met; no waiter is left whose condition is met |
| `EventGroups.EventGroup.Synchronize` | FreeRTOS/Source/event_groups.c:173-213 | blocks exactly if some bit is missing and a wait is allowed; if none is missing it returns all bits and leaves those of the rendezvous clear; satisfied waiters are released with all bits; a bit remains exactly if it was set and neither such a waiter, by clearing on exit, nor a rendezvous that is complete clears it; no waiter is left whose condition is met |
| `GapBuffers.MoveDown` | sys/edit.c:392-400 | moving bytes from before the gap to behind it leaves the text as it was |
| `GapBuffers.MoveUp` | sys/edit.c:392-400 | so does moving bytes from behind the gap to before it |
| `GapBuffers.DeleteAcrossGap` | sys/edit.c:529-533 | a deletion that touches the gap only widens it, and that is the deletion in the text |
| `GapBuffers.ReplaceAtGap` | sys/edit.c:534-541 | moving the gap to the end of what is replaced and copying over it is the replacement in the text |
| `GapBuffers.GapBuffer.constructor` | sys/edit.c:321-345 | the loaded text is the text of the buffer |
| `GapBuffers.GapBuffer.Shift` | sys/edit.c:392-401 | moves the gap to any position, in either direction, and keeps the text |
| `GapBuffers.GapBuffer.Extend` | sys/edit.c:402-431 | both layouts of the copy to a larger buffer keep the text and give a gap of the wanted size at the wanted place |
| `GapBuffers.GapBuffer.MoveGap` | sys/edit.c:387-436 | the text stays; the gap starts at the position, keeps its size if that is enough and otherwise gets the wanted size or MINEXTEND bytes more than before, whichever is larger |
| `GapBuffers.GapBuffer.Get` | sys/edit.c:444-448 | the byte of the text, or -1 behind its end |
| `GapBuffers.GapBuffer.Compare` | sys/edit.c:450-463 | true exactly if the text holds the bytes there |
| `GapBuffers.GapBuffer.Copy` | sys/edit.c:465-478 | the bytes of the text from the position on, up to its end |
| `GapBuffers.GapBuffer.Replace` | sys/edit.c:529-541 | text == old text[..pos] + buf + old text[pos + len..], for every position and size of the gap |
| `GapBuffers.GapBuffer.Save` | sys/edit.c:358-368 | the two writes put out exactly the text |
| `UndoHistory.RevertApply` | sys/edit.c:1624-1633 | the replacement that undoes a record takes the text back |
| `UndoHistory.MergedKeeps` | sys/edit.c:488-504 | in all three cases the merged record takes the text before it to the text after both changes |
| `UndoHistory.EditKeeps` | sys/edit.c:480-545 | an edit replaces in the text, and the records still lead from the base to the text |
| `UndoHistory.EditRecords` | sys/edit.c:485-527 | in the three cases a change adds no record but goes into the last one; any other change adds exactly one, with its position and the bytes erased and inserted; records behind the boundary go, and the text is dirty |
| `UndoHistory.TypedIsOneRecord` | sys/edit.c:488-495 | characters typed one behind the other, however many, go into one record, if the first of them does not continue what was typed before |
| `UndoHistory.EditSoundIff` | sys/edit.c:239-254 | an edit leaves a sound history if and only if something is left to undo, or undohead is null, or malloc hands out the address of the old first record again; otherwise undohead points to a freed record, which follows from what reset_undo freed |
| `UndoHistory.ResetHeld` | sys/edit.c:239-254 | a reset frees no record that stays; if any stays undohead points to the first one, and if none does it points to a freed one |
| `UndoHistory.StaleHeadAfterFullUndo` | sys/edit.c:239-254 | type, undo, type: undohead holds the address of a freed record, which saving, and redoing after an undo, would follow |
| `UndoHistory.UndoKeeps` | sys/edit.c:1624-1633 | an undo replaces within the text and leaves the text at the new boundary of the records |
| `UndoHistory.RedoKeeps` | sys/edit.c:1635-1649 | so does a redo |
| `UndoHistory.RedoAfterUndo` | sys/edit.c:1624-1649 | a redo after an undo restores everything but the dirty flag, which it sets |
| `UndoHistory.UndoRedoRestores` | sys/edit.c:1624-1649 | n undos followed by n redos restore text, records and boundary |
| `UndoHistory.UndoManyText` | sys/edit.c:1624-1633 | after n undos the text is what the records before the boundary make of the base; after all of them it is the base, and not dirty |
| `UndoHistory.UndoTakesBackTyping` | sys/edit.c:1624-1633 | one undo takes back all characters that were typed one behind the other |
| `UndoHistory.SaveResult` | sys/edit.c:358-375 | saving a sound history leaves the text, which is the new base, a clean flag, and nothing to undo or redo |
| `UndoHistory.BaseIsLastSaved` | sys/edit.c:358-375 | over every run the base of the history is the text last loaded or saved |
| `UndoHistory.CleanIsSaved` | sys/edit.c:358-375 | over every run of edits, undos, redos and saves: if the text is not dirty it is the text last loaded or saved, and undos can be redone |
| `Editors.Editor.Reset` | sys/edit.c:239-254 | the loop frees exactly the records behind the boundary and does not write undohead |
| `Editors.Editor.Remember` | sys/edit.c:485-527 | merges with the last record in the three cases, else appends a record with the erased bytes |
| `Editors.Editor.Replace` | sys/edit.c:480-545 | the text is old text[..pos] + buf + old text[pos + len..] and dirty, and the records move with it as specified; a sound history stays sound exactly under the condition of EditSoundIff |
| `Editors.Editor.UndoOnce` | sys/edit.c:1624-1633 | the gap buffer holds the text before the last change; the history stays faithful |
| `Editors.Editor.RedoOnce` | sys/edit.c:1635-1649 | the gap buffer holds the text after the next change; the history stays sound |
| `Editors.Editor.Save` | sys/edit.c:358-375 | the file is the text; the text is clean, nothing is left to undo or redo, undohead is null, and the history is sound |
| `RotableCaches.FindIsLookup` | Lua/common/lrotable.c:64-149 | a cached lookup gives the value that the plain first-match scan gives, and keeps the cache coherent |
| `RotableCaches.RunIsTransparent` | Lua/common/lrotable.c:64-149 | so does every lookup of every sequence of lookups |
| `RotableCaches.LookupMeaning` | Lua/common/lrotable.c:64-149 | the plain scan gives the value of the first entry with the key, and none exactly if there is no such entry |
| `RotableCaches.FindKeepsRecent` | Lua/common/cache.c:111-177 | a lookup, by hit or by miss, puts the found entry first and drops the one least recently found; a failed lookup changes nothing |
| `RotableCaches.OrderIsRecency` | Lua/common/cache.c:111-177 | after any sequence of lookups the cache is the list of the distinct entries found, most recent first, cut or filled to its length |
| `RotableCaches.MiddleToFront` | Lua/common/cache.c:125-130 | the pointer writes that promote a node from the middle keep the nodes linked, back links but for the first node's |
| `RotableCaches.LastToFront` | Lua/common/cache.c:131-137 | so do those that promote the last node |
| `RotableCaches.Cache.constructor` | Lua/common/cache.c:75-109 | a fresh cache is a list of empty slots, linked both ways |
| `RotableCaches.Cache.PromoteMiddle` | Lua/common/cache.c:125-130 | the node goes to the front; the others keep their order |
| `RotableCaches.Cache.PromoteLast` | Lua/common/cache.c:131-137 | the last node goes to the front; the others keep their order |
| `RotableCaches.Cache.Get` | Lua/common/cache.c:111-155 | a hit gives the first matching slot, promotes it and counts a hit and a use of its node; a miss leaves the list as it was and counts a miss |
| `RotableCaches.Cache.Put` | Lua/common/cache.c:157-177 | the last node is recycled, goes to the front and starts with one use |
| `RotableCaches.Cache.AuxFind` | Lua/common/lrotable.c:64-149 | the cached scan on the linked nodes answers as the plain scan and keeps the cache coherent |
| `PackCodec.UnhexHex` | Lua/modules/lpack.c:65-121 | decoding what was encoded as hex digits, or a beginning of it, gives the bytes back |
| `PackCodec.HexFormat` | Lua/modules/lpack.c:98-121 | two upper-case hexadecimal digits for each byte, the high half first |
| `PackCodec.OtherCode` | Lua/modules/lpack.c:65-94 | a character that is no upper-case hexadecimal digit is read as 0 |
| `PackCodec.PackedFormat` | Lua/modules/lpack.c:140-279 | a packed string is: two digits for the number of values modulo 256, one digit for the type of each value, a zero to fill up an odd number, and the values |
| `PackCodec.BodyFormat` | Lua/modules/lpack.c:205-270 | numbers and integers are packed as their bytes, a boolean as 00 or 01, nil as nothing, and a string without a zero byte as its bytes and 00 |
| `PackCodec.HexLenIsPlainPrefix` | Lua/modules/lpack.c:124-138 | the length found for an encoded string is the number of its leading bytes with two non-zero nibbles |
| `PackCodec.TypeAtHeader` | Lua/modules/lpack.c:52-61 | the type nibble read for value i is the type written for it |
| `PackCodec.ReadOneIff` | Lua/modules/lpack.c:335-378 | one packed value is read back, and the reading goes on right behind it, exactly if it is no string with a zero nibble; otherwise something else is read |
| `PackCodec.RoundTripIff` | Lua/modules/lpack.c:140-379 | unpacking what was packed gives the same list if and only if there are at most 255 values and every byte of every string has two non-zero nibbles |
| `PackCodec.TooMany` | Lua/modules/lpack.c:170 | a list of more than 255 values comes back shorter, as its count is cut to a char |
| `PackCodec.ValToHexString` | Lua/modules/lpack.c:98-121 | overwrites the place in the buffer with the digits and leaves the rest alone |
| `PackCodec.HexStringToVal` | Lua/modules/lpack.c:65-94 | decodes exactly the digits at the place |
| `PackCodec.HexStringLen` | Lua/modules/lpack.c:124-138 | counts pairs up to the first that has a zero digit |
| `PackCodec.ArgumentSize` | Lua/modules/lpack.c:172-192 | the sum of the sizes of all values |
| `PackCodec.WriteValues` | Lua/modules/lpack.c:205-270 | writes every value behind the one before it within the computed size, and its type into the header; stops at the first unsupported value |
| `PackCodec.PackValues` | Lua/modules/lpack.c:140-279 | the packed string, or the error for no arguments or for the first unsupported one; no write goes beyond the buffer |
| `PackCodec.ReadValue` | Lua/modules/lpack.c:335-378 | the switch over the type reads as specified, from whatever bytes are there |
| `PackCodec.UnpackValues` | Lua/modules/lpack.c:281-379 | reads as many values as the header says, from any string, or finds that it would read past the end |

## Left out

- Co-routines, the alternative queue API, queue sets, tracing, run-time statistics, memory protection and tickless idle: configured off, or copies of paths that are modelled.
- Allocation of stacks and task control blocks, the port layer, interrupt masking and signals: hardware-specific, and outside this model.
- Requests to yield (xYieldPending, the return values that ask for a context switch, time slicing) and the tick hook: a context switch may happen at any step of the model, so they restrict runs and add none. `RemoveFromEventList` alone states the returned comparison.
- The order of tasks on event lists, and the values of their items, in the queue protocol and the scheduler: there a task may join at any place, so that the results hold for every order, and the scheduler records only that a task is on some event list. The order itself is modelled in EventList, for one list.
- In EventList: items of tasks that wait on an event group, whose value serves another purpose and is not overwritten, and the list of the timer queue, which is joined at the end.
- Task notifications, which also move tasks between the lists: blocking and waking by them run the same list moves as a wait with a time limit and a resume, without an event list.
- The pointer level of the lists in tasks.c and timers.c: ready lists are rings and delayed lists are sequences there; the links themselves are modelled in List, of which `TaskLists.UnlinkedIsRemove` is the connection; the other list moves are the ring's own.
- Suspension and deletion of tasks that wait on a queue, in the queue protocol only; the scheduler model has both.
- The later checks of the termination list by the idle task, and xNumOfOverflows wrapping after 2^32 overflows: both counts are unbounded here.
- The second critical section of `vTaskSuspend` and `vTaskDelete`, which recomputes the next unblock time, is a step of its own in the scheduler model.
- Deletion of tasks that hold mutexes, and giving a mutex that another task holds.
- Timer deletion, pended function calls, and a full command queue: the daemon's own restart commands always find room.
- Deletion of event groups and the variants for interrupts, which run the same functions later by way of the timer daemon.
- SchedulerSteps.WakesOnTime: speaks of tasks that no event, suspension or deletion reaches before their time; a task that such a step makes ready earlier is covered by `StepKeeps` only.
- TimerStops.StopHoldsIff: speaks of queues whose start commands are less than 2^32 ticks old and whose new periods are positive, as the daemon's time arithmetic demands.
- UndoHistory.CleanIsSaved: histories in which an edit follows a complete undo are excluded, unless malloc hands out the address of the old first record again, because `UndoHistory.EditSoundIff` shows that exactly these leave a dangling head.
- Editor display, keyboard, prompts, cursor movement, files and reading from standard input; failure of malloc and overflow of C integers in the editor.
- The linked list of undo records as nodes: records are a sequence of values with addresses, and undohead is the address that the source's field holds.
- `ppos` of `luaR_auxfind`, which is not set on a cache hit, the mutex around the cache, its memory running out, and the other functions of lrotable.c.
- PackCodec.RoundTripIff: reads `char` as unsigned, as the ESP32 compilers do; where it is signed, a count above 127 is read as negative.
- The Lua stack, `free(pack)` on a string that Lua owns, and the option of `l_unpack` to take only the first value.
- pthread, linenoise, the generated lexer and parser, the other Lua modules, SPIFFS and the system headers: thin wrappers, drivers, generated tables or calls into libraries outside this model.
