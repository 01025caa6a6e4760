# The RT-Thread kernel: waiting, memory, time and scheduling

This project models the parts of the RT-Thread kernel in which one mistake would be felt everywhere, and proves what
they promise, for every input and every run:

* **Blocking IPC** (`ipc.c`, `mempool.c`): semaphore, mutex with priority inheritance, event set, mailbox, message queue
  and memory pool. Each region between disabling and enabling interrupts is one atomic step. A thread is running, or
  queued on an object, or resumed and on its way back, or it holds a message node between two regions; time-outs, other
  callers and resets fall anywhere between the steps. The theorems are about every run of these steps.
* **Three allocators** (`mem.c`, `memheap.c`, `slab.c`): headers in the heap, splitting, merging and byte accounting.
  The central idea is that blocks which tile a heap without two free neighbours are determined by the blocks in use
  (`Tiling.Canonical`), so freeing inverts allocating and the layout does not depend on history.
* **Timers** (`timer.c`): a skip list under a 32-bit tick that wraps around, the check in the tick interrupt, and the
  soft check, during whose callbacks anyone may start and stop timers.
* **The uniprocessor scheduler** (`scheduler.c`, `thread.c`, `clock.c`, `__rt_ffs` of `kservice.c`).
* **Worst-case stack analysis** (`tools/WCS.py`): a memoised search over an arbitrary call graph.

## How the project is laid out

For each component there is a module with what each call does, as functions on values (`...Spec`), and what all runs of
these calls keep (in the same module, or in `...Theory`). Beside it is a class with the fields of the source's structure.
Its methods update these fields step by step, as the source does, and each is proved to have exactly the effect of its
function. What is proved about the functions is therefore true of the methods. For each call a lemma (`...Exactly` or
`...Meaning`) says when it succeeds and what it leaves, in terms of the state before it; the theorems over runs say what
that adds up to: units, mails, events, holds, blocks and ticks are neither lost nor made.

| files | about |
|---|---|
| `Basics`, `Numbers`, `Requests`, `Tiling`, `Rings`, `NodeChain`, `WaitQueue` | what several components share |
| `RtList` | the doubly linked list of `rtservice.h` |
| `Semaphore*`, `Mutex*`, `Event*`, `Mailbox*`, `MessageQueue*`, `MemPool*` | blocking IPC |
| `Small*`, `MemHeap*`, `Slab*` | the allocators |
| `Timer*`, `SoftTimers` | timers |
| `FirstBit`, `ReadyMap`, `Scheduler*` | the scheduler |
| `WorstStack` | the stack analysis |

`dafny verify dfyconfig.toml` checks everything.

## What the code does not keep

Where a promise does not hold of the code, the code is modelled as it is; a lemma shows it, and another says exactly when
the promise does hold.

* **Priority inheritance** with several mutexes is kept by a call if and only if that call is harmless
  (`MutexInheritance.InheritanceKept`, over runs `InheritanceInRuns`): a thread that waits raises no owner that waits itself
  for a less urgent one, and a thread that gives up a mutex falls back to a priority that serves the mutexes it keeps, and
  hands over to the most urgent waiting thread. Runs that lose it: `InheritanceLost`, `NotPassedOn`, `HeirNotMostUrgent`.
  Threads that hold one mutex at a time never lose it (`InheritanceOneAtATime`).
* **The base priority**: a thread without a mutex is always at its base priority if and only if every thread that gives up
  its only mutex got it there (`MutexSystem.BaseInRuns`); this follows from giving up mutexes in the reverse order
  (`BackAtBase`), and fails in the run `MutexInheritance.StuckAboveBase`.
* **`rt_memheap_alloc`** refuses a request for all that is available, even if one block has exactly that room
  (`MemHeapTheory.AllOfAFreshHeap`, exactly when: `RefusedThoughItFits`).
* **`rt_slab_alloc`** says (slab.c:625) that chunks of a power-of-two size are aligned to it. That holds up to the page size
  (`SlabAlignment.SmallPowersAligned`), and beyond it exactly when the zone that serves the call is so aligned (`PowerAlignment`,
  `ChunkAligned`); the first zone of a fresh heap need not be (`LargePowerNotAligned`, `RoundedPowerNotAligned`).
* **Timers** are in order only while the pending timeouts are not too far apart. A start finds the right place in a sorted
  row if and only if the first timer and the one to come behind it are near (`TimerSpec.PlaceExactly`,
  `InsertSortedExactly`). With the times the source accepts, only a late check breaks this (`TimerTheory.StartSortedExactly`);
  four ticks are enough, and an overdue timer is then passed over (`SoftTimers.OverdueMissed`). The window of the run theorems (how late the check may be,
  plus the longest `init_tick`, up to the documented maximum of `RT_TICK_MAX/2 - 1`) guarantees that.
* **The timer check** ends if and only if every expired timer that will be started again is started for at least one tick
  (`TimerTheory.CheckEndsExactly`; one that is not: `Spins`).
* **`rt_smem_alloc`** does not return from a request that passes the size check in a heap of less than 12 bytes: the bound of
  its loop wraps around. It returns if and only if nothing is asked for, or more than the heap has, or the heap has at least
  12 bytes (`SmallWalk.WalkEnds`; one that does not: `SmallestHang`).
* **`rt_smem_realloc`** keeps a block where it is exactly when the sizes are equal or a block can be split off, and fails
  exactly when neither is so and no free block fits, even if the block is cut down (`SmallHeapTheory.ReallocExactly`; such a
  block: `CutRefused`).
* **`rt_mp_init`** writes all its headers inside the pool if and only if the pool holds a block; else the last one goes in
  front of it (`MemPool.WritesInPool`).

## Model

| member | source | states |
|---|---|---|
| RtList.Nodes.Init | rt-thread/include/rtservice.h:47-50 | the node is a ring of its own, and every ring it is not on stays |
| RtList.Nodes.InsertAfter | rt-thread/include/rtservice.h:58-65 | the node stands behind `l` on the ring, in both directions; rings of other nodes stay |
| RtList.Nodes.InsertBefore | rt-thread/include/rtservice.h:73-80 | the node stands before `l`; before the head of a list means at its end |
| RtList.Nodes.Remove | rt-thread/include/rtservice.h:86-92 | the ring closes over the gap, and the node is a ring of its own, also when it was before |
| RtList.Nodes.IsEmpty | rt-thread/include/rtservice.h:98-101 | true exactly when the head is alone on its ring |
| RtList.Nodes.Len | rt-thread/include/rtservice.h:107-118 | the number of nodes on the ring besides the head |
| Rings.RingRemove | rt-thread/include/rtservice.h:86-92 | taking a node of a ring of any size out of both directions leaves the ring of the others |
| RtList.RemoveUndoesInsert | rt-thread/include/rtservice.h:86-92 | removing a node that was just inserted restores the ring |
| WaitQueue.Suspend | rt-thread/src/ipc.c:121-168 | the thread goes to the end in FIFO order; by priority it goes before the first thread that is less urgent |
| WaitQueue.InsertSorted | rt-thread/src/ipc.c:137-162 | a queue in order of priority stays so, and a thread goes behind exactly those at least as urgent: the order is stable |
| WaitQueue.SuspendOn | rt-thread/src/ipc.c:121-168 | suspending also arms the timer of a timed wait, and of no other |
| WaitQueue.ResumeAll | rt-thread/src/ipc.c:213-247 | the loop ends every wait of the queue and stops every timer of a thread on it |
| WaitQueue.BlockMeaning | rt-thread/src/ipc.c:121-168 | who blocks is queued, in FIFO order last, with the others in their order; its timer runs exactly for a timed wait; nobody else's wait changes |
| WaitQueue.WakeMeaning | rt-thread/src/ipc.c:190-203 | exactly the first queued thread, if any, leaves the queue and is on its way, its timer stopped |
| WaitQueue.ExpireMeaning | rt-thread/src/thread.c:127-156 | the thread whose time is over is off the queue wherever it was on it, and on no other list; the others stay in order |
| WaitQueue.DismissMeaning | rt-thread/src/ipc.c:213-247 | nobody waits, no timer runs, and threads resumed before stay on their way |
| WaitQueue.BlockSound | rt-thread/src/ipc.c:121-168 | a thread that queues when nothing is there for it leaves no item without a thread on its way |
| WaitQueue.WakeSound | rt-thread/src/ipc.c:190-203 | one item more comes with one more thread on its way, if any was queued |
| WaitQueue.ExpireSound | rt-thread/src/thread.c:127-156 | a time-out takes a thread off the queue, and no wake-up is lost by it |
| WaitQueue.WaitEndsOnce | rt-thread/src/thread.c:127-156 | along every sequence of steps that are no calls of the thread: it is still queued and no step has ended its wait; or exactly one has, at which it left the queue for good, and it finds itself resumed exactly when that was a wake-up |
| SemaphoreSpec.WaitEndsOnce | rt-thread/src/ipc.c:507-555 | in every run, a take that blocks ends once before the thread's next take: by a release when it is first, its own time-out, or a reset; it has its unit exactly when that was a release |
| SemaphoreSpec.ApplyKeeps | rt-thread/src/ipc.c:479-649 | a step keeps value > 0 with nobody queued, and units in plus before equal units taken plus after |
| SemaphoreSpec.Conserved | rt-thread/src/ipc.c:479-649 | every run without a reset: initial value + releases = value + takes + units handed over but not yet returned with; a positive value means an empty queue |
| SemaphoreSpec.TakeExactly | rt-thread/src/ipc.c:479-564 | done if and only if there is a unit, which is then gone; else timed out if and only if the caller will not wait; else queued, with a timer exactly for a timed wait; a take that gets nothing takes nothing |
| SemaphoreSpec.ReleaseExactly | rt-thread/src/ipc.c:601-649 | the unit goes to the first queued thread if there is one, else into the value; refused if and only if nobody is queued and the value is full |
| SemaphoreSpec.ResetExactly | rt-thread/src/ipc.c:667-699 | the value is what was given, modulo 65536, and nobody waits |
| Semaphore.Semaphore.constructor | rt-thread/src/ipc.c:295-317 | the value given, nobody waiting |
| Semaphore.Semaphore.Take | rt-thread/src/ipc.c:479-564 | takes a unit, or times out at once, or queues: the new state and outcome of the specification, on which conservation is proved |
| Semaphore.Semaphore.Release | rt-thread/src/ipc.c:601-649 | hands a unit to the first queued thread, or adds it, or reports the value full |
| Semaphore.Semaphore.Reset | rt-thread/src/ipc.c:667-699 | everybody queued is dismissed, and the value is cut to 16 bits |
| MutexSpec.ApplyKeeps | rt-thread/src/ipc.c:909-1193 | value 1 exactly with no owner and no hold; waiting threads imply an owner, who is not queued |
| MutexSpec.OnlyTheOwnerGivesUp | rt-thread/src/ipc.c:937-1039 | mutual exclusion: while owned, a mutex changes hands only by its owner giving up the last hold, and then to the first queued thread |
| MutexSpec.TakeExactly | rt-thread/src/ipc.c:909-1047 | done if and only if the mutex is free or the owner has fewer than 255 holds: one hold more, and nothing else; full if and only if the owner has them all; who waits is queued, and lends its priority to a less urgent owner |
| MutexSpec.ReleaseExactly | rt-thread/src/ipc.c:1085-1193 | done if and only if the caller owns the mutex; the last release puts it back to its saved priority and hands the mutex, with one hold, to the first queued thread, or frees it; any other only gives up one hold |
| MutexSpec.HoldsBalance | rt-thread/src/ipc.c:937-1149 | in every run from a free mutex, hold is the number of takes of the owner that were done since it got the mutex, the hand-over being one, less its releases since |
| MutexSpec.OwnerChangesExactly | rt-thread/src/ipc.c:937-1149 | so in every run an owned mutex changes owner if and only if the step is its owner's release that balances its takes |
| MutexSystem.AtBaseKept | rt-thread/src/ipc.c:1126-1149 | for every call: each thread's first mutex was got at its base priority still holds afterwards if and only if the call is in order, that is, gives up the first mutex last, or the next was got at base too |
| MutexSystem.InOrderInRuns | rt-thread/src/ipc.c:1126-1149 | the same over runs: always so if and only if all calls are in order |
| MutexSystem.BackAtBase | rt-thread/src/ipc.c:1126-1149 | any number of mutexes and threads from the start, releases in reverse order of taking: a thread without a mutex is at its base priority |
| MutexSystem.BaseAfterCall | rt-thread/src/ipc.c:1126-1131 | for every call: threads without a mutex stay at their base priority if and only if a thread that gives up its only mutex got it there |
| MutexSystem.BaseInRuns | rt-thread/src/ipc.c:1126-1131 | the same over runs, in both directions |
| MutexInheritance.InheritanceKept | rt-thread/src/ipc.c:955-1165 | for every call and any number of mutexes: every owner stays at least as urgent as those who wait for it if and only if the call is harmless, a condition on the state before |
| MutexInheritance.InheritanceInRuns | rt-thread/src/ipc.c:955-1165 | the same over runs: inheritance always works if and only if all calls are harmless |
| MutexInheritance.InheritanceOneAtATime | rt-thread/src/ipc.c:937-1165 | when threads ask for a mutex only while they hold no other, inheritance works in every state, queues are by priority, and threads that hold nothing are at their base |
| MutexInheritance.InheritanceLost | rt-thread/src/ipc.c:1126-1131 | a run of four calls, releasing in order, after which an owner is behind a thread that waits for it |
| MutexInheritance.NotPassedOn | rt-thread/src/ipc.c:992-999 | a run of four takes after which an owner is behind a waiting thread: the raise is not passed on to the owner that the raised one waits for |
| MutexInheritance.HeirNotMostUrgent | rt-thread/src/ipc.c:1136-1149 | a run of eight calls after which the heir is behind a thread that still waits: that one was raised in the queue, which is not sorted again |
| MutexInheritance.StuckAboveBase | rt-thread/src/ipc.c:1126-1131 | a run of five calls after which a thread holds nothing and keeps a borrowed priority |
| MutexSpec.PriorityInheritance | rt-thread/src/ipc.c:955-999 | one mutex, any run of takes, releases and time-outs: the owner is at least as urgent as every waiting thread, the queue is by priority, all others are at their base |
| Mutex.Mutex.constructor | rt-thread/src/ipc.c:736-759 | free, with no owner and no hold, whatever flag was asked for |
| Mutex.Mutex.Take | rt-thread/src/ipc.c:909-1047 | the mutex, all priorities and the outcome are those of the specification, on which inheritance and the count of holds (HoldsBalance) are proved |
| Mutex.Mutex.Release | rt-thread/src/ipc.c:1085-1193 | likewise: one hold less, or the owner at its saved priority and the mutex handed to the first queued thread |
| EventSpec.WalkLeavesNone | rt-thread/src/ipc.c:1452-1514 | after the walk of a send nobody left on the list is satisfied by the events that are left |
| EventSpec.WalkFrame | rt-thread/src/ipc.c:1452-1514 | the walk only takes events away; each thread on the list is either left there or woken, and only woken ones have their wish changed |
| EventSpec.WalkConsumes | rt-thread/src/ipc.c:1459-1501 | the walk consumes exactly the events delivered to woken threads that asked to clear them |
| EventSpec.WalkDelivers | rt-thread/src/ipc.c:1459-1501 | a woken thread gets those events it asked for that were there when the walk came to it |
| EventSpec.SameOnBothPaths | rt-thread/src/ipc.c:1592-1672 | receiving at once or being woken by a send delivers the same events and leaves the same ones |
| EventSpec.ApplyKeeps | rt-thread/src/ipc.c:1435-1726 | every step keeps that nobody queued is satisfied, and leaves what was delivered to a woken thread |
| EventSpec.NobodyStranded | rt-thread/src/ipc.c:1435-1726 | in every state of every run no queued thread's AND or OR condition holds |
| EventHistory.SatisfiedMeaning | rt-thread/src/ipc.c:1470-1487 | an AND request is satisfied if and only if each event asked for is there, an OR request if and only if some event asked for is there |
| EventHistory.WalkInOrder | rt-thread/src/ipc.c:1464-1513 | each thread on the list is resumed if and only if the events left by those before it satisfy it, and gets exactly what it asked for of these |
| EventHistory.WalkLeaves | rt-thread/src/ipc.c:1464-1513 | an event is left after the walk if and only if it was there before it and no resumed thread that clears it got it |
| EventHistory.SendLeaves | rt-thread/src/ipc.c:1452-1514 | after a send an event is there if and only if it was there before or is among those sent, and no thread resumed by that send cleared it |
| EventHistory.SendExactly | rt-thread/src/ipc.c:1452-1524 | an error if and only if nothing is sent, and else done; every queued thread is resumed or waits on with its wish as it was |
| EventHistory.RecvExactly | rt-thread/src/ipc.c:1560-1672 | received if and only if the condition holds of the set: what was asked for and is there, which is then gone if and only if the receiver clears; else timed out or queued, with all events there |
| EventHistory.StepLeaves | rt-thread/src/ipc.c:1435-1726 | after any step an event is there if and only if it was there or was sent, and the step did not deliver it to a thread that clears it, or reset the set |
| EventHistory.HoldsWhatWasSent | rt-thread/src/ipc.c:1435-1726 | in every state of every run, the set is exactly the events there at first or sent, that no clearing receiver got and no reset removed since |
| Event.Event.constructor | rt-thread/src/ipc.c:1265-1284 | no event, nobody waiting |
| Event.Event.Send | rt-thread/src/ipc.c:1435-1524 | the loop over the list does what the walk of the specification does, from the events there and those sent (SendLeaves), and reports an option that is neither AND nor OR |
| Event.Event.Recv | rt-thread/src/ipc.c:1560-1680 | delivers and clears, or times out at once, or queues, as specified |
| Event.Event.Reset | rt-thread/src/ipc.c:1698-1726 | everybody is dismissed and no event is left |
| Mailbox.SlotIsModular | rt-thread/src/ipc.c:2080-2090 | wrapping an offset by comparison is the remainder by the size |
| Mailbox.Mailbox.constructor | rt-thread/src/ipc.c:1775-1804 | an empty ring of the given size |
| Mailbox.Mailbox.Send | rt-thread/src/ipc.c:1986-2115 | the ring holds one mail more at its end, with one receiver resumed; or the caller is refused or queues |
| Mailbox.Mailbox.Urgent | rt-thread/src/ipc.c:2159-2211 | the ring holds one mail more at its front if and only if it has room (UrgentExactly), and one receiver is resumed; else nothing changes |
| Mailbox.Mailbox.Recv | rt-thread/src/ipc.c:2233-2363 | the first mail leaves the ring, and one sender is resumed; or the caller is refused or queues |
| Mailbox.Mailbox.Reset | rt-thread/src/ipc.c:2381-2413 | the ring is empty and everybody is dismissed |
| MailboxSpec.ApplyKeeps | rt-thread/src/ipc.c:1986-2413 | one step keeps that mails fit and that neither side loses a wake-up |
| MailboxSpec.NoLostWakeUp | rt-thread/src/ipc.c:2019-2109 | every state of every run, with stealing, time-outs, urgent mails and resets: with receivers queued, mails are no more than receivers on their way; with senders queued, free slots no more than senders on their way |
| MailboxSpec.RecvEndsOnce | rt-thread/src/ipc.c:2265-2325 | in every run, a receive that blocks ends once before the thread is in the loop again: by a mail sent when it is first, its own time-out, or a reset |
| MailboxSpec.SendEndsOnce | rt-thread/src/ipc.c:2019-2078 | the same for a send, by a mail received |
| MailboxSpec.StepMails | rt-thread/src/ipc.c:2080-2090 | a step appends, prepends or removes at the front, and nothing else |
| MailboxSpec.Conserved | rt-thread/src/ipc.c:2080-2340 | every run without a reset: mails accepted are those delivered and those still there, once each, and in order when none was urgent |
| MailboxSpec.SendExactly | rt-thread/src/ipc.c:1986-2115 | done if and only if the box has room: one mail more, behind the others, with the first receiver resumed; else refused if and only if the caller will not wait, and else queued, with the mails as they were |
| MailboxSpec.UrgentExactly | rt-thread/src/ipc.c:2159-2211 | done if and only if the box has room: one mail more, in front of the others, with the first receiver resumed; else refused, with nothing changed |
| MailboxSpec.RecvExactly | rt-thread/src/ipc.c:2233-2363 | a mail is got if and only if there is one, the first, with the first sender resumed; else refused if and only if the caller will not wait, and else queued |
| MailboxSpec.ResetExactly | rt-thread/src/ipc.c:2381-2413 | no mail and nobody waiting |
| MessageQueue.MessageQueue.constructor | rt-thread/src/ipc.c:2474-2525 | all nodes are free, the last of the pool first |
| MessageQueue.MessageQueue.TakeFree | rt-thread/src/ipc.c:2768-2847 | the first free node goes into the sender's hands, or the sender is refused or queues |
| MessageQueue.MessageQueue.Clear | rt-thread/src/ipc.c:2849-2850 | emptying the link outside the lock disturbs neither list, and no other call relies on it or undoes it |
| MessageQueue.MessageQueue.Fill | rt-thread/src/ipc.c:2851-2852 | the copy outside the lock puts the bytes at the front of that node (FillExactly), and leaves the rest of a longer older message and all other nodes |
| MessageQueue.MessageQueue.Link | rt-thread/src/ipc.c:2854-2891 | the node becomes the tail of the linked queue, and one receiver is resumed |
| MessageQueue.MessageQueue.LinkUrgent | rt-thread/src/ipc.c:2987-3020 | the node becomes the head of the linked queue, and one receiver is resumed |
| MessageQueue.MessageQueue.TakeMessage | rt-thread/src/ipc.c:3074-3165 | the first message goes into the receiver's hands, or the receiver is refused or queues |
| MessageQueue.MessageQueue.Copy | rt-thread/src/ipc.c:3167-3168 | reads as much of the message as was asked for |
| MessageQueue.MessageQueue.PutBack | rt-thread/src/ipc.c:3170-3189 | the node goes to the front of the free list, and one sender is resumed |
| MessageQueue.MessageQueue.DropFirst | rt-thread/src/ipc.c:3234-3249 | one turn of the reset: the first message's node goes to the front of the free list |
| MessageQueue.MessageQueue.Reset | rt-thread/src/ipc.c:3215-3263 | all queued nodes are free again, last one first, and everybody is dismissed |
| MessageQueueSpec.PartitionStep | rt-thread/src/ipc.c:2843-2873 | every step, also between the regions, leaves each node in exactly one place: queued, free, or in one thread's hands |
| MessageQueueSpec.NotElsewhere | rt-thread/src/ipc.c:2843-2873 | a node in one place is in no other, and all nodes of the pool are somewhere |
| MessageQueueSpec.ListsDistinct | rt-thread/src/ipc.c:2501-2516 | neither list holds a node twice |
| MessageQueueSpec.ApplyKeeps | rt-thread/src/ipc.c:2737-3263 | one step keeps the partition of the nodes, and neither side loses a wake-up |
| MessageQueueSpec.RunKeeps | rt-thread/src/ipc.c:2782-2891 | every state of every run: the partition holds; with receivers queued, messages are no more than receivers on their way; with senders queued, free nodes no more than senders on their way |
| MessageQueueSpec.RecvEndsOnce | rt-thread/src/ipc.c:3086-3147 | in every run, a receive that blocks ends once before the thread is in the loop again: by a message linked when it is first, its own time-out, or a reset |
| MessageQueueSpec.SendEndsOnce | rt-thread/src/ipc.c:2782-2841 | the same for a send, by a node given back |
| MessageQueueSpec.StepMessages | rt-thread/src/ipc.c:2848-2873 | messages enter at the back, urgent ones at the front, and leave at the front; copies outside the lock change neither a queued message nor one being read |
| MessageQueueSpec.Conserved | rt-thread/src/ipc.c:2737-3197 | every run without a reset: messages linked are those received and those still queued, once each, and in order when none was urgent |
| MessageQueueSpec.TakeFreeExactly | rt-thread/src/ipc.c:2768-2847 | a sender gets a node if and only if one is free, the first; else refused if and only if it will not wait, and else queued |
| MessageQueueSpec.FillExactly | rt-thread/src/ipc.c:2851-2852 | the front of the node is the bytes given, the rest of it and all other nodes are as before |
| MessageQueueSpec.LinkExactly | rt-thread/src/ipc.c:2854-2891 | the node leaves the sender's hands for the end of the queue, an urgent one (2987-3020) for its front, and the first receiver is resumed |
| MessageQueueSpec.TakeMessageExactly | rt-thread/src/ipc.c:3074-3165 | a receiver gets a message if and only if one is queued, the first; else refused if and only if it will not wait, and else queued |
| MessageQueueSpec.CopyExactly | rt-thread/src/ipc.c:3167-3168 | what is read is the front of the message: as much as was asked for, or the whole |
| MessageQueueSpec.PutBackExactly | rt-thread/src/ipc.c:3170-3189 | the node leaves the receiver's hands for the front of the free list, and the first sender is resumed |
| MessageQueueSpec.ResetExactly | rt-thread/src/ipc.c:3215-3263 | every queued node is free, nodes in threads' hands stay there, and nobody waits |
| MessageQueueSpec.HoldsStill | rt-thread/src/ipc.c:2843-3189 | along every part of a run in which a node is not filled, it holds the same bytes |
| MessageQueueSpec.SentFrom | rt-thread/src/ipc.c:2854-3170 | from its link until its node is freed, a message is queued or being read, and nobody fills its node |
| MessageQueueSpec.ReadsWhatWasSent | rt-thread/src/ipc.c:2843-3189 | end to end, in every run: a sender fills its node and links it, urgent or not; whoever reads it before the node is freed reads the bytes the sender filled in, exactly as many as asked for when these are no more than were sent |
| MemPool.MemPool.constructor | rt-thread/src/mempool.c:89-136 | for sizes whose writes stay in the pool: all blocks are free, in order of address |
| MemPool.MemPool.Alloc | rt-thread/src/mempool.c:319-407 | the first free block, which was not in use, is handed out and leads back to its pool; or the caller is refused or queues in front |
| MemPool.MemPool.Free | rt-thread/src/mempool.c:415-465 | the block is the first free one, and one waiting thread is resumed |
| MemPool.BlocksApart | rt-thread/src/mempool.c:113-127 | blocks with their headers do not overlap, and stay in the pool |
| MemPool.WritesInPool | rt-thread/src/mempool.c:113-131 | on unsigned 32-bit addresses, all header writes lie in the pool if and only if it holds a block; if not, the last one goes to one block before its start |
| MemPoolSpec.AllocKeeps | rt-thread/src/mempool.c:335-398 | allocation keeps the partition of the blocks and loses no wake-up; it hands out no block in use |
| MemPoolSpec.FreeKeeps | rt-thread/src/mempool.c:432-461 | freeing keeps both |
| MemPoolSpec.WaitEndsOnce | rt-thread/src/mempool.c:335-385 | in every run, an allocation that blocks ends once before the thread is in the loop again: by a block given back when it is first, or its own time-out |
| MemPoolSpec.RunKeeps | rt-thread/src/mempool.c:335-461 | every state of every run: free and used blocks add up to the pool, each block once; with threads queued, free blocks are no more than threads on their way |
| MemPoolSpec.AllocExactly | rt-thread/src/mempool.c:319-407 | a block is got if and only if one is free, the first, which was not in use; else refused if and only if the caller will not wait, and else queued in front |
| MemPoolSpec.FreeExactly | rt-thread/src/mempool.c:415-465 | the block is the first free one and no longer in use, and exactly the first queued thread is resumed |
| Requests.Need | rt-thread/src/mem.c:299-311 | a multiple of 4, at least the request and at least 12 |
| SmallMem.SmallMem.constructor | rt-thread/src/mem.c:178-242 | one free block up to the end stub, which is used |
| SmallMem.SmallMem.Take | rt-thread/src/mem.c:319-373 | the chosen item is split when the rest can hold a block, and marked used; the bytes written lie in that item |
| SmallMem.SmallMem.AdvanceFree | rt-thread/src/mem.c:381-388 | lfree comes to the lowest free item, or to the end stub |
| SmallMem.SmallMem.Alloc | rt-thread/src/mem.c:279-404 | when the call returns, the headers in the buffer spell out the specified layout; used and max are kept, and no payload in use changes |
| SmallMem.SmallMem.PlugHoles | rt-thread/src/mem.c:125-163 | a free item is merged with free neighbours on both sides, with lfree still the lowest free item |
| SmallMem.SmallMem.Free | rt-thread/src/mem.c:512-556 | the layout without that block, its bytes no longer counted, and no other payload changed |
| SmallMem.SmallMem.Shrink | rt-thread/src/mem.c:464-492 | the rest becomes a free block, merged with the free space behind it; the payload kept does not change |
| SmallMem.SmallMem.Copy | rt-thread/src/mem.c:494-499 | the bytes arrive in the new payload, and no other payload changes |
| SmallMem.SmallMem.Realloc | rt-thread/src/mem.c:418-503 | the specified layout; what the block held is there up to the smaller size, and no other payload changes |
| SmallHeapTheory.AllocKeeps | rt-thread/src/mem.c:299-372 | allocation keeps the tiling with no two free neighbours, and adds to the used blocks the lowest place that fits |
| SmallHeapTheory.AllocMeaning | rt-thread/src/mem.c:279-404 | first-fit and complete: NULL exactly when no free block fits, else the lowest one that does; aligned, long enough and not in use before |
| SmallHeapTheory.AllocSize | rt-thread/src/mem.c:319-372 | the pointer is the start of the free block chosen, and its size is exactly the request rounded up if a block can be left behind it, else all of that block |
| SmallHeapTheory.FreeKeeps | rt-thread/src/mem.c:512-556 | freeing keeps the layout and removes exactly that block from those in use |
| SmallHeapTheory.FreeUndoesAlloc | rt-thread/src/mem.c:512-556 | freeing what was just allocated restores the whole layout, and with it lfree and used |
| SmallHeapTheory.FreesCommute | rt-thread/src/mem.c:512-556 | the order in which two blocks are freed does not matter |
| SmallHeapTheory.FreeOther | rt-thread/src/mem.c:512-556 | freeing leaves every other live pointer its block and size |
| SmallHeapTheory.ShrinkKeeps | rt-thread/src/mem.c:464-492 | shrinking in place keeps the layout, and shortens just that block |
| SmallHeapTheory.ReallocMeaning | rt-thread/src/mem.c:418-503 | the block stays or moves, with room for the new size; every other block stays; a failed call changes nothing |
| SmallHeapTheory.ReallocExactly | rt-thread/src/mem.c:432-502 | stays if and only if the sizes are equal or a block can be split off; fails if and only if the heap is too small, or neither is so and no free block fits |
| SmallHeapTheory.ReallocSize | rt-thread/src/mem.c:432-502 | a block that stays has exactly the new size, one that moves has at least that and less than a block more |
| SmallHeapTheory.CutRefused | rt-thread/src/mem.c:494-502 | a heap of 100 bytes in one block: cutting it down to 96 returns NULL |
| SmallWalk.WalkEnds | rt-thread/src/mem.c:300-315 | in every heap, a search that is begun ends if and only if the heap has at least 12 bytes, with the loop bound on unsigned 32-bit numbers |
| SmallWalk.WalkFinds | rt-thread/src/mem.c:313-401 | when it ends, it ends at the first free block that fits, or with none |
| SmallWalk.SmallestHang | rt-thread/src/mem.c:309-315 | a fresh heap of 8 bytes asked for 4: after any number of turns the loop is not over |
| SmallHeapTheory.RunKeeps | rt-thread/src/mem.c:279-556 | every run of the three calls keeps the layout |
| SmallHeapTheory.HistoryIndependent | rt-thread/src/mem.c:125-163 | two runs that leave the same blocks in use leave the same layout; with nothing in use the heap is as at first |
| Tiling.Canonical | rt-thread/src/mem.c:125-163 | blocks that tile a range, no two free ones touching, are determined by the used ones |
| MemHeap.MemHeap.constructor | rt-thread/src/memheap.c:74-150 | one free item, on the free list, and the used tail |
| MemHeap.MemHeap.SplitAt | rt-thread/src/memheap.c:236-265 | the item is two, linked with their neighbours in both directions |
| MemHeap.MemHeap.JoinNext | rt-thread/src/memheap.c:675-683 | the item and the next are one, in both directions |
| MemHeap.MemHeap.Unlink | rt-thread/src/memheap.c:685-687 | the item leaves the free list, the others keep their order |
| MemHeap.MemHeap.Push | rt-thread/src/memheap.c:273-277 | the item becomes the first of the free list |
| MemHeap.MemHeap.Take | rt-thread/src/memheap.c:231-310 | the chosen item is split when the rest can hold a block, else taken whole; available counts what is taken |
| MemHeap.MemHeap.Alloc | rt-thread/src/memheap.c:183-346 | blocks, free list and available bytes of the specification; both linked lists spell them out |
| MemHeap.MemHeap.Absorb | rt-thread/src/memheap.c:675-687 | the item swallows the free one behind it, which leaves the free list |
| MemHeap.MemHeap.Free | rt-thread/src/memheap.c:597-724 | merged with free neighbours on both sides; a block merged to the left keeps that place on the free list |
| MemHeap.MemHeap.Grow | rt-thread/src/memheap.c:392-486 | the item grows in place into the free one behind it, of which the rest stays free |
| MemHeap.MemHeap.Shrink | rt-thread/src/memheap.c:521-586 | the rest of the item becomes free, merged with the free one behind it |
| MemHeap.MemHeap.Move | rt-thread/src/memheap.c:494-502 | a new block and the old one freed, or nothing done |
| MemHeap.MemHeap.Realloc | rt-thread/src/memheap.c:361-588 | the specified blocks, free list and available bytes |
| MemHeapTheory.AllocMeaning | rt-thread/src/memheap.c:183-346 | fails exactly when the request is not below the available bytes or no free block has room; else an aligned new block of enough room, and available falls by at least the request |
| MemHeapTheory.AllocSize | rt-thread/src/memheap.c:231-310 | the pointer is the start of the free block chosen, and its size is exactly the request rounded up if a block can be left behind it, else all of that block |
| MemHeapTheory.ReusesFreed | rt-thread/src/memheap.c:690-709 | a freed block that is not merged to the left is searched first: the next request it has room for gets it |
| MemHeapTheory.RefusedThoughItFits | rt-thread/src/memheap.c:200-200 | a request some free block could hold is refused if and only if it equals that block and all that is available |
| MemHeapTheory.AllOfAFreshHeap | rt-thread/src/memheap.c:200-200 | a fresh heap refuses a request for all its room, and grants one word less |
| MemHeapTheory.TakeKeeps | rt-thread/src/memheap.c:231-310 | taking a block keeps tiling, free list and the sum of free payloads |
| MemHeapTheory.FreeKeeps | rt-thread/src/memheap.c:645-713 | freeing keeps the heap, removes exactly that block, and gives back its payload and the headers merged away |
| MemHeapTheory.RecutKeeps | rt-thread/src/memheap.c:392-586 | growing or cutting in place keeps the heap, changes just that block, and accounts for the bytes |
| MemHeapTheory.ReallocMeaning | rt-thread/src/memheap.c:361-588 | the block stays or moves, with room for the new size; every other block stays; a failed call changes nothing |
| MemHeapTheory.ReallocExactly | rt-thread/src/memheap.c:361-588 | stays if and only if it has the room or can grow into what is free behind it; fails if and only if it cannot and the request is not below the available bytes or no free block has room |
| MemHeapTheory.ReallocSize | rt-thread/src/memheap.c:361-588 | a block that stays keeps its size if that is at most a block too much, else it has exactly the new one; one that moves has at most a block more |
| MemHeapTheory.FreeUndoesAlloc | rt-thread/src/memheap.c:645-713 | freeing what was just allocated restores the blocks, and the free list as a set |
| MemHeapTheory.RunKeeps | rt-thread/src/memheap.c:183-713 | every run: the blocks tile the pool, no two free ones touch, the free list names each free block once |
| MemHeapTheory.HistoryIndependent | rt-thread/src/memheap.c:645-713 | two runs that leave the same blocks in use leave the same blocks; with nothing in use the heap is fresh |
| SlabPages.PageList.constructor | rt-thread/src/slab.c:299-306 | one run of all the pages, of which there is at least one |
| SlabPages.PageList.AllocPages | rt-thread/src/slab.c:211-241 | the walk finds the first run long enough, and takes its pages from the front |
| SlabPages.PageList.FreePages | rt-thread/src/slab.c:252-294 | the walk puts the pages in their place, merged with runs that touch them |
| SlabPages.AllocMeaning | rt-thread/src/slab.c:211-241 | succeeds exactly when some run is long enough; the pages taken were free, exactly those leave the list, and it stays sorted with no two runs touching |
| SlabPages.FreeMeaning | rt-thread/src/slab.c:252-294 | exactly the pages given join the list, which stays sorted, disjoint and merged |
| SlabPages.Canonical | rt-thread/src/slab.c:252-294 | a list in that form is determined by the set of its pages |
| SlabPages.FreeUndoesAlloc | rt-thread/src/slab.c:252-294 | freeing a run just allocated restores the list |
| SlabPages.FreesCommute | rt-thread/src/slab.c:252-294 | the order in which two runs are freed does not matter |
| SlabClasses.ClassMeaning | rt-thread/src/slab.c:408-466 | a request gets the smallest class that holds it, and wastes less than 8 bytes or an eighth of itself |
| SlabClasses.ClassOfChunk | rt-thread/src/slab.c:706-711 | the size of a class is of that class |
| Slab.ZoneSize | rt-thread/src/slab.c:358-365 | 32K, 64K or 128K: the least of them whose double reaches a 1024th of the heap, or 128K |
| Slab.SlabHeap.constructor | rt-thread/src/slab.c:321-380 | everything free but the pages of the descriptors, nothing in use |
| Slab.SlabHeap.FromZone | rt-thread/src/slab.c:541-577 | a chunk of the first zone on the list; a zone that has no other leaves the list |
| Slab.SlabHeap.FromNewZone | rt-thread/src/slab.c:579-652 | a parked zone or new pages become a zone of the class, and the first chunk is handed out |
| Slab.SlabHeap.AllocLarge | rt-thread/src/slab.c:499-526 | pages of its own, described by their number |
| Slab.SlabHeap.Alloc | rt-thread/src/slab.c:487-653 | the specified state and pointer: pages, descriptors, zones, lists, parked zones and bytes in use |
| Slab.SlabHeap.FreeLarge | rt-thread/src/slab.c:759-779 | the pages go back, by the number their descriptor holds |
| Slab.SlabHeap.PutChunk | rt-thread/src/slab.c:781-800 | the chunk is free in its zone, and a zone that was full is on its list again |
| Slab.SlabHeap.Retire | rt-thread/src/slab.c:802-852 | a zone all free that is not alone on its list is parked, and with two parked already given back |
| Slab.SlabHeap.Free | rt-thread/src/slab.c:736-853 | the specified state, for large blocks, chunks and nothing |
| Slab.SlabHeap.Realloc | rt-thread/src/slab.c:667-725 | the specified state and pointer |
| SlabAlignment.ChunkAligned | rt-thread/src/slab.c:624-631 | a live chunk of a power-of-two size is aligned to it if and only if its zone is |
| SlabAlignment.PowerAlignment | rt-thread/src/slab.c:583-652 | a power of two from 8 up to the limit is granted if and only if there is a zone for it before the call (the first listed, else the first parked, else the first run of pages long enough), and the pointer is aligned to it if and only if that zone is |
| SlabAlignment.SmallPowersAligned | rt-thread/src/slab.c:583-652 | the pointer granted for a power of two up to the page size is aligned to it, in every reachable state |
| SlabAlignment.LargePowerNotAligned | rt-thread/src/slab.c:583-631 | a fresh heap of 17000 pages asked for 8192 bytes grants a pointer that is not aligned to 8192 |
| SlabAlignment.RoundedPowerNotAligned | rt-thread/src/slab.c:583-631 | a fresh heap of 100 pages asked for 8000 bytes grants a chunk of 8192 at 12288 |
| SlabTheory.LivePiecesApart | rt-thread/src/slab.c:487-653 | live pieces lie in the heap, and no two overlap |
| SlabTheory.DescriptorLeadsBack | rt-thread/src/slab.c:759-800 | the descriptor of a live pointer's page leads to the size of its large block, or to its zone and chunk |
| SlabTheory.NextChunkFacts | rt-thread/src/slab.c:545-570 | the chunk a zone hands out was not in use, and the count of its free ones stays right |
| SlabTheory.AllocKeeps | rt-thread/src/slab.c:487-653 | keeps the invariant; hands out a new pointer of enough bytes; fails, changing nothing, if and only if no zone of the class, no parked zone and no run of pages has room |
| SlabTheory.AllocSize | rt-thread/src/slab.c:487-653 | from the limit on, a request gets the fewest whole pages that hold it; below, one chunk of exactly its class |
| SlabTheory.ZoneFull | rt-thread/src/slab.c:617-635 | a zone has as many chunks behind its header as there is room for |
| SlabTheory.FreeKeeps | rt-thread/src/slab.c:736-853 | keeps the invariant, and takes back exactly that pointer and its bytes |
| SlabTheory.ZoneFate | rt-thread/src/slab.c:802-852 | the zone of a freed chunk is parked if and only if that leaves it all free, with other zones on its list and fewer than two parked; it is given back if and only if two were parked |
| SlabTheory.ReallocKeeps | rt-thread/src/slab.c:667-725 | the block stays, or moves with enough bytes, or the call fails and changes nothing |
| SlabTheory.ReallocExactly | rt-thread/src/slab.c:667-725 | the block stays if and only if it is a chunk of the class of the new size; else the call fails if and only if there is no room for that class, or for the size itself when the block has pages of its own |
| SlabTheory.FreshInv | rt-thread/src/slab.c:321-380 | the heap is right at first |
| SlabTheory.RunKeeps | rt-thread/src/slab.c:487-853 | every run: used is the sum of live sizes, at most two zones are parked, lists hold exactly the zones with free chunks, at most one of a list all free, and free chunks are counted right |
| TimerSpec.LaterIsRank | rt-thread/src/timer.c:449-461 | the comparison of wrapped ticks is the order of timeouts if and only if these are not too far apart |
| TimerSpec.PlaceExactly | rt-thread/src/timer.c:437-465 | in any sorted row, the search finds the place by rank if and only if the first timer and the one to come behind are near |
| TimerSpec.InsertSortedExactly | rt-thread/src/timer.c:437-475 | insertion keeps any sorted row sorted if and only if these two are near |
| TimerSpec.DueIsRank | rt-thread/src/timer.c:638-642 | inside the window, a timer is due exactly when its timeout is not behind the tick |
| TimerSpec.PlaceSplits | rt-thread/src/timer.c:437-465 | before the place found is exactly what is earlier or equal |
| TimerSpec.InsertSorted | rt-thread/src/timer.c:437-475 | insertion keeps the row sorted inside the window |
| TimerTheory.StartKeeps | rt-thread/src/timer.c:397-513 | a started timer leaves its old place, and stands behind all timers that are earlier or equal; all else stays |
| TimerTheory.StartSortedExactly | rt-thread/src/timer.c:422-475 | with init_tick as the source accepts it, a start keeps any sorted list sorted if and only if the first pending timer is not overdue for too long: no more than 2^31 + 1 ticks before the new timeout |
| TimerTheory.StartExactly | rt-thread/src/timer.c:397-513 | the timer is pending and active, with its timeout init_tick from now; whatever else was pending still is, at its timeout |
| TimerTheory.StopKeeps | rt-thread/src/timer.c:523-547 | a stopped timer is off the list, the others stay |
| TimerTheory.StopExactly | rt-thread/src/timer.c:523-547 | the timer is neither pending nor active; nothing else changes |
| TimerTheory.SetTimeExactly | rt-thread/src/timer.c:574-577 | what is pending stays, and the next start of that timer is for the time set |
| TimerTheory.FireKeeps | rt-thread/src/timer.c:635-676 | one turn of the check: the expired timers that follow keep their order, none joins them, and the fired one is pending again exactly when restarted, or periodic and left alone |
| TimerTheory.RearmExactly | rt-thread/src/timer.c:664-675 | a fired timer that is started again: one timer less is due if and only if its init_tick is at least 1, else as many as before |
| TimerTheory.CheckEndsExactly | rt-thread/src/timer.c:633-678 | the loop ends if and only if every expired timer that will be started again has an init_tick of at least 1 |
| TimerTheory.Spins | rt-thread/src/timer.c:633-678 | a periodic timer with init_tick 0: after any number of turns it is due |
| TimerTheory.CheckMeaning | rt-thread/src/timer.c:617-684 | the check fires exactly the timers that are due, each once, in order, and leaves only timers that are not |
| TimerTheory.TickKeeps | rt-thread/src/clock.c:91-127 | a tick, also across the wrap-around, makes the window one tick late and moves no timer in it |
| TimerTheory.Rebase | rt-thread/src/timer.c:617-684 | with nothing due the window begins at the current tick |
| TimerTheory.RunKeeps | rt-thread/src/timer.c:397-684 | every run of starts, stops, changes of time and ticks with their checks keeps the list sorted in its window, for any init_tick the source accepts |
| TimerTheory.FiresOnTime | rt-thread/src/timer.c:638-642 | a pending timer fires at the next tick if and only if that is its timeout, or it was started for no time at all |
| TimerTheory.FiresAfter | rt-thread/src/timer.c:397-684 | in every run with a check at each tick: a pending timer that nobody starts or stops fires at the tick that uses up what it has left, and at no tick before |
| TimerTheory.FiresAgain | rt-thread/src/timer.c:664-675 | a timer that fires is pending afterwards if and only if it is started again, and then has init_tick ticks left: a periodic one fires every init_tick ticks |
| TimerTheory.StartedLeft | rt-thread/src/timer.c:422-422 | a timer just started has init_tick ticks left |
| TimerList.TimerList.constructor | rt-thread/src/timer.c:821-829 | every row is empty |
| TimerList.TimerList.Remove | rt-thread/src/timer.c:187-195 | the timer is in no row; the upper rows stay subsequences of the last |
| TimerList.TimerList.Find | rt-thread/src/timer.c:437-465 | descending the rows from head to head finds in every row the place that linear search finds |
| TimerList.KeepInsert | rt-thread/src/timer.c:437-486 | inserting into a row the timers of a row below keeps it the subsequence of the tall ones |
| TimerList.TimerList.InsertRows | rt-thread/src/timer.c:471-486 | the timer is linked into the last row and as many above as the counter says; each row stays a subsequence of the one below |
| TimerList.TimerList.Start | rt-thread/src/timer.c:397-513 | for any number of levels the last row is that of linear insertion |
| TimerList.TimerList.Stop | rt-thread/src/timer.c:523-547 | the specified state; an error exactly when the timer was not active |
| TimerList.TimerList.SetTime | rt-thread/src/timer.c:574-577 | the time changes for the next start only; the rows and timeouts stay, and in order |
| TimerList.TimerList.TakeOut | rt-thread/src/timer.c:646-651 | the expired timer is off every row, and a one-shot one no longer active |
| TimerList.TimerList.PutBack | rt-thread/src/timer.c:668-675 | a periodic timer that is still active is started again |
| TimerList.TimerList.FireOne | rt-thread/src/timer.c:633-678 | one turn of the loop has the effect specified for that callback |
| TimerList.TimerList.Check | rt-thread/src/timer.c:617-684 | the loop ends; it fires what was due in order, and leaves nothing due |
| SoftTimers.StepKeeps | rt-thread/src/timer.c:703-775 | each region of the soft check, and every start, stop, change of time and tick between them, keeps the list sorted, and a timer active exactly when it is pending or a periodic one whose callback runs |
| SoftTimers.RunKeeps | rt-thread/src/timer.c:703-775 | so in every run in which the check catches up once in less than half the range of the tick |
| SoftTimers.NoneLost | rt-thread/src/timer.c:703-775 | in every run a pending timer stays pending at its timeout until it is started, stopped or fired |
| SoftTimers.NoneEarly | rt-thread/src/timer.c:722-733 | a timer is fired at its timeout or later, by no more than the check is late |
| SoftTimers.FiredByThen | rt-thread/src/timer.c:717-770 | when the check leaves, every pending timer that is due by then was fired on the way, unless started or stopped |
| SoftTimers.OverdueMissed | rt-thread/src/timer.c:454-461 | a run with the check four ticks late, in which a timer with the longest init_tick goes in front of an overdue one and the check leaves without firing that one |
| SoftTimers.RoundIsFire | rt-thread/src/timer.c:717-770 | without interruptions a round of the soft check has the effect of one of the hard check |
| FirstBit.TableRight | rt-thread/src/kservice.c:1711-1729 | the table holds the lowest set bit of every byte |
| FirstBit.FfsMeaning | rt-thread/src/kservice.c:1741-1755 | the first set bit counted from one, and zero for zero, for every 32-bit word |
| FirstBit.TinyInverts | rt-thread/src/kservice.c:1687-1694 | the table of 37 entries undoes the residues of the powers of two |
| FirstBit.VariantsAgree | rt-thread/src/kservice.c:1687-1755 | both variants agree on every word |
| ReadyMap.SetAgrees | rt-thread/src/scheduler.c:743-747 | setting the bits on insertion keeps a bit set exactly for the lists that are not empty, with one level or two |
| ReadyMap.ClearAgrees | rt-thread/src/scheduler.c:828-841 | so does clearing them when a list becomes empty |
| ReadyMap.GroupZero | rt-thread/src/scheduler.c:437-437 | the word is zero exactly when no thread is ready |
| ReadyMap.HighestIsLeast | rt-thread/src/scheduler.c:169-191 | what is looked up in the bitmap is the least priority whose list is not empty |
| Scheduler.Scheduler.constructor | rt-thread/src/scheduler.c:197-242 | no thread ready, no bit set |
| Scheduler.Scheduler.InsertThread | rt-thread/src/scheduler.c:718-752 | ready, behind the others of its priority, with its bit set; the current thread is only marked running |
| Scheduler.Scheduler.RemoveThread | rt-thread/src/scheduler.c:815-845 | off its list, the bit cleared when that leaves it empty |
| Scheduler.Scheduler.HighestThread | rt-thread/src/scheduler.c:169-191 | the first thread of the most urgent list that is not empty, through the bitmap |
| Scheduler.Scheduler.Schedule | rt-thread/src/scheduler.c:423-545 | the specified state: who runs, the lists, bits, states and yield flags |
| Scheduler.Scheduler.Start | rt-thread/src/scheduler.c:248-272 | the first of the most urgent threads runs |
| Scheduler.Scheduler.Resume | rt-thread/src/thread.c:884-918 | a suspended thread is ready; any other stays as it is |
| Scheduler.Scheduler.Suspend | rt-thread/src/thread.c:837-871 | the current thread is suspended |
| Scheduler.Scheduler.Startup | rt-thread/src/thread.c:353-382 | the thread is ready, and runs at once if it is more urgent |
| Scheduler.Scheduler.Yield | rt-thread/src/thread.c:543-556 | a whole slice again, with the yield flag set for the reschedule that follows |
| Scheduler.Scheduler.Tick | rt-thread/src/clock.c:91-127 | one tick less of the slice; a used-up slice is renewed and the thread yields |
| Scheduler.Scheduler.ChangePriority | rt-thread/src/thread.c:730-773 | a ready thread moves to the list of its new priority |
| Scheduler.Scheduler.EnterCritical | rt-thread/src/scheduler.c:891-906 | one more level of locking |
| Scheduler.Scheduler.ExitCritical | rt-thread/src/scheduler.c:955-980 | one level less, and a reschedule when that was the last |
| Scheduler.Scheduler.Exit | rt-thread/src/thread.c:91-119 | the current thread is closed, and another runs |
| SchedulerTheory.ScheduleMeaning | rt-thread/src/scheduler.c:423-545 | unless locked, or with nothing to run, no ready thread is more urgent than the running one afterwards; the invariant is kept |
| SchedulerTheory.SwitchKeeps | rt-thread/src/scheduler.c:444-476 | a switch runs the first thread of the most urgent list, and puts a thread that was running at the end of its own |
| SchedulerTheory.StaysKeeps | rt-thread/src/scheduler.c:444-476 | a current thread that is more urgent, or as urgent and not yielding, goes on; nothing changes but its yield flag, and no ready thread is more urgent |
| SchedulerCalls.GoesOnExactly | rt-thread/src/scheduler.c:444-476 | unlocked, a running thread goes on if and only if every ready one is less urgent, or as urgent while it does not yield |
| SchedulerTheory.IdleSuffices | rt-thread/src/scheduler.c:423-545 | a thread that is never suspended is enough for that |
| SchedulerTheory.AlwaysSettled | rt-thread/src/scheduler.c:423-545 | every run in which the idle thread neither suspends itself nor exits: it stays ready or running, and after every unlocked reschedule no ready thread is more urgent than the running one |
| SchedulerTheory.BeginKeeps | rt-thread/src/scheduler.c:248-272 | the first thread to run is one of the most urgent |
| SchedulerTheory.ApplyKeeps | rt-thread/src/thread.c:353-918 | every call keeps the lists, states and slices right |
| SchedulerTheory.RunKeeps | rt-thread/src/scheduler.c:169-980 | every run: a thread is ready if and only if it is on the list of its priority, once; only the current one runs; slices stay from 1 to whole |
| SchedulerTheory.SliceRotates | rt-thread/src/clock.c:107-119 | an expired slice with peers ready rotates the list by one |
| SchedulerTheory.SliceRenewed | rt-thread/src/clock.c:107-119 | without peers the thread goes on with a whole slice |
| SchedulerCalls.TickExactly | rt-thread/src/clock.c:107-110 | with more than one left, a tick takes one off the slice of the current thread, and nothing else changes |
| SchedulerCalls.SliceRunsDown | rt-thread/src/clock.c:107-110 | in every run in which a thread stays the current one and does not yield, its slice is what it had less the ticks, whatever else is called |
| SchedulerCalls.SliceRunsOut | rt-thread/src/clock.c:107-119 | in every run in which a thread stays the current one and does not yield for as many ticks as it had left: at the last of them, unlocked and with nobody more urgent ready, its list rotates by one, or without peers it goes on with a whole slice |
| SchedulerCalls.YieldRotates | rt-thread/src/thread.c:543-556 | with peers ready, the first of them runs and the caller is the last of its list, with a whole slice; without, it goes on |
| SchedulerCalls.ResumeExactly | rt-thread/src/thread.c:884-918 | a suspended thread is ready, the last of its list; any other stays as it is, and so do all others |
| SchedulerCalls.SuspendExactly | rt-thread/src/thread.c:837-871 | the current thread is suspended if it was running, and on no list; nothing else changes |
| SchedulerCalls.PriorityExactly | rt-thread/src/thread.c:730-773 | a ready thread is the last of its new list and on no other; the priority alone changes for any other, and nobody else moves |
| SchedulerCalls.StartupExactly | rt-thread/src/thread.c:353-382 | the thread is ready or runs; unlocked, it runs unless a thread at least as urgent does |
| SchedulerCalls.ExitExactly | rt-thread/src/thread.c:91-119 | the thread is closed and on no list; unlocked, with another one ready, the most urgent of these runs |
| SchedulerCalls.LockExactly | rt-thread/src/scheduler.c:891-980 | each entry is one level more and each exit one less; a reschedule under a lock does nothing, and the last exit does the one that was missed |
| SchedulerCalls.LockedRun | rt-thread/src/scheduler.c:423-545 | in every run that stays locked the current thread is the same, whatever is called |
| SchedulerTheory.NobodyOvertakes | rt-thread/src/scheduler.c:735-738 | no call puts a thread ahead of one that stays ready at its priority, and a dispatch from its list brings it nearer |
| SchedulerTheory.BoundedWait | rt-thread/src/scheduler.c:735-738 | while a thread stays ready, dispatches from its list and threads still ahead are no more than were ahead at first |
| WorstStack.Find | rt-thread/tools/WCS.py:86-102 | a name is a global if there is one, else the caller's local of that name, else nothing |
| WorstStack.ResolvedMeaning | rt-thread/tools/WCS.py:224-233 | resolved calls are exactly what the names called lead to |
| WorstStack.ResolveCalls | rt-thread/tools/WCS.py:224-233 | the loop splits the names into resolved calls, in order, and unresolved ones |
| WorstStack.GraphClosed | rt-thread/tools/WCS.py:223-242 | resolved calls lead to functions of the program |
| WorstStack.Analysis.constructor | rt-thread/tools/WCS.py:182-200 | only functions listed by hand have a result |
| WorstStack.Analysis.ResolveAll | rt-thread/tools/WCS.py:223-242 | over the functions in any order, the fields hold the call graph of the program |
| WorstStack.Analysis.Calc | rt-thread/tools/WCS.py:246-290 | the search ends; every result found is right, results found before stay, and the path is as before |
| WorstStack.Analysis.Follow | rt-thread/tools/WCS.py:273-276 | following one call from a path leaves the path, with the callee's result right |
| WorstStack.CycleHasNone | rt-thread/tools/WCS.py:264-267 | a function that is called again on its own path has no bound |
| WorstStack.AllBounded | rt-thread/tools/WCS.py:269-290 | without a pointer call and with all callees bounded, a function is bounded |
| WorstStack.PartialDone | rt-thread/tools/WCS.py:270-290 | the largest callee plus the own frame is the maximum over all call paths |
| WorstStack.GatheredDone | rt-thread/tools/WCS.py:286-288 | the unresolved calls gathered are exactly those of everything called, directly or not |
| WorstStack.Analysis.CalcAll | rt-thread/tools/WCS.py:245-299 | for every graph and order: unbounded if and only if a call path reaches a pointer call or comes to a function twice; else the maximum over all call paths of summed frames, with exactly the inherited unresolved calls |

## Left out

* The SMP variants, and `cpu.c`, `idle.c`: context switches and spin locks are assembly that is not part of this model.
* Signals, modules, hooks, debug output, memory tracing and shell commands.
* The object registry, devices and start-up: threads and IPC objects are taken to exist.
* Deleting or detaching a thread or an object while threads wait on it or were just woken, and changing the priority of
  a waiting thread, which is not sorted in again: the code keeps no invariant there.
* Delays: `rt_thread_sleep` and `rt_thread_delay_until` are a suspension and a later resumption in the scheduler's model.
* The ticks left of a wait that is repeated (ipc.c:2070-2077): a wait is none, timed or endless, so that time-outs fall
  anywhere.
* The overflow branches of entry counters (ipc.c:2092-2096, 2874-2878) are dead, since an entry count never exceeds the
  size of its object. `Mailbox.Mailbox.Send` keeps the comparison.
* Creating objects on the heap (`rt_mb_create`, `rt_mq_create`, `rt_mp_create`): the allocators are modelled by themselves.
* The bytes of mails and of pool blocks beyond what the queues hold, and of memory-heap and slab payloads. The
  small-memory heap does model the buffer, its headers and what payloads hold.
* Best mode, several heaps and the semaphore of `memheap.c`: each call is one step.
* The magic numbers of `memheap.c` and `slab.c`, which only assertions read.
* Request sizes that wrap in `RT_ALIGN`, and alignments other than 4 bytes.
* `rt_timer_control` but for setting the time, detaching timers, callbacks of the hard check that start or stop other timers than their own, and the sleep
  of the timer thread. In `SoftTimers` anyone may start and stop any timer.
* Parsing and printing of `WCS.py`; results for functions listed by hand are taken from the program.
- Slab.SlabHeap.Realloc: does not model the copy of the payload, because the slab model holds no payload bytes.
- Event.Event.Recv: does not model an interrupt handler as caller, nor an option that is neither AND nor OR, which the code asserts away.
- MemPool.MemPool.constructor: asks for sizes whose writes stay in the pool, which are exactly those of WritesInPool.
- SmallMem.SmallMem.Alloc: asks for a call that returns, by the condition of SmallWalk.WalkEnds; SmallMem.SmallMem.Realloc does too.
- MemHeap.MemHeap.Move: does not model the copy of the payload, because the memory-heap model holds no payload bytes.
- MemHeap.MemHeap.Realloc: does not model that copy either.
- Scheduler.Scheduler.Resume: does not model the wait list and the thread timer, which are those of WaitQueue.WakeFirst.
- Scheduler.Scheduler.Suspend: does not model the stop of the thread timer, which WaitQueue.Block does.
- Scheduler.Scheduler.Tick: does not model the global tick and the timer check of the same call, which are in TimerTheory.Step.
- Scheduler.Scheduler.Exit: does not model the detached timer and the list of defunct threads.
- TimerTheory.RunKeeps: asks for a check at every tick; SoftTimers.RunKeeps says what happens when checks are late.
