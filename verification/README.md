# A model of libfiber's lock-free structures and hand-off protocols

libfiber schedules fibers over kernel threads with a family of lock-free queues, a work-stealing deque, hazard
pointers, and blocking primitives built on them. This project models those structures and proves what they promise
in every run.

Each concurrent component is a transition system. A state holds the shared memory and, for each thread or fiber, a
program counter with its local variables; one step is one atomic load, store, exchange or compare-and-swap of one
thread, and threads may join at any time. A run is a sequence of states from an initial one (`Runs.IsRun`). Each
module gives an inductive invariant `Inv`, proves that every step keeps it (`NextKeeps`) and therefore that every
reachable state has it (`RunInv`), and derives its theorems from that. History and auxiliary fields (`pushed`,
`popped`, `place`, `worker`, …) record what happened; no step branches on them. The sequential loops (growing the
deque, collecting and sweeping hazards, the sleeper tree) are methods with loops, proved against functions on
sequences and trees.

Steps that follow a pointer, index a buffer or wake a queued fiber are enabled only where that access is legal. The
`NeverStuck` lemmas show that these guards never hold anyone back: whoever is in the middle of an operation, and not
parked, has a step to take, and a compare-and-swap that finds what it read can win. So legality of every access is a
result and not an assumption.

Safety alone would be met by operations that always refuse. The lemmas named `…Exactly` therefore say when an operation
gives up, waits, grows, wakes or wins, in terms of the histories and the other fibers, in both directions; and the
`CompletesAlone` lemmas say that from every reachable state an operation in progress can be brought to its end by its own
steps, within a stated bound, unless it waits for another fiber.

Clients of the single-consumer FIFO are proved over the queue that the FIFO refines (`MpscQueue`), and again over the
FIFO itself (`ChannelFifo`, `WorkQueueFifo`), where every step is shown to be a step of the former or invisible in it.

| file | component |
|---|---|
| `Common.dfy` | shared vocabulary: runs and inductive invariants, counting fibers, parking queues |
| `Masks.dfy` | indexing a power-of-two buffer with a mask |
| `MpmcFifo.dfy`, `MpmcSafety.dfy` | any number of multi-producer multi-consumer FIFOs sharing nodes, hazard pointers and a scan that reads slots one by one |
| `HazardScan.dfy`, `HazardRecords.dfy` | the records and the scan's loops; the record list and its thresholds under concurrent creation |
| `Deque.dfy` | Chase-Lev work-stealing deque with growing arrays |
| `RwLock.dfy` | reader/writer lock over one packed word |
| `MpscFifo.dfy`, `MpscQueue.dfy` | multi-producer single-consumer FIFO, and the queue it refines |
| `Channel.dfy`, `ChannelFifo.dfy` | the unbounded channel on a single-waiter signal, over the queue and over the FIFO |
| `WorkQueue.dfy`, `WorkQueueFifo.dfy` | worker election and retirement, over the queue and over the FIFO |
| `RingBuffer.dfy`, `DistFifo.dfy`, `Semaphore.dfy`, `Spinlock.dfy` | the smaller protocols |
| `Sleepers.dfy` | the timer's tree of sleepers |

## Assumptions

- Interleavings are sequentially consistent.
- A weak compare-and-swap may fail spuriously.
- 64-bit counters do not wrap. The 21-bit fields of the lock word and the 32-bit counters of the ticket lock do.
- Parking is a contract: a waiting fiber proceeds when, and only when, a waker has popped and scheduled it.
- In the distinguished FIFO popped nodes stay readable, as `include/dist_fifo.h:13` itself assumes.
- Copying into a grown array is one step (only the owner writes the old array, and the new one is not shared yet), and
  so is the walk that counts hazard records before the list head is swung (records are never taken off the list).
- A scan may start whenever its thread is between operations, which covers every value of the retire threshold. In
  `MpmcFifo` the scan's lookup is set membership; `HazardScan` proves that sorting and binary search compute it.
- The waiter queues of the lock and the semaphore are sequences of parked fibers, from which a pop may also find
  nothing, as `MpscFifo` and `MpmcFifo` show a pop racing with an enqueue does.

Where code and comments differ the code is followed. `include/hazard_pointer.h:22-26` speaks of a threshold above
twice the number of hazard slots; the code uses exactly twice that number and scans on reaching it, which is still
enough to free half. An empty `mpmc_fifo_trypop` gives back slot 0 only, so slot 1 may keep naming a node from an
earlier attempt; `MpmcSafety.IdleHoldsNoHazard` therefore claims slot 0 in general and both slots after a successful pop.

## Model

| member | source | states |
|---|---|---|
| `MpmcFifo.RunInv` | include/mpmc_fifo.h:60-125 | every reachable state of the FIFOs with their hazard records satisfies the joint invariant of queue order, owed links, guards and scans |
| `MpmcSafety.PoppedIsPrefixOfPushed` | include/mpmc_fifo.h:60-125 | in every run and for every FIFO the values popped, in head-CAS order, are a prefix of the values pushed, in tail-CAS order, although nodes are linked late, addresses are reused and nodes move between FIFOs |
| `MpmcSafety.QueueIsLinked` | include/mpmc_fifo.h:67-83 | from head to tail the nodes hold the unpopped values in order, every `next` leads to the predecessor, and a `prev` is missing exactly while the push that owes it is in flight |
| `MpmcSafety.QueuesAreDisjoint` | include/mpmc_fifo.h:59-83 | no node is in two FIFOs, or twice in one |
| `MpmcSafety.ReclaimedIsUnguarded` | src/hazard_pointer.c:117-168 | a node passed to its gc function is in no slot that any thread, on whichever FIFO, has published and then validated, although the scan reads slots one by one and records are added meanwhile |
| `MpmcFifo.UnseenIsUnguarded` | src/hazard_pointer.c:149-167 | a retired node that a sweep has yet to decide and has not seen is guarded by nobody |
| `MpmcSafety.NoUseAfterFree` | include/mpmc_fifo.h:93-123 | every node a thread's next step dereferences is still allocated and has not become another thread's new node |
| `MpmcSafety.NeverStuck` | include/mpmc_fifo.h:60-125 | every thread of every reachable state has a step to take, and a tail or head CAS that finds what it read can win |
| `MpmcSafety.EmptyExactly` | include/mpmc_fifo.h:101-106 | a pop reads an empty link exactly when its head is current and the queue is drained or the next push has not linked its node |
| `MpmcSafety.PopGivesUpExactly` | include/mpmc_fifo.h:101-108 | trypop gives up if and only if its head is current and the queue is drained or the next push has not linked its node; otherwise it goes on to the next node in order |
| `MpmcSafety.ValidatesExactly` | include/mpmc_fifo.h:69-74 | a push goes on with the tail it has published if and only if that is still the last node pushed, and a pop with its head if and only if that is still the first; otherwise both start over |
| `MpmcSafety.SwapsExactly` | include/mpmc_fifo.h:77-123 | a push ends only by appending its node and a pop that wins returns the oldest value, while a lost CAS changes nothing and starts over |
| `MpmcSafety.CompletesAlone` | include/mpmc_fifo.h:60-125 | from every reachable state every thread can finish alone, a push or pop within fourteen steps and a scan within a bound given by records and retired nodes |
| `MpmcSafety.NoNodeLost` | include/mpmc_fifo.h:60-125 | every node allocated and not reclaimed is in the hands of a push or pop in progress, in a FIFO between head and tail, or on the retired list of the thread that popped it |
| `MpmcSafety.SeenWasPublished` | src/hazard_pointer.c:130-145 | whatever a scan has seen was published by some thread while that scan was under way |
| `MpmcSafety.SweepKeepsOnlyPublished` | src/hazard_pointer.c:153-167 | a sweep reclaims a node if and only if the scan has not seen it, and what it keeps goes back on the list and was published during the scan |
| `MpmcSafety.IdleHoldsNoHazard` | include/mpmc_fifo.h:80-120 | slot 0 is empty between operations and both slots are empty when a popped node is retired |
| `HazardScan.BinarySearch` | src/hazard_pointer.c:93-115 | on a sorted list the search answers exactly membership, the empty list included |
| `HazardScan.CollectRecord` | src/hazard_pointer.c:135-143 | appends exactly the non-empty slots of a record, in order, and nothing past them |
| `HazardScan.CollectList` | src/hazard_pointer.c:130-145 | the walk gathers exactly the hazards of all records in list order, and its assertion holds at every record |
| `HazardScan.Record.constructor` | src/hazard_pointer.c:18-26 | a new record has k empty slots, nothing retired, and the threshold of a list one longer |
| `HazardScan.Record.Using` | include/hazard_pointer.h:75-81 | publishing a node changes that slot of the record and no other |
| `HazardScan.Record.DoneUsing` | include/hazard_pointer.h:84-88 | giving a slot back empties it and no other |
| `HazardScan.Record.Collect` | src/hazard_pointer.c:121-145 | the scratch list, sized by half the newest record's threshold and reallocated when too small, holds exactly the hazards of all records |
| `HazardScan.Record.Sweep` | src/hazard_pointer.c:149-167 | retired nodes found in the list are kept in reverse order and all others reclaimed in order, and the count matches the list |
| `HazardScan.Record.Scan` | src/hazard_pointer.c:117-168 | a scan of the record list keeps exactly the retired nodes published in some slot and reclaims exactly the others |
| `HazardScan.Record.Retire` | include/hazard_pointer.h:93-102 | a retired node joins the list, and a scan happens exactly when the list has reached the threshold |
| `HazardScan.CreateAndPush` | src/hazard_pointer.c:12-60 | with nobody else creating, a new record heads the list with threshold 2*N*K, every older threshold rises by 2*K, and so settled thresholds stay settled |
| `HazardScan.HazardousExactly` | src/hazard_pointer.c:130-145 | a node is collected if and only if some record publishes it |
| `HazardScan.SplitIsExact` | src/hazard_pointer.c:149-167 | kept and reclaimed nodes together are the retired nodes, with multiplicity |
| `HazardScan.ScanFreesHalf` | include/hazard_pointer.h:17-26 | with N records of K slots and distinct nodes at most N*K survive a scan, so a list of 2*N*K or more loses at least half |
| `HazardScan.StaysBelowThreshold` | include/hazard_pointer.h:93-102 | with distinct nodes and threshold 2*N*K a list below its threshold is below it again after every retirement |
| `HazardScan.RetiredBounded` | include/hazard_pointer.h:25-26 | over every sequence of retirements by N settled records at most N*R nodes are retired and unreclaimed, R being the threshold |
| `HazardRecords.HeadThresholdIsExact` | src/hazard_pointer.c:29-57 | in every run of concurrent creators the newest record's threshold is exactly 2*N*K, and no record's is below 2*K times the records it reaches |
| `HazardRecords.ScanFitsScratchList` | src/hazard_pointer.c:121-145 | the hazards a scan collects never exceed the scratch list it sized, and its assertion holds at every record |
| `HazardRecords.SettledThresholds` | src/hazard_pointer.c:48-57 | once all creators have finished every record's threshold is 2*N*K |
| `HazardRecords.NeverStuck` | src/hazard_pointer.c:29-57 | every creator and scanner always has a step to take, so the records it reads and raises are there |
| `HazardRecords.StepsExactly` | src/hazard_pointer.c:31-57 | a creator pushes its record with the threshold of the list it counted or counts the new list again, and is done if and only if it has raised every older record |
| `HazardRecords.CompletesAlone` | src/hazard_pointer.c:31-57 | from every reachable state every creator and scanner can finish alone |
| `Deque.GetPut` | include/work_stealing_deque.h:60-71 | a write disturbs no other index less than a buffer length away |
| `Deque.Grow` | src/work_stealing_deque.c:33-48 | the copying loop yields a new array of twice the size that agrees with the old one on every index copied |
| `Deque.RunInv` | src/work_stealing_deque.c:73-131 | every reachable state of one owner and any number of thieves satisfies the deque's invariant |
| `Deque.ItemsConserved` | src/work_stealing_deque.c:73-131 | in every run the items pushed are, as a multiset, the items returned plus the live window plus the one an owner in mid-pop has claimed; nothing is returned twice |
| `Deque.StealReturnsOldest` | src/work_stealing_deque.c:116-131 | a steal whose CAS wins returns the oldest live item, from whichever array it read it earlier |
| `Deque.PopReturnsNewest` | src/work_stealing_deque.c:91-114 | a pop claims the newest item and returns what it claimed; the last item is returned only by winning the CAS |
| `Deque.PopDecidesExactly` | src/work_stealing_deque.c:97-108 | pop_bottom answers EMPTY if and only if there is no item, contends for an item if and only if it is the last, and has any other one at once |
| `Deque.PushGrowsExactly` | src/work_stealing_deque.c:79-86 | push_bottom grows the array if and only if the items since the top it read leave a single slot |
| `Deque.StealGivesUpExactly` | src/work_stealing_deque.c:118-125 | a steal answers EMPTY if and only if, when it read the bottom, there was nothing at or after the top it had read |
| `Deque.WindowFits` | src/work_stealing_deque.c:73-89 | bottom - top never exceeds size - 1 of the current array, and a resting owner's bottom is exact |
| `Deque.MaskedIndexing` | include/work_stealing_deque.h:60-71 | array sizes stay powers of two, so masking with size - 1 is the remainder by size |
| `Deque.OwnerNeverStuck` | src/work_stealing_deque.c:73-114 | the owner always has a step to take, its array accesses are in bounds, and its CAS can win when the top is what it read |
| `Deque.ThiefNeverStuck` | src/work_stealing_deque.c:116-131 | the same of every thief |
| `Deque.CompletesAlone` | src/work_stealing_deque.c:73-131 | from every reachable state the owner can finish its operation alone within six steps and every thief within four |
| `Masks.MaskIsRemainder` | include/work_stealing_deque.h:60-71 | for every index and every power of two, bitwise conjunction with size - 1 is the remainder by size |
| `RwLock.BlobIsFields` | include/fiber_rwlock.h:10-18 | packing and unpacking the word are inverse, comparing words is comparing fields, and the word is zero exactly when the lock is free |
| `RwLock.RunInv` | src/fiber_rwlock.c:41-229 | every reachable state of the lock satisfies the invariant of word, waker and queue accounts |
| `RwLock.LockAccounts` | src/fiber_rwlock.c:41-137 | a lock operation keeps the word's accounts if and only if the 21-bit field it increments does not wrap |
| `RwLock.WrappedReadersLookFree` | src/fiber_rwlock.c:60-68 | where it does wrap the accounts are lost: a reader on top of 2^21 - 1 others leaves the free word, and a writer is then let in |
| `RwLock.UnlockAccounts` | src/fiber_rwlock.c:139-229 | an unlock turns its grant into wakes owed and keeps the accounts, and hands over only when nothing is owed already |
| `RwLock.ReadGrantedExactly` | src/fiber_rwlock.c:41-68 | a reader whose word is current is granted if and only if nobody writes or waits to write and no reader waits unserved; otherwise rdlock registers it and tryrdlock gives up |
| `RwLock.WriteGrantedExactly` | src/fiber_rwlock.c:70-137 | a writer whose word is current is granted if and only if every fiber is neutral; otherwise wrlock registers it and trywrlock gives up |
| `RwLock.StaleWordRetries` | src/fiber_rwlock.c:98-137 | a changed word makes every operation load it again, except a try-lock refused by the fibers as they were when it loaded |
| `RwLock.UnlockServesExactly` | src/fiber_rwlock.c:139-229 | an unlock serves nobody while other readers hold or are being granted the lock, else one waiting writer if there is any, else all waiting readers |
| `RwLock.WokenInOrder` | src/fiber_manager.c:448-470 | waiters are woken in the order in which they entered their queue |
| `RwLock.CompletesAlone` | src/fiber_rwlock.c:41-229 | from every reachable state every fiber comes to rest by its own steps: its lock operation decided, everyone queued served, or parked |
| `RwLock.WordAccountsForFibers` | src/fiber_rwlock.c:41-229 | readers are granted readers plus reader wakes owed, the write bit granted writers plus writer wakes owed, and registered fibers the waiting counts plus wakes owed; no field overflows |
| `RwLock.WriterExcludesAll` | src/fiber_rwlock.c:41-229 | while a writer is granted no other fiber is granted anything |
| `RwLock.NoStrandedWaiter` | src/fiber_rwlock.c:139-229 | while a fiber waits some fiber holds the lock or is handing it over |
| `RwLock.SinglePopper` | src/fiber_manager.c:448-470 | at most one fiber pops each waiter queue, and it never waits for more fibers than are on their way |
| `RwLock.UnlockAssertionsHold` | src/fiber_rwlock.c:139-195 | the assertions at the head of both unlock operations hold of every snapshot |
| `RwLock.NeverStuck` | src/fiber_rwlock.c:41-229 | every fiber that is not parked has a step to take, and a waker whose queue holds a fiber can wake it |
| `MpscFifo.PoppedIsPrefixOfPushed` | include/mpsc_fifo.h:46-82 | in every run the values popped are a prefix of the values pushed in tail-exchange order, however many pushes are between exchange and link |
| `MpscFifo.HandedNodeIsExclusive` | include/mpsc_fifo.h:72-82 | the node a pop hands out carries the popped value, cannot be reached from the head, and is neither the node nor the predecessor of any push in progress |
| `MpscFifo.PeekShowsOldest` | include/mpsc_fifo.h:58-69 | the value a peek returns after its three reads is the oldest, and its read of the first link finds none exactly when the queue is drained or its first push has not linked yet |
| `MpscFifo.ProducerRefines` | include/mpsc_fifo.h:46-55 | a push's exchange and link are the queue's exchange and link of that message, and its other steps are invisible |
| `MpscFifo.ConsumerRefines` | include/mpsc_fifo.h:58-82 | a pop takes the queue's first message when it advances the head and returns that message, and gives up exactly when the first message is not linked |
| `MpscFifo.RefinesQueue` | include/mpsc_fifo.h:46-82 | every run of the FIFO is a run of the queue |
| `MpscFifo.ConsumerNeverStuck` | include/mpsc_fifo.h:58-82 | the consumer always has a step to take |
| `MpscFifo.ProducerNeverStuck` | include/mpsc_fifo.h:46-55 | every producer in mid-push has a step to take |
| `MpscFifo.CompletesAlone` | include/mpsc_fifo.h:46-82 | from every reachable state the consumer can finish alone within four steps and every producer within three |
| `Channel.NoLostWakeup` | include/fiber_signal.h:32-77 | while the receiver is installed in the signal and a message is linked, that message's sender has still to raise the signal |
| `Channel.SleeperHasOneWaker` | include/fiber_signal.h:32-77 | a sleeping receiver is in the signal or has exactly one sender on its way to wake it, and is scheduled only when parked |
| `Channel.NeverStuck` | include/fiber_signal.h:32-77 | only a parked receiver waits; a receiver otherwise and every sender has a step to take |
| `Channel.RaiseWakesExactly` | include/fiber_signal.h:57-77 | a raise takes on the wake-up if and only if the receiver sleeps and nobody else is waking it, and schedules it if and only if it is off its stack |
| `Channel.SignalShowsRaise` | include/fiber_signal.h:32-77 | the signal shows RAISED if and only if some raise in the run has not been reset since |
| `Channel.SleepsExactly` | include/fiber_signal.h:38-52 | the receiver takes a message if and only if the first is linked, and falls asleep if and only if no raise is pending |
| `Channel.CompletesAlone` | include/fiber_channel.h:174-199 | from every reachable state the receiver comes by its own steps to take a message or to sleep, and every sender finishes or waits for a receiver still on its stack |
| `ChannelFifo.RefinesChannel` | include/fiber_channel.h:174-199 | with the FIFO in the queue's place every step is a step of the channel over the queue, or invisible in it |
| `ChannelFifo.ReceivedInOrder` | include/fiber_channel.h:174-199 | what receive returns, read out of FIFO nodes, is a prefix of what was sent in the order of the tail exchanges |
| `ChannelFifo.SleeperIsWoken` | include/fiber_channel.h:174-199 | while the receiver sleeps and the FIFO's first link is made, that message's sender has still to raise the signal or some sender is on its way to wake the receiver |
| `ChannelFifo.WaitsExactly` | include/fiber_channel.h:188-199 | receive waits on the signal if and only if the FIFO's first link has not been made |
| `WorkQueue.OneWorker` | src/work_queue.c:22-53 | at most one fiber is the worker |
| `WorkQueue.EmptyMeansAllHandedOut` | src/work_queue.c:33-53 | EMPTY is returned only when every counted item has been handed out |
| `WorkQueue.OutstandingHasWorker` | include/work_queue.h:32-42 | while an item is outstanding some fiber is the worker, and a push elects one exactly when there is none |
| `WorkQueue.NeverStuck` | src/work_queue.c:22-53 | every fiber always has a step to take |
| `WorkQueue.EmptyExactly` | src/work_queue.c:37-46 | a worker with nothing to pop settles its count if and only if every counted item has been handed out, and is told EMPTY if and only if that is still so |
| `WorkQueue.AnswersExactly` | src/work_queue.c:22-53 | get_work hands out an item if and only if the first is linked, and a push elects its caller if and only if nobody is the worker |
| `WorkQueue.CompletesAlone` | src/work_queue.c:22-53 | from every reachable state every fiber comes within seven own steps to an end, to an item, or to wait for a push in progress; a worker with nothing outstanding comes to EMPTY |
| `WorkQueueFifo.RefinesWorkQueue` | src/work_queue.c:22-53 | with the FIFO in the queue's place every step is a step of the work queue over the queue, or invisible in it |
| `WorkQueueFifo.SingleConsumer` | src/work_queue.c:33-53 | election discharges what the FIFO demands: no two threads are ever in its pop |
| `WorkQueueFifo.EmptyMeansDrained` | src/work_queue.c:33-53 | when EMPTY is returned the values read out of FIFO nodes are all the values pushed, one for every counted item |
| `WorkQueueFifo.PopAnswersExactly` | src/work_queue.c:33-53 | a worker compares its counters if and only if the FIFO's first link has not been made, and counts an item out if and only if its pop has returned one |
| `RingBuffer.BoundedFifo` | include/lockfree_ring_buffer.h:58-106 | in every run the values popped are, number by number, the values pushed, and at most `size` numbers are outstanding |
| `RingBuffer.PopReturnsItsNumber` | include/lockfree_ring_buffer.h:89-106 | a successful pop returns the written value of the number it claims, never a stale one |
| `RingBuffer.LateAccessIsOwn` | include/lockfree_ring_buffer.h:70-106 | a late store or clear meets its own number's slot contents and nobody else performs it |
| `RingBuffer.NeverStuck` | include/lockfree_ring_buffer.h:58-106 | every thread always has a step to take, and a CAS that finds what it read can win |
| `RingBuffer.PushGivesUpExactly` | include/lockfree_ring_buffer.h:66-78 | a push that has the current high gives up if and only if the buffer was full by the low it read or the number one buffer length before still occupies the slot; so every slot is used |
| `RingBuffer.PopGivesUpExactly` | include/lockfree_ring_buffer.h:91-105 | a pop that has the current low gives up if and only if it saw no number beyond it or that number is not written yet |
| `RingBuffer.CompletesAlone` | include/lockfree_ring_buffer.h:58-106 | from every reachable state every thread can finish alone within four steps |
| `DistFifo.PoppedIsPrefixOfPushed` | include/dist_fifo.h:77-115 | the values popped are the first `counter` values pushed |
| `DistFifo.MatchingCounterIsTrueSnapshot` | include/dist_fifo.h:90-115 | a snapshot whose counter still matches holds the true head, its successor and the oldest value, although popped nodes are reused at once |
| `DistFifo.HandedNodeIsExclusive` | include/dist_fifo.h:90-115 | the node handed out is not in the queue and belongs to its popper alone |
| `DistFifo.PopperNeverStuck` | include/dist_fifo.h:90-115 | every popper always has a step to take |
| `DistFifo.PusherNeverStuck` | include/dist_fifo.h:77-87 | the pusher in mid-push has a step to take |
| `DistFifo.PopGivesUpExactly` | include/dist_fifo.h:93-114 | a popper whose counter is current answers EMPTY if and only if everything pushed has been popped |
| `DistFifo.PopRetriesExactly` | include/dist_fifo.h:102-111 | it answers RETRY if and only if some pop has succeeded since it read the counter |
| `DistFifo.CompletesAlone` | include/dist_fifo.h:77-115 | from every reachable state every popper and the pusher can finish alone |
| `Semaphore.PermitsAccountedFor` | src/fiber_semaphore.c:27-82 | for every initial value grants never exceed the initial permits plus committed posts and equal them while a fiber waits, a poster has still to increment, or the initial value is negative; the counter is exactly the difference less waiters and owed increments |
| `Semaphore.WaiterMeansExhausted` | src/fiber_manager.c:403-424 | while a given fiber waits every permit has been granted and the counter is negative |
| `Semaphore.CounterFitsExactly` | src/fiber_semaphore.c:27-82 | with fewer fibers than a 32-bit int has room for below, the counter fits a 32-bit int if and only if the permits nobody has claimed do |
| `Semaphore.NeverStuck` | src/fiber_semaphore.c:27-82 | every fiber that is not parked has a step to take, a poster that finds a queued fiber can wake it, and a CAS that finds what it read can win |
| `Semaphore.TrywaitGivesUpExactly` | src/fiber_semaphore.c:42-56 | trywait gives up if and only if every permit has been granted |
| `Semaphore.WaitRegistersExactly` | src/fiber_semaphore.c:27-40 | wait registers the fiber as a waiter if and only if every permit has been granted, and grants it one otherwise |
| `Semaphore.PostWakesExactly` | src/fiber_semaphore.c:66-76 | a post looks for a fiber to wake if and only if one waits, another poster has still to increment, or the initial value was negative |
| `Semaphore.OnlyCommittedEnds` | src/fiber_semaphore.c:42-82 | a lost CAS or an empty queue is no answer: trywait ends with a permit or with none left, a post with a fiber woken or a permit added |
| `Semaphore.WokenInOrder` | src/fiber_manager.c:403-424 | waiters are woken in the order in which they entered the queue |
| `Semaphore.CompletesAlone` | src/fiber_semaphore.c:27-82 | from every reachable state every fiber comes to rest by at most four own steps |
| `Spinlock.MutualExclusion` | src/fiber_spinlock.c:35-76 | at most one thread holds the lock, through every wrap of the 32-bit counters |
| `Spinlock.GrantsInTicketOrder` | src/fiber_spinlock.c:35-76 | the lock is granted in the order in which tickets were taken |
| `Spinlock.TrylockNeedsFreeLock` | src/fiber_spinlock.c:48-66 | a trylock succeeds only when nobody holds or waits |
| `Spinlock.LockGrantedExactly` | src/fiber_spinlock.c:35-46 | a spinning thread gets the lock if and only if every ticket before its own has been served, whatever the wrap |
| `Spinlock.TrylockCanWinExactly` | src/fiber_spinlock.c:48-66 | a trylock can win if and only if nobody holds or waits and no ticket has been taken since it read the counters |
| `Sleepers.Timer.constructor` | src/fiber_event_native.c:58 | the timer starts with no sleepers |
| `Sleepers.Timer.Insert` | src/fiber_event_native.c:60-81 | inserting through the links yields the tree with the sleeper at its place, or first on the list of its wake time |
| `Sleepers.Timer.Descend` | src/fiber_event_native.c:66-80 | the descending loop ends and grafts the new element exactly where the search path leads |
| `Sleepers.Timer.RemoveLessThan` | src/fiber_event_native.c:83-97 | unlinks the leftmost node if and only if its wake time has passed, and leaves its list intact |
| `Sleepers.Timer.WakeGroup` | src/fiber_event_native.c:205-211 | wakes the node's sleeper and everyone on its list, each once |
| `Sleepers.Timer.Tick` | src/fiber_event_native.c:198-215 | a tick wakes exactly the sleepers due before the new count, each once and in non-decreasing wake time, and keeps all others |
| `Sleepers.InsertedOrdered` | src/fiber_event_native.c:60-81 | inserting keeps the search tree ordered with one node for each wake time |
| `Sleepers.InsertedContents` | src/fiber_event_native.c:60-81 | inserting adds that sleeper and no other |
| `Sleepers.MinFirst` | src/fiber_event_native.c:83-97 | removing the leftmost node takes exactly the first group of the in-order sequence |
| `Sleepers.InOrderSorted` | src/fiber_event_native.c:60-97 | in an ordered tree the in-order sequence is sorted by wake time |
| `Sleepers.EverySleeperWokenOnce` | src/fiber_event_native.c:198-215 | over any sequence of inserts and ticks everyone who went to sleep has been woken once or is still in the tree, and nobody is woken early |

## Left out

- `fiber_manager_yield` and `src/schedule_lock.c`: parking and fiber conservation do not follow from them; parking is a contract here.
- `src/fiber_barrier.c`, `include/fiber_multi_channel.h`, joining and detaching fibers.
- `src/fiber_mutex.c`, `src/fiber_cond.c`, `include/spsc_fifo.h`, `include/mpmc_stack.h`, `include/mpmc_lifo.h`, `cpp/`: easier instances of the protocols above.
- The bounded channel, channels without a signal (whose receivers spin), and the multi-waiter signal of `include/fiber_channel.h` and `include/fiber_signal.h`.
- Waking several fibers at once from a multi-consumer queue: the semaphore only asks for one.
- The size functions and the functions that destroy a structure.
- Context switching, I/O, event polling and statistics; weak memory orders; allocation failure.
- Progress under interference: a retry loop may lose to other threads forever, and a weak compare-and-swap may fail forever.
- qsort itself: `HazardScan.Sort` stands for it with an insertion sort that has qsort's contract.
- RwLock.WordAccountsForFibers: stated for fewer than 2^21 fibers, because beyond that a field can wrap; `RwLock.LockAccounts` gives the exact condition at each operation and `RwLock.WrappedReadersLookFree` a word at which it fails.
- Spinlock.MutualExclusion: stated for fewer than 2^32 threads, each with at most one ticket outstanding.
- Semaphore.PermitsAccountedFor: the counter is unbounded; `Semaphore.CounterFitsExactly` says exactly when it is still the code's int.
- HazardScan.Record.Scan: one thread runs at a time there; what the reads mean while others run is in `MpmcFifo` and `HazardRecords`.
- Sleepers.Timer.Insert: the tree lives in an explicit store of elements; the lifetime of the sleeping fiber's stack element and the millisecond arithmetic of `fiber_sleep` are not captured.
- MpmcSafety.EmptyExactly: describes the read that decides; an empty answer may be out of date by the time it is returned.
