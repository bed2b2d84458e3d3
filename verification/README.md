# GGMK/cpu kernel core: a verified model

GGMK/cpu is a small microkernel: lock-free rings and a ticket lock, a cooperative scheduler with
channels and refcounted payloads, arena allocators, and on x86-64 a page allocator, page tables, a
demand-paged heap with TLB shootdown, and a virtio block driver. This project models that core in
Dafny and proves what it is meant to guarantee, for all inputs, all runs and all interleavings.

`dafny verify dfyconfig.toml` checks everything.

How the model is built:

- **Protocols as step systems.** The MPMC ring, the SPSC ring, the ticket lock and the TLB shootdown
  are state machines with one program counter per thread and one atomic load, store, CAS or
  fetch-add per step, sequentially consistent, any number of threads. Positions and tickets are
  unbounded in the state; every test the code makes is evaluated on their low 32 bits.
- **Everything else one call at a time.** Each component has a value model (functions on
  datatypes), about which the properties are proved, and a class whose methods update fields and
  arrays in place with the loops of the source, each proved to compute the value model's transition.
  The classes compose: the kernel heap runs on the address space, which runs on the page bitmap; the
  channel registry runs on MPMC rings and on the scheduler, which runs on the local queues (SPSC
  rings), the ready queue and the overflow bucket (MPMC rings) and the event heap; the arena runs on
  its slabs.
- **Effects in their own terms.** What an operation does to every queue, ring and counter, and the exact
  condition for each of its answers, is stated without the function that computes it: Routes for the
  scheduler, Delivery and ChannelRuns for channels, PoppedByWeight, OutcomeMeans, LinksOnly and the
  like beside the other functions.
- **Words.** Machine integers are numbers with explicit wrap-around; AND, OR, shifts and single bits
  are defined on numbers and related to division and remainder.
- **Halting.** A PANIC is an explicit outcome that ends a run.
- **History.** Sequences and multisets that no code reads (claims, deliveries, references held or
  lost) record what happened, so that run properties can be stated.

Where the code does less than one would hope, the model keeps the code, and a lemma shows the
failing case next to the exact condition under which the property holds:

- the MPMC ring accepts capacity 1 but is no queue there (`NeverOverfillsIff`, `OneSlotOverfills`),
  and a thread must not sleep across 2^32 claims before its CAS (`SleepingCasOverfills`; with fewer
  claims in all, `ShortRunsAreSafe` needs no condition); one that sleeps across 2^31 before its seq
  read finds an empty ring full or a stored element missing (`SleepingPushFindsFull`,
  `SleepingPopFindsEmpty`; `PushFullExactIff` and `PopEmptyExactIff` have the exact condition);
- the SPSC ring behind a local queue is pushed by any thread that emits or drains, and loses an element
  when two pushes overlap (`TwoProducersLose`, `OverlapLoses`; `OneAtATimeIsSafe` otherwise);
- kfree gives a frame back before other CPUs have flushed it (`FreedFrameIsShared`;
  `StaleFrameGivenAwayIff` has the exact window);
- drains stop being lexicographic beyond 65536 pushes (`DrainsAreLexicographicIff`), ticks stay ordered;
- a message or retry that no queue takes loses its payload reference (`StepLosesExactly` says exactly
  when, `RefusedMessageLeaks` is a run from initialisation);
- a late completion of a timed-out disk request makes the driver put descriptors back that the device
  still owns (`LateCompletionShares`; `OwnershipInRuns` has the exact condition);
- `free_pages` is exact after `pmm_init` if and only if usable memory-map entries do not overlap, and
  maps of 4 GB or more make it store one word behind the bitmap (`Pmm.Allocator.Init`);
- a payload request of more than 2^32 - 8 bytes wraps to a tiny block (`PayloadFitsIff`,
  `WrappedPayloadIsServed`);
- `kmalloc` wraps around the address space for huge sizes (`KmallocFreshIff`, `KmallocWraps`).

| file | module | about |
|---|---|---|
| words.dfy, sequences.dfy, options.dfy | Words, Sequences, Options | machine words, duplicate-free sequences, optional values |
| mpmc_protocol.dfy, mpmc_ring.dfy | MpmcProtocol, MpmcRing | src/ring_mpmc.c |
| spsc_protocol.dfy, spsc_producers.dfy, spsc_ring.dfy | SpscProtocol, SpscProducers, SpscRing | src/ring_spsc.c |
| ticket_lock.dfy | TicketLock | include/ggmk/arch/spinlock.h |
| tasks.dfy, event_heap.dfy, event_queue.dfy | Tasks, EventHeap, EventQueue | src/sched_evq.c |
| ready_queue.dfy, local_queue.dfy | ReadyQueue, LocalQueue | src/sched_rq.c, src/sched_lq.c |
| scheduler.dfy, routes.dfy, scheduler_core.dfy | Scheduler, Routes, SchedulerCore | src/sched.c, src/enqueue.c, src/worker.c |
| channels.dfy, delivery.dfy, channel_runs.dfy, lost_message.dfy | Channels, Delivery, ChannelRuns, LostMessage | src/chan.c, payloads of src/alloc.c |
| channel_table.dfy, channel_registry.dfy | ChannelTable, ChannelRegistry | src/chan.c and src/worker.c in place |
| free_chain.dfy, slab.dfy | FreeChain, Slabs | src/alloc_slab.c |
| arena.dfy, arena_runs.dfy, arena_allocator.dfy | Arena, ArenaRuns, ArenaAllocator | src/alloc.c, src/alloc_block.c |
| payload_runs.dfy | PayloadRuns | src/chan.c on src/alloc.c |
| page_map.dfy, pmm.dfy | PageMap, Pmm | arch/x86_64/pmm.c |
| paging.dfy, address_space.dfy | Paging, AddressSpaces | arch/x86_64/paging.c |
| vmm.dfy, kernel_heap.dfy, tlb_shootdown.dfy | Vmm, KernelHeaps, TlbShootdown | arch/x86_64/vmm.c |
| virtqueue.dfy, virtio_device.dfy | Virtqueue, VirtioDevice | drivers/virtio |

## Model

| member | source | states |
|---|---|---|
| Words.MaskIsMod | src/ring_mpmc.c:80-82 | `x & (cap - 1)` is `x mod cap` exactly for the capacities that the power-of-two test accepts |
| Words.PowerOfTwoTest | include/ggmk/platform.h:46-48 | gmk_is_power_of_two accepts a number if and only if it is 2^k for some k |
| Words.NextPow2Least | include/ggmk/platform.h:50-59 | gmk_next_pow2 is the least power of two not below its argument up to 2^31, and 0 above (the final increment wraps) |
| MpmcProtocol.InitInv | src/ring_mpmc.c:19-41 | a freshly initialised ring with cap >= 2 satisfies the protocol invariant |
| MpmcProtocol.NextInv | src/ring_mpmc.c:76-136 | every atomic step of every thread (load, seq read, CAS, copy, seq store) keeps the invariant that ties cells, threads and claims together; only a CAS must not come 2^32 claims after its counter load |
| MpmcProtocol.RunInv | src/ring_mpmc.c:76-136 | the invariant holds in every state of every interleaving, for any number of threads and every power-of-two cap >= 2, however long threads sleep between counter load and seq read |
| MpmcProtocol.ExclusiveCopyWindows | src/ring_mpmc.c:101-135 | in every run no two threads are ever in the copy window of the same cell |
| MpmcProtocol.WrittenByOne | src/ring_mpmc.c:76-105 | each claimed position is written by its claimant and by nobody else, and stays unpublished exactly that long |
| MpmcProtocol.ReadByOne | src/ring_mpmc.c:107-136 | each taken position was published, is read by exactly one pop, and that pop returns the value pushed there |
| MpmcProtocol.StepEffect | src/ring_mpmc.c:86-122 | head and tail move only by a successful CAS, tail only while fewer than cap positions are open, head only while one is |
| MpmcProtocol.StepRefinesFifo | src/ring_mpmc.c:76-136 | every step is a stutter, an append of the pushed value below cap, or a removal of the first value: a bounded FIFO in claim order |
| MpmcProtocol.PushFullExactIff | src/ring_mpmc.c:83-98 | with no assumption on timing: push returns -1 if and only if position tail - cap is unreleased at the seq read, or the cell has run 2^31 or more positions ahead (mod 2^32) while the thread slept; so -1 means full exactly while it has not |
| MpmcProtocol.PushFullMeansUnreleased | src/ring_mpmc.c:83-98 | for a pusher whose counter is still within 2^31 - cap of what it loaded: the 32-bit difference is negative if and only if position tail - cap is unreleased at the seq read; positive means another pusher won |
| MpmcProtocol.PushReadExactIff | src/ring_mpmc.c:83-85 | the 32-bit difference that push reads is the true distance if and only if its cell is less than 2^31 positions ahead, whatever the timing |
| MpmcProtocol.PopEmptyExactIff | src/ring_mpmc.c:114-129 | with no assumption on timing: pop returns -1 if and only if the position it loaded is unpublished at the seq read, or the cell has run 2^31 or more positions ahead (mod 2^32) while the thread slept; so -1 means empty exactly while it has not |
| MpmcProtocol.PopEmptyMeansUnpublished | src/ring_mpmc.c:114-129 | for a popper whose counter is still within 2^31 - cap of what it loaded: the 32-bit difference is negative if and only if the position at head is unpublished at the seq read |
| MpmcProtocol.PopReadExactIff | src/ring_mpmc.c:114-116 | the 32-bit difference that pop reads is the true distance if and only if its cell is less than 2^31 positions ahead, whatever the timing |
| MpmcProtocol.PushEnds | src/ring_mpmc.c:76-105 | a push returns exactly at a seq read that finds the ring full (or the thread 2^31 positions late), or at the store that publishes its value; otherwise it claims, reloads tail or retries |
| MpmcProtocol.PopEnds | src/ring_mpmc.c:107-136 | a pop returns exactly at a seq read that finds the ring empty (or the thread 2^31 positions late), or at the store that releases its cell, with the value that was pushed there; otherwise it claims, reloads head or retries |
| MpmcProtocol.ShortRunsAreSafe | src/ring_mpmc.c:76-136 | every interleaving with fewer than 2^32 claims keeps the invariant and is a timely run, with no assumption on timing |
| MpmcProtocol.PushCasSafeIff | src/ring_mpmc.c:86-92 | a push CAS that succeeds keeps the invariant if and only if the cell at tail is released for tail; a timely one always does |
| MpmcProtocol.PopCasSafeIff | src/ring_mpmc.c:117-123 | a pop CAS that succeeds keeps the invariant if and only if the cell at head is published for head; a timely one always does |
| MpmcProtocol.SleepingCasOverfills | src/ring_mpmc.c:84-91 | the timing condition is needed: a timely run from initialisation in which one thread does 2^32 claims while another sleeps before its CAS, which then succeeds and overfills the ring |
| MpmcProtocol.SleepingPushFindsFull | src/ring_mpmc.c:80-98 | a run from initialisation in which a pusher sleeps across 2^31 claims between its load of tail and its seq read: the ring is empty, and its only step is to give up as if it were full |
| MpmcProtocol.SleepingPopFindsEmpty | src/ring_mpmc.c:111-129 | a run from initialisation in which a popper sleeps across 2^31 takes between its load of head and its seq read: an element is there, and its only step is to give up as if there were none |
| MpmcProtocol.OneSlotOverfills | src/ring_mpmc.c:19-41 | counterexample at cap 1, which init accepts: a run in which one thread pushes twice into the single cell |
| MpmcProtocol.OneSlotPopSpins | src/ring_mpmc.c:111-130 | and once two pushes are published in a ring of one slot, a pop goes round for ever: it neither takes an element nor gives up |
| MpmcProtocol.NeverOverfillsIff | src/ring_mpmc.c:19-41 | of the capacities that initialisation accepts, exactly those from 2 on never hold more than cap elements in any run |
| MpmcRing.StoreNext | src/ring_mpmc.c:101-104 | storing at the tail extends the stored sequence by one element at its end, across counter wrap-around |
| MpmcRing.TakeFirst | src/ring_mpmc.c:132-135 | releasing the head cell yields the first element and leaves the rest, across counter wrap-around |
| MpmcRing.SeqTests | src/ring_mpmc.c:83-125 | the signed 32-bit seq tests decide full and empty exactly, also when the counters have wrapped |
| MpmcRing.Ring.constructor | src/ring_mpmc.c:19-41 | a new ring is an empty queue, for every capacity that initialisation accepts |
| MpmcRing.Ring.ClaimTail | src/ring_mpmc.c:80-99 | the push loop claims the next slot if and only if fewer than cap elements are stored, or cap is 1, whatever the number of spurious CAS failures |
| MpmcRing.Ring.ClaimHead | src/ring_mpmc.c:111-130 | the pop loop claims the first slot if and only if the ring is not empty |
| MpmcRing.Ring.Push | src/ring_mpmc.c:76-105 | push appends the element, and fails exactly when cap elements are stored; only a full ring of one slot accepts it, and is a queue no longer |
| MpmcRing.Ring.Pop | src/ring_mpmc.c:107-136 | pop removes and returns the first element, and fails exactly when the ring is empty |
| MpmcRing.Ring.Count | src/ring_mpmc.c:138-142 | count is the number of stored elements |
| SpscProtocol.TestsAreExact | src/ring_spsc.c:45-64 | the room and emptiness tests on wrapped 32-bit counters decide full and empty exactly |
| SpscProtocol.SpscNextInv | src/ring_spsc.c:45-71 | every step of the producer and of the consumer keeps the invariant |
| SpscProtocol.SpscRunInv | src/ring_spsc.c:45-71 | the invariant holds in every state of every interleaving |
| SpscProtocol.DeliversInOrder | src/ring_spsc.c:45-71 | in every interleaving the delivered sequence is a prefix of the pushed one, at most cap behind, and a slot being written is never being read |
| SpscProtocol.SpscRefinesFifo | src/ring_spsc.c:45-71 | each step is a stutter or one operation of a bounded FIFO; push and pop give up exactly on a full or empty backlog; the store of tail appends the pushed value, the store of head delivers the first |
| SpscProducers.OneAtATimeIsSafe | src/ring_spsc.c:45-57 | any number of producers, as long as their pushes do not overlap: in every such run all accepted elements are delivered in order or still stored |
| SpscProducers.OverlapLoses | src/ring_spsc.c:45-57 | from every state in which two producers are inside a push and there is room, both can be accepted while tail moves by one slot only, so that one element is lost |
| SpscProducers.TwoProducersLose | src/enqueue.c:17-19 | a run from initialisation, for every capacity: two producers' pushes are accepted, one element is delivered and the ring is empty |
| SpscRing.StoreLast | src/ring_spsc.c:51-56 | writing the tail slot extends the stored sequence at its end |
| SpscRing.LocalRing.constructor | src/ring_spsc.c:7-21 | a new ring is empty and valid for every 32-bit power-of-two cap |
| SpscRing.LocalRing.Push | src/ring_spsc.c:45-57 | push appends, and fails exactly when cap elements are stored |
| SpscRing.LocalRing.Pop | src/ring_spsc.c:59-71 | pop removes and returns the first element, and fails exactly on empty |
| SpscRing.LocalRing.Count | src/ring_spsc.c:73-77 | count is exact across counter wrap-around |
| TicketLock.LockRunInv | include/ggmk/arch/spinlock.h:20-30 | the ticket invariant holds in every state of every interleaving with fewer than 2^32 threads |
| TicketLock.MutualExclusion | include/ggmk/arch/spinlock.h:20-30 | two threads that hold the lock in one state of a run are the same thread |
| TicketLock.GrantedInTicketOrder | include/ggmk/arch/spinlock.h:20-30 | acquisitions are a prefix of the ticket draws, in order; next - serving mod 2^32 is the number of holders and waiters |
| TicketLock.NextInLineEnters | include/ggmk/arch/spinlock.h:20-25 | a poll acquires if and only if the polling thread drew the ticket now served, and then nobody else holds the lock |
| TicketLock.TicketsInPlay | include/ggmk/arch/spinlock.h:20-30 | open tickets are as many as the threads that hold or wait, so 32 bits tell them apart |
| TlbShootdown.NextKeeps | arch/x86_64/vmm.c:118-190 | every step of the initiator, a handler, a TLB refill or a demand mapping keeps the shootdown invariant |
| TlbShootdown.RunInv | arch/x86_64/vmm.c:118-190 | the invariant holds in every state of every run of shootdowns, one initiator at a time |
| TlbShootdown.NoStaleAfterKfree | arch/x86_64/vmm.c:118-134 | whenever no kfree is under way, every translation cached on any CPU is the one in the page table |
| TlbShootdown.StaleOnlyUnderShootdown | arch/x86_64/vmm.c:164-190 | a stale translation is always for the page in hand, on a CPU that has not finished this round |
| TlbShootdown.AckCountsFinishedCpus | arch/x86_64/vmm.c:164-190 | the ack counter is the number of CPUs that finished; at total_cpus - 1 all have; below it some handler can step |
| TlbShootdown.WaitEndsIff | arch/x86_64/vmm.c:180-186 | in every run the initiator's next step leaves the wait if and only if all other CPUs have finished the round |
| TlbShootdown.WorkGoesDown | arch/x86_64/vmm.c:118-190 | in every run the remaining work of a kfree under way never grows, and every step of initiator or handler lowers it, but for a look at the ack count in vain |
| TlbShootdown.CanGoOn | arch/x86_64/vmm.c:118-190 | from every such state some step of initiator or handler lowers the remaining work: nobody waits for an ack that does not come |
| TlbShootdown.KfreeReturns | arch/x86_64/vmm.c:118-190 | from every such state, steps of initiator and handlers alone lead to the end of the kfree |
| TlbShootdown.NextFrames | arch/x86_64/vmm.c:118-159 | every step keeps frames apart: mapped pages have frames of their own, none free or in other hands, and a stale translation leads to the frame that kfree has in hand |
| TlbShootdown.FramesExclusiveAfterKfree | arch/x86_64/vmm.c:118-134 | in every run, with no kfree under way, the frame behind a cached translation is mapped at that page only, neither free nor in other hands |
| TlbShootdown.StaleFrameGivenAwayIff | arch/x86_64/vmm.c:124-131 | in every run a stale translation leads to a frame that is free, in other hands or mapped again if and only if kfree has passed its pmm_free_pages for the page in hand; and then only on other CPUs that have not flushed yet |
| TlbShootdown.FreedFrameIsShared | arch/x86_64/vmm.c:124-131 | a run from initialisation in which another CPU still reaches a freed page's frame after it was mapped at a different page, because the frame is given back before the shootdown |
| EventHeap.KeyFields | src/sched_evq.c:11-15 | the key orders by tick, then priority OR-ed with the high half of seq, then the low half, for every seq |
| EventHeap.LexicographicIffShort | src/sched_evq.c:11-15 | keys order events by (tick, priority, push order) if and only if all seqs stay below 65536 |
| EventHeap.KeyTick | src/sched_evq.c:11-15 | whatever the seq, the high word of the key is the tick |
| EventHeap.SiftUpKeeps | src/sched_evq.c:17-29 | sifting up permutes the entries |
| EventHeap.SiftUpOrders | src/sched_evq.c:17-29 | sifting up restores heap order when only the sifted entry may be too small for its place |
| EventHeap.SiftDownKeeps | src/sched_evq.c:31-51 | sifting down permutes the entries |
| EventHeap.SiftDownOrders | src/sched_evq.c:31-51 | sifting down restores heap order when only the sifted entry may be too large for its place |
| EventHeap.PushKeeps | src/sched_evq.c:73-93 | a push keeps the heap and adds exactly the new entry |
| EventHeap.RemoveKeeps | src/sched_evq.c:95-123 | taking the root out keeps the heap and removes exactly the root |
| EventHeap.RefusedIffNoneDue | src/sched_evq.c:100-110 | a due-pop is refused if and only if no stored entry has tick <= current; the root has the least tick of all |
| EventHeap.DrainYieldsDue | src/sched_evq.c:95-123 | popping until refused yields exactly the due entries, with multiplicity and in key order, and keeps exactly the others |
| EventHeap.DrainSorts | src/sched_evq.c:95-123 | what a drain yields is sorted by key and due |
| EventHeap.DrainIsLexicographic | src/sched_evq.c:95-123 | with seqs below 65536 a drain never yields a task before one that is smaller by (tick, priority, push order) |
| EventHeap.DrainsAreLexicographicIff | src/sched_evq.c:73-123 | over all runs of pushes and due-pops with at most n pushes, every drain is in (tick, priority, push order) if and only if n <= 65536; the failing run is explicit |
| EventQueue.Queue.HeapSiftUp | src/sched_evq.c:17-29 | the in-place loop computes the sift-up of the stored entries |
| EventQueue.Queue.HeapSiftDown | src/sched_evq.c:31-51 | the in-place loop computes the sift-down of the stored entries |
| EventQueue.Queue.Insert | src/sched_evq.c:73-93 | push fails exactly when full; otherwise it adds the task under the next seq and keeps the heap |
| EventQueue.Queue.RemoveRoot | src/sched_evq.c:114-119 | the last entry replaces the root and is sifted down |
| EventQueue.Queue.PopDue | src/sched_evq.c:95-123 | pop_due fails exactly when nothing is due; otherwise it removes one stored entry of least key and least tick |
| ReadyQueue.RqPopServes | src/sched_rq.c:39-69 | a pop fails exactly when all queues are empty, else takes the first task of a non-empty queue and leaves the other queues alone; counters stay within weights |
| ReadyQueue.RqPopCorrect | src/sched_rq.c:39-69 | a pop keeps counters within weights, fails exactly when all four queues are empty, and removes exactly the returned task |
| ReadyQueue.RqPushCorrect | src/sched_rq.c:32-37 | a push puts the task last in its priority's queue, leaves the other queues alone, and fails exactly when that queue is full |
| ReadyQueue.PopIsWeighted | src/sched_rq.c:39-69 | a pop serves the first queue that has a task and weight left and counts it; with none such, counters start afresh and the first non-empty queue is served; with all empty, counters are zero |
| ReadyQueue.PassingCosts | src/sched_rq.c:39-69 | every pop that passes over a non-empty queue lowers that queue's remaining patience |
| ReadyQueue.NoStarvation | src/sched_rq.c:39-69 | whatever is pushed in between, a waiting queue of priority p is passed over at most (15 - w_p) + the weights before p times in a row: 7, 19, 25, 28 |
| ReadyQueue.BackedUpQueueWaits | src/sched_rq.c:39-69 | with all queues backed up a queue waits for exactly its patience |
| ReadyQueue.BoundIsTight | src/sched_rq.c:39-69 | with its own weight used up and all queues backed up, a queue waits for exactly its bound |
| ReadyQueue.BoundIsReached | src/sched_rq.c:10-69 | the four bounds are reached from initialisation on, by pushes and pops, for every capacity that can hold the backlog; so none can be improved |
| ReadyQueue.Queue.constructor | src/sched_rq.c:10-24 | four empty MPMC rings that share no memory |
| ReadyQueue.Queue.Push | src/sched_rq.c:32-37 | a push on the live rings adds exactly the task, to the ring of its priority, and fails exactly when that ring is full |
| ReadyQueue.Queue.Pop | src/sched_rq.c:39-69 | the two scanning passes over the live rings and counters compute the specified pop: none exactly when all four rings are empty, else exactly the returned task is gone |
| LocalQueue.WatermarkInRange | src/sched_lq.c:8-14 | the 32-bit watermark is positive and at most cap for every cap, and three quarters of cap while 25 * cap fits 32 bits |
| LocalQueue.StepKeepsReserve | src/sched_lq.c:21-41 | every push, yield push and pop keeps normal tasks within the watermark and all tasks within the capacity |
| LocalQueue.ReserveHolds | src/sched_lq.c:8-41 | after any calls on a fresh queue normal tasks do not exceed the watermark, and a yield push fails only with at least cap - watermark yielded tasks queued |
| LocalQueue.Lq.constructor | src/sched_lq.c:8-14 | a new local queue is empty and valid |
| LocalQueue.Lq.Push | src/sched_lq.c:21-29 | a normal push in place, refused exactly at the watermark |
| LocalQueue.Lq.PushYield | src/sched_lq.c:31-36 | a yield push fails only on a full ring, and then at least cap - watermark yielded tasks are queued |
| LocalQueue.Lq.Pop | src/sched_lq.c:38-41 | pop takes the first task and keeps the reserve accounting |
| LocalQueue.Bank.constructor | src/sched.c:21-35 | one empty local queue per worker, none sharing memory with another |
| LocalQueue.Bank.Push | src/sched_lq.c:21-29 | a push on one worker's queue leaves all other workers' queues alone, and is refused exactly at the watermark |
| LocalQueue.Bank.PushYield | src/sched_lq.c:31-36 | a yield push on one worker's queue leaves all others alone, and is refused exactly at full capacity |
| LocalQueue.Bank.Pop | src/sched_lq.c:38-41 | a pop takes the first task of one worker's queue and leaves all others alone |
| Scheduler.EnqueueConserves | src/enqueue.c:9-23 | an enqueue adds exactly the task (up to seq) when accepted and changes no other task |
| Scheduler.RetryAccepted | src/enqueue.c:9-23 | an enqueue without a worker is refused if and only if the RQ of the task's priority is full |
| Scheduler.YieldConserves | src/enqueue.c:25-50 | a yield adds exactly the task with its raised yield count when it returns OK, and nothing otherwise |
| Scheduler.PostConserves | src/sched_evq.c:73-93 | posting an event adds exactly its task, or nothing when full |
| Scheduler.ActsConserve | src/worker.c:27-27 | a handler's acts add exactly the accepted tasks; what a handler emits reaches the scheduler as such acts (ChannelRuns.WorkIsIterate) |
| Scheduler.GatherTakesOne | src/worker.c:58-83 | gathering removes exactly the task it returns, and finds none if and only if LQ, overflow and RQ are empty |
| Routes.GatherInOrder | src/worker.c:58-83 | the task is the first of the own LQ; only with that empty, the first of the overflow bucket; only with both empty, the RQ's weighted choice; queues that are not reached stay as they are, with the counters |
| Routes.EnqueueLands | src/enqueue.c:9-23 | the numbered task comes last in its worker's LQ if and only if that is live and below the watermark, else last in the RQ of its priority, refused exactly when that is full; nothing else changes but the next number |
| Routes.YieldLands | src/enqueue.c:25-50 | past the limit the task goes nowhere; else it comes last in its worker's LQ if that is not full, else last in the overflow bucket; each return code has its exact condition |
| Routes.PostLands | src/sched_evq.c:73-93 | refused exactly when full, else one more event under the next event number; nothing else changes |
| Routes.ActsLand | src/worker.c:27-27 | a handler's acts happen in their order, each as its own operation says |
| Routes.DispatchLands | src/worker.c:10-49 | after the acts, a retried task comes last in the RQ of its priority; any other return code adds nothing |
| Routes.DrainDelivers | src/worker.c:85-95 | due events in key order, at most the limit, come last in the own LQ under consecutive numbers; the remaining events drain as before |
| Routes.IterateLands | src/worker.c:55-98 | one iteration hands the task found first to the handler, or moves due events; it parks exactly if there are neither |
| Scheduler.DrainConserves | src/worker.c:85-95 | draining due events into an LQ with room below the watermark loses nothing and stops early only when nothing is due |
| Scheduler.DispatchConserves | src/worker.c:10-49 | a dispatch adds the accepted acts and, on retry, the task unless the RQ is full |
| Scheduler.IterateConserves | src/worker.c:55-98 | one worker iteration conserves all tasks except the dispatched one, what the handler adds, and a retry that finds the RQ full; the EVQ step loses nothing |
| Scheduler.ParkOnlyWhenIdle | src/worker.c:55-99 | a worker parks if and only if its LQ, overflow and the RQ are empty and no event is due |
| SchedulerCore.DefaultWatermark | src/sched_lq.c:8-14 | for the default capacity the computed watermark is 768, and the default capacities are ones the rings accept |
| SchedulerCore.Core.Create | src/sched.c:7-56 | refused exactly for no worker or more than 32; otherwise a valid scheduler over live rings, heap and local queues, holding no task |
| SchedulerCore.Core.EnqueueTask | src/enqueue.c:9-23 | on the live queues: keeps the scheduler invariant and adds exactly the accepted task to all tasks stored; it is the step that Scheduler.EnqueueConserves is about |
| SchedulerCore.Core.YieldTo | src/enqueue.c:25-50 | on the live queues: keeps the scheduler invariant and stores the task with its raised yield count exactly when it returns OK |
| SchedulerCore.Core.PostTask | src/sched_evq.c:73-93 | on the live event heap: keeps the scheduler invariant and adds exactly the accepted task to all tasks stored |
| SchedulerCore.Core.DispatchTask | src/worker.c:10-49 | the handler's acts one by one on the live queues, then the retry, compute the specified dispatch and keep the scheduler invariant |
| SchedulerCore.Core.GatherTask | src/worker.c:58-83 | on the live queues: own LQ, then overflow ring, then RQ, each touched only when the earlier ones are empty; exactly the returned task leaves the tasks stored |
| SchedulerCore.Core.DrainEvents | src/worker.c:85-95 | the loop from heap to local queue computes the specified drain up to the limit and keeps the scheduler invariant |
| SchedulerCore.Core.WorkerPass | src/worker.c:55-98 | one pass of the loop body over the live parts: the task found first in the order LQ, overflow, RQ goes to the handler, else due events move; it keeps the scheduler invariant and parks exactly when no queue has a task and no event is due |
| Channels.ReleaseExact | src/alloc.c:139-151 | a release keeps every refcount exact, and frees the payload if and only if it gives back the last reference |
| ChannelRuns.RetainHeldExact | src/alloc.c:132-137 | a retain adds one reference, which the caller then holds; every refcount stays exact |
| Channels.RetainsExact | src/chan.c:303-308 | the retain loop adds one reference per extra copy |
| Channels.CopyAllExact | src/chan.c:310-332 | the copy loop uses up one reference per active subscriber: passed on with an accepted copy, released with a refused one |
| Delivery.CopiesLand | src/chan.c:310-332 | each live worker's LQ grows by one copy per active subscriber on it, in subscriber order, as far as it has room, and no other LQ grows; the rest goes to the RQ, refused only when that is full; all tasks grow by exactly the accepted copies; refused ones are dead-lettered if the channel is lossless |
| Delivery.CopiesCount | src/chan.c:310-332 | the copies meant for a worker are copies of the message, one per active subscriber on that worker |
| Delivery.DeliverLands | src/chan.c:282-333 | a point-to-point message goes to its subscriber's worker, dead-lettered when no queue takes it; a fan-out goes to all active subscribers; without one nothing happens but the loss of the reference |
| Delivery.DrainLands | src/chan.c:262-342 | a drain delivers the first messages of the ring, one after the other, up to the limit |
| Delivery.TaggedIsMessage | src/chan.c:142-144 | the message is addressed to the channel, has flag 5 set, and is the producer's task otherwise |
| Delivery.DeadLetterLands | src/chan.c:127-131 | the task comes last in sys.dropped if and only if that is open and has room; nothing else changes |
| Delivery.EmitLands | src/chan.c:135-207 | each return code of an emit and where the message went: refused without effect, handed to the subscriber's worker, or last in the ring |
| Delivery.ThresholdIsNineTenths | src/chan.c:146-155 | the threshold is nine tenths of the capacity, rounded up |
| Delivery.SubscribeLands | src/chan.c:211-239 | the exact condition for each return code; an accepted subscriber comes last, active, and nothing else changes |
| Channels.DeliverExact | src/chan.c:282-333 | delivering one message keeps every refcount equal to the references that exist, so the payload is never freed before its last copy |
| Channels.DeadLetterExact | src/chan.c:127-131 | what is routed to the dead-letter ring carries no reference of its own: every refcount stays exact whether the ring takes it or not |
| Channels.DeliverLeaksIff | src/chan.c:282-301 | a delivery loses its reference if and only if it is point-to-point and its subscriber is inactive or no queue takes it, or a fan-out without active subscriber |
| Channels.DrainExact | src/chan.c:262-342 | draining any number of messages keeps every refcount exact |
| Channels.EmitExact | src/chan.c:135-207 | an emit passes the producer's reference to the message or leaves it with the producer, on every path, whatever other references the code around it has in hand |
| Channels.EmitReserve | src/chan.c:146-190 | emitting anywhere never lets non-critical messages fill an ordinary ring beyond its threshold |
| Channels.CriticalRefused | src/chan.c:146-190 | a critical emit is refused only when at least cap - threshold critical messages are buffered |
| ChannelRuns.InitExact | src/chan.c:33-68 | after initialisation the invariants hold, nothing is counted and no reference exists |
| ChannelRuns.OpenExact | src/chan.c:80-123 | opening a channel keeps every refcount exact, in the refused cases too |
| ChannelRuns.OpenLands | src/chan.c:80-123 | the exact condition for each return code; an accepted channel comes last, empty and open, with the least power of two that is enough |
| ChannelRuns.CloseLands | src/chan.c:243-258 | closing takes exactly the open flag, and of no system channel |
| ChannelRuns.CloseExact | src/chan.c:243-258 | closing a channel, or being refused for a system channel, keeps every refcount exact with the messages still in its ring |
| ChannelRuns.SubscribeExact | src/chan.c:211-239 | subscribing, accepted or refused, keeps every refcount exact |
| ChannelRuns.RunSubs | src/chan.c:211-239 | in every run no channel has more than GMK_MAX_CHAN_SUBS subscribers and a point-to-point channel at most one |
| ChannelRuns.ExecExact | src/chan.c:80-342 | every kernel call (alloc, retain, release, open, close, subscribe, emit, drain, submit, yield, post) keeps every refcount exact, inside a dispatch as well as outside |
| ChannelRuns.HandleExact | src/worker.c:10-49 | a dispatched task's reference is released, or kept by an accepted retry, whatever its handler emitted, drained or submitted |
| ChannelRuns.HandleLands | src/worker.c:29-48 | after the calls a retried task comes last in the RQ of its priority, or its reference is lost; any other is released |
| ChannelRuns.ExecLands | src/chan.c:80-342 | every kernel call has the effect of its own operation: references counted one by one, channels opened, closed and bound, messages emitted and drained (limit 0 as UINT32_MAX), tasks submitted, yielded and posted |
| ChannelRuns.ExecInOrder | src/worker.c:27-27 | a handler's calls happen in their order |
| ChannelRuns.WorkLands | src/worker.c:55-98 | a worker iteration handles the task found first in the order LQ, overflow, RQ, or moves due events |
| ChannelRuns.StepExact | src/worker.c:55-98 | a kernel call or a worker iteration keeps every refcount exact |
| ChannelRuns.RunExact | src/chan.c:33-342 | refcounts are exact after every prefix of every run from initialisation, in which producers and handlers make any calls |
| ChannelRuns.RefcountsAreExact | src/alloc.c:119-151 | in every run: no use of a freed payload; refcount = references of scheduled and buffered tasks + held + lost; allocated iff positive; freed exactly once per allocation that is gone |
| ChannelRuns.StepLosesExactly | src/chan.c:127-332 | every event loses exactly: an undeliverable point-to-point message, a fan-out without active subscriber, a message taken by sys.dropped, and a retry that no queue takes; none else |
| ChannelRuns.LostIsForever | src/alloc.c:139-151 | a payload with a lost reference stays allocated for the rest of the run; one without is freed as soon as nothing refers to it |
| LostMessage.RefusedMessageLeaks | src/chan.c:283-289 | a run from initialisation, by the rules, that fills the RQ through emits and then loses the payload of a critical point-to-point message |
| ChannelRuns.StepReserve | src/chan.c:135-342 | every kernel call and worker iteration keeps the reserve of every ordinary channel |
| ChannelRuns.RunReserve | src/chan.c:135-342 | the reserve, and with it the bound on refused critical emits, holds throughout every run from initialisation |
| ChannelRuns.EmitIsSubmits | src/chan.c:135-207 | to the scheduler an emit is a sequence of submissions |
| ChannelRuns.WorkIsIterate | src/worker.c:55-98 | a worker iteration whose handler emits, drains or opens channels is, for the scheduler, an iteration that Scheduler.IterateConserves covers |
| PayloadRuns.AllocKeeps | src/alloc.c:119-130 | the arena hands out a payload address that no payload in use has, and the two books go on agreeing |
| PayloadRuns.GiveBackKeeps | src/alloc.c:139-151 | the free of a payload with the size in its header is the free of exactly its block with the size that was requested |
| PayloadRuns.CanDrop | src/alloc.c:139-151 | whatever payloads an operation drops, the arena can take them back |
| PayloadRuns.FollowsKeeps | src/alloc.c:119-151 | every action of kernel and arena together is a step of ChannelRuns, its rule on new addresses included, or no concern of the kernel's |
| PayloadRuns.PayloadsAreBlocks | src/alloc.c:61-151 | in every run of the kernel on its arena, with other clients: payloads in use are exactly the blocks held for payloads, with the size in their header; refcounts are exact and each allocation is given back at most once |
| PayloadRuns.PayloadsAreDisjoint | src/alloc.c:61-151 | in every such run the blocks of different payloads do not overlap, and neither do their data as long as 8 + size does not wrap |
| Tasks.ChannelFlagKeeps | src/chan.c:142-144 | setting the channel-message flag changes neither priority nor refcount flag |
| ChannelTable.Table.Add | src/chan.c:80-123 | a new channel over a ring of its own comes last and leaves the other channels alone |
| ChannelTable.Table.PushRing | src/chan.c:182-190 | a push on one channel's MPMC ring is refused exactly when that ring is full and leaves all other channels alone |
| ChannelTable.Table.PopRing | src/chan.c:262-281 | a pop takes the first message of one channel's MPMC ring and leaves all other channels alone |
| ChannelRegistry.Registry.Create | src/chan.c:33-68 | a registry over a live scheduler and live rings starts in the initial state of ChannelRuns |
| ChannelRegistry.Registry.ReleasePayload | src/alloc.c:139-151 | gmk_payload_release in place; true exactly when the last reference went |
| ChannelRegistry.CountActive | src/chan.c:297-301 | the counting loop finds the number of active subscribers |
| ChannelRegistry.Registry.RetainExtra | src/chan.c:303-308 | the retain loop is n retains |
| ChannelRegistry.Registry.Copies | src/chan.c:310-332 | the copy loop, over live rings and queues, is the specified fan-out |
| ChannelRegistry.Registry.FanOut | src/chan.c:297-332 | counting, retain and copy loop together, over live queues: copies land at their subscribers' workers in subscriber order, as Delivery.CopiesLand says |
| ChannelRegistry.Registry.DeliverMessage | src/chan.c:282-333 | one message over live rings and queues: to the single subscriber's worker, or a copy to each active one |
| ChannelRegistry.Registry.DrainChannel | src/chan.c:262-342 | the drain loop delivers the first messages of the live ring in order, with limit 0 read as UINT32_MAX |
| ChannelRegistry.Registry.BufferMessage | src/chan.c:182-206 | the ring part of an emit with its immediate drain |
| ChannelRegistry.Registry.EmitTask | src/chan.c:135-207 | gmk_chan_emit in place, with every return code and where the message went |
| ChannelRegistry.Registry.SubscribeTo | src/chan.c:211-239 | gmk_chan_sub in place: the exact condition for each return code, and the new subscriber last |
| ChannelRegistry.Registry.OpenChannel | src/chan.c:80-123 | returns the new channel's place, at which an open empty channel of at least the asked capacity stands, if and only if the table has room, the name is free and the capacity is at most 2^31; else the error code, and nothing changes |
| ChannelRegistry.Registry.CloseChannel | src/chan.c:243-258 | only the open flag of an ordinary channel goes; the messages in its live ring stay |
| ChannelRegistry.Registry.RunHandler | src/worker.c:27-27 | the handler's calls one after the other, on live scheduler and channels, are the specified run of calls |
| ChannelRegistry.Registry.HandleTask | src/worker.c:10-49 | handler, then retry or release, on live scheduler and channels, are the specified dispatch |
| ChannelRegistry.Registry.WorkerIteration | src/worker.c:55-98 | one iteration over live scheduler and channels is the step about which ChannelRuns proves refcounts, losses and reserve |
| FreeChain.ChainUnique | src/alloc_slab.c:47-86 | the links determine the free list: there is no second way to follow it |
| FreeChain.ChainPop | src/alloc_slab.c:57-58 | taking the head leaves the rest of the list intact |
| FreeChain.ChainPush | src/alloc_slab.c:81-82 | linking a slot in front puts exactly that slot before the old list |
| Slabs.SlabInitInv | src/alloc_slab.c:9-38 | init fails exactly when not even one object and its link fit, and else builds a slab with all slots free, of as many objects as fit, each rounded up to a multiple of 8 |
| Slabs.SlabAllocKeeps | src/alloc_slab.c:47-67 | an alloc hands out a slot that was not live and fails exactly when all are; high_water is raised when passed |
| Slabs.SlabFreeKeeps | src/alloc_slab.c:69-86 | freeing a live object puts exactly its slot back at the front |
| Slabs.FreeAndLive | src/alloc_slab.c:9-86 | alloc_count plus the length of the free list is the capacity |
| Slabs.ObjectsAreDisjoint | src/alloc_slab.c:9-38 | slots do not overlap each other nor the free-list array, and all lie in the slab's memory |
| Slabs.RunKeeps | src/alloc_slab.c:47-86 | over any run of allocs and frees of live objects the free list covers exactly the unallocated slots, and high_water is the maximum count reached |
| Slabs.SlabAllocator.LinkSlots | src/alloc_slab.c:30-34 | the linking loop builds the initial free list |
| Slabs.SlabAllocator.constructor | src/alloc_slab.c:9-38 | gmk_slab_init in place |
| Slabs.SlabAllocator.Alloc | src/alloc_slab.c:47-67 | gmk_slab_alloc in place: a slot that was not live, or failure exactly when full |
| Slabs.SlabAllocator.Free | src/alloc_slab.c:69-86 | gmk_slab_free in place: the object's slot becomes free; foreign pointers are ignored |
| Arena.BinIndexIsLeastFit | src/alloc_block.c:9-19 | bin_index is the least bin whose objects fit, for every request up to 65536, and -1 exactly above |
| Arena.BinsRoom | src/alloc_block.c:21-70 | no bin underflows or reaches past the block region |
| Arena.BinsTile | src/alloc_block.c:21-70 | the twelve bins add up to the whole block region |
| Arena.RegionShares | src/alloc.c:25-33 | task slab, trace slab and bump region get 10, 2 and 20 percent of the arena, rounded down, the block region the rest |
| Arena.BinShares | src/alloc_block.c:32-42 | all bins but the last get 16, 12, 8, 6, 4 and then 2 sixtieths of the block region, rounded down |
| Arena.CarvePlaces | src/alloc_block.c:37-67 | the carving loop puts every bin right behind the bins before it; its clamp is never needed |
| Arena.RegionsTile | src/alloc.c:25-48 | task slab, trace slab, the bins and the bump region tile the arena without gaps |
| Arena.AllocInitInv | src/alloc.c:14-50 | init succeeds from 4096 bytes up and starts every slab empty in its own region |
| Arena.AllocateKeeps | src/alloc.c:61-85 | an alloc is served from a slab that serves the size, at a slot that was not live, and fails exactly when all such slabs are full, including the 48-byte fallback from task slab to bin |
| Arena.AllocateServes | src/alloc.c:61-85 | 48-byte requests are served by the task slab as long as it has a free slot, and all others and then those too by the least bin that fits; no other slab changes; the counters go up by the bytes served or by one failure |
| Arena.ObjectsDisjoint | src/alloc.c:25-85 | live objects of all slabs are pairwise disjoint and outside the bump region |
| Arena.RoutedTo | src/alloc.c:87-105 | the address of a live object leads gmk_free into the region of the very slab that holds it |
| Arena.FreeFindsItsSlab | src/alloc.c:87-105 | a free with the same size goes to the exact slab that served the object |
| Arena.FreeKeeps | src/alloc.c:87-105 | a free takes exactly that object out of the live ones and touches no other slab |
| Arena.PayloadRoundTrip | src/alloc.c:119-151 | allocating a payload and releasing its only reference gives back exactly the block it took |
| ArenaRuns.GetMatches | src/alloc.c:61-85 | a request keeps held blocks and live slots in one-to-one correspondence, and never hands out a block that is held |
| ArenaRuns.PutMatches | src/alloc.c:87-105 | freeing a held block with its requested size removes exactly that block and its slot |
| ArenaRuns.RunMatches | src/alloc.c:14-105 | over every run from initialisation on, the live slots are exactly the blocks clients hold |
| ArenaRuns.HeldBlocksAreDisjoint | src/alloc.c:14-105 | in every run of gmk_alloc and gmk_free the held blocks are pairwise disjoint and lie inside the arena before the bump region |
| ArenaRuns.PayloadFitsIff | src/alloc.c:119-130 | a served payload block has room for header and data if and only if 8 + size does not wrap 32 bits |
| ArenaRuns.WrappedPayloadIsServed | src/alloc.c:119-130 | on every fresh arena a payload of more than 2^32 - 8 bytes is served with an object of 32 bytes, and one of exactly 2^32 - 8 bytes is refused |
| ArenaAllocator.MakeBin | src/alloc_block.c:37-67 | a live slab for the bin's share, or none when not one object fits, as the carve specifies |
| ArenaAllocator.CarveBlock | src/alloc_block.c:21-70 | the loop with its running pointer and remainder builds live slabs that share no memory and are the specified bins |
| ArenaAllocator.Row.Take | src/alloc_block.c:83-89 | an alloc from one slab hands out a slot that was not live, fails exactly when all are or the bin is empty, and leaves the other slabs alone |
| ArenaAllocator.Row.Give | src/alloc_block.c:91-97 | a free on one slab takes exactly that slot out of the live ones and leaves the other slabs alone |
| ArenaAllocator.Allocator.Create | src/alloc.c:14-50 | refused exactly below 4096 bytes; otherwise live slabs in the arena's layout, with nothing live |
| ArenaAllocator.Allocator.Obtain | src/alloc.c:61-85 | gmk_alloc on the live slabs: a slot that was not live, of a slab that serves the size; refused exactly when all those are full |
| ArenaAllocator.Allocator.Release | src/alloc.c:87-105 | gmk_free on the live slabs: exactly the freed object stops being live |
| Virtqueue.SetupInv | drivers/virtio/virtio_pci.c:132-140 | after set-up all descriptors form one free chain (section 2.4.5 of VIRTIO 1.0) |
| Virtqueue.PublishKeeps | drivers/virtio/virtio_blk.c:98-133 | publishing takes exactly the three front descriptors off the free chain and keeps it a duplicate-free chain of num_free entries |
| Virtqueue.DeviceSeesRequest | drivers/virtio/virtio_blk.c:98-133 | the available ring names a chain of exactly header, data and status with the right buffers and write flags (sections 2.4.5 and 2.4.6 of VIRTIO 1.0) |
| Virtqueue.CompletionRestores | drivers/virtio/virtio_blk.c:152-159 | a completed request, good or bad, restores links, head and count of the free chain exactly |
| Virtqueue.DoIoKeeps | drivers/virtio/virtio_blk.c:77-175 | every request keeps the driver's chain, except that a timeout loses exactly three descriptors; it is refused exactly below three free ones |
| Virtqueue.DoIoOutcome | drivers/virtio/virtio_blk.c:77-175 | done if and only if three descriptors were free, the used index had moved and the status byte is 0; failed if and only if it had moved and the byte is not 0; timed out if and only if it had not moved; indices count each request once |
| Virtqueue.RunKeeps | drivers/virtio/virtio_blk.c:77-175 | over any requests, device errors and timeouts the driver's chain has num_free distinct entries and num_free + 3 * timeouts stays the queue size, whoever owns the descriptors |
| Virtqueue.DescriptorsAccountedFor | drivers/virtio/virtio_blk.c:77-175 | from set-up on, num_free + 3 * timeouts is the queue size |
| VirtioDevice.CallExact | drivers/virtio/virtio_blk.c:77-175 | after any call, whatever the device finishes meanwhile and in any order, no descriptor that the device owns is on the free chain if and only if the call was refused, timed out, or its own request is finished; it is done if and only if the used index moved and the status byte is 0 |
| VirtioDevice.CallSafeIff | drivers/virtio/virtio_blk.c:77-175 | before a call that is not refused: it is safe for every behaviour of the device if and only if avail.idx == last_used_idx, that is, if and only if no request has timed out so far |
| VirtioDevice.RunSafeIff | drivers/virtio/virtio_blk.c:77-175 | device-owned descriptors stay off the free chain throughout a run if and only if every answered call was answered for its own request |
| VirtioDevice.OwnershipInRuns | drivers/virtio/virtio_blk.c:77-175 | from set-up on: the condition of RunSafeIff; submitting only while avail.idx == last_used_idx always meets it; after any safe run, a submission at another moment can go wrong |
| VirtioDevice.LateCompletionShares | drivers/virtio/virtio_blk.c:138-159 | two failing runs: a late completion between two calls, and one during the poll of a call submitted with used.idx == last_used_idx; both put descriptors back that the device owns |
| Virtqueue.BlockQueue.LinkDescriptors | drivers/virtio/virtio_pci.c:132-140 | the linking loop builds the initial chain |
| Virtqueue.BlockQueue.constructor | drivers/virtio/virtio_pci.c:91-149 | the set-up queue |
| Virtqueue.BlockQueue.PublishRequest | drivers/virtio/virtio_blk.c:98-133 | descriptors filled and made available in place |
| Virtqueue.BlockQueue.ReturnRequest | drivers/virtio/virtio_blk.c:152-159 | descriptors linked back in place |
| Virtqueue.BlockQueue.Submit | drivers/virtio/virtio_blk.c:77-175 | a whole request in place, with the exact condition for each of its four outcomes |
| Pmm.SetPage | arch/x86_64/pmm.c:17-19 | OR-ing the bit marks exactly that page used |
| Pmm.ClearPage | arch/x86_64/pmm.c:21-23 | AND-ing with the complement marks exactly that page free |
| Pmm.TestBit | arch/x86_64/pmm.c:25-27 | shift and mask read exactly that page's bit |
| PageMap.CountTake | arch/x86_64/pmm.c:90-95 | taking a run of free pages lowers the free count by its length |
| PageMap.ScanFinds | arch/x86_64/pmm.c:79-96 | when the running length first reaches count, the run is the lowest-starting one |
| PageMap.CloseRun | arch/x86_64/pmm.c:124-152 | closing a run keeps the first longest run seen so far |
| Pmm.Allocator.Init | arch/x86_64/pmm.c:29-74 | for every memory map: a page below the clamped total_pages is free if and only if a usable entry covers it whole; free_pages counts the clear bits if and only if no two usable entries share one of those pages; the clearing loop stores one word behind the bitmap exactly for maps that reach MAX_PAGES pages |
| Pmm.Allocator.AllocPages | arch/x86_64/pmm.c:76-100 | takes the lowest-starting run of count free pages and fails exactly when there is none; free_pages stays exact |
| Pmm.Allocator.FreePages | arch/x86_64/pmm.c:102-110 | frees exactly the pages of the range that exist; free_pages stays exact also for pages already free |
| Pmm.Allocator.FindContiguous | arch/x86_64/pmm.c:124-152 | returns the first longest run of free pages if it is long enough |
| Paging.EntryBits | arch/x86_64/paging.c:72-73 | an entry keeps the page address apart from the flags in bits 0 to 11 |
| Paging.IndexDigits | arch/x86_64/paging.c:33-36 | the four table indices are the base-512 digits of the 48-bit address above its 12 page bits |
| Paging.WalkReadsPath | arch/x86_64/paging.c:108-143 | the walk reads exactly the entries along the tree path of the address (section 4.5 of the Intel SDM, Volume 3A) |
| Paging.WalkReports | arch/x86_64/paging.c:108-143 | the reported depth, the entries met, and 0 for the levels not reached |
| Paging.LinkKeepsTree | arch/x86_64/paging.c:40-68 | linking a fresh zeroed table keeps the tables a tree |
| Paging.LinkWrite | arch/x86_64/paging.c:40-68 | linking a fresh table changes no translation of any address |
| Paging.LeafWrite | arch/x86_64/paging.c:70-73 | writing a last-level entry changes the translation of no other page |
| Paging.AllocTableFresh | arch/x86_64/paging.c:19-28 | a new table is a zeroed frame that was free and no table, now marked used; it halts exactly when no page is free |
| Paging.MapPageCorrect | arch/x86_64/paging.c:30-77 | a large page in the way means no change, else it halts exactly when fewer pages are free than tables are missing, else the walk reaches depth 4 with address + flags; every other page keeps its translation, and frames only move from free to tables |
| Paging.MapPageLinks | arch/x86_64/paging.c:30-77 | when mapped: on the way down, entries that were present are unchanged, and those that were absent are present and writable with all other flag bits clear; on other ways down nothing but such links changes, and no last-level entry of another page |
| Paging.UnmapCorrect | arch/x86_64/paging.c:79-106 | unmap returns the mapped address and clears only that page; without a 4 KB mapping it changes nothing and returns 0 |
| Paging.MapThenUnmap | arch/x86_64/paging.c:30-106 | unmapping a page just mapped returns it, and every page translates as before the mapping |
| AddressSpaces.AddressSpace.constructor | arch/x86_64/paging.c:13-17 | the tables the boot loader left, over the page allocator |
| AddressSpaces.AddressSpace.AllocFrame | arch/x86_64/pmm.c:76-100 | a request for one page takes the first free page of the bitmap |
| AddressSpaces.AddressSpace.NewTable | arch/x86_64/paging.c:19-28 | paging_alloc_table in place |
| AddressSpaces.AddressSpace.Ensure | arch/x86_64/paging.c:40-44 | an absent entry is made to point to a new table; what link that is, is in MapPageLinks and in the contract of Map |
| AddressSpaces.AddressSpace.Descend | arch/x86_64/paging.c:46-58 | one level of the descent with its large-page test |
| AddressSpaces.AddressSpace.Map | arch/x86_64/paging.c:30-77 | paging_map in place on tables and bitmap, with everything MapPageCorrect and MapPageLinks promise |
| AddressSpaces.AddressSpace.UnmapPage | arch/x86_64/paging.c:79-106 | paging_unmap in place: the old address, this page gone, all others as before |
| AddressSpaces.AddressSpace.WalkTables | arch/x86_64/paging.c:108-143 | paging_walk's depth and four entries; depth 4 exactly when all tables on the way exist |
| Vmm.DemandPageKeeps | arch/x86_64/vmm.c:138-159 | on a not-present fault: refused exactly outside the heap, halts exactly when frames do not suffice for page and missing tables, else the page gets a frame that was free and nothing else moves |
| Vmm.DemandPageWritable | arch/x86_64/vmm.c:138-159 | a page brought in on demand is present and writable along its whole way down, and every other heap page stays writable, if the links that were there before are |
| Vmm.RunKeepsWritable | arch/x86_64/vmm.c:97-159 | in every run whatever is present on the way down to a heap page is writable, if it is at the start |
| Vmm.KfreeKeeps | arch/x86_64/vmm.c:118-134 | exactly the heap pages that the range touches lose their frames; ownership and the frame total are kept |
| Vmm.HeapPagesDiffer | arch/x86_64/vmm.c:138-159 | heap pages that share all four table indices are the same page |
| Vmm.KmallocFreshIff | arch/x86_64/vmm.c:97-116 | kmalloc serves fresh aligned heap bytes, or halts when too few are left, if and only if the end address does not wrap 64 bits |
| Vmm.KmallocIsTight | arch/x86_64/vmm.c:97-116 | a block starts at the old heap_next, which moves on by the size rounded up to 16 |
| Vmm.KmallocWraps | arch/x86_64/vmm.c:97-116 | counterexample: a first request of 0x78000000 bytes is served, and heap_next becomes 0 |
| Vmm.InitInv | arch/x86_64/vmm.c:30-39 | with no heap page mapped, the heap starts in the ownership invariant |
| Vmm.StepKeeps | arch/x86_64/vmm.c:97-159 | kmalloc, a fault and kfree each keep the ownership invariant and the frame total |
| Vmm.RunKeeps | arch/x86_64/vmm.c:97-159 | in every run mapped heap pages have pairwise distinct frames, these and all table frames are marked used, no frame is both, and free + table + heap frames is constant |
| KernelHeaps.KernelHeap.constructor | arch/x86_64/vmm.c:30-39 | vmm_init over the boot tables |
| KernelHeaps.KernelHeap.Allocate | arch/x86_64/vmm.c:97-116 | kmalloc in place; a fresh block whenever the end address does not wrap |
| KernelHeaps.KernelHeap.ServeFault | arch/x86_64/vmm.c:138-159 | vmm_demand_page in place on bitmap and tables; ownership and total kept unless it halts; the served page is writable along its whole way down |
| KernelHeaps.KernelHeap.ReleasePage | arch/x86_64/vmm.c:124-127 | one page unmapped and its frame given back to the bitmap |
| KernelHeaps.KernelHeap.Release | arch/x86_64/vmm.c:118-134 | the page loop of kfree in place; ownership and total kept |

## Left out

- The HAL, threads, parking and waking, and clocks: foreign calls; the current tick is a parameter.
- Serial console, CLI, PCI, LAPIC, GDT, IDT, SMP bring-up, boot and assembly; of the interrupt code only the not-present test (arch/x86_64/idt.c:80) enters, as the condition of a page fault.
- The bump allocator: only the bounds of its region are modelled.
- `vmm_map` and `vmm_unmap`: their frames come from the caller, outside the ownership of the heap.
- The contents of heap pages, and with them what kfree does to neighbours in the same page (kmalloc packs at 16 bytes, kfree unmaps whole pages); `KfreeKeeps` states which pages lose their frames.
- Metrics, tracing, the module registry, drop and emit counters, channel find: simple bookkeeping. Names enter only as the answer whether an open channel has the name already.
- Weak memory orderings, cell padding and alignment: atomic steps are sequentially consistent and memory is arrays of slots; copying an element is one step.
- Handlers are parameters: any sequence of kernel calls with a return code. The results about runs ask that handlers and producers keep the rules of reference counting: what they emit, submit or release is held, what they retain is allocated, a retried task keeps its payload and its flag. They also ask that nobody subscribes to sys.dropped and that no critical message is emitted to a full channel of one slot, whose ring would take it and be a queue no longer (`OneSlotOverfills`).
- The value models hold ring contents as sequences; the classes run on the live rings. There the calls come one after the other: concurrent use of a ring is in MpmcProtocol and SpscProtocol, and the ready queue and worker loop are sequential because pop_counters is not atomic.
- The payload header is kept as maps from address to refcount and size. In ChannelRuns the arena's answer is a parameter of gmk_payload_alloc; PayloadRuns puts the arena in its place.
- Failing allocations of ring, queue and heap memory.
- Refcounts are unbounded numbers; 32-bit overflow of a refcount is not modelled.
- LocalQueue and everything above it take one producer at a time for granted; emits and drains from other threads, which push to the same SPSC ring (src/chan.c:171, src/chan.c:285, src/enqueue.c:17-19), are in SpscProducers only.
- The kernel heap and the page allocator are sequential (the code takes no lock there); the shootdown is modelled as steps in TlbShootdown with one initiator at a time.
- MpmcProtocol.PushFullMeansUnreleased: asks that the thread has not slept across 2^31 - cap claims before its seq read; `PushFullExactIff` says what holds without that.
- MpmcProtocol.PopEmptyMeansUnpublished: the same for takes; `PopEmptyExactIff` says what holds without that.
- ChannelRegistry.Registry.OpenChannel: the NULL name check; a name is only free or taken.
- MpmcProtocol.RunInv: asks that no CAS comes 2^32 claims after its counter load; `ShortRunsAreSafe` needs no such condition before the 2^32nd claim, and `SleepingCasOverfills` shows a run that breaks it.
- VirtioDevice.OwnershipInRuns: the device finishes outstanding requests in any order and at any time, but does not answer requests it was never given; what it writes to the three shared buffers is not modelled.
- Pmm.Allocator.Init: the store behind the bitmap is reported and changes nothing else; which variable it hits is up to the linker. Memory-map addresses do not wrap 64 bits.
- Arena.AllocInitInv: arenas up to 2^34 bytes, so that slot indices fit the 31 bits of a free-list entry.
- Paging.MapPageCorrect: starts from tables that form a tree, flags within bits 0 to 11, and a bitmap in which table frames and page 0 are not free.
- Vmm.KfreeKeeps: ranges inside the heap; a kfree elsewhere would free frames the heap does not own.
