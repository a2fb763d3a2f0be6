# ALMOS-MK kernel: data structures, protocols and allocators, proved

ALMOS-MK is a multi-kernel operating system for many-core machines with
non-uniform memory. This project models the parts of its kernel whose correctness
does not depend on the hardware, and proves what they are for.

* **Red-black trees** (`RbTreeShape`, `RbTreeColour`, `RbTree`) on heap nodes with
  parent pointers. A tree value describes the pointers, a path (a tree with a hole)
  describes the position of the fix-up loops. The two mirror images of every branch
  are one branch with a side.
* **Protocols** as step machines: the page cache's load-once protocol (`Mapper`), the
  RPC `pending`/drain handshake (`RpcListener`), the remote FIFO under its ticket lock
  (`RemoteFifo`) and the two-ticket barrier (`Barrier`). One action is one access to
  shared memory, or one body under a lock. `Run` is the state after any sequence of
  actions of any number of threads; its contract is the invariant, and the theorems
  hold of every `Run`.
* **Locks and queues** as classes: the writer-priority read-write lock with its wait
  queues (`RwLock`), the event listener whose handlers send events while it drains
  (`EventListener`) and the round-robin scheduler of one CPU (`Scheduler`).
* **Allocators**: the slab cache (`Kcm`), the layout of its pages (`KcmGeometry`), its
  blocks in memory (`KcmAddresses`), its bitmaps (`Bits`) and the next-fit heap
  (`HeapManager`).
* **Radix tree** (`Radix`) against a map from keys to items.
* **Codecs**: RPC argument marshalling (`RpcMarshal`) and MD5 streaming (`Md5`) against
  RFC 1321.

`Counting`, `ModArith` and `Words` hold the few facts about counting, rounding,
remainders and 32-bit words that several modules need.

Six properties one could expect do not hold of the code. Each has a member with the
input that shows it and a member that says exactly when it holds:

* the blocks of a slab page can reach beyond the page (`KcmGeometry.SmallObjectsOverrun`,
  `KcmGeometry.FitsExactly`);
* an RPC with 256 arguments or more loses some (`RpcMarshal.TooManyArguments`,
  `RpcMarshal.RoundTrip`);
* `heap_manager_malloc` can return NULL although a block fits (`HeapManager.MissedBlock`,
  `HeapManager.MissedExactly`);
* the rounding of a heap request wraps for sizes near 2^32, and a request that wraps to
  nothing breaks the heap (`HeapManager.WrappedRequest`, `HeapManager.EffectiveSizeExact`,
  `HeapManager.TakenBreaks`, `HeapManager.Heap.Malloc`);
* an emptied slab page can stay off the free list if a page holds a single block
  (`Kcm.EmptyPageNotFree`); with two blocks or more it cannot (`Kcm.EmptyPagesAreFree`),
  and `Kcm.Cache.PutBlock` says exactly which page becomes free;
* a drain can leave behind an event at or below the priority it started from
  (`EventListener.LateSendStays`), exactly if a handler of the last priority sent one there
  (`EventListener.Listener.Notify`, `EventListener.LastPass`).

Assumptions, stated as preconditions or built into the step machines: memory is
sequentially consistent; a thread does not yield between `wait_on` and `sched_sleep`;
an RPC handler does not sleep; an event handler does not start a nested notify on its
own listener; only live blocks are freed and only holders unlock; the barrier is used
by exactly the number of threads it was made for; radix items are not NULL. What
`kmem_alloc`, `page_alloc`, `readpage` and event handlers do is a parameter.

## Model

| member | source | states |
|---|---|---|
| RbTree.RbRoot.Erase | kernel/libk/rbtree.c:216-280 | from any red-black tree it removes exactly the given node from the in-order sequence, keeps all others in order, and leaves a red-black tree with consistent parent links |
| RbTree.RbRoot.Detach | kernel/libk/rbtree.c:216-275 | unhooking a node, with or without the successor splice, removes it from the order; if the colour that left was red the tree is still red-black, else one place lacks one black level |
| RbTree.RbRoot.EraseColour | kernel/libk/rbtree.c:136-214 | given one place that lacks a black level, terminates with a red-black tree of the same in-order sequence |
| RbTree.RbRoot.EraseStep | kernel/libk/rbtree.c:141-210 | each turn finishes, or reaches a red node, or moves the missing level strictly nearer the root, and never changes the order |
| RbTree.RbRoot.Splice | kernel/libk/rbtree.c:227-257 | the successor takes over place, links and colour of the erased node |
| RbTree.RbRoot.Unlink | kernel/libk/rbtree.c:262-275 | a node with at most one child gives its place to that child |
| RbTree.RbRoot.Insert | kernel/libk/rbtree.c:71-134 | a new node linked at a free slot ends up in the order right beside its parent, in a red-black tree |
| RbTree.RbRoot.Link | kernel/libk/rbtree.h:151-158 | linking adds one red leaf beside its parent in the order and violates at most the red-red rule |
| RbTree.RbRoot.InsertColour | kernel/libk/rbtree.c:71-134 | with at most one red-red violation, terminates with a red-black tree of the same in-order sequence |
| RbTree.RbRoot.InsertStep | kernel/libk/rbtree.c:76-131 | each turn keeps the order and moves the violation up or ends it |
| RbTree.RbRoot.Rotate | kernel/libk/rbtree.c:25-69 | the pointer writes yield the rotated tree, with all links right, and the order is the same |
| RbTree.RbRoot.End | kernel/libk/rbtree.c:286-308 | the first or last node of the in-order sequence, NULL for the empty tree |
| RbTree.RbRoot.Neighbour | kernel/libk/rbtree.c:310-360 | the next or previous node of the in-order sequence, NULL at its end or for a node in no tree |
| RbTree.RbRoot.Walk | kernel/libk/rbtree.c:286-360 | stepping from one end until NULL visits exactly the in-order sequence, or its reverse |
| RbTree.RbRoot.StepAndBack | kernel/libk/rbtree.c:310-360 | from any node of a tree, rb_next followed by rb_prev, or the other way round, returns to it unless the first step reached the end |
| RbTree.RotatedInOrder | kernel/libk/rbtree.c:25-69 | a rotation anywhere in a tree keeps its in-order sequence |
| RbTree.RotatedRep | kernel/libk/rbtree.c:25-69 | the changed cells of a rotation spell out the rotated tree |
| RbTree.UnlinkOrder | kernel/libk/rbtree.c:262-275 | replacing a node by its only subtree removes just that node from the order |
| RbTree.UnlinkColours | kernel/libk/rbtree.c:262-279 | what that does to the colours |
| RbTree.SpliceOrder | kernel/libk/rbtree.c:227-257 | putting the leftmost node of the right subtree in place of a node removes just that node from the order |
| RbTree.SpliceColours | kernel/libk/rbtree.c:227-279 | only the successor's old place can lack a black level |
| RbTree.SplicedRep | kernel/libk/rbtree.c:227-257 | the cells written by the splice spell out the spliced tree |
| RbTreeColour.InsertRedUncle | kernel/libk/rbtree.c:81-91 | recolouring keeps the loop invariant two levels up |
| RbTreeColour.InsertInnerKid | kernel/libk/rbtree.c:93-100 | the first rotation keeps the loop invariant |
| RbTreeColour.InsertOuterKid | kernel/libk/rbtree.c:102-104 | the second rotation ends the violation |
| RbTreeColour.EraseRedSibling | kernel/libk/rbtree.c:145-152 | turning under a red sibling keeps the missing level where it is and makes the sibling black |
| RbTreeColour.EraseBlackNephews | kernel/libk/rbtree.c:153-159 | recolouring moves the missing level to the parent |
| RbTreeColour.EraseNearNephew | kernel/libk/rbtree.c:162-168 | turning at the sibling makes the far nephew red |
| RbTreeColour.EraseFarNephew | kernel/libk/rbtree.c:169-174 | the final turn restores the black height everywhere |
| RbTreeColour.HeightBound | kernel/libk/rbtree.c:71-134 | 2^height <= (n+1)^2 for every red-black tree of n nodes |
| Mapper.Run | kernel/mm/mapper.c:334-436 | the protocol's invariant in every reachable state |
| Mapper.InvStep | kernel/mm/mapper.c:351-436 | every action of every thread keeps the invariant |
| Mapper.SingleFlight | kernel/mm/mapper.c:351-436 | at most one thread loads an index, and the index maps to its placeholder until that is replaced or removed |
| Mapper.NobodyLeftBehind | kernel/mm/mapper.c:397-436 | a queued waiter's loader is still at work; nobody is queued on a thread that is not loading |
| Mapper.LoaderWakesAll | kernel/mm/mapper.c:417-426 | installing the page sends every waiter back to its lookup, where the page is |
| Mapper.FailureWakesAll | kernel/mm/mapper.c:397-414 | a loader that fails sends every waiter back to its lookup too, and leaves the index free |
| Mapper.CallStarts | kernel/mm/mapper.c:334-351 | a call by a thread that is idle or has returned starts at the lookup of its index and changes nothing else |
| Mapper.LookupDecides | kernel/mm/mapper.c:351-436 | a lookup that meets a page returns that page; one that meets a placeholder sleeps at the end of its owner's queue; one that meets nothing becomes the loader, or returns NULL if the insertion fails |
| Mapper.AnswerIsRight | kernel/mm/mapper.c:428-436 | in every run, with removals too, a page returned for an index was loaded for that index |
| Mapper.NullMeansFailure | kernel/mm/mapper.c:351-436 | in a run where no insertion and no read fails, nobody ever gets NULL |
| Mapper.RemovalIsSeen | kernel/mm/mapper.c:291-317 | a removal takes exactly the installed page of that index out, leaves a placeholder alone, and moves no thread |
| Mapper.CallsEnd | kernel/mm/mapper.c:351-436 | from any reachable state of n threads, in any interleaving, at most (4n+5)n moves remain if no new call starts, and there is one until every call has returned |
| Mapper.PageStays | kernel/mm/mapper.c:291-436 | an installed page stays until it is removed |
| Mapper.OneIndexPerPage | kernel/mm/mapper.c:351-436 | no page is in the mapper at two indices |
| Mapper.SamePageForAll | kernel/mm/mapper.c:351-436 | with no removal, all successful callers of an index get the same page |
| Mapper.WakeAll | kernel/kern/wait_queue.c:65-82 | exactly the queued sleepers become runnable |
| RpcListener.Run | kernel/kern/rpc.c:51-88 | the handshake's invariant in every reachable state, for any number of senders and handlers |
| RpcListener.InvStep | kernel/kern/rpc.c:377-422 | every access of every thread keeps the invariant |
| RpcListener.NoRpcStranded | kernel/kern/rpc.c:51-88 | for every queued message: pending is set, or its sender is about to set it, or the handler will still scan that FIFO |
| RpcListener.LeftoversAreAnnounced | kernel/kern/rpc.c:387-422 | when the drain ends, every leftover message is announced or about to be |
| RpcListener.SingleReader | kernel/kern/rpc.c:574-590 | at most one thread drains at a time |
| RpcListener.HandledInOrder | kernel/kern/rpc.c:377-422 | messages of a priority are run in put order, none lost, none twice: what was sent is what has run, then the one in hand, then what is queued |
| RpcListener.RunsTheOldest | kernel/kern/rpc.c:394-400 | the message a handler runs is the oldest of its priority that has not run |
| RpcListener.SendStarts | kernel/kern/rpc.c:51-66 | a send starts by putting the given message to the given priority and changes nothing else |
| RpcListener.SendCompletes | kernel/kern/rpc.c:51-88 | a sender that finds room ends in three steps of its own with its message last in the FIFO and pending set |
| RpcListener.ReturnsAnnounced | kernel/kern/rpc.c:66-88 | pending is set whenever a send returns |
| RpcListener.DrainEnds | kernel/kern/rpc.c:377-422 | with no other thread at work, a handler ends after a bounded number of its own steps with every message sent run, all FIFOs empty and pending clear |
| RemoteFifo.Run | kernel/kern/remote_fifo.c:152-225 | the ring's and the ticket lock's invariants in every reachable state |
| RemoteFifo.InvStep | kernel/kern/remote_fifo.c:152-225 | every access of every writer and of the reader keeps them |
| RemoteFifo.InOrderNoLoss | kernel/kern/remote_fifo.c:152-225 | what was put is what was released followed by what the ring holds, at most slot_nbr-1 items |
| RemoteFifo.RefinesBoundedQueue | kernel/kern/remote_fifo.c:152-225 | every access is an enqueue, a dequeue of the oldest item, or no step of a bounded queue |
| RemoteFifo.RefusalsAreRight | kernel/kern/remote_fifo.c:172-212 | at the deciding read, put goes on to refuse exactly if the ring is full and to write otherwise, and get finds nothing exactly if it is empty |
| RemoteFifo.PutAnswersAreRight | kernel/kern/remote_fifo.c:152-195 | over every run, what was put is the items answered with success, in order, and at most the one whose put has not answered yet; EAGAIN is answered exactly to puts that found the ring full; and every call gets one answer, in call order |
| RemoteFifo.PutDoesWhatItAnswers | kernel/kern/remote_fifo.c:172-195 | when a put settles its answer, it is success exactly if its item was just appended and EAGAIN exactly if nothing was |
| RemoteFifo.PutEnds | kernel/kern/remote_fifo.c:152-195 | once it has the lock, a put ends after at most seven accesses of its own, with the answer it settled |
| RemoteFifo.GetDelivers | kernel/kern/remote_fifo.c:200-225 | four accesses of the reader take the oldest item out of a ring that is not empty |
| RemoteFifo.HeldSlotIsSafe | kernel/kern/remote_fifo.c:200-225 | a slot handed out holds the oldest item and nobody overwrites it before release |
| RemoteFifo.OneWriterInTicketOrder | kernel/kern/mcs_sync.c:133-167 | the lock admits one writer at a time, the first in ticket order, although the 32-bit tickets wrap; nobody overtakes |
| RemoteFifo.HeadEnters | kernel/kern/mcs_sync.c:133-146 | of fewer than 2^32 contenders only the head of the line sees its own ticket |
| RemoteFifo.FullTest | kernel/kern/remote_fifo.c:172-179 | the index tests decide full and empty |
| Barrier.Run | kernel/kern/mcs_sync.c:38-83 | the barrier's invariant for any n, any interleaving and any number of rounds |
| Barrier.InvStep | kernel/kern/mcs_sync.c:53-83 | every access of every thread keeps the invariant |
| Barrier.Enters | kernel/kern/mcs_sync.c:53-60 | a thread outside that calls wait takes the current phase and changes nothing else |
| Barrier.NobodyLeavesEarly | kernel/kern/mcs_sync.c:53-83 | nobody leaves a round before everybody has entered it |
| Barrier.OpenTicketStaysOpen | kernel/kern/mcs_sync.c:53-83 | a slow thread that may leave keeps that right whatever the others do |
| Barrier.ResetHurtsNobody | kernel/kern/mcs_sync.c:64-75 | the ticket that the last thread resets has nobody waiting at it |
| Barrier.NoDeadlock | kernel/kern/mcs_sync.c:53-83 | with all threads inside, some access makes progress |
| Barrier.RoundEnds | kernel/kern/mcs_sync.c:53-83 | once all n threads are in a round, those inside make at most 6n effective accesses in any interleaving, and there is one until all have left the round |
| Barrier.TogetherStep | kernel/kern/mcs_sync.c:53-83 | every access of a thread inside keeps the round together and, unless it is one more look at a closed ticket, reduces what is left to do |
| RwLock.Run | kernel/kern/rwlock.c:48-168 | the lock's invariant after any sequence of calls |
| RwLock.StepKeeps | kernel/kern/rwlock.c:48-168 | every call keeps the invariant |
| RwLock.Exclusion | kernel/kern/rwlock.c:48-168 | count is -1 with one writer and no reader, or the number of readers with no writer; at 0 nobody waits |
| RwLock.WritersFirst | kernel/kern/rwlock.c:70-92 | no reader is admitted while a writer waits |
| RwLock.WritersInArrivalOrder | kernel/kern/rwlock.c:48-168 | writers get the lock in the order they asked |
| RwLock.DirectHandOff | kernel/kern/rwlock.c:130-168 | a lock given up goes straight to the first waiting writer, else to all waiting readers, and is free only if nobody waits |
| RwLock.AnswersAreRight | kernel/kern/rwlock.c:48-168 | after any calls: a lock call blocks exactly if it must wait for a holder or a waiting writer, and then it is queued and holds nothing; a try is busy exactly then and changes nothing; unlock is refused exactly for a free lock |
| RwLock.ReadWriteLock.WrLock | kernel/kern/rwlock.c:48-68 | makes the write-lock step; says whether the caller sleeps |
| RwLock.ReadWriteLock.RdLock | kernel/kern/rwlock.c:70-92 | makes the read-lock step; says whether the caller sleeps |
| RwLock.ReadWriteLock.TryWrLock | kernel/kern/rwlock.c:94-110 | takes the lock or returns EBUSY and changes nothing |
| RwLock.ReadWriteLock.TryRdLock | kernel/kern/rwlock.c:112-128 | enters or returns EBUSY and changes nothing |
| RwLock.ReadWriteLock.Unlock | kernel/kern/rwlock.c:130-168 | makes the unlock step, EPERM for a free lock; which threads were woken |
| RwLock.WaitQueue.WaitOn | kernel/kern/wait_queue.c:31-43 | the caller joins at the chosen end |
| RwLock.WaitQueue.WakeupOne | kernel/kern/wait_queue.c:46-62 | the thread at the chosen end leaves, none if the queue is empty |
| RwLock.WaitQueue.WakeupAll | kernel/kern/wait_queue.c:65-82 | all threads leave, in order, and are counted |
| EventListener.Listener.Notify | kernel/kern/event.c:213-277 | for any finite sends by handlers it terminates; each event is handled once or still queued, FIFO within its priority, and none before it was sent; events of the last priority are handled after all others; an event at or below the lowest priority announced is left behind exactly if such a handler sent it; what is left is announced |
| EventListener.Listener.Drain | kernel/kern/event.c:239-257 | one priority is emptied with the same accounting, and prio drops to the lowest priority sent meanwhile |
| EventListener.Listener.Pass | kernel/kern/event.c:230-262 | one turn of the scan: back to the lowest priority sent, or on to the next; at the end nothing lower was announced since |
| EventListener.LastPass | kernel/kern/event.c:230-262 | what remains at or below the restart priority is exactly what handlers of the last priority sent there |
| EventListener.CausalStep | kernel/kern/event.c:243-249 | whatever is handled next was queued at the start or sent by a handler that has run |
| EventListener.LateSendStays | kernel/kern/event.c:233-257 | an event of the last priority whose handler sends one of priority 2 leaves that one queued, and announced |
| EventListener.Listener.HandleFirst | kernel/kern/event.c:243-256 | the oldest event of that priority leaves its queue, its handler's sends join theirs, and prio drops to the lowest of them |
| EventListener.Listener.Send | kernel/kern/event.c:71-84 | the event joins its queue, and what was announced stays announced |
| EventListener.Listener.constructor | kernel/kern/event.c:51-69 | all queues empty, nothing pending |
| EventListener.BalanceSend | kernel/kern/event.c:71-84 | a send keeps the conservation law |
| EventListener.BalanceHandle | kernel/kern/event.c:243-249 | handling keeps the conservation law |
| Scheduler.After | kernel/kern/rr-sched_locked.c:263-560 | the invariant of queues, counters and thread states after any sequence of operations |
| Scheduler.StepKeeps | kernel/kern/rr-sched_locked.c:263-560 | every operation keeps the invariant |
| Scheduler.QueuesExact | kernel/kern/rr-sched_locked.c:284-560 | the counters are the queue lengths; a thread stands in exactly one place if it is runnable and in none otherwise |
| Scheduler.NoWakeupLost | kernel/kern/rr-sched_locked.c:284-339 | a sleeping thread has not been woken since it registered; a woken one is queued |
| Scheduler.EarlyWakeupStands | kernel/kern/scheduler.c:565-625 | whatever other CPUs create and wake up between wait_on and sched_sleep, the thread is queued once and runnable after its sleep if it was woken, and asleep in no queue if not |
| Scheduler.ElectionIsRight | kernel/kern/rr-sched_locked.c:488-560 | an election takes the first kernel thread, else the first user thread, else idle, and idle only if both queues are empty; the elected thread starts in user mode exactly if it is a user thread that runs for the first time |
| Scheduler.YieldElects | kernel/kern/scheduler.c:457-473 | whom a yield gives the CPU to: the next of its kind, itself if it is alone, and a kernel thread before any user thread |
| Scheduler.NewcomersGoFirst | kernel/kern/rr-sched_locked.c:304-380 | a created or woken thread becomes the first of the queue of its kind; nothing else moves |
| Scheduler.ExitIsFinal | kernel/kern/rr-sched_locked.c:263-282 | after its exit a thread is dead and in no queue whatever happens later, and it is current only until the next election |
| Scheduler.OwnSteps | kernel/kern/wait_queue.c:31-43 | registering on a wait queue and changing the mode change only the running thread |
| Scheduler.RoundRobin.AddCreated | kernel/kern/rr-sched_locked.c:341-380 | makes the creation step and keeps the invariant |
| Scheduler.RoundRobin.Wakeup | kernel/kern/rr-sched_locked.c:304-339 | makes the wakeup step and keeps the invariant |
| Scheduler.RoundRobin.Sleep | kernel/kern/rr-sched_locked.c:284-302 | makes the sleep step: asleep unless already woken |
| Scheduler.RoundRobin.Exit | kernel/kern/rr-sched_locked.c:263-282 | makes the exit step |
| Scheduler.RoundRobin.RequeueCurrent | kernel/kern/rr-sched_locked.c:504-524 | makes the first half of the election step |
| Scheduler.YieldGoesLast | kernel/kern/rr-sched_locked.c:504-524 | a yielding thread was in no queue, becomes ready and the last of the queue of its kind, and nothing else changes |
| Scheduler.RoundRobin.Pick | kernel/kern/rr-sched_locked.c:526-556 | never takes from an empty list |
| Scheduler.RoundRobin.Schedule | kernel/kern/scheduler.c:341-411 | makes the election step and keeps the invariant |
| Kcm.Cache.Alloc | kernel/mm/kcm.c:146-165 | the lowest free block of the active head becomes live and no other; the head is kept while it has room, else it becomes busy and the next active or free page takes over; NULL exactly when a page holds no block at all, or all blocks are live and no page can be had |
| Kcm.Cache.Free | kernel/mm/kcm.c:169-182 | exactly the given block stops being live and its page moves as in put_block; nothing changes for NULL |
| Kcm.Cache.PutBlock | kernel/mm/kcm.c:219-254 | exactly the given block stops being live; its page goes from busy to the end of the active list, or to the front of the free list exactly if this was its only live block and it is not the head, and else stays; no other page moves |
| Kcm.Cache.Release | kernel/mm/kcm.c:319-343 | free pages above the low watermark go back, no live block is touched |
| Kcm.Cache.Init | kernel/mm/kcm.c:92-143 | succeeds exactly if a page can be had and the populate target is not 0; then valid, without live blocks, with one active page and the others free |
| Kcm.Cache.GetBlock | kernel/mm/kcm.c:199-215 | takes the first free block at or above the low-water index |
| Kcm.Cache.Populate | kernel/mm/kcm.c:257-289 | one more empty page, fully marked free whatever bits it held |
| Kcm.Cache.FreelistGet | kernel/mm/kcm.c:292-316 | the first page of the free list, refilled to the target if it is at the low watermark; NULL exactly if there is none and none can be had |
| Kcm.Cache.Refill | kernel/mm/kcm.c:296-308 | the loop adds just the pages that are wanted and can be had, newest in front |
| Kcm.EmptyPagesAreFree | kernel/mm/kcm.c:241-251 | with two blocks or more in a page, an empty page is free or the active head, so that release can give it back |
| Kcm.EmptyPageNotFree | kernel/mm/kcm.c:231-251 | with a single block in a page, two allocations and a release leave an empty page that is neither |
| Kcm.Cache.ComputeActive | kernel/mm/kcm.c:347-378 | the full head becomes busy and the next active page, or else a free one, takes over with room; the old head stays exactly if there is no other page |
| Kcm.TakeIs | kernel/mm/kcm.c:199-215 | get_block takes the lowest free block, keeps the page's refcount and low-water index right and fails exactly on a full page |
| Kcm.GiveIs | kernel/mm/kcm.c:224-229 | put_block frees that block, keeps the page's refcount right and lowers the low-water index no further than needed |
| Kcm.NoRoom | kernel/mm/kcm.c:146-165 | in pages that hold blocks, every block is live exactly when the head is full and alone and no page is free |
| Kcm.RetireHead | kernel/mm/kcm.c:368-375 | moving the full head to the busy list keeps the lists right |
| Kcm.Unbusy | kernel/mm/kcm.c:231-239 | a busy page that got a block back becomes active |
| Kcm.Empty | kernel/mm/kcm.c:241-251 | an emptied page behind the head becomes free |
| KcmGeometry.FitsExactly | kernel/mm/kcm.c:115-120 | header and blocks fit the page exactly when the aligned header finds room in what the blocks leave over |
| KcmGeometry.FitsIfHeaderSmall | kernel/mm/kcm.c:115-120 | they fit whenever the aligned header is no larger than a block |
| KcmGeometry.SmallObjectsOverrun | kernel/mm/kcm.c:115-120 | with 32-byte objects and alignment the last block starts where the page ends |
| KcmAddresses.LiveBlocksApart | kernel/mm/kcm.c:199-215 | in a layout that fits, the memory of any two live blocks is disjoint, on one page or on two |
| KcmAddresses.AddressFindsBlock | kernel/mm/kcm.c:219-228 | put_block finds from the address of any live block its page and its index |
| KcmGeometry.IndexInverts | kernel/mm/kcm.c:203-228 | put_block's index and page of a block's address are those get_block used |
| KcmGeometry.BlocksDisjoint | kernel/mm/kcm.c:271-277 | blocks overlap neither each other nor the header |
| KcmGeometry.BitmapLargeEnough | kernel/mm/kcm.c:115-120 | the page bitmap has a bit for every block |
| Bits.Find | kernel/libk/bits.c:28-99 | the word-wise search returns the first set or clear bit at or above the index, else -1, among the bits it looks at: all of them if the size is whole words and the index lies within |
| Bits.FillRange | kernel/libk/bits.c:102-157 | exactly the bits of the range change, across words, and none for an empty range |
| Bits.FirstIs | kernel/libk/bits.c:28-99 | what first means: nothing wanted lies before it, and -1 exactly if there is none |
| HeapManager.Heap.Malloc | kernel/mm/heap_manager.c:66-117 | takes the first block that fits from where the search starts, NULL exactly if none does; the tiling is kept exactly if NULL is returned, the rounded request is not 0, or the block was smaller than a line |
| HeapManager.Heap.Free | kernel/mm/heap_manager.c:119-146 | the block and the free blocks after it become one; the tiling is kept and next still names a block |
| HeapManager.Heap.Search | kernel/mm/heap_manager.c:77-98 | terminates at the first fit or the end |
| HeapManager.Heap.constructor | kernel/mm/heap_manager.c:46-64 | one free block tiles the heap, exactly if its size fits the 31-bit field |
| HeapManager.TakenKeeps | kernel/mm/heap_manager.c:99-109 | the taken block is large enough, was not in use, wastes less than a line, and no other block changes |
| HeapManager.TakenBreaks | kernel/mm/heap_manager.c:99-109 | taking a block for a rounded request of 0 breaks the tiling exactly if the block has a line or more, and so always in a heap of whole lines |
| HeapManager.FreedKeeps | kernel/mm/heap_manager.c:129-145 | only that block stops being in use, the others are unchanged, and what follows the merged block is in use or the end |
| HeapManager.TilesExactly | kernel/mm/heap_manager.c:46-146 | every address of the heap lies in exactly one block |
| HeapManager.WholeLines | kernel/mm/heap_manager.c:46-146 | every block is made of whole cache lines, but for the last one of a heap that is not |
| HeapManager.MissedBlock | kernel/mm/heap_manager.c:66-146 | after two requests, a release and two more requests, the next request gets NULL although a free block fits |
| HeapManager.MissedExactly | kernel/mm/heap_manager.c:77-98 | nothing is found exactly when every block that fits lies before next and next leaves room for the request |
| HeapManager.EffectiveSizeExact | kernel/mm/heap_manager.c:72-73 | a request is rounded to whole lines; it gets the room it asked for exactly up to 2^32-72 bytes, and is rounded to 0 exactly above that up to 2^32-8 |
| HeapManager.WrappedRequest | kernel/mm/heap_manager.c:72-73 | the first request that wraps |
| Radix.RadixTree.Insert | kernel/kern/radix.c:349-393 | a fresh key gets the item, a present key is refused with EEXIST and leaves the tree as it is, no other key changes, whatever the outcome, and the tree grows no higher than the key needs |
| Radix.RadixTree.Lookup | kernel/kern/radix.c:303-347 | the loop finds what the tree maps the key to |
| Radix.RadixTree.Expand | kernel/kern/radix.c:87-120 | growing the tree changes no lookup |
| Radix.RadixTree.CreateNode | kernel/kern/radix.c:158-178 | a new inner node changes no lookup |
| Radix.RadixTree.Fit | kernel/kern/radix.c:357-362 | the tree grows until the key fits and no further, or memory runs out; no lookup changes |
| Radix.RadixTree.Leaf | kernel/kern/radix.c:364-381 | the node for the key is reached by its digits; no lookup changes |
| Radix.RadixTree.Put | kernel/kern/radix.c:383-392 | only the lookup of the key changes |
| Radix.RadixTree.constructor | kernel/kern/radix.c:266-271 | an empty map |
| Radix.ExpandPreserves | kernel/kern/radix.c:87-120 | the same value for every 32-bit key, before and after |
| Radix.GrowPreserves | kernel/kern/radix.c:158-178 | no descent notices a blank node |
| Radix.StorePreserves | kernel/kern/radix.c:383-392 | no descent for another key notices the stored item |
| Radix.MaxKeyIs | kernel/kern/radix.c:56-57 | a key fits a tree exactly when its digits above the height are zero |
| Radix.SamePathSameKey | kernel/kern/radix.c:54-55 | for heights up to 6 the digits of all levels determine a key that fits |
| Radix.NextChildIsDigit | kernel/kern/radix.c:54-55 | for every 32-bit key and every level of a tree, masking and shifting in 32 bits yields the six-bit digit of the key, also where the mask loses bits |
| Md5.Context.Update | kernel/libk/md5.c:183-212 | the context of a message becomes that of the message with the input appended |
| Md5.Context.Final | kernel/libk/md5.c:217-244 | the digest of what was absorbed as defined in sections 3.1, 3.2, 3.4 and 3.5 of RFC 1321; the context is wiped |
| Md5.Context.Transform | kernel/libk/md5.c:79-176 | folds the given number of blocks, in order |
| Md5.Context.Count | kernel/libk/md5.c:192-195 | the two counter words count the added bits, with carry |
| Md5.Context.constructor | kernel/libk/md5.c:57-65 | the context of the empty message |
| Md5.Digest | kernel/libk/md5.c:183-244 | any cutting of a message into updates yields the digest of the whole |
| Md5.SameMessageSameContext | kernel/libk/md5.c:183-212 | registers, counter and live buffer depend on the message only |
| Md5.CountsModulo | kernel/libk/md5.c:192-195 | the counter is 8*length modulo 2^64 |
| Md5.CountAdds | kernel/libk/md5.c:192-195 | the carry test is right for every input length below 2^32 |
| Md5.PaddingIs | kernel/libk/md5.c:224-226 | the padding chosen is the one and only that section 3.1 of RFC 1321 allows |
| Md5.LengthIs | kernel/libk/md5.c:220-229 | the eight length bytes are the little-endian value of 8n modulo 2^64 |
| Md5.OutputIs | kernel/libk/md5.c:230-244 | each register reads back from the digest, low byte first, in the order A, B, C, D |
| Md5.StartIs | kernel/libk/md5.c:57-65 | the bytes of the start registers are those of section 3.3 of RFC 1321 |
| Md5.DigestUnique | kernel/libk/md5.c:217-244 | a message has one digest |
| Md5.Filled | kernel/libk/md5.c:200-211 | completing the buffered block and folding on equals folding the whole message |
| RpcMarshal.Marshal | kernel/kern/rpc.c:163-202 | the message holds every size and every argument at its place and ends exactly at the computed size; the call hangs exactly if that size is over the stack limit, and writes past its buffer exactly if 2^32 bytes or more wrap to less |
| RpcMarshal.WriteArgs | kernel/kern/rpc.c:191-194 | arguments go to their places without disturbing the table or each other |
| RpcMarshal.WriteTable | kernel/kern/rpc.c:188-189 | the size table reads back |
| RpcMarshal.GetArg | kernel/kern/rpc.c:425-465 | the loop yields the address and size that the message's table implies |
| RpcMarshal.RoundTrip | kernel/kern/rpc.c:425-465 | every argument comes back with its bytes and size, NULL for size 0, exactly when there are fewer than 256 |
| RpcMarshal.TooManyArguments | kernel/kern/rpc.c:112 | 256 empty arguments pass the size test and none can be fetched |
| RpcMarshal.Apart | kernel/kern/rpc.c:176-194 | argument areas do not overlap and lie after the table |

## Left out

- HeapManager.Heap.constructor: an empty heap, whose first request would meet a block without size, is excluded.
- HeapManager.Heap.Free: the debug assertion that reads one header past the limit is not modelled; the limit test comes first.
- Kcm.Cache.Free: the block is named by page and index; KcmAddresses.AddressFindsBlock connects that to addresses, for layouts that fit.
- Kcm.Cache.Init: takes the block count as a parameter; KcmGeometry computes it.
- Bits.Find: words are sequences of 32 bits, so shifts and masks are defined on bits and not on machine integers, and bit numbers do not wrap.
- Md5.Context.Transform: the 64 round steps of a block are a parameter.
- Radix.RadixTree.Insert: node counts, bitmaps and tags are not modelled; lookup and insertion do not read them.
- Radix deletion, shrinking, tags and gang lookups.
- Mapper: page migration, read and write requests, dirty pages; the radix tree under it is a map.
- Mapper, RpcListener, RemoteFifo and Barrier are step machines on values: code bodies appear as steps and not as methods that update fields, because every access is a separate step of an interleaving.
- RPC handlers that sleep, the response path and the sleeping variant of the sender.
- The sleep-check list, load balancing, the unlocked scheduler variant, quanta and the counters total_nr, user_nr and the per-queue u_runnable, which rr_elect does not keep.
- Remote event listeners; only the per-CPU listener is modelled.
- rb_replace_node and the search code that users of the red-black tree write.
- Spinlocks, including their reader mode, are treated as plain mutual exclusion.
- kfifo, barrier.c, the distributed quaternary decision tree, constructors and destructors of slab objects.
- Fairness and timing of the protocols; their calls end as Barrier.RoundEnds, Mapper.CallsEnd, RpcListener.DrainEnds and RemoteFifo.PutEnds say, and waiting for the lock or for room in a FIFO is not bounded.
- Hardware: interrupts, caches, IPIs, context switches, time stamps.
- System calls, shell, ELF loading, signals, fork and exec, devices, file systems.
