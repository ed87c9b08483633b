# Verified model of the QUIC VPN's concurrency, framing and addressing kernel

This project models, in Dafny, the parts of the VPN that are its own logic rather than
plumbing around MsQuic and the kernel: the lock-free block pool, the two queues, the
bounded memory pool in its Linux and Windows forms, the two latches, control-stream
framing and the control-frame codec, the virtual address allocator with its mask
arithmetic, and QUIC variable-length integers. `dafny verify dfyconfig.toml` checks all
of it.

## How it is built

**Concurrent structures** are transition systems. A state holds the shared words and one
local state (program point and locals) for each of any number of threads; one event is
one atomic action of one thread. `Runs` defines runs as sequences of enabled events, so
a lemma about the state after every valid run speaks about every reachable state under
every interleaving. Refinement is stated over whole runs: the labels of a concrete run
form a run of a small abstract system (`LfPoolSafety.STACK`, `Fifo.Bounded`,
`BlockPoolSafety.Bounded`), and the invariant ties the two end states. `Fifo.InOrder`
says what the abstract queue means: what was put in is what was taken out followed by
what is still there. Accounting invariants count the threads inside each window of the
code (`Threads.Count`). What callers put in and get back is followed by observers that see
only calls and returns (`MpmcQueueCallers`, `LfQueueSafety.Calls`), and for every machine
there is a lemma on how calls may end.

**Sequential bodies** that change fields or arrays in place are classes and methods with
the source's loops. Their postconditions equate the new state with a function of the old
one, and lemmas tie that function to the same invariants the transition systems use;
`LfPoolArena.AfterTake` and `AfterReturn` show the pool's bodies to be runs of its
transition system.

| modules | source |
|---|---|
| `LfPool`, `LfPoolSafety`, `LfPoolAba`, `LfPoolArena` | vpn/common/inc/lf_pool.h |
| `LfQueue`, `LfQueueSafety`, `LfQueueDepth`, `LfQueueRing` | vpn/common/inc/lf_queue.h |
| `MpmcQueue`, `MpmcQueueSafety`, `MpmcQueueCallers`, `BoundedQueue` | vpn/common/inc/queue.h |
| `BlockPool`, `BlockPoolSafety`, `BlockPoolWakeups`, `MemoryPool` | vpn/common/inc/pool.h |
| `CountLatch`, `StateLatch` | vpn/common/inc/cnt_sync.h, vpn/common/inc/state_sync.h |
| `Framing`, `ClientFraming`, `PktCtrl` | vpn/server/src/engine/quic.c, vpn/client/src/engine/quic.c, vpn/common/src/pkt_ctrl.c |
| `Netmask`, `IpPool` | vpn/common/inc/utils.h, vpn/server/src/engine/ip_pool.c |
| `VarInt` | vpn/dep/inc/quic_var_int.h |
| `Common`, `Threads`, `Runs`, `Fifo`, `Circular`, `Bits`, `Bytes` | shared definitions |

## Assumptions

- Interleaving semantics: every atomic access is sequentially consistent.
- Callers return only what they hold, and once; the single-producer single-consumer ring
  has one of each; `ip_release` is called on held entries.
- Fields touched only under a lock (`pool.h`, `state_sync.h`, `ip_pool.c`) change in one
  event per critical section. `queue.h` is modelled assignment by assignment, and
  `cnt_sync.h` access by access, because its increment does not lock.
- A condition signal wakes one sleeper if there is one; spurious wakeups may happen at
  any time. A weak exchange may fail for no reason.
- `TotalBufferLength` is the sum of the buffer lengths, and bytes not consumed are
  presented again before new ones (`Framing.Faithful`). The client's run ends when its
  callback reports an error.
- The allocator returns blocks nobody holds. Whether an allocation succeeds, whether a
  clock read succeeds, and whether acting on a received frame succeeds are parameters.
- Words have their C widths where it matters: 32-bit generations and addresses, 64-bit
  counters, all with explicit wrap-around.

## Where the code falls short of what one would expect

Each of the first eight is a theorem with its exact condition and a concrete run or value.

- The lock-free pool is right exactly in the runs in which every pop installs the link
  its block has at that moment (`PopIsSafeExactly`, `RunIsSafeExactly`). The generation
  tag ensures this for pops that come fewer than 2^32 exchanges after their head load
  (`PoolIsSafe`); a run whose only late pop is late by exactly 2^32 exchanges lends one
  block to two callers (`TooLateLendsTwice`). Puts, and exchanges that fail, may be as late
  as they like.
- Linux `pool_try_get` and `pool_wait_get` give a reserved slot back after a failed
  allocation without signalling (pool.h:149-151, 216-218), so a waiter can sleep beside
  spare capacity. This happens exactly at a rollback while somebody sleeps
  (`LinuxStrandsExactly`, `LinuxCanStrand`). Wakeups for returned blocks are never lost.
- Windows `pool_wait_get` sleeps after a failed allocation without looking at the free
  list or the cap again (pool.h:536-540). A wakeup is lost exactly when it does so while
  there are more free blocks than woken waiters (`WindowsLosesExactly`, `WindowsCanLose`),
  and a waiter sleeps beside spare capacity exactly when it does so below the cap
  (`WindowsStrandsExactly`): a single thread can sleep for ever beside an empty pool
  without a cap (`WindowsCanStrand`).
- `state_sync_wait_ms` reports a timeout in the target state, exactly if a deadline woke
  it in another state and the target was set before it had the lock again
  (`StateLatch.LateWaitMisses`, `LateWaitWitness`); `state_sync_wait_ms_abort` looks again
  and does not.
- `cnt_sync_wait_zero_ms` reports a timeout at zero. As long as no increment has wrapped
  past a waiter, it does so exactly if it retakes the lock at zero after a deadline that
  found the counter non-zero, or at a zero whose broadcast had not been sent
  (`CountLatch.LateWaitMisses`). Both cases occur (`ZeroAfterDeadline`,
  `ZeroBeforeDeadline`).
- `cnt_sync_inc` can wrap the counter to zero without waking anybody. The latch's
  invariant survives a run exactly if no increment wraps past a thread that sleeps or is
  about to, and then no wakeup is lost (`RunKeepsExactly`). A wrap past a sleeper loses the
  wakeup at once (`WrapCanLose`); a wrap past a thread about to sleep loses it when that
  thread goes to sleep (`WrapCanLoseLater`). `EventLosesExactly` names every event at which
  a wakeup is lost.
- `lf_queue_get_pending` is right while the capacity and the pops between its two reads
  stay below 2^63 (`DepthIsExact`); with 2^63 pops in between it reports -2^63 for an empty
  ring (`DepthCanBeNegative`).
- `state_sync_timespec_add_ms` lets one overflow through: the one caused by the carry of
  the nanoseconds (`AddMs`, `CarrySlipsThrough`).
- `ip_pool_create` on a /0 mask computes a pool of size 0 (`PrefixRoundTrip` at k = 0).
- The comment at pkt_ctrl.h:94 names a head magic that differs from the constant at line
  13; the model uses the constant. The body uid of a CONFIG_RESP is never filled in, and
  the client does not read its status.

## Model

| member | source | states |
|---|---|---|
| `LfPoolSafety.StaleIsLate` | vpn/common/inc/lf_pool.h:183-187 | An exchange that succeeds although others came since its head load is late by a positive multiple of 2^32 exchanges. |
| `LfPoolSafety.NoAba` | vpn/common/inc/lf_pool.h:183-187 | Inside the 2^32 window, a pop that succeeds does so with no other exchange since its head load, so the link it installs is current. |
| `LfPoolSafety.PopIsGenuine` | vpn/common/inc/lf_pool.h:172-187 | Every successful exchange of a get takes the true top of the abstract stack, however late. |
| `LfPoolSafety.PopIsSafeExactly` | vpn/common/inc/lf_pool.h:180-187 | After a pop the links spell the rest of the stack, and the invariant holds, if and only if the link it installed was current. |
| `LfPoolSafety.PushIsGenuine` | vpn/common/inc/lf_pool.h:254-266 | Every successful exchange of a put, however late, adds a block that is on no stack and in the putter's hands alone, linked to the current top. |
| `LfPoolSafety.TokenMeansBlock` | vpn/common/inc/lf_pool.h:163-181 | A thread with a semaphore token never meets an empty head. |
| `LfPoolSafety.StepRefines` | vpn/common/inc/lf_pool.h:156-272 | Any single atomic action of any thread, short of a pop that installs a stale link, is a legal step of the abstract stack and keeps chain shape, block places, thread knowledge and all three balances. |
| `LfPoolSafety.RunRefines` | vpn/common/inc/lf_pool.h:156-272 | The pops, pushes, lendings and returns of any run whose pops install current links form a run of the abstract stack. |
| `LfPoolSafety.RunIsSafeExactly` | vpn/common/inc/lf_pool.h:156-272 | Under every interleaving, the links spell the abstract stack after each event if and only if every pop installs a current link. |
| `LfPoolSafety.WindowedIsCoherent` | vpn/common/inc/lf_pool.h:183-187 | Every run in which no pop is 2^32 or more exchanges late is of that kind. |
| `LfPoolSafety.OneHolder` | vpn/common/inc/lf_pool.h:172-187 | Every block has exactly one holder: the free list, one caller, or one thread inside the pool. |
| `LfPoolSafety.InUseIsExact` | vpn/common/inc/lf_pool.h:189-189 | `in_use` plus tokens plus threads in flight is the capacity, so it stays within 0 and the capacity. |
| `LfPoolSafety.CoherentPoolIsSafe` | vpn/common/inc/lf_pool.h:163-271 | The conclusion of `PoolIsSafe` for every run whose pops install current links. |
| `LfPoolSafety.PoolIsSafe` | vpn/common/inc/lf_pool.h:163-271 | From `lf_pool_init`, for any number of threads and any run in which no pop is 2^32 or more exchanges late: the links are an acyclic, duplicate-free, sentinel-terminated chain; each block has one holder; semaphore, token holders and unposted putters add up to the free-list length; the refund branch and out-of-arena reads are unreachable. |
| `LfPoolSafety.FailureMeansProgress` | vpn/common/inc/lf_pool.h:185-187 | A compare-and-exchange that fails other than spuriously means some other thread's exchange succeeded since the head was read. |
| `LfPoolSafety.GetsRunToEnd` | vpn/common/inc/lf_pool.h:162-194 | A get is refused exactly if there is no token; with one it ends only by popping the top, which it hands to its caller, however many exchanges fail. |
| `LfPoolSafety.PutsRunToEnd` | vpn/common/inc/lf_pool.h:246-271 | A put ends only after pushing the block it was called with. |
| `LfPoolSafety.NobodyWaitsInside` | vpn/common/inc/lf_pool.h:163-271 | Past the semaphore no thread ever has to wait for another. |
| `LfPoolAba.TooLateLendsTwice` | vpn/common/inc/lf_pool.h:29-35 | The window is tight: a run in which one pop comes exactly 2^32 exchanges late, and none later, hands block 1 to two callers. |
| `LfPoolArena.Init` | vpn/common/inc/lf_pool.h:66-118 | Initialisation succeeds exactly for a positive block size and a capacity in 1 to UINT32_MAX - 1 when resources allow, and yields the initial words. |
| `LfPoolArena.Arena.constructor` | vpn/common/inc/lf_pool.h:90-107 | The linking loop produces the chain 0, 1, ..., capacity - 1, end. |
| `LfPoolArena.Arena.Take` | vpn/common/inc/lf_pool.h:156-234 | A get without interference, with any number of spurious failures, fails and changes nothing exactly on no token or an empty stack, and otherwise returns the top index and installs its link. |
| `LfPoolArena.Arena.Return` | vpn/common/inc/lf_pool.h:241-272 | A put without interference links the block to the old head, makes it the head, and updates counter and semaphore. |
| `LfPoolArena.AfterTake` | vpn/common/inc/lf_pool.h:169-194 | The words `Take` leaves behind are reached by a run of the transition system in which exactly the top block is lent. |
| `LfPoolArena.AfterReturn` | vpn/common/inc/lf_pool.h:241-272 | The words `Return` leaves behind are reached by a run in which exactly the returned block is pushed. |
| `LfQueue.MaskedSlot` | vpn/common/inc/lf_queue.h:51-58 | For a power-of-two capacity, masking a wrapped 64-bit counter selects the same slot as the unwrapped count. |
| `LfQueue.DepthOf` | vpn/common/inc/lf_queue.h:93-93 | The wrapped difference of the counters is the true depth for every depth up to the capacity. |
| `LfQueueSafety.StepRefines` | vpn/common/inc/lf_queue.h:84-187 | Each atomic action keeps counters, tokens, slots and thread knowledge, and is a legal step of a bounded FIFO; only the tail store enqueues and only the head store dequeues. |
| `LfQueueSafety.RunRefines` | vpn/common/inc/lf_queue.h:84-187 | Every interleaving is a run of the bounded FIFO, however often the counters wrap. |
| `LfQueueSafety.QueueIsFifo` | vpn/common/inc/lf_queue.h:84-176 | From `lf_queue_init`: pushes are the pops followed by the contents; semaphore plus unposted push plus held token is the depth; a token holder reads the oldest item, never an empty slot; the producer never overwrites a live slot. |
| `LfQueueSafety.RefusedMeansFull` | vpn/common/inc/lf_queue.h:93-96 | The test on wrapped counters refuses a push exactly when capacity items were outstanding at its head read. |
| `LfQueueSafety.RejectedMeansUnposted` | vpn/common/inc/lf_queue.h:163-166 | A non-blocking pop is refused exactly when the only item, if any, is stored but not yet posted. |
| `LfQueueSafety.CallersAreServed` | vpn/common/inc/lf_queue.h:84-176 | In every run, the items are the arguments of the pushes that returned 0 and of the one about to, in order, and what the pops returned is a prefix of them. |
| `LfQueueSafety.DepthIsExact` | vpn/common/inc/lf_queue.h:182-187 | In every run, the reported depth is the depth at the second read plus the pops between the reads, exactly when that is below 2^63; while capacity plus those pops stays below 2^63 it is never negative, covers the depth at both reads, and exceeds the capacity by at most those pops. |
| `LfQueueSafety.WatcherNotes` | vpn/common/inc/lf_queue.h:184-185 | The counts of pops and pushes that `DepthIsExact` speaks of are those at the two reads. |
| `LfQueueDepth.DepthCanBeNegative` | vpn/common/inc/lf_queue.h:182-187 | A run of a one-slot ring, empty at both reads, in which the reported depth is -2^63. |
| `LfQueueRing.Accepts` | vpn/common/inc/lf_queue.h:44-55 | The size test accepts exactly the powers of two. |
| `LfQueueRing.PushRepresents` | vpn/common/inc/lf_queue.h:98-102 | Store, advance and post turn a ring holding q into one holding q followed by the item, at any wrap position. |
| `LfQueueRing.PopRepresents` | vpn/common/inc/lf_queue.h:169-175 | Fetch, clear and advance yield the first of q and leave a ring holding the rest. |
| `LfQueueRing.LockFreeQueue.constructor` | vpn/common/inc/lf_queue.h:57-77 | The initial fields represent the empty queue. |
| `LfQueueRing.LockFreeQueue.TryPush` | vpn/common/inc/lf_queue.h:84-104 | Without interference: refuses NULL and a full ring, changing nothing; otherwise appends. |
| `LfQueueRing.LockFreeQueue.TryPop` | vpn/common/inc/lf_queue.h:157-176 | Without interference: fails exactly on an empty ring; otherwise removes and returns the oldest item. |
| `LfQueueRing.LockFreeQueue.GetPending` | vpn/common/inc/lf_queue.h:182-187 | Without interference: the exact depth, except that a ring of 2^63 items reads as negative. |
| `MpmcQueueSafety.TokenMeansRoom` | vpn/common/inc/queue.h:187-201 | A pusher past its semaphore always finds a free slot. |
| `MpmcQueueSafety.TokenMeansItem` | vpn/common/inc/queue.h:258-273 | A popper past its semaphore always finds an item. |
| `MpmcQueueSafety.PushConsistent` | vpn/common/inc/queue.h:199-201 | The three assignments of a push turn a buffer holding a history, with null in all other slots, into one holding it extended. |
| `MpmcQueueSafety.PopConsistent` | vpn/common/inc/queue.h:270-273 | The four assignments of a pop fetch the oldest item, leave null in its slot, and leave a buffer consistent with the rest. |
| `MpmcQueueSafety.StepRefines` | vpn/common/inc/queue.h:175-433 | Every assignment of every critical section, and every step outside it, keeps locking, token balance and the settled buffer, and is a legal step of the bounded FIFO. |
| `MpmcQueueSafety.RunRefines` | vpn/common/inc/queue.h:175-433 | Every run with any mix of blocking and non-blocking callers is a run of the bounded FIFO. |
| `MpmcQueueSafety.QueueIsFifo` | vpn/common/inc/queue.h:187-285 | From `queue_init`: pushes in lock order are the pops followed by the contents, each semaphore plus the threads in flight accounts for all free slots and all items, and whenever the mutex is free the fields describe the contents. |
| `MpmcQueueSafety.TailFollowsHead` | vpn/common/inc/queue.h:199-201 | At every unlock the tail is (head + pending) mod size. |
| `MpmcQueueSafety.RefusedMeansClaimed` | vpn/common/inc/queue.h:331-340 | A non-blocking call is refused exactly when every slot, or every item, is taken or claimed by a thread in flight. |
| `MpmcQueueSafety.SomebodyCanMove` | vpn/common/inc/queue.h:187-285 | The queue never locks up: while a thread is inside a call past its semaphore, some such thread can move. |
| `MpmcQueueSafety.EveryMoveCounts` | vpn/common/inc/queue.h:187-285 | Past its semaphore, a push returns after six and a pop after seven of its own moves. |
| `MpmcQueueCallers.CallersAreServed` | vpn/common/inc/queue.h:175-433 | In every run, the items are the arguments of the pushes in the order of their stores, fetch number k returns item number k to its caller, and every fetch has returned or is on its way out, once. |
| `BoundedQueue.BlockingQueue.constructor` | vpn/common/inc/queue.h:99-146 | The initial fields represent the empty queue with all slots posted. |
| `BoundedQueue.BlockingQueue.TryPush` | vpn/common/inc/queue.h:319-360 | Without interference: appends, or refuses exactly when full and changes nothing. |
| `BoundedQueue.BlockingQueue.TryPop` | vpn/common/inc/queue.h:391-433 | Without interference: removes the oldest, or fails exactly when empty. |
| `BlockPoolSafety.StoreFollows` | vpn/common/inc/pool.h:113-167 | Each critical section, Linux or Windows, changes the free list and the callers' blocks by one legal operation of the abstract bounded pool. |
| `BlockPoolSafety.StepRefines` | vpn/common/inc/pool.h:102-280 | It also keeps the ledger, the separation of free and held blocks, and the freshness of blocks in flight. |
| `BlockPoolSafety.RunRefines` | vpn/common/inc/pool.h:442-582 | Reserve-then-allocate and allocate-then-recheck both refine the same bounded pool over every run. |
| `BlockPoolSafety.PoolConserves` | vpn/common/inc/pool.h:102-280 | From `pool_init`, allocation failures included: total blocks are free plus in use (plus, on Linux, threads in flight), within the cap; no block is free twice, held twice or both; `in_use` is the number of held blocks. |
| `BlockPoolSafety.FailsExactly` | vpn/common/inc/pool.h:126-153 | A get returns NULL exactly if it is non-blocking and finds no free block and the cap reached, at first or (Windows) again after allocating, or if its allocation fails; a blocking Windows get never does. |
| `BlockPoolSafety.EntersExactly` | vpn/common/inc/pool.h:188-240 | A get or woken waiter takes a free block if there is one, allocates exactly below the cap, and sleeps exactly if it is blocking and the cap is reached. |
| `BlockPoolSafety.AllocatesExactly` | vpn/common/inc/pool.h:145-154 | An allocation has the outcome the allocator gave it, with a new block. |
| `BlockPoolWakeups.LinuxLosesNoWakeup` | vpn/common/inc/pool.h:188-271 | Linux, every run: while somebody sleeps unsignalled, woken waiters are at least as many as free blocks, under barging and spurious wakeups. |
| `BlockPoolWakeups.WindowsLosesExactly` | vpn/common/inc/pool.h:536-540 | Windows: an event breaks that promise exactly if it sleeps after a failed allocation with more free blocks than woken waiters. |
| `BlockPoolWakeups.WindowsOtherwiseLosesNone` | vpn/common/inc/pool.h:504-582 | Windows, every run that avoids that branch keeps the promise. |
| `BlockPoolWakeups.WindowsCanLose` | vpn/common/inc/pool.h:536-540 | A run after which a waiter sleeps beside a free block with nobody to wake it. |
| `BlockPoolWakeups.LinuxStrandsExactly` | vpn/common/inc/pool.h:215-221 | Linux: an event leaves a sleeper beside spare capacity exactly if it rolls back a reservation while somebody sleeps. |
| `BlockPoolWakeups.LinuxOtherwiseStrandsNobody` | vpn/common/inc/pool.h:177-241 | Linux, every run that avoids that branch: whoever sleeps does so because the pool is filled to its cap. |
| `BlockPoolWakeups.LinuxCanStrand` | vpn/common/inc/pool.h:215-221 | A run after which a waiter sleeps beside an empty pool that nobody uses. |
| `BlockPoolWakeups.WindowsStrandsExactly` | vpn/common/inc/pool.h:536-540 | Windows: an event leaves a sleeper beside spare capacity exactly if it sleeps after a failed allocation below the cap. |
| `BlockPoolWakeups.WindowsOtherwiseStrandsNobody` | vpn/common/inc/pool.h:504-559 | Windows, every run that avoids that branch: whoever sleeps does so because the pool is filled to its cap. |
| `BlockPoolWakeups.WindowsCanStrand` | vpn/common/inc/pool.h:536-540 | A run after which the only thread sleeps beside an empty pool without a cap. |
| `MemoryPool.SharedPool.TryGetLinux` | vpn/common/inc/pool.h:102-168 | Without interference: returns nothing, and changes nothing, exactly if no block is free and the allocator fails or the cap is reached; otherwise the top of the free list, or the allocated block if the list is empty; and this is the one abstract operation the pool allows. |
| `MemoryPool.SharedPool.TryGetWindows` | vpn/common/inc/pool.h:442-502 | Without interference: the same refusals, blocks and operation as the Linux body. |
| `MemoryPool.SharedPool.Put` | vpn/common/inc/pool.h:249-280 | Puts a held block on top of the free list and keeps the ledger. |
| `CountLatch.StepKeepsWatched` | vpn/common/inc/cnt_sync.h:118-168 | Every atomic access other than a wrapping increment keeps: nobody sleeps, or is about to, on a zero counter, except between a decrement to zero and its broadcast. |
| `CountLatch.LatchLosesNoWakeup` | vpn/common/inc/cnt_sync.h:196-217 | Every run of a new latch in which no increment wraps past somebody who sleeps or is about to: whenever the mutex is free, every unwoken sleeper's counter is non-zero, although increments do not lock. |
| `CountLatch.WrapLosesExactly` | vpn/common/inc/cnt_sync.h:118-123 | From a state that satisfies the invariant, an event breaks it exactly if it wraps past somebody who sleeps or is about to, and loses a wakeup at once exactly if it wraps past a sleeper with the mutex free. |
| `CountLatch.RunKeepsExactly` | vpn/common/inc/cnt_sync.h:118-217 | Over every run, the invariant survives exactly if no increment wraps past somebody who sleeps or is about to, and then no wakeup is lost. |
| `CountLatch.EventLosesExactly` | vpn/common/inc/cnt_sync.h:118-217 | Without the invariant, after a wrap too: an event loses a wakeup exactly if it wraps past a sleeper with the mutex free, or releases the mutex at zero past a sleeper, its own thread included. |
| `CountLatch.WrapCanLose` | vpn/common/inc/cnt_sync.h:118-123 | A run in which a wrap loses a wakeup at once. |
| `CountLatch.WrapCanLoseLater` | vpn/common/inc/cnt_sync.h:118-123 | A run in which a wrap meets only a thread about to sleep, and the wakeup is lost by the next event, which is no wrap. |
| `CountLatch.AbortsExactly` | vpn/common/inc/cnt_sync.h:148-153 | Over every run without a wrap, decrements outnumber the initial value and the increments exactly if the program has aborted or the excess decrement is about to abort it. |
| `CountLatch.ZeroMeansBalanced` | vpn/common/inc/cnt_sync.h:206-206 | Over every run without a wrap, a waiter's test succeeds exactly when decrements equal the initial value plus the increments. |
| `CountLatch.ZeroWasSeen` | vpn/common/inc/cnt_sync.h:206-217 | A wait reports zero exactly by testing the counter at zero under the lock, after every wakeup. |
| `CountLatch.WaiterCanLeave` | vpn/common/inc/cnt_sync.h:196-217 | With the mutex free at zero no waiter sleeps, and one that was signalled can take the lock and leave with zero. |
| `CountLatch.ZeroIsReportedExactly` | vpn/common/inc/cnt_sync.h:196-217 | Over every run without a wrap, a wait reports zero exactly by a test made when decrements equal the initial value plus the increments. |
| `CountLatch.WaitsEndWithResult` | vpn/common/inc/cnt_sync.h:196-289 | A wait ends only with a result, and only a timed one by its deadline, whose circumstances are noted as they were. |
| `CountLatch.DecrementReports` | vpn/common/inc/cnt_sync.h:135-168 | A decrement reports the value it left behind, and sleepers are woken exactly by the one that leaves zero. |
| `CountLatch.LateWaitMisses` | vpn/common/inc/cnt_sync.h:269-281 | Over every run in which no increment wraps past somebody who sleeps or is about to, the timed wait reports a timeout at zero exactly if it retakes the lock at zero after a deadline that found the counter non-zero or at an unannounced zero. |
| `CountLatch.TimeoutsAreDue` | vpn/common/inc/cnt_sync.h:269-281 | In every such run, whoever leaves with a timeout was woken by such a deadline. |
| `CountLatch.ZeroAfterDeadline` | vpn/common/inc/cnt_sync.h:269-281 | A run in which zero comes after the deadline and is missed. |
| `CountLatch.ZeroBeforeDeadline` | vpn/common/inc/cnt_sync.h:155-160 | A run in which zero comes before the deadline, its broadcast after it, and is missed. |
| `StateLatch.AddMs` | vpn/common/inc/state_sync.h:37-55 | Deadline arithmetic is exact and normalised; a refusal means the sum is not representable; an accepted sum is representable except in the nanosecond-carry case. |
| `StateLatch.CarrySlipsThrough` | vpn/common/inc/state_sync.h:42-53 | At the last representable second, one millisecond is accepted although the sum has no representation. |
| `StateLatch.StepKeeps` | vpn/common/inc/state_sync.h:137-430 | Every critical section keeps: sleepers' conditions are false now, and every return code matches the state seen under the lock. |
| `StateLatch.NoLostWakeup` | vpn/common/inc/state_sync.h:137-367 | After every run nobody sleeps while its condition holds; `wait_ms_abort` returns 0, -ECONNABORTED, -ETIMEDOUT exactly as the state under the lock was target, abort, neither. |
| `StateLatch.StateIsLastSet` | vpn/common/inc/state_sync.h:137-160 | In every run the state is the last one set. |
| `StateLatch.CallsPersist` | vpn/common/inc/state_sync.h:231-430 | A thread is in the call it began until it collects the result, its result is decided by the state at that moment, and only a missing clock cancels. |
| `StateLatch.ReadyWaiterReturns` | vpn/common/inc/state_sync.h:231-430 | A waiter whose condition holds is awake and returns with its next move, successfully unless its deadline has passed. |
| `StateLatch.LateWaitMisses` | vpn/common/inc/state_sync.h:291-301 | Over every run, the plain timed wait reports a timeout in the target state exactly if a deadline woke it in another state and it found the target on retaking the lock. |
| `StateLatch.LateWaitWitness` | vpn/common/inc/state_sync.h:291-301 | A run that does so. |
| `Framing.CopyBuffers` | vpn/server/src/engine/quic.c:41-60 | The copy is exactly the requested window of the concatenated buffers, whatever the split, and touches nothing else. |
| `Framing.Receive` | vpn/server/src/engine/quic.c:196-228 | One event handles exactly the complete 1024-byte blocks presented and leaves fewer than 1024 bytes. |
| `Framing.ReceiveAll` | vpn/server/src/engine/quic.c:196-228 | Over a whole run of events the frames handled are those of the byte stream. |
| `Framing.NothingIsLost` | vpn/server/src/engine/quic.c:196-228 | Frames and leftover concatenate to the stream, every frame being 1024 bytes. |
| `Framing.RunFrames` | vpn/server/src/engine/quic.c:196-228 | Carrying the leftover from event to event is framing the whole stream at once. |
| `Framing.FragmentationDoesNotMatter` | vpn/server/src/engine/quic.c:196-228 | Two ways of cutting the same stream into events and buffers give the same frames and the same leftover. |
| `Framing.SentIsHandled` | vpn/server/src/engine/quic.c:196-228 | Frames sent back to back are the frames handled, with nothing left over. |
| `ClientFraming.ReceiveClient` | vpn/client/src/engine/quic.c:193-223 | One event at the client: an event without bytes is a protocol error; the frames handled are those presented up to and including the first that cannot be acted on; success, exactly if none fails, leaves fewer than 1024 bytes. |
| `ClientFraming.ClientFragmentation` | vpn/client/src/engine/quic.c:193-223 | However the stream is cut, the client handles exactly its frames, as far as heard before an event without bytes, up to and including the first it cannot act on; all of them if none fails. |
| `ClientFraming.ReceiveAllClient` | vpn/client/src/engine/quic.c:193-223 | The callback over a run of events computes exactly that, and success means every frame of the stream was handled. |
| `PktCtrl.RequestRoundTrip` | vpn/server/src/engine/quic.c:62-84 | Every CONFIG_REQ built passes the server's checks and decodes to its uid, its family and its hostname, of which a string of 64 bytes or more keeps the first 63; the client does not act on it. |
| `PktCtrl.ResponseRoundTrip` | vpn/client/src/engine/quic.c:36-64 | Every CONFIG_RESP built passes the client's checks and decodes to its uid, mtu, ip, mask and both dns addresses; the server does not act on it. |
| `PktCtrl.ResponseLayout` | vpn/common/src/pkt_ctrl.c:32-54 | The status is in place, and the body's uid and the padding are zero. |
| `PktCtrl.AcceptedExactly` | vpn/server/src/engine/quic.c:72-82 | Ten specific bytes decide acceptance, both ends accept the same frames, and the two type bytes decide which end acts on one. |
| `PktCtrl.RequestsSurviveFragmentation` | vpn/server/src/engine/quic.c:62-84 | Requests sent back to back are decoded one by one, in order, under any fragmentation. |
| `PktCtrl.ResponsesSurviveFragmentation` | vpn/client/src/engine/quic.c:36-64 | Responses sent back to back are handled by the client in order, up to and including the first it cannot act on, and each decodes to its values, under any fragmentation. |
| `PktCtrl.CreateConfigReq` | vpn/common/src/pkt_ctrl.c:13-30 | The builder's assignments produce the 1024-byte request the round trip is about. |
| `PktCtrl.CreateConfigResp` | vpn/common/src/pkt_ctrl.c:32-54 | The builder's assignments produce the 1024-byte response the round trip is about. |
| `Netmask.ValidExactly` | vpn/common/inc/utils.h:144-159 | `validate_mask` accepts exactly the 33 masks 2^32 - 2^(32-k). |
| `Netmask.PrefixRoundTrip` | vpn/common/src/net_iface.c:348-353 | The mask computed from a prefix k is that mask, `mask_to_prefix` gives k back, and the pool size is 2^(32-k), or 0 for k = 0. |
| `Netmask.MaskRoundTrip` | vpn/common/inc/utils.h:204-217 | Every accepted mask is recovered from its prefix. |
| `Netmask.PrefixExactly` | vpn/common/inc/utils.h:204-217 | `mask_to_prefix` answers every other mask, and only those, with -EINVAL. |
| `Netmask.NetIsAligned` | vpn/common/src/tun.c:283-286 | ip & mask is the aligned block that contains ip and ends within the address space. |
| `Netmask.SubnetFits` | vpn/server/src/engine/ip_pool.c:34-47 | Counting through the subnet never overflows. |
| `IpPool.SearchFindsNearest` | vpn/server/src/engine/ip_pool.c:83-97 | The scan finds the cyclically first unused entry at or beyond its start. |
| `IpPool.AcquireIsComplete` | vpn/server/src/engine/ip_pool.c:77-101 | `ip_acquire` fails exactly when every entry is used, and otherwise takes an unused entry of least cyclic distance from the cursor. |
| `IpPool.AcquireComesNearer` | vpn/server/src/engine/ip_pool.c:83-96 | Every successful acquire of another entry strictly lessens the cyclic distance to an entry that stays unused. |
| `IpPool.EveryEntryGetsItsTurn` | vpn/server/src/engine/ip_pool.c:77-101 | In any run with as many successful acquires as entries, every entry unused at its start is handed out. |
| `IpPool.StepKeeps` | vpn/server/src/engine/ip_pool.c:77-122 | Acquire and disciplined release keep: every entry is reserved, lent to exactly the client recorded in it, or unused, and carries its own address. |
| `IpPool.CreatedDescribes` | vpn/server/src/engine/ip_pool.c:45-63 | A new pool holds every address of the server's subnet once, all unused except the first, the last and the server's. |
| `IpPool.RunKeepsOrigin` | vpn/server/src/engine/ip_pool.c:77-122 | No operation changes the subnet, the server's address or the number of entries. |
| `IpPool.AddressesAreExclusive` | vpn/server/src/engine/ip_pool.c:46-122 | Over any run no address is held twice, each held entry records the client that acquired it, and an address held is in the subnet of the server's address and mask and is neither its first nor its last nor the server's. |
| `IpPool.SearchFindsHolder` | vpn/server/src/engine/ip_pool.c:77-148 | Over any run the search for an address returns a client if and only if that client acquired it and has not released it. |
| `IpPool.SearchOutside` | vpn/server/src/engine/ip_pool.c:130-133 | An address outside the subnet has no client, in every run. |
| `IpPool.SearchAgrees` | vpn/server/src/engine/ip_pool.c:124-148 | The constant-time search returns client c for an address exactly when a scan finds a used entry carrying it for c. |
| `IpPool.Create` | vpn/server/src/engine/ip_pool.c:12-68 | Creation refuses exactly the non-contiguous masks and otherwise builds the entries of the server's subnet, unused except the first, the last and the server's. |
| `IpPool.AddressPool.Acquire` | vpn/server/src/engine/ip_pool.c:77-101 | The loop computes the specified search and update, on any pool including the empty one. |
| `IpPool.AddressPool.Release` | vpn/server/src/engine/ip_pool.c:103-122 | Exactly the given entry becomes unused and clientless. |
| `IpPool.AddressPool.ClientSearch` | vpn/server/src/engine/ip_pool.c:124-148 | The body computes the specified search for every address, with every index in range. |
| `VarInt.TaggedRoundTrip` | vpn/dep/inc/quic_var_int.h:104-152 | A value in any of the four lengths that fits it, placed at any offset, decodes to itself and advances by that length. |
| `VarInt.EncodeRoundTrip` | vpn/dep/inc/quic_var_int.h:44-80 | For every value below 2^62, decoding undoes encoding at any offset and advances by exactly its size. |
| `VarInt.TwoByteRoundTrip` | vpn/dep/inc/quic_var_int.h:85-99 | The forced two-byte form decodes too. |
| `VarInt.ShortestForm` | vpn/dep/inc/quic_var_int.h:41-42 | No byte sequence that decodes to a value is shorter than its size. |
| `VarInt.TruncatedIsRefused` | vpn/dep/inc/quic_var_int.h:118-145 | Every proper prefix of an encoding is refused. |
| `VarInt.SequenceRoundTrip` | vpn/dep/inc/quic_var_int.h:104-152 | Concatenated encodings decode to the same sequence and end exactly at the end of the buffer. |
| `VarInt.VarIntEncode` | vpn/dep/inc/quic_var_int.h:61-80 | The body writes exactly the encoding, in place, and returns the position behind it. |
| `VarInt.VarIntEncode2Bytes` | vpn/dep/inc/quic_var_int.h:85-99 | The body writes exactly the two-byte form. |
| `VarInt.VarIntDecode` | vpn/dep/inc/quic_var_int.h:107-152 | The branching body computes the specified decoding, reads nothing at or past the length, and leaves the offset alone on failure. |

## Left out

- Memory ordering weaker than sequential consistency.
- MsQuic, TLS, sockets, the TUN device, nftables, netlink, resolver commands, the GTK
  interface and logging: foreign calls.
- The server's client slot table; clients are opaque references in `IpPool`.
- Destruction of pools, queues and latches, and failures of mutex and semaphore calls,
  which abort the program.
- Liveness of application start and stop, and conservation of packet buffers along the
  whole data path, which the callers do not keep.
- NULL object arguments, `errno` values, payload alignment, and overflow of the arena's
  size computation; the Windows queue's rejection of NULL.
- The early failures of `cnt_sync_wait_zero_ms` (no clock, deadline out of range), which return
  before the latch is touched.
- The limit SEM_VALUE_MAX on queue sizes and pool capacities.
- `queue_get_pending`, `pool_get_used` and the other getters that return one field, and the
  return value of `cnt_sync_inc`.
- Address and CIDR string formatting, and the unused message types of `pkt_ctrl.h`.
- Blocking loops as class methods: `pool_wait_get`, the semaphore waits and the latch
  waits are events of the transition systems; the classes hold the bodies that run to
  completion without sleeping.
- LfPoolArena.Arena.Take: describes a body run without interference; interference is
  the subject of the transition system.
- PktCtrl.ResponseRoundTrip: says nothing of the status field, which the client does not
  read.
