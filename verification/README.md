# A verified model of the queueing core of Boost.Sam

Boost.Sam offers mutexes, shared mutexes, semaphores, barriers and condition variables for programs
built on Asio, with blocking, `try_` and asynchronous operations.  Every one of them is a flag or a
counter plus one or two intrusive circular lists of pending operations, and nearly every operation is one
critical section.  This project models that core in Dafny, in three layers, and proves what it promises.

**Rings** (`Ring.dfy`, `Holder.dfy`).  The intrusive list is a class `Node` with the two pointers of
`bilist_node`, rewritten in place.  `IsRing(root, s)` says that the pointers run through exactly the
sequence `s`; it fixes every pointer of the ring, so an operation that leaves `IsRing(root, s)` true has
left or restored all of them.  A `Holder` is a root together with its sequence, with the loops that
complete or drop everybody.

**Primitives** (`Mutex.dfy`, `Semaphore.dfy`, `SharedMutex.dfy`, `Barrier.dfy`, `ConditionVariable.dfy`,
`Member.dfy`, `Service.dfy`, `Guarded.dfy`).  Each is a class with the fields of the source, whose methods
follow the source branch by branch.  The postcondition of every method equates the new state, seen as a
value, with a step of a state machine applied to the old one, so that what holds of all runs of the machine
holds of every sequence of calls on the object.  `MoveAndDrain`, `OpenUseShutDown` and `OneAfterTheOther`
are clients that put calls together.  `dafny verify dfyconfig.toml` checks the whole project.

**Runs** (`Ledger.dfy`, the `...Spec.dfy` files, `SharedMutexCallers.dfy`, `Simulation.dfy`).  A state
machine takes one step for each critical section; a run is any finite sequence of steps, so all
interleavings are covered.  Safety, conservation, order, progress and the simulations between primitives
are proved about all runs.

**Meanings** (`Places.dfy`, `Meanings.dfy`).  A table for each primitive tells, from the callers' side and
without the ledgers, what every call does to every request: in line behind so many, settled with a code, or
untouched.  The state machines are proved to follow the table in every state, together with what each call
does to flags and counters, and over runs who was refused, who arrived and who still waits.

A request is known by its serial number in the ledger of its ring.  The ledger has the queue and a log:
an entry is written when the handler is dispatched or posted, when the blocking call returns, or when the
operation is dropped by a shutdown.  A blocking caller is an operation on the ring whose `wait` field is
its `done` flag and error code.  A failed `try_` call changes nothing and takes no number.  The waiters'
predicates, which read state the library cannot see, are a set of the waiters whose predicate is true when
it is asked.  The threading mode is the boolean `enabled`.

## What the proofs found

* A blocking `lock_shared` that has to wait is put on the ring of the exclusive waiters and is granted the
  exclusive lock (`include/boost/sam/detail/impl/shared_mutex_impl.ipp:85`).  `BlockedReaderIsAWriter` says
  exactly when this happens, `BlockedReaderStrandsTheMutex` gives a run after which nobody is left and the
  mutex is locked.  `SharedMutexCallers` settles what this means for callers who use the unlock that belongs
  to their call: exclusion holds in all their runs, and by `DrainsIff` the mutex drains exactly when the last
  in the exclusive line is not a blocked `lock_shared`.  One that has somebody queued behind it does no harm
  (`BlockedReaderMayBeHarmless`).
* `async_arrive` is two critical sections.  When the last place of the barrier is taken by a second section,
  the counter reaches zero without the barrier opening, and it never opens again: `Stuck`, and
  `TwoSplitArrivalsWaitForEver` for the smallest case.  What the standard's barrier promises (clause
  [thread.barrier] of ISO/IEC 14882:2020) about who is let through is proved for every interleaving
  (`Generations`, `FullGenerationIsThrough`); that every full generation is let through holds exactly when
  each second section found at least two places left (`GenerationsIffRoomy`).
* An `unlock` of a mutex nobody holds does nothing, where a `release` adds a unit; this is the one step in
  which a mutex and a semaphore of one differ (`StepSimulates`).
* Move construction leaves the source of a semaphore with its count, of a barrier with its counter, and of
  a shared mutex with its count of readers.

## Model

| member | source | states |
|---|---|---|
| SharedMutexSpec.RunSafe | include/boost/sam/detail/impl/shared_mutex_impl.ipp:19-110 | In every state reached from a safe one by any interleaving in which each unlock is somebody's due: `locked_` excludes readers, is set iff exactly one exclusive grant is outstanding, `locked_shared_` counts the shared grants outstanding, readers wait only behind a writer, writers only behind somebody, and writers and readers are each served strictly in order |
| SharedMutexSpec.InitialSafe | include/boost/sam/detail/shared_mutex_impl.hpp:65 | A new shared mutex is a safe state, so the run theorems start somewhere |
| SharedMutexSpec.StepSafe | include/boost/sam/impl/basic_shared_mutex.hpp:31-109 | Each single critical section, of whatever kind, leads from a safe state to a safe state |
| SharedMutexSpec.RunOnce | include/boost/sam/detail/impl/shared_mutex_impl.ipp:19-110 | Over every run, also with undue unlocks, every exclusive and every shared request has exactly one disposition |
| SharedMutexSpec.LoadIsConserved | include/boost/sam/detail/impl/shared_mutex_impl.ipp:44-110 | Holders plus everybody queued are the requests made, less those refused or cancelled, less the releases |
| SharedMutexSpec.ReleasesDrain | include/boost/sam/detail/impl/shared_mutex_impl.ipp:44-110 | Any sequence of due releases lowers the load by exactly one each, also where one writer is followed by a batch of readers, and changes nobody's place in line |
| SharedMutexSpec.Drained | include/boost/sam/detail/impl/shared_mutex_impl.ipp:44-110 | After as many due releases as there is load the mutex is free, both queues are empty and every waiter has been granted in its turn |
| SharedMutexSpec.SomebodyCanRelease | include/boost/sam/detail/impl/shared_mutex_impl.ipp:95-110 | While anybody holds or waits there is a holder whose release is due: no waiter is stranded |
| SharedMutexSpec.DrainExists | include/boost/sam/detail/impl/shared_mutex_impl.ipp:44-110 | From every safe state there is a sequence of due releases alone that drains the mutex |
| SharedMutexSpec.LogGrows | include/boost/sam/detail/impl/shared_mutex_impl.ipp:44-110 | Over every run the logs only grow: no request that was settled is settled again or taken back |
| SharedMutexSpec.BlockedReaderIsAWriter | include/boost/sam/detail/impl/shared_mutex_impl.ipp:83-92 | A blocking `lock_shared` agrees with the asynchronous one iff the mutex is not locked; where it has to block it does exactly what a blocking `lock` does |
| SharedMutexSpec.BlockedReaderStrandsTheMutex | include/boost/sam/detail/impl/shared_mutex_impl.ipp:83-110 | A concrete run: after a blocked `lock_shared` was granted and its `unlock_shared` called, nobody is left and the mutex stays locked |
| SharedMutexCallers.HonestExclusion | include/boost/sam/detail/impl/shared_mutex_impl.ipp:44-110 | Over every run in which each caller uses the unlock of the call it made, blocked `lock_shared`s included: with the flag set at most one caller is inside, without it nobody who owes an `unlock` and exactly the counted readers |
| SharedMutexCallers.RunInv | include/boost/sam/detail/impl/shared_mutex_impl.ipp:70-110 | The invariant behind this: flags and dues agree unless the last exclusive grant went to a blocked `lock_shared`, and then the flag is set and at most that caller owes an unlock |
| SharedMutexCallers.StepInv | include/boost/sam/detail/impl/shared_mutex_impl.ipp:44-110 | Each critical section, called by somebody who owes it, keeps that invariant |
| SharedMutexCallers.StrandedForEver | include/boost/sam/detail/impl/shared_mutex_impl.ipp:95-110 | Once the flag is set and nobody owes an unlock, no honest run ever grants anybody again |
| SharedMutexCallers.ReleasesDrain | include/boost/sam/detail/impl/shared_mutex_impl.ipp:44-110 | Every due release, of whichever kind the caller believes to owe, lowers what is owed by one and keeps both lines |
| SharedMutexCallers.DrainsIff | include/boost/sam/detail/impl/shared_mutex_impl.ipp:83-110 | When those inside and all who get in after them have left, in whatever order, the mutex is free and nobody waits iff it was not lost before and the last in the exclusive line is not a blocked `lock_shared`; otherwise it is lost |
| SharedMutexCallers.DoneExists | include/boost/sam/detail/impl/shared_mutex_impl.ipp:44-110 | Those inside can always leave, one after the other, until nobody owes anything |
| SharedMutexCallers.BlockedReaderMayBeHarmless | include/boost/sam/detail/impl/shared_mutex_impl.ipp:83-110 | A concrete run in which a blocked `lock_shared` is granted and the mutex drains all the same |
| MutexSpec.RunFair | include/boost/sam/detail/impl/mutex_impl.ipp:49-85 | Over every run, whoever calls what: grants in strict order of the requests, exactly one disposition for every request, and nobody waiting behind a free lock |
| MutexSpec.Exclusion | include/boost/sam/detail/impl/mutex_impl.ipp:49-85 | While only holders unlock there is at most one holder, there is one iff the flag is set, and a waiter always has a holder to wake it |
| MutexSpec.LogGrows | include/boost/sam/detail/impl/mutex_impl.ipp:49-85 | What has been settled in a run stays settled, and as what it was |
| SemaphoreSpec.RunBalanced | include/boost/sam/detail/impl/semaphore_impl.ipp:29-40 | Over every run from a nonnegative count: strict order, one disposition per request, `count_ >= 0` and positive only with an empty queue, and count plus grants equal the initial count plus the releases |
| SemaphoreSpec.ValueAccounts | include/boost/sam/detail/impl/semaphore_impl.ipp:96-103 | `value()` is initial count plus releases less the requests granted or still waiting; it is negative iff somebody waits and then counts the waiters; `count_` never exceeds initial count plus releases |
| SemaphoreSpec.LogGrows | include/boost/sam/detail/impl/semaphore_impl.ipp:29-40 | What has been settled in a run stays settled |
| Simulation.MutexIsSemaphoreOfOne | include/boost/sam/detail/impl/semaphore_impl.ipp:71-94 | Under any run in which only holders unlock, a mutex and a semaphore with initial count 1 have the same log, the same queue, and `locked_` iff `count_ == 0` |
| Simulation.StepSimulates | include/boost/sam/detail/impl/mutex_impl.ipp:74-85 | A step of the mutex and its counterpart on the semaphore keep the two in agreement iff the step is not the unlock of a free mutex |
| Simulation.SharedMutexIsMutex | include/boost/sam/detail/impl/shared_mutex_impl.ipp:19-67 | Driven by its exclusive operations only, the shared mutex is step for step the mutex it overrides, over every run |
| BarrierSpec.RunConserves | include/boost/sam/impl/basic_barrier.hpp:35-76 | For every interleaving of the two critical sections of `async_arrive`, and any initial count: counter plus waiters plus arrivals lost from this generation equal `init_`, strict order, one disposition each |
| BarrierSpec.Generations | include/boost/sam/impl/basic_barrier.hpp:40-75 | Over every run, the two critical sections of `async_arrive` interleaved with anything: with g generations opened, the first g * init_ counted arrivals are theirs, the counter is what the later ones have left of init_, only arrivals of an opened generation have been granted, and only later ones wait |
| BarrierSpec.GenerationsIffRoomy | include/boost/sam/detail/impl/barrier_impl.ipp:16-28 | After A counted arrivals A / init_ generations have opened and the counter is init_ - A % init_, iff every second half of a split arrival found at least two places left; the same condition decides whether all full generations have been opened, and whether the counter lies between 1 and init_ |
| BarrierSpec.FullGenerationIsThrough | include/boost/sam/detail/impl/barrier_impl.ipp:71-85 | Over every run, each arrival of an opened generation has been granted, unless it was cancelled or shut down before |
| BarrierSpec.LastArrival | include/boost/sam/detail/impl/barrier_impl.ipp:16-28 | For the last arrival, `try_arrive` does what the blocking `arrive` does by queueing itself, completing all and unlinking itself |
| BarrierSpec.PositiveIffRoomy | include/boost/sam/impl/basic_barrier.hpp:40-75 | Over all interleavings the counter is positive iff every second half of a split asynchronous arrival found at least two places left |
| BarrierSpec.Stuck | include/boost/sam/impl/basic_barrier.hpp:40-75 | Once the counter is used up without opening, no arrival of any later run succeeds |
| BarrierSpec.TwoSplitArrivalsWaitForEver | include/boost/sam/impl/basic_barrier.hpp:40-75 | A concrete input for the failure: two arrivals at a barrier for two, each split by the other, both wait and are never granted, whatever follows |
| BarrierSpec.LogGrows | include/boost/sam/detail/impl/barrier_impl.ipp:16-28 | What has been settled in a run stays settled |
| ConditionVariableSpec.RunOrderly | include/boost/sam/detail/impl/condition_variable_impl.ipp:19-43 | Over every run those who wait stand in order of arrival, and every waiter ever is either queued or settled exactly once |
| ConditionVariableSpec.SuccessIffWoken | include/boost/sam/detail/impl/condition_variable_impl.ipp:21-43 | Over every run a waiter has succeeded iff some notification found it waiting with its predicate true, for `notify_one` at the front of the queue |
| ConditionVariableSpec.NotifyOneSkipsNobody | include/boost/sam/detail/impl/condition_variable_impl.ipp:21-30 | When `notify_one` wakes a waiter everybody who came earlier has already left |
| ConditionVariableSpec.FilterMembers | include/boost/sam/detail/impl/condition_variable_impl.ipp:32-43 | `notify_all` wakes exactly the waiters whose predicate holds and leaves exactly the others |
| ConditionVariableSpec.FilterSplits | include/boost/sam/detail/impl/condition_variable_impl.ipp:32-43 | Nobody is lost or doubled by the filtering |
| ConditionVariableSpec.FilterIncreasing | include/boost/sam/detail/impl/condition_variable_impl.ipp:32-43 | Both those woken and those left keep the order they had |
| GuardedSpec.RunInv | include/boost/sam/detail/guarded.hpp:54-85 | Over all schedules of any number of guarded operations the invariant of the protocol holds: who is started was granted, who is turned away was denied, every run one gave one unit back, and every operation begun is asking, queued, in flight or told |
| GuardedSpec.Bounded | include/boost/sam/detail/guarded.hpp:54-85 | Free units plus operations about to start plus operations running equal n at all times, so at most n run at once, and whoever waits, waits for somebody who has a unit |
| GuardedSpec.UnitsAreConserved | include/boost/sam/detail/guarded.hpp:80-85 | Each unit is free, on its way to an operation, or with one that runs |
| GuardedSpec.AtMostOnce | include/boost/sam/detail/guarded.hpp:112-143 | Nobody is told twice, who is turned away never ran, and the guard was released once for each operation that ran |
| GuardedSpec.OwnResult | include/boost/sam/detail/guarded.hpp:80-85 | An operation completes as having run iff its inner operation finished, and with the result of that |
| GuardedSpec.SomethingCanHappen | include/boost/sam/detail/guarded.hpp:68-85 | While anything is left to do some step other than a new arrival or a cancellation is possible: the protocol never gets stuck |
| GuardedSpec.WorkEnds | include/boost/sam/detail/guarded.hpp:54-85 | Without new arrivals every step, in any order, uses up work, so all schedules end |
| GuardedSpec.AllDone | include/boost/sam/detail/guarded.hpp:54-85 | When no work is left every operation that began has completed exactly once and the guard is as free as at first |
| GuardedSpec.MovesWhileSomebodyIsLeft | include/boost/sam/detail/guarded.hpp:54-85 | Every schedule without new arrivals is bounded by the work there was, and can be carried on iff some operation that began has not completed |
| GuardedSpec.EverybodyGetsThrough | include/boost/sam/detail/guarded.hpp:54-85 | From every reachable state there is a schedule after which every operation that began has completed exactly once, nobody waits and all units are free |
| GuardedSpec.StepInv | include/boost/sam/detail/guarded.hpp:112-143 | Each step of the protocol keeps the invariant, for the semaphore and for the mutex |
| Services.Service.Shutdown | include/boost/sam/detail/impl/service.ipp:23-35 | Visits every member once, in the order of registration; each is off the service, its rings are empty, everybody who waited was dropped once, in order, as shut down; the ring of the service ends empty and both loops terminate |
| Services.Drain | include/boost/sam/detail/impl/service.ipp:25-34 | The loop over the ring moved to a local root meets exactly the members on it, in order, although each is shut down while the loop stands on it |
| Services.ShutdownRing | include/boost/sam/detail/impl/service.ipp:26-27 | Moving the entries to the local root leaves the service an empty ring |
| Services.Service.Register | include/boost/sam/detail/service.hpp:43-47 | A new member goes to the back of the ring and the service stays in order |
| Services.Service.Unregister | include/boost/sam/detail/service.hpp:88-93 | A destroyed member is taken out of the ring, and only it; once a shutdown has cleared its pointer nothing is touched |
| Services.Service.OperationKeeps | include/boost/sam/detail/service.hpp:37-47 | An operation on one member that takes nothing from the others leaves the service in order |
| Services.OpenMutex | include/boost/sam/detail/service.hpp:62-68 | A mutex constructed for a service is registered at its back and shares nothing with the others |
| Services.AsyncLockThrough | include/boost/sam/impl/basic_mutex.hpp:34-67 | An asynchronous lock of a registered mutex, which may put a new node on its ring, leaves the service in order |
| Services.OpenUseShutDown | include/boost/sam/detail/impl/service.ipp:23-35 | A service, a mutex registered with it, a holder and a waiter: after the shutdown the mutex is off the service and the waiter has been dropped once |
| Members.Retire | include/boost/sam/detail/impl/service.ipp:30-32 | Whatever the kind of member: the pointer is cleared, every queued operation on each of its rings is dropped exactly once with no success and no abort, and each is told that it was shut down |
| Ledgers.AnswerFifo | include/boost/sam/impl/basic_mutex.hpp:40-45 | An immediate grant keeps the order iff nobody waits |
| Ledgers.SettleAtFifo | include/boost/sam/detail/impl/mutex_impl.ipp:84 | A grant out of the queue keeps the order iff it goes to the front; an abort keeps it from anywhere |
| Ledgers.EnqueueSound | include/boost/sam/detail/impl/mutex_impl.ipp:18 | Queueing a request keeps order and single disposition |
| Ledgers.SettleAllSound | include/boost/sam/detail/basic_op.hpp:47-53 | Completing everybody front to back keeps order and single disposition, whatever the error code |
| Ledgers.CancelSound | include/boost/sam/impl/basic_mutex.hpp:54-64 | A cancellation keeps order and single disposition and grants nothing |
| Ledgers.Disposition | include/boost/sam/detail/impl/basic_op_model.hpp:64-80 | Every request ever issued is queued or has exactly one entry in the log, never both |
| Ledgers.Whereabouts | include/boost/sam/detail/impl/basic_op_model.hpp:64-80 | Every request is in exactly one of granted, denied and queued, and there once |
| Ledgers.NoBarging | include/boost/sam/detail/impl/mutex_impl.ipp:62-85 | Grants come in request order and nobody granted came after anybody who still waits |
| Ledgers.Conservation | include/boost/sam/detail/impl/mutex_impl.ipp:62-85 | Grants plus waiters are the requests made less those denied |
| Rings.Node.Unlink | include/boost/sam/detail/bilist_node.hpp:25-31 | The neighbours point at each other; the node keeps its own stale pointers |
| Rings.Node.LinkBefore | include/boost/sam/detail/bilist_node.hpp:33-39 | The node stands between the given one and its old predecessor |
| Rings.Node.Append | include/boost/sam/detail/bilist_node.hpp:33-39 | Linking before the root puts the node at the end of the sequence |
| Rings.Node.UnlinkFrom | include/boost/sam/detail/bilist_node.hpp:25-31 | Unlinking any node of a ring removes it, and only it, from the sequence |
| Rings.Node.Size | include/boost/sam/detail/bilist_node.hpp:41-47 | The walk counts the nodes and terminates |
| Rings.Node.Move | include/boost/sam/detail/bilist_node.hpp:53-67 | For every length, also 0 and 1, the new root owns the same sequence and the old root is an empty ring |
| Rings.RingUnique | include/boost/sam/detail/bilist_node.hpp:49-50 | The pointers of a ring determine its sequence |
| Rings.Node.Complete | include/boost/sam/detail/impl/basic_op_model.hpp:64-72 | The operation leaves the ring and its wait ends with the given code |
| Rings.Node.Drop | include/boost/sam/detail/impl/basic_op_model.hpp:74-80 | The operation leaves the ring and its wait ends as shut down |
| Holders.Holder.Move | include/boost/sam/detail/basic_op.hpp:70 | A moved holder hands over its waiters in order and is left empty, the two sharing nothing |
| Holders.Holder.AddWaiter | include/boost/sam/detail/impl/mutex_impl.ipp:18 | A waiter goes to the back of the queue |
| Holders.Holder.TakeBack | include/boost/sam/detail/impl/mutex_impl.ipp:63-70 | Linking and unlinking again leaves the ring as it was found |
| Holders.Holder.Size | include/boost/sam/detail/impl/semaphore_impl.ipp:102 | The length of the queue |
| Holders.Holder.CompleteFront | include/boost/sam/detail/impl/mutex_impl.ipp:84 | The first waiter is completed and leaves; its own pointers still tell its old neighbours |
| Holders.Holder.CompleteAt | include/boost/sam/detail/impl/basic_op_model.hpp:64-72 | Completing an operation anywhere in the ring removes only it |
| Holders.Holder.Abort | include/boost/sam/impl/basic_mutex.hpp:54-64 | A cancelled operation leaves from wherever it stands, as aborted |
| Holders.Holder.CompleteAll | include/boost/sam/detail/basic_op.hpp:47-53 | Everybody is completed front to back; afterwards every stale `prev_` is the root and the last stale `next_` is too |
| Holders.Holder.UnlinkAgain | include/boost/sam/detail/impl/barrier_impl.ipp:81 | Unlinking the last completed operation a second time writes what is there already |
| Holders.Holder.Destroy | include/boost/sam/detail/basic_op.hpp:38-45 | The destructor aborts whoever still waits, front to back |
| Holders.Holder.DropFront | include/boost/sam/detail/basic_op.hpp:60-66 | One turn of the shutdown loop drops the first waiter; its own write to the root changes nothing |
| Holders.Holder.DropAll | include/boost/sam/detail/basic_op.hpp:60-66 | The shutdown loop drops everybody front to back and terminates |
| Holders.Holder.Shutdown | include/boost/sam/detail/basic_op.hpp:55-67 | The ring is moved to a local root and dropped there, the holder is left empty |
| Mutexes.Mutex.Move | include/boost/sam/detail/mutex_impl.hpp:51-55 | The new mutex takes over flag and waiters in order, the old one is a free mutex with an empty ring |
| Mutexes.Drain | include/boost/sam/detail/impl/mutex_impl.ipp:74-85 | As many unlocks as there are waiters grant every one of them, in order, with the flag set throughout |
| Mutexes.MoveAndDrain | include/boost/sam/detail/mutex_impl.hpp:51-55 | After a move the unlocks of the new mutex grant the waiters of the old one in their order, and the old one is a free mutex |
| Mutexes.Mutex.TryLock | include/boost/sam/detail/mutex_impl.hpp:26-33 | Takes a free lock and fails otherwise, leaving no trace |
| Mutexes.Mutex.AsyncLock | include/boost/sam/impl/basic_mutex.hpp:34-67 | Granted at once when free, queued at the back otherwise |
| Mutexes.Mutex.Lock | include/boost/sam/detail/impl/mutex_impl.ipp:49-72 | Granted when free, with the ring as it was; otherwise queued with threads, refused without |
| Mutexes.Mutex.Unlock | include/boost/sam/detail/impl/mutex_impl.ipp:74-85 | The first waiter gets the lock without its being free in between; without waiters it is set free |
| Mutexes.Mutex.Cancel | include/boost/sam/impl/basic_mutex.hpp:54-64 | The operation leaves the queue as aborted, nothing else changes |
| Mutexes.Mutex.Shutdown | include/boost/sam/detail/mutex_impl.hpp:37-43 | All waiters are dropped front to back, the flag is left alone |
| Mutexes.Mutex.Destroy | include/boost/sam/detail/basic_op.hpp:38-45 | All waiters are aborted front to back |
| Semaphores.Semaphore.constructor | include/boost/sam/detail/impl/semaphore_impl.ipp:18-23 | A new semaphore has the initial count and no waiters |
| Semaphores.Semaphore.Move | include/boost/sam/detail/semaphore_impl.hpp:25-28 | Count and waiters go over; the source keeps the count and loses the waiters |
| Semaphores.Semaphore.Decrement | include/boost/sam/detail/impl/semaphore_impl.ipp:117-121 | Called only where there is something to take, so its assertion holds |
| Semaphores.Semaphore.TryAcquire | include/boost/sam/detail/impl/semaphore_impl.ipp:105-115 | Takes a unit if there is one, and leaves no trace otherwise |
| Semaphores.Semaphore.AsyncAcquire | include/boost/sam/impl/basic_semaphore.hpp:46-84 | Granted at once if there is a unit, queued at the back otherwise |
| Semaphores.Semaphore.Acquire | include/boost/sam/detail/impl/semaphore_impl.ipp:71-94 | Granted if there is a unit, with the ring as it was; otherwise queued with threads, refused without |
| Semaphores.Semaphore.Release | include/boost/sam/detail/impl/semaphore_impl.ipp:29-40 | The unit goes to the first waiter, or to the count when nobody waits |
| Semaphores.Semaphore.Value | include/boost/sam/detail/impl/semaphore_impl.ipp:96-103 | The count less the length of the ring, found by walking it |
| Semaphores.Semaphore.Cancel | include/boost/sam/impl/basic_semaphore.hpp:66-81 | The operation leaves the queue as aborted |
| Semaphores.Semaphore.Shutdown | include/boost/sam/detail/semaphore_impl.hpp:39-45 | All waiters are dropped front to back, the count is left alone |
| SharedMutexes.SharedMutex.Move | include/boost/sam/detail/shared_mutex_impl.hpp:70-76 | Flag, count and both rings go over; the source is unlocked but keeps its count of readers |
| SharedMutexes.SharedMutex.TryLock | include/boost/sam/detail/shared_mutex_impl.hpp:28-35 | Succeeds iff nobody holds the mutex in either way |
| SharedMutexes.SharedMutex.AsyncLock | include/boost/sam/impl/basic_shared_mutex.hpp:32-65 | Granted at once iff nobody holds the mutex, queued otherwise |
| SharedMutexes.SharedMutex.Lock | include/boost/sam/detail/impl/shared_mutex_impl.ipp:19-42 | Granted iff nobody holds the mutex, with the ring as it was; otherwise queued with threads, refused without |
| SharedMutexes.SharedMutex.Unlock | include/boost/sam/detail/impl/shared_mutex_impl.ipp:44-67 | All waiting readers are let in, in order; only without any does the first writer get the lock, or the mutex become free |
| SharedMutexes.SharedMutex.AdmitReaders | include/boost/sam/detail/impl/shared_mutex_impl.ipp:51-55 | The loop lets every waiting reader in once and in order, counts each, and terminates |
| SharedMutexes.SharedMutex.TryLockShared | include/boost/sam/detail/shared_mutex_impl.hpp:40-50 | Succeeds iff no writer holds the mutex |
| SharedMutexes.SharedMutex.AsyncLockShared | include/boost/sam/impl/basic_shared_mutex.hpp:75-108 | Granted at once iff no writer holds the mutex, queued on the second ring otherwise |
| SharedMutexes.SharedMutex.LockShared | include/boost/sam/detail/impl/shared_mutex_impl.ipp:70-93 | As the code does it: granted iff no writer holds the mutex, otherwise queued on the ring of the writers with threads, refused without |
| SharedMutexes.SharedMutex.UnlockShared | include/boost/sam/detail/impl/shared_mutex_impl.ipp:95-110 | The last reader out hands the lock to the first writer |
| SharedMutexes.SharedMutex.Cancel | include/boost/sam/impl/basic_shared_mutex.hpp:52-62 | A writer leaves its queue as aborted |
| SharedMutexes.SharedMutex.CancelShared | include/boost/sam/impl/basic_shared_mutex.hpp:95-105 | A reader leaves its queue as aborted |
| SharedMutexes.SharedMutex.Shutdown | include/boost/sam/detail/shared_mutex_impl.hpp:55-63 | Both rings are moved to local holders under the lock, then dropped, writers first |
| SharedMutexes.SharedMutex.Destroy | include/boost/sam/detail/basic_op.hpp:38-45 | Both rings are aborted |
| Barriers.Barrier.Move | include/boost/sam/detail/barrier_impl.hpp:29-33 | Counter and waiters go over; the source keeps its counter, with the waiters that used it up gone |
| Barriers.Barrier.TryArrive | include/boost/sam/detail/impl/barrier_impl.ipp:16-28 | The last arrival completes everybody and resets the counter; any other fails and changes nothing |
| Barriers.Barrier.Arrive | include/boost/sam/detail/impl/barrier_impl.ipp:59-86 | The blocking arrival queues and counts itself; as the last one it completes all, itself included, and its second unlink changes nothing |
| Barriers.Barrier.Approach | include/boost/sam/impl/basic_barrier.hpp:40-44 | The first critical section of `async_arrive` |
| Barriers.Barrier.Commit | include/boost/sam/impl/basic_barrier.hpp:46-75 | The second critical section: the arrival is counted and queued, whatever happened in between |
| Barriers.Barrier.AsyncArrive | include/boost/sam/impl/basic_barrier.hpp:35-76 | Both sections with nothing in between |
| Barriers.Barrier.Cancel | include/boost/sam/impl/basic_barrier.hpp:57-72 | The operation leaves the queue as aborted and its place in the count is not given back |
| Barriers.Barrier.Shutdown | include/boost/sam/detail/barrier_impl.hpp:52-58 | All waiters are dropped, the counter is left alone |
| ConditionVariables.ConditionVariable.Move | include/boost/sam/detail/condition_variable_impl.hpp:24-27 | The waiters go over in order, the source is left empty |
| ConditionVariables.ConditionVariable.AsyncWait | include/boost/sam/impl/basic_condition_variable.hpp:66-100 | The operation is queued at the back, even with its predicate true |
| ConditionVariables.ConditionVariable.NotifyOne | include/boost/sam/detail/impl/condition_variable_impl.ipp:21-30 | Completes the first waiter iff its predicate is true, and looks at nobody else |
| ConditionVariables.ConditionVariable.Ask | include/boost/sam/detail/impl/condition_variable_impl.ipp:38-41 | One turn of the loop: the cursor is moved on before the operation may be taken out, and still stands on the next one |
| ConditionVariables.ConditionVariable.Walk | include/boost/sam/detail/impl/condition_variable_impl.ipp:36-42 | The loop asks every waiter once, in order, completes exactly those whose predicate is true, in order, leaves a well-formed ring of the others in theirs, and terminates |
| ConditionVariables.ConditionVariable.NotifyAll | include/boost/sam/detail/impl/condition_variable_impl.ipp:32-43 | `notify_all` is that stable filter, and everybody it completes is told of success |
| ConditionVariables.ConditionVariable.Cancel | include/boost/sam/impl/basic_condition_variable.hpp:35-50 | The operation leaves the queue as aborted |
| ConditionVariables.ConditionVariable.Shutdown | include/boost/sam/detail/predicate_op.hpp:47-59 | All waiters are dropped front to back |
| ConditionVariables.ConditionVariable.Destroy | include/boost/sam/detail/predicate_op.hpp:39-45 | All waiters are aborted front to back |
| GuardedOps.Guarded.Begin | include/boost/sam/detail/guarded.hpp:54-63 | The initiation up to its first critical section: refused when cancelled already, started with a unit, or left to ask |
| GuardedOps.Guarded.Ask | include/boost/sam/detail/guarded.hpp:64-65 | The asynchronous request of an operation that got no unit |
| GuardedOps.Guarded.Init | include/boost/sam/detail/guarded.hpp:54-66 | The whole initiation, when nobody comes between its critical sections |
| GuardedOps.OneAfterTheOther | include/boost/sam/detail/guarded.hpp:54-85 | Two operations on a semaphore of one: the second waits, runs after the first, and each completes once with its own result |
| GuardedOps.Guarded.Resume | include/boost/sam/detail/guarded.hpp:68-78 | The handler of the request: an error ends the operation, success starts its inner one |
| GuardedOps.Guarded.Finish | include/boost/sam/detail/guarded.hpp:80-85 | The unit is given back first, then the operation completes with the result of the inner one |
| GuardedOps.Guarded.Cancel | include/boost/sam/impl/basic_semaphore.hpp:66-81 | Cancelling a waiting operation makes the guard turn it away |
| SharedMutexSpec.ReleaseLowersLoad | include/boost/sam/detail/impl/shared_mutex_impl.ipp:44-110 | One due release, of either kind and in any safe state, lowers the load by one and keeps the line of writers and the line of readers |
| MutexSpec.StepFair | include/boost/sam/detail/impl/mutex_impl.ipp:49-85 | Each critical section keeps order, single disposition, and no waiter behind a free lock, and never takes back what was logged |
| MutexSpec.StepExcludes | include/boost/sam/detail/impl/mutex_impl.ipp:74-85 | Each critical section keeps the number of holders at what the flag says, as long as only a holder unlocks |
| SemaphoreSpec.StepBalanced | include/boost/sam/detail/impl/semaphore_impl.ipp:29-40 | Each critical section keeps order, single disposition and the balance of units |
| BarrierSpec.StepConserves | include/boost/sam/impl/basic_barrier.hpp:40-75 | Each critical section, taken by itself, keeps counter plus waiters plus lost arrivals at `init_` |
| BarrierSpec.StepRoomy | include/boost/sam/impl/basic_barrier.hpp:46-75 | From a positive counter, a step makes it nonpositive iff it is the second half of a split arrival that finds one place left |
| BarrierSpec.RunInStep | include/boost/sam/detail/impl/barrier_impl.ipp:16-28 | The invariant behind this, over every run: counter, generations and arrivals agree, grants go to opened generations only, only the current one waits, and who was refused was never counted |
| ConditionVariableSpec.StepOrderly | include/boost/sam/detail/impl/condition_variable_impl.ipp:19-43 | Each critical section keeps the order of those who wait and single disposition |
| ConditionVariableSpec.StepWakes | include/boost/sam/detail/impl/condition_variable_impl.ipp:21-43 | A step grants exactly the waiters it finds with their predicate true |
| GuardedSpec.StepWorks | include/boost/sam/detail/guarded.hpp:54-85 | Every step but a new arrival uses up work |
| Ledgers.AnswerOnce | include/boost/sam/impl/basic_mutex.hpp:40-45 | A request answered on the spot has that one disposition |
| Ledgers.SettleAtOnce | include/boost/sam/detail/impl/basic_op_model.hpp:64-80 | A request that leaves the queue leaves it once and has one disposition |
| Rings.Node.constructor | include/boost/sam/detail/bilist_node.hpp:18 | A new node is an empty ring by itself |
| Mutexes.Mutex.constructor | include/boost/sam/detail/impl/mutex_impl.ipp:87-88 | A new mutex is free and nobody waits |
| SharedMutexes.SharedMutex.constructor | include/boost/sam/detail/shared_mutex_impl.hpp:25 | A new shared mutex is free and nobody waits |
| Barriers.Barrier.constructor | include/boost/sam/detail/barrier_impl.hpp:22-27 | The counter of a new barrier is its initial count |
| Barriers.Barrier.Open | include/boost/sam/detail/impl/barrier_impl.ipp:77-82 | Everybody is completed in order, the last one with stale pointers that both tell the root, and the counter is reset |
| Barriers.Barrier.Join | include/boost/sam/impl/basic_barrier.hpp:46-75 | An arrival takes a place of the counter and goes to the back of the queue |
| Barriers.Barrier.Destroy | include/boost/sam/detail/basic_op.hpp:38-45 | All waiters are aborted |
| Semaphores.Semaphore.Destroy | include/boost/sam/detail/basic_op.hpp:38-45 | All waiters are aborted front to back, the count is left alone |
| Services.Service.constructor | include/boost/sam/detail/impl/service.ipp:18-21 | A new service has no members |
| Places.SettledIff | include/boost/sam/detail/impl/basic_op_model.hpp:64-80 | With one disposition each, a request is settled with a code iff the log has that entry |
| Places.GrantedIff | include/boost/sam/detail/impl/basic_op_model.hpp:64-72 | A request stands as granted iff it is in the grant log |
| Places.UnbornIff | include/boost/sam/detail/impl/basic_op_model.hpp:64-80 | A request is in no place iff its number has not been given out, and in line iff it is queued |
| Places.EnqueueMeans | include/boost/sam/detail/impl/mutex_impl.ipp:18 | Queueing puts the new request behind all others and leaves everybody where they stood |
| Places.AnswerMeans | include/boost/sam/impl/basic_mutex.hpp:40-45 | Answering settles the new request and leaves everybody where they stood |
| Places.SettleAtMeans | include/boost/sam/detail/impl/basic_op_model.hpp:64-72 | Completing one in line settles it, moves those behind up by one, and touches nobody else |
| Places.SettleAllMeans | include/boost/sam/detail/basic_op.hpp:47-67 | Completing or dropping everybody settles each of those in line with that code, and nobody else |
| Places.CancelMeans | include/boost/sam/impl/basic_mutex.hpp:54-64 | A cancellation settles its request as aborted, if it is in line, and moves those behind up |
| Places.PlacesTell | include/boost/sam/detail/basic_op.hpp:36-67 | The places of all requests determine the queue and who was settled with what |
| MutexMeaning.StepMeans | include/boost/sam/detail/impl/mutex_impl.ipp:49-85 | In every state, what each call means to every request: a request is granted iff the mutex is free, else put behind the others or refused as its kind asks; an unlock grants the first in line; a cancellation, a shutdown and a destruction end waits with their own codes |
| MutexMeaning.StepFlags | include/boost/sam/detail/impl/mutex_impl.ipp:49-85 | In every state, the flag and the numbers after each call; a failed try changes nothing at all |
| MutexMeaning.RefusedIff | include/boost/sam/detail/impl/mutex_impl.ipp:51-60 | Over every run a request was refused iff it is a blocking call without threads that found the lock taken |
| SemaphoreMeaning.StepMeans | include/boost/sam/detail/impl/semaphore_impl.ipp:71-115 | In every state and with any count, what each call means to every request: granted iff there is a unit, else behind the others or refused as its kind asks; a release grants the first in line |
| SemaphoreMeaning.StepCounts | include/boost/sam/detail/impl/semaphore_impl.ipp:29-40 | In every state, whoever asks while there is a unit takes exactly one, a release adds one iff nobody waits, and a failed try changes nothing at all |
| SemaphoreMeaning.RefusedIff | include/boost/sam/detail/impl/semaphore_impl.ipp:73-82 | Over every run a request was refused iff it is a blocking call without threads that found no unit |
| SharedMutexMeaning.StepMeansToWriter | include/boost/sam/detail/impl/shared_mutex_impl.ipp:19-110 | In every state, what each call means to every request of the exclusive line: granted at once iff nobody holds the mutex in either way, else behind the others or refused; served by an unlock without waiting readers and by the last shared unlock |
| SharedMutexMeaning.StepMeansToReader | include/boost/sam/impl/basic_shared_mutex.hpp:75-108 | In every state, what each call means to every request of the shared line: granted at once iff no writer holds the mutex, an asynchronous one else behind the others; all served together by an unlock |
| SharedMutexMeaning.StepFlags | include/boost/sam/detail/shared_mutex_impl.hpp:28-50 | In every state, the flag and the count after each call: one more reader for each shared request that finds no writer, all waiting readers with an unlock, one less with a shared unlock |
| SharedMutexMeaning.StepNumbers | include/boost/sam/detail/shared_mutex_impl.hpp:28-50 | In every state, which calls take a number of which line; a failed try of either kind changes nothing at all |
| SharedMutexMeaning.SharedRequests | include/boost/sam/impl/basic_shared_mutex.hpp:75-108 | A shared request is granted at once iff no writer holds the mutex; an asynchronous one is never turned away but is then last in the queue |
| SharedMutexMeaning.RefusedIff | include/boost/sam/detail/impl/shared_mutex_impl.ipp:21-30 | Over every run an exclusive request was refused iff it is a blocking call without threads that found the mutex taken |
| SharedMutexMeaning.RefusedSharedIff | include/boost/sam/detail/impl/shared_mutex_impl.ipp:72-81 | Over every run a shared request was refused iff it is a blocking call without threads that found a writer |
| BarrierMeaning.StepMeans | include/boost/sam/detail/impl/barrier_impl.ipp:16-28 | In every state, what each call means to every operation: the last arrival lets everybody in line through and itself, other arrivals go behind the others, other tries mean nothing to anybody |
| BarrierMeaning.StepCounts | include/boost/sam/detail/impl/barrier_impl.ipp:19-27 | In every state, counter, generations, arrivals on record and callers between the two sections after each call; a failed try puts the counter back and changes nothing at all |
| BarrierMeaning.CountedArrivals | include/boost/sam/detail/impl/barrier_impl.ipp:71-85 | Over every run the arrivals on record are as many as the steps that arrived |
| BarrierMeaning.CounterCountsArrivals | include/boost/sam/detail/impl/barrier_impl.ipp:16-28 | The quotient and remainder form in terms of the arrivals really made, iff every second section had room |
| BarrierMeaning.TriesAloneFail | include/boost/sam/detail/impl/barrier_impl.ipp:16-28 | However many tries are made, without any other arrival, a barrier for other than one stays as it was |
| ConditionVariableMeaning.StepMeans | include/boost/sam/detail/impl/condition_variable_impl.ipp:19-43 | In every state, what each call means to every waiter: a wait goes behind the others, `notify_one` serves the first iff its predicate is true, `notify_all` serves exactly those whose predicate is true and moves each other one up past those |
| ConditionVariableMeaning.EverybodyWaits | include/boost/sam/impl/basic_condition_variable.hpp:66-100 | Over every run there are as many waiters as calls to wait |
| ConditionVariableMeaning.WaitsIff | include/boost/sam/detail/impl/condition_variable_impl.ipp:19-43 | Over every run a waiter is in the queue iff it has arrived and no later step woke, cancelled, shut down or destroyed it |
| GuardedMeaning.StepMeans | include/boost/sam/detail/guarded.hpp:54-85 | In every state, what each step means to every request at the guard: a beginner who finds a unit has it at once, one who asks gets one or goes behind the others, a finished operation serves the first in line |
| GuardedMeaning.StepDoes | include/boost/sam/detail/guarded.hpp:54-85 | Whose inner operation each step starts, what it tells the caller, and who still has to ask |
| GuardedMeaning.StepUnits | include/boost/sam/detail/guarded.hpp:80-85 | Each step takes or gives back at most one unit, and says which |
| GuardedMeaning.EnabledIff | include/boost/sam/detail/guarded.hpp:54-85 | A handler can run iff its operation was settled with that code and it has not run before; an inner operation ends once; whoever is in line can be cancelled |
| GuardedMeaning.BegunCounts | include/boost/sam/detail/guarded.hpp:54-65 | Over every schedule as many operations have begun as were initiated |
| GuardedMeaning.TurnedIff | include/boost/sam/detail/guarded.hpp:68-72 | Over every schedule an operation completes without having run iff its handler was told of that error |
| SharedMutexes.ReaderThenWriter | include/boost/sam/detail/shared_mutex_impl.hpp:28-50 | In any state, once a reader has been told that it is in, a writer who tries is kept out |
| SharedMutexes.WriterAfterReader | include/boost/sam/detail/shared_mutex_impl.hpp:28-51 | A writer who tries is kept out while a reader is inside, and let in when it has left |

## Left out

- Move assignment and `swap` of rings and primitives: they do not take the ring over, so there is no useful contract.
- `Rings.Node`: the class hierarchy of hooks, roots and wait operations is one class; the base class `service_member` is the two fields `base` and `service` of each primitive, and its downcast in the service is a lookup in the map `owner`.
- Shutdown takes the ring under the lock and drops it after the lock is released; the model counts this as one step, because the moved ring can no longer be reached by others.
- Handlers and predicates that call back into the primitive, or destroy it, while it completes or asks them.
- The race between a completion and a cancellation that waits for the lock: a cancellation is a step taken while its operation waits, and completing clears the slot.  A cancellation of type `none` is no step.
- Delivery of a posted handler: posting and dispatching append to the log.  For `guarded`, where it matters, delivery is a later step of its own.
- Executors, work guards, allocators, completion tokens, exceptions, and how the threading mode is chosen.
- Operating-system mutexes and condition variables, memory order and spurious wake-ups: a critical section is atomic and a blocked call returns when its `done` flag is set.
- Width of `int` and `uintptr_t` counters: they are unbounded here.  `ValueAccounts` bounds the count of a semaphore by initial count plus releases.
- `SharedMutexSpec.RunSafe`: asks that an unlock of either kind is called only against an outstanding grant of that kind; what an undue unlock does to the flags is modelled, but after one only `RunOnce` and `LogGrows` still promise something.  `SharedMutexCallers` replaces the condition by one on the callers.
- `GuardedSpec.Bounded`: supposes that all users of the guard go through `guarded`, and that the guard is not shut down or destroyed while operations are outstanding.
- `GuardedOps.Guarded.Finish`: results of inner operations are integers; argument packs and the conversion of error codes to exceptions are left out.
- `Services.Service.Register`: asks that the new member shares no node with those registered; `OpenMutex` shows that construction gives this, for the mutex.
- Destruction of the service itself, `lock_guard` and `shared_lock_guard`, which only wrap the operations modelled.
