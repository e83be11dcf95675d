# Pintos kernel, modelled and proved in Dafny

This project models the hard parts of a Pintos kernel and proves what they are for: the
priority scheduler with locks and priority donation, the readers-writers lock, the intrusive
list and its merge sort, 64-bit division from a 64-by-32 divide, the block allocator over the
page allocator over the bitmap, the hash table, the file store, heap sort and binary search,
the argument stack of a new process, and the ustar header writer and reader.

`dafny verify dfyconfig.toml` checks everything. Dafny 4.11.

## How it is built

Code that changes things in place is imperative: classes over fields, arrays and linked nodes,
with the source's loops. Each method is proved equal to a function on values, and the theorems
are about those functions, over all inputs or over all runs.

| files | what |
|---|---|
| `KernelState` | threads, locks, semaphores and the ready list as one state; each interrupt-off region of `synch.c` and `thread.c` is one function, `Apply` one step |
| `QueueInvariant`, `LockInvariant`, `ControlInvariant` | the three parts of the invariant: queues, lock queues and effective priorities, counting |
| `Donation` | the donation walk: what it keeps, what it restores, that early stopping loses nothing, when its assertion fails |
| `KernelRuns`, `KernelTheorems`, `Accounts`, `Fifo` | every step keeps the invariant; theorems over all runs; what semaphore values and priorities add up to; first come, first served |
| `HandOff` | runs in which a released lock goes straight to the woken waiter |
| `KernelWitnesses`, `KernelShortfalls`, `BaseFloor` | where the code falls short: concrete runs and exact conditions |
| `Kernel` | the class whose methods are the code of `synch.c` and `thread.c` |
| `RwLock` | the readers-writers monitor with any number of threads |
| `CondWait`, `CondWaitOrder`, `CondWaitWitnesses` | the same on the scheduler, with list elements: when the gap in `cond_wait` tears the lists, the order of the lists, and runs that tear one |
| `MergeSort`, `IntrusiveList`, `ReadyList`, `Queues` | the sort on sequences; the same on linked nodes; the ready list on linked nodes; list operations on values |
| `Arithmetic`, `Bits` | division; bitwise operations on natural numbers |
| `Bitmap`, `Malloc`, `MallocRuns`, `Allocator` | packed bitmap; the allocator's operations and invariant; runs and addresses; the class |
| `HashTable` | the table with rehashing and iteration |
| `InodeStore` | chunked reads and writes over sectors |
| `FileSystem`, `FileSystemRuns`, `SectorAccounts`, `FileSystemWitnesses`, `FileSystemObject` | sector ownership, directory and open inodes; runs; when every marked sector has an owner; runs that lose something; the class |
| `Sorting`, `ArgStack`, `Ustar` | heap sort and binary search on bytes; the argument stack; archive headers |

Memory running out, a device refusing a write and the like are arguments of the operations
(`allocOk`, `Env`), so a theorem is about all ways in which they may go unless it states a
condition on them. `Env` also says how many entries each scan of the directory can read before
a read fails for lack of memory. Hash functions and comparators are any that meet the stated
laws. Machine integers are unbounded except where their width matters, and there the wrap is
written out: the 8-bit `state` of a lock, all 64-bit arithmetic, the size field of an archive
header.

## What the code does not do

Where a property turned out false of the code, the model keeps the code and a lemma gives the
exact condition.

- The assertion at `src/threads/synch.c:452` can fail: between the two halves of a release a
  lock has waiters and no holder (`KernelWitnesses.PanicReachable`). `Donation.WalkPanicsIff` says
  exactly when, from any state, and `KernelTheorems.AcquirePanicsIff` the same of `lock_acquire`;
  `HandOff` proves that it cannot when a release hands over directly.
- A barging acquirer breaks the donation order exactly when a requester runs above it
  (`KernelRuns.OwnOrderedIff`, `KernelShortfalls.BargingReachable`).
- The 8-bit `state` wraps: with 128 to 255 requesters (modulo 256) nobody donates
  (`KernelTheorems.DonatesIff`, `KernelShortfalls.UnheardReachable`). With the barging this is all
  that breaks the order (`KernelTheorems.StepOrderedIff`, `KernelTheorems.RunOrderedIff`).
- Setting the base priority above a held lock lets the thread run below its base later
  (`BaseFloor.StepFloorIff`, `BaseFloor.ReleaseBelowBaseIff`, `KernelShortfalls.BelowBaseReachable`),
  and raising it above the effective priority with locks held breaks the effective-priority equation
  (`LockInvariant.SetPriorityLocks`, `KernelShortfalls.InexactReachable`).
- `cond_wait` puts the thread on the condition's list, then releases the guard, and only then blocks.
  A yield in between, by the timer or by the release itself, inserts the thread's one list element
  into the ready list while it is on the other, even if the same thread goes on running. That is
  exactly when a list is torn (`CondWait.StepTornIff`, `CondWait.RunWholeIff`); until then the monitor
  keeps its promises (`CondWait.RunIsMonitorRun`). `CondWaitWitnesses` has both runs, and shows that a
  higher thread waiting for the guard brings it about. `IntrusiveList.InsertListed` says what it
  does to the pointers.
- The comment at `src/threads/synch.c:432-445` says that a release may fall back to the base
  priority too early; the code does not, and `LockInvariant.DisownLocks` proves that it leaves the
  maximum over the remaining locks.
- `umod64` and `smod64` return 32 bits and `sdiv64` overflows on one pair
  (`Arithmetic.UMod64ExactIff`, `SMod64ExactIff`, `SDiv64ExactIff`).
- The comment in `src/threads/malloc.c:30-34` speaks of blocks over 2 kB; blocks over 1 kB already
  get their own pages, and the model follows the code.
- A failed `filesys_create` keeps the data sectors it took (`FileSystem.FailedCreateIff`,
  `FileSystemWitnesses.LosesSectors`). With the overwritten entries of the next point this is all that
  leaves a marked sector without an owner (`SectorAccounts.StepExactIff`, `SectorAccounts.RunExactIff`).
- The comment at `src/filesys/directory.c:135-137` says that a short read happens only at the end of
  the file; a failed allocation in `inode_read_at` gives one too. Then `dir_add` can add a name that
  is there already, or overwrite another entry: `FileSystem.CreateNamesIff`, `FileSystem.CreateEntriesIff`
  and `FileSystemRuns.RunNamesIff` give the exact conditions, `FileSystemWitnesses.NameTwice` a run.
- `start_process` does not test whether the argument stack fits its page; `ArgStack.BuildStack` says
  exactly when its stores leave it, and `ArgStack.TooManyWords` has such a line.
- A regular file of negative size makes a header that reads as too large (`Ustar.RoundTrip`).

## Model

| member | source | states |
|---|---|---|
| KernelTheorems.RunInv | src/threads/synch.c:179-262 | in every state of every run of any interleaving of acquire, try, release, down, up, yield, dispatch, priority change and thread creation, the queue, lock and control invariants hold |
| KernelTheorems.MutualExclusion | src/threads/synch.c:179-262 | in every state of every run a lock is in a thread's lock queue exactly when that thread holds it, no queue repeats a lock, `state` is the wrapped 1 - held - requesters, and semaphore value + held + releasing is 1 |
| KernelTheorems.NobodyStranded | src/threads/synch.c:62-114 | in every state of every run, while somebody sleeps on a semaphore its value is at most the number of woken threads that have not tested it again, all of them running or ready; so a positive value has a taker |
| KernelTheorems.QueuesSorted | src/threads/synch.c:66-71 | in every state of every run the ready list and every waiter list is free of repetition and sorted by descending effective priority, so its head is a maximum |
| KernelTheorems.CalmRunExact | src/threads/thread.c:425-444 | in every run where nobody raises its base above its effective priority while holding locks, each effective priority is the head and maximum of the held locks' priorities, or the base priority without locks |
| KernelTheorems.DonatesIff | src/threads/synch.c:187-192 | with the lock held, the 8-bit `state` goes negative, and so donation happens, exactly while the number of requesters modulo 256 is below 128 |
| KernelTheorems.AcquirePanicsIff | src/threads/synch.c:179-207 | `lock_acquire` fails the assertion of the donation walk if and only if the lock is held, donation takes place, and the chain of waiting from the lock leads to one without a holder through locks and holders all below the caller |
| KernelTheorems.StepOrderedIff | src/threads/synch.c:179-262 | a step keeps "requester at most at its lock's priority, lock at most at its holder's" if and only if it is fair: a lock is taken only by a requester nobody else requesting it runs above, and whoever asks for a held lock is donated for (fewer than 128 requesters, modulo 256) or does not run above it |
| KernelTheorems.RunOrderedIff | src/threads/synch.c:179-262 | a run has that order in all its states if and only if all its steps are fair |
| KernelTheorems.FairRunOrdered | src/threads/synch.c:446-489 | so in every run of fair steps nobody waits, along a chain of any length, for a lower thread |
| Accounts.SemaValue | src/threads/synch.c:62-114 | in every state of every run the value of a semaphore that is no lock's is its initial value, plus the ups so far, minus the tests in `sema_down` and `sema_try_down` that found it positive |
| Accounts.StepValue | src/threads/synch.c:62-114 | one step raises the value of a semaphore by one exactly if it is an up of it, lowers it by one exactly if it is a test of it that finds it positive, and leaves it alone otherwise |
| Accounts.TestIs | src/threads/synch.c:62-76 | a thread gets past its test in `sema_down` exactly when the value is positive; otherwise it is among the waiters and no longer runs |
| Accounts.AcquireTakesIff | src/threads/synch.c:179-207 | `lock_acquire` has the lock at once, at the caller's priority, exactly when nobody held it or was still releasing it; otherwise the caller is left among the waiters |
| Accounts.ReleaseIs | src/threads/synch.c:239-258 | `lock_release` leaves the lock without a holder and the caller with exactly its other locks, at the highest priority among those, or at its base priority if there are none |
| Accounts.OwnPriority | src/threads/thread.c:425-444 | in every state of every run a thread's base priority is the one it was created with or last set, and a thread that holds no lock runs at exactly that |
| Accounts.StepOwn | src/threads/thread.c:198-257 | one step: threads come with `thread_create` alone, with the given priority; the base priority changes by `thread_set_priority` alone; without locks the effective one is the base |
| Fifo.FirstComeFirstServed | src/threads/synch.c:66-71 | in every run, whoever has stood in the ready list or a waiter list at some priority since before another thread came to that list and priority is ahead of it as long as both are there; donations and wake-ups included |
| Fifo.StepSteady | src/threads/synch.c:62-262 | each step keeps threads of equal priority that stay in a queue in order and puts whoever comes, or is raised, behind those of its priority |
| Fifo.WalkSteady | src/threads/synch.c:446-489 | so does a donation walk of any length |
| KernelRuns.InitialInv | src/threads/thread.c:109-123 | the initial state, one running thread and free locks, meets all invariants |
| KernelRuns.StepKeeps | src/threads/synch.c:62-262 | every enabled step that does not panic keeps all invariants, and the effective-priority equation survives it if and only if it does not raise the base of a lock-holding thread above its effective priority |
| KernelRuns.OwnOrderedIff | src/threads/synch.c:202-205 | taking a free lock keeps the donation order if and only if no other requester runs above the taker |
| KernelRuns.WalkAtTest | src/threads/synch.c:190-195 | after the donation walk the requester is still about to test the semaphore, with all invariants and the order restored and only priorities raised |
| KernelRuns.SleepKeeps | src/threads/synch.c:62-76 | going to sleep in `sema_down` keeps all invariants and exactness, and the order holds after it if and only if it held before |
| KernelRuns.TakeKeeps | src/threads/synch.c:195-205 | a successful test in `sema_down`, with the rest of `lock_acquire`, keeps all invariants; the order exactly if the taker is a top requester |
| KernelRuns.AcquireKeeps | src/threads/synch.c:179-207 | `lock_acquire` up to sleeping or owning keeps all invariants |
| KernelRuns.TryAcquireKeeps | src/threads/synch.c:215-232 | `lock_try_acquire` keeps all invariants; on success the order survives exactly if no requester runs above the caller |
| KernelRuns.DisownKeeps | src/threads/synch.c:239-258 | the interrupt-off half of `lock_release` keeps all invariants, exactness and the order |
| KernelRuns.MovingKeeps | src/threads/synch.c:99-114 | `sema_up`, yielding, dispatching and the end of `lock_release` only move threads between queues and keep all invariants, exactness and the order |
| KernelRuns.SetPriorityKeeps | src/threads/thread.c:425-444 | changing the base priority keeps all invariants and the donation order |
| KernelRuns.CreateKeeps | src/threads/thread.c:198-257 | creating a thread keeps all invariants, exactness and the order |
| Donation.TurnKeeps | src/threads/synch.c:451-488 | one turn of the donation loop keeps queues, lock queues and exactness, and only raises lower priorities, of locks and of threads that hold some, to the donated one |
| Donation.WalkKeeps | src/threads/synch.c:446-489 | the whole walk, over a chain of any length, does the same |
| Donation.WalkOrders | src/threads/synch.c:446-489 | if every edge but the donor's is in order before the walk, every edge is in order after it |
| Donation.WalkIsNaive | src/threads/synch.c:446-489 | stopping early loses nothing: if every edge but the donor's is in order, the walk, where it does not panic, ends in the state of the naive walk that raises every lock and holder on the chain, on every wait graph, cycles included |
| Donation.NoInversionOnChain | src/threads/synch.c:446-489 | in an ordered state nobody on a chain of any length waits for a holder below it |
| Donation.WalkPanicsIff | src/threads/synch.c:452 | from any state whatever, the assertion on the donee fails if and only if the chain of waiting from the lock leads to a lock without holder through locks and holders all below the donor |
| KernelState.TurnShrinks | src/threads/synch.c:454-488 | each turn raises one lock to the donated priority for good, so the walk terminates on every wait graph |
| HandOff.SettledNoPanic | src/threads/synch.c:452 | where every requested lock is held, `lock_acquire` does not fail the assertion, whatever the priorities and however many requesters |
| HandOff.CoarseKeeps | src/threads/synch.c:239-262 | with a release as direct hand-off to the popped waiter, every step succeeds and keeps the invariants and the settled form; the order survives exactly the steps that do not ask in vain for a lock with 128 to 255 requesters (modulo 256) |
| HandOff.HandOffRunSafe | src/threads/synch.c:179-262 | in every state of every hand-off run every requested lock is held and no next step panics |
| HandOff.HandOffRunOrderedIff | src/threads/synch.c:179-262 | a hand-off run has the donation order in all its states if and only if nobody asks in vain in it |
| HandOff.HandOffRunOrdered | src/threads/synch.c:179-262 | and then: requester at most its lock, lock at most its holder, no inversion on any chain |
| KernelWitnesses.WaitingForFreePanics | src/threads/synch.c:452 | acquiring a lock whose lower holder waits for a lock nobody holds at the moment fails the assertion |
| KernelWitnesses.PanicReachable | src/threads/synch.c:239-262 | a run of nine steps from the initial state reaches such a state |
| KernelShortfalls.BargingReachable | src/threads/synch.c:239-262 | a run of nine steps, with the yields the code makes, to a state in order where the running thread takes a lock that a higher one has been woken for, and the order is gone |
| KernelShortfalls.UnheardReachable | src/threads/synch.c:187-192 | a run to a state in order with 128 requesters of a held lock, where a thread above the lock asks for it, no donation is made, and the order is gone |
| KernelShortfalls.CrowdReachable | src/threads/synch.c:187-192 | for every k, a run to a state with k sleepers on a held lock |
| KernelShortfalls.InexactReachable | src/threads/thread.c:425-444 | a run in which a change of base priority breaks the effective-priority equation |
| KernelShortfalls.BelowBaseReachable | src/threads/synch.c:251-255 | a run in which a release leaves the thread running below its base priority |
| BaseFloor.StepFloorIff | src/threads/thread.c:425-444 | "nobody and no held lock is below its base priority" survives a step if and only if the step does not put the base above a held lock |
| BaseFloor.ModestRunFloor | src/threads/synch.c:251-255 | without such steps no thread ever runs below its own base priority |
| BaseFloor.ReleaseBelowBaseIff | src/threads/synch.c:251-255 | a release leaves the thread running below its base priority if and only if it goes on holding locks, all of them below that base |
| QueueInvariant.InsertDesc | src/lib/kernel/list.c:375-387 | ordered insertion keeps a queue sorted and puts a thread behind all of at least its priority and ahead of all below: first come, first served among equals |
| QueueInvariant.SchedulePicksMax | src/threads/thread.c:620-625 | the scheduler picks a ready thread of highest effective priority |
| QueueInvariant.WakePicksMax | src/threads/synch.c:104-107 | `sema_up` wakes a waiter of highest effective priority and makes it ready |
| QueueInvariant.RaiseThreadQueues | src/threads/synch.c:471-478 | re-queueing a raised thread keeps the list it stands in sorted, whichever that is |
| QueueInvariant.SleepQueues | src/threads/synch.c:66-71 | sleeping keeps every queue in order and every thread in exactly the queue it names |
| QueueInvariant.WakeQueues | src/threads/synch.c:99-114 | so does waking |
| QueueInvariant.YieldQueues | src/threads/thread.c:385-397 | so does yielding |
| LockInvariant.HeldBelowHolder | src/threads/synch.c:491-495 | no held lock is above its holder: the head of the lock queue is the maximum |
| LockInvariant.OwnLocks | src/threads/synch.c:202-205 | taking a lock keeps every lock queue exact and sorted, and the effective-priority equation |
| LockInvariant.DisownLocks | src/threads/synch.c:245-258 | releasing leaves exactly the maximum over the locks still held, and the base priority after the last: all donations are returned |
| LockInvariant.DonateTurnLocks | src/threads/synch.c:454-472 | a turn of the donation keeps lock queues exact and sorted, and the equation |
| LockInvariant.SetPriorityLocks | src/threads/thread.c:425-444 | a change of base keeps the equation if and only if it does not go above the effective priority of a thread with locks |
| ControlInvariant.RequestControl | src/threads/synch.c:187-189 | joining the requesters counts one more in `state` and nothing else |
| ControlInvariant.TakeControl | src/threads/synch.c:195-205 | a positive value of a lock's semaphore means no holder and no releaser; taking it keeps the counts |
| ControlInvariant.TryAcquireControl | src/threads/synch.c:215-232 | the same for the try |
| ControlInvariant.DisownControl | src/threads/synch.c:245-258 | releasing moves the thread from holder to releaser in the counts |
| ControlInvariant.WakeControl | src/threads/synch.c:99-114 | `sema_up` adds one value and one thread on its way to it |
| ControlInvariant.FinishReleaseControl | src/threads/synch.c:261 | the end of `lock_release` turns the releaser into value |
| ControlInvariant.SleepControl | src/threads/synch.c:62-76 | sleeping keeps the counts and strands nobody |
| ControlInvariant.TryDownControl | src/threads/synch.c:81-97 | `sema_try_down` keeps the counts and strands nobody |
| KernelObject.Kernel.InsertByPriority | src/lib/kernel/list.c:375-387 | the loop of `list_insert_ordered` with `thread_before` finds the specified place |
| KernelObject.Kernel.ThreadEnqueue | src/threads/thread.c:299-310 | the ready list stays sorted, with one more thread, behind all of at least its priority and ahead of all below it |
| KernelObject.Kernel.ScheduleNext | src/threads/thread.c:620-625 | the next thread is a maximum of the old ready list and off it; nobody runs only if nobody was ready |
| KernelObject.Kernel.ThreadYield | src/threads/thread.c:385-397 | is the specified yield and keeps the invariants; afterwards nobody ready is above the running thread, and nobody is lost |
| KernelObject.Kernel.ThreadSetPriority | src/threads/thread.c:425-444 | the base priority is the new one; so is the effective one without locks, and with locks it is the greater of the old and the new; nothing else changes, nothing at all if the base was that already; the invariants are kept |
| KernelObject.Kernel.ThreadCreate | src/threads/thread.c:198-257 | without a page nothing changes; with one there is one more thread, with both priorities as given, ready in its place; the invariants are kept |
| KernelObject.Kernel.SemaDown | src/threads/synch.c:62-76 | a positive value is one less and the caller runs on; otherwise the caller is among the waiters, behind those of at least its priority, and the highest ready thread runs; the invariants are kept |
| KernelObject.Kernel.SemaResume | src/threads/synch.c:62-76 | the same of the later test by a woken thread |
| KernelObject.Kernel.SemaTryDown | src/threads/synch.c:81-93 | succeeds exactly when the value is positive, which is then one less; nothing else changes |
| KernelObject.Kernel.SemaUp | src/threads/synch.c:99-114 | the value is one more; the first waiter, above whom nobody waited, is off the list and ready in its place; nothing else changes and the invariants are kept |
| KernelObject.Kernel.DonatePriAcquire | src/threads/synch.c:446-489 | the loop over donor, donee and lock, in place, computes the recursive walk and reports exactly its panics |
| KernelObject.Kernel.LockAcquire | src/threads/synch.c:179-207 | is the specified acquisition, panics included; the caller has the lock exactly when nobody held it or was still releasing it; the invariants are kept |
| KernelObject.Kernel.LockTryAcquire | src/threads/synch.c:215-232 | succeeds exactly when nobody holds the lock or is still releasing it, and then the caller holds it |
| KernelObject.Kernel.LockReleaseRegion | src/threads/synch.c:239-258 | the lock has no holder, and the caller is left with its other locks at the highest priority among them, or its base without any; the invariants are kept |
| KernelObject.Kernel.LockReleaseUp | src/threads/synch.c:261 | the value is one more, and the first waiter, above whom nobody waited, is ready in its place; the invariants are kept |
| RwLock.Lock.AcquireTurn | src/threads/synch.c:286-303 | one turn of the acquire loop is a step of the monitor; it waits exactly if a writer is in or waiting, for a reader, or anybody is in, for a writer |
| RwLock.Lock.AfterWait | src/threads/synch.c:288-300 | coming back from the condition is a step of the monitor: the caller alone leaves the waiting threads, and the counters still count them |
| RwLock.Lock.Release | src/threads/synch.c:309-329 | a release is a step of the monitor, and wakes exactly: nobody while readers remain; one sleeping writer, if there is one, while writers wait; otherwise all sleeping readers if a writer leaves. So a sleeping writer has one on its way, and no reader is left asleep when no writer waits |
| RwLock.StepKeeps | src/threads/synch.c:282-329 | every step of every thread keeps: AR, AW, WR, WW count the threads in those places, the guard has one holder, writers exclude, and nobody asleep is without hope; `cond_wait` is one step here |
| RwLock.RunKeeps | src/threads/synch.c:274-329 | so in every run of any number of threads |
| RwLock.WriterAlone | src/threads/synch.c:282-306 | in every run, when a writer is in, no other reader or writer is |
| RwLock.NobodyForgotten | src/threads/synch.c:309-329 | in every run, with the guard free: a sleeping writer implies somebody inside or a signalled writer, a sleeping reader implies AW + WW > 0 |
| RwLock.NoDeadlock | src/threads/synch.c:282-329 | in every run, as long as somebody sleeps, an awake thread inside the protocol can take a step |
| CondWait.StepTornIff | src/threads/synch.c:366-380 | a step inserts an element that is on a list if and only if it puts a thread in the gap of `cond_wait`, listed and not yet blocked, on the ready list; any other step fails no assertion, keeps every element on the one list where it belongs, and is at most one step of the monitor |
| CondWait.RunWholeIff | src/threads/synch.c:366-380 | in every run, whatever the priorities and interrupts, the lists are whole if and only if no thread in the gap has been put on the ready list, and the assertion of `thread_unblock` never fails |
| CondWait.RunIsMonitorRun | src/threads/synch.c:282-431 | as long as the lists are whole, the monitor's part of a run is one of the runs above |
| CondWait.RunWriterAlone | src/threads/synch.c:282-306 | so in every whole state of every run a writer that is in shares with nobody |
| CondWait.RunNobodyStuck | src/threads/synch.c:282-431 | and if somebody sleeps on a condition or on the guard, some thread in the protocol runs, is ready, or sleeps inside for reasons of its own |
| CondWait.UpThreads | src/threads/synch.c:99-114 | releasing the guard makes its first waiter ready and strands nobody |
| CondWait.SignalThreads | src/threads/synch.c:389-406 | `cond_signal`, with its sorting, wakes one sleeping writer if there is one, and nobody else |
| CondWait.SignalHighest | src/threads/synch.c:389-406 | the writer it wakes runs highest of all that sleep at that moment, the first on the list among equals; it alone leaves the list and is ready |
| CondWait.BroadcastThreads | src/threads/synch.c:414-430 | `cond_broadcast` wakes exactly the sleeping readers |
| CondWaitOrder.InsertedDesc | src/lib/kernel/list.c:375-387 | a thread goes behind all of at least its priority and ahead of all below it |
| CondWaitOrder.ScheduleDesc | src/threads/thread.c:620-625 | whoever is dispatched is of the highest priority on the ready list |
| CondWaitOrder.RunDesc | src/threads/synch.c:366-431 | in every run in which priorities do not change, all lists are sorted in every whole state, so the thread that runs or is woken next is of the highest priority there |
| CondWaitWitnesses.HighWaiterTears | src/threads/synch.c:99-114 | if a thread above it waits for the guard, a thread that has put itself on the condition's list tears the lists with its own next steps |
| CondWaitWitnesses.OwnYieldTears | src/threads/synch.c:366-380 | a run to such a state, and the step that tears |
| CondWaitWitnesses.YieldToItselfTears | src/threads/thread.c:385-397 | a run in which the timer makes a thread in the gap yield while nobody else is ready, and the step tears |
| MergeSort.MergeSorted | src/lib/kernel/list.c:318-334 | merging two sorted runs gives a sorted one |
| MergeSort.MergeMembers | src/lib/kernel/list.c:318-334 | of the same elements |
| MergeSort.MergeStable | src/lib/kernel/list.c:318-334 | with equivalent elements in their old order |
| MergeSort.PassFewerRuns | src/lib/kernel/list.c:339-370 | a pass turns k maximal runs into at most the ceiling of k/2 |
| MergeSort.PassMembers | src/lib/kernel/list.c:339-370 | and keeps the elements |
| MergeSort.PassStable | src/lib/kernel/list.c:339-370 | and the order of equivalent ones |
| MergeSort.PassHalves | src/lib/kernel/list.c:339-370 | the number of merges a pass counts is half its runs, rounded up |
| MergeSort.SortCorrect | src/lib/kernel/list.c:339-370 | repeated passes give a sorted, stable permutation for every strict weak order |
| IntrusiveList.ListSplice | src/lib/kernel/list.c:157-175 | moving a range of nodes leaves the chain with prev and next mutually inverse, the nodes in the specified order |
| IntrusiveList.ListInsert | src/lib/kernel/list.c:144-152 | inserting a node by four pointer writes puts it at that place in the chain |
| IntrusiveList.InsertListed | src/lib/kernel/list.c:144-152 | inserting a node that is on another list puts it on the new one, and leaves no list at the head of the other: following it leads into the new one |
| IntrusiveList.ListRemove | src/lib/kernel/list.c:215-220 | unlinking a node takes exactly it out of the chain |
| IntrusiveList.FindEndOfRun | src/lib/kernel/list.c:300-311 | finds the end of the maximal nondecreasing run |
| IntrusiveList.InplaceMerge | src/lib/kernel/list.c:318-334 | merges two adjacent runs in place into the specified merge |
| IntrusiveList.ListPass | src/lib/kernel/list.c:352-366 | one pass over the nodes is the specified pass, and returns its number of output runs |
| IntrusiveList.List.constructor | src/lib/kernel/list.c:54-60 | an empty list of two sentinels |
| IntrusiveList.List.PushFront | src/lib/kernel/list.c:179-181 | adds at the front |
| IntrusiveList.List.PushBack | src/lib/kernel/list.c:185-187 | adds at the back |
| IntrusiveList.List.PopFront | src/lib/kernel/list.c:224-228 | takes the front node |
| IntrusiveList.List.Remove | src/lib/kernel/list.c:215-220 | takes exactly that node out |
| IntrusiveList.List.InsertOrderedElem | src/lib/kernel/list.c:375-387 | inserts in front of the first element it is less than |
| IntrusiveList.List.Sort | src/lib/kernel/list.c:339-370 | sorts in place: sorted, the same nodes, equivalent ones in their old order, links intact |
| IntrusiveList.List.Reverse | src/lib/kernel/list.c:264-283 | reverses by swapping every node's two pointers, links intact |
| ReadyList.ReadyQueue.Enqueue | src/threads/thread.c:299-310 | on linked elements `thread_enqueue` is the specified insertion into the ready list |
| ReadyList.ReadyQueue.Next | src/threads/thread.c:620-625 | on linked elements the scheduler takes the first thread off the ready list |
| ReadyList.ReadyQueue.Requeue | src/threads/synch.c:471-478 | on linked elements the move of a raised thread within the ready list is the specified one |
| Queues.InsertIn | src/lib/kernel/list.c:375-387 | ordered insertion adds exactly the element |
| Queues.RemoveOut | src/lib/kernel/list.c:215-220 | removal takes out exactly the element |
| Arithmetic.Nlz | src/lib/arithmetic.c:37-63 | narrowing by halves counts the leading zeros |
| Arithmetic.LeadingZerosNormalize | src/lib/arithmetic.c:37-63 | shifting left by that count brings the top bit to position 31 |
| Arithmetic.ShortDivision | src/lib/arithmetic.c:93-98 | two 64-by-32 divides in a row give the 64-bit quotient, and neither traps |
| Arithmetic.EstimateOk | src/lib/arithmetic.c:102-107 | the normalised estimate is the quotient or one more, and its divide does not trap |
| Arithmetic.Correction | src/lib/arithmetic.c:108 | the wrapped comparison after the decrement picks the quotient |
| Arithmetic.UDiv64 | src/lib/arithmetic.c:67-111 | equals floor(n / d) for every 64-bit n and nonzero d |
| Arithmetic.UMod64ExactIff | src/lib/arithmetic.c:115 | `umod64` is the remainder for every dividend if and only if the divisor is at most 2^32 |
| Arithmetic.SDiv64ExactIff | src/lib/arithmetic.c:119-124 | `sdiv64` truncates toward zero if and only if the pair is not (-2^63, -1) |
| Arithmetic.SMod64ExactIff | src/lib/arithmetic.c:128 | `smod64` is the remainder for every dividend if and only if the divisor's magnitude is at most 2^31 |
| Bits.AndLowMask | src/lib/kernel/hash.c:255-258 | masking with 2^k - 1 is the remainder modulo 2^k |
| Bits.AndMask | src/lib/kernel/bitmap.c:153-157 | masking with one bit tests that bit |
| Bitmaps.FillBack | src/threads/palloc.c:103-126 | setting free bits and clearing them again is no change |
| Bitmaps.FirstFitUnique | src/lib/kernel/bitmap.c:235-247 | the result of a scan is determined |
| Bitmaps.Bitmap.constructor | src/lib/kernel/bitmap.c:59-71 | all bits off |
| Bitmaps.Bitmap.Test | src/lib/kernel/bitmap.c:153-157 | reads the bit |
| Bitmaps.Bitmap.Set | src/lib/kernel/bitmap.c:108-137 | changes that bit of that word and no other |
| Bitmaps.Bitmap.SetMultiple | src/lib/kernel/bitmap.c:169-178 | changes that group and nothing else |
| Bitmaps.Bitmap.Contains | src/lib/kernel/bitmap.c:198-209 | is true exactly if some bit of the group has the value |
| Bitmaps.Bitmap.Scan | src/lib/kernel/bitmap.c:235-247 | returns the first group of equal bits, and none only if there is none |
| Bitmaps.Bitmap.ScanAndFlip | src/lib/kernel/bitmap.c:256-261 | takes that group; without one the bitmap is unchanged |
| Malloc.DescFor | src/threads/malloc.c:94-96 | the smallest descriptor big enough, none only if all are too small |
| Malloc.TakeInv | src/threads/malloc.c:136-141 | handing out the front free block keeps the allocator's invariant; the block was not live |
| Malloc.AddArenaInv | src/threads/malloc.c:116-134 | a new arena adds its blocks to the free list and its page to the accounts |
| Malloc.TakeBigInv | src/threads/malloc.c:97-111 | a big block takes pages nobody has |
| Malloc.ReturnInv | src/threads/malloc.c:215-219 | a freed block is back on its list and counted |
| Malloc.DropInv | src/threads/malloc.c:219-228 | a full arena has exactly its number of free blocks (the assertion) and leaves with all of them |
| Malloc.PutBackBigInv | src/threads/malloc.c:231-235 | freeing a big block frees exactly its pages, all marked before |
| MallocRuns.MallocKeeps | src/threads/malloc.c:83-142 | `malloc` hands out a block that was not live, or nothing and then changes nothing |
| MallocRuns.MallocFailsIff | src/threads/malloc.c:83-142 | for a size above 0 `malloc` fails if and only if the smallest descriptor that is big enough has no free block and every page is taken, or, with no such descriptor, no run of pages that holds size and header is free |
| MallocRuns.MallocWhere | src/threads/malloc.c:97-141 | what it hands out: the front free block of the smallest big enough descriptor, else the first block of the lowest free page; for a big block the lowest run of free pages |
| MallocRuns.FreedIsNext | src/threads/malloc.c:215-219 | a freed block is the one `malloc` hands out next for its descriptor, as long as its arena stays |
| MallocRuns.FreeKeeps | src/threads/malloc.c:199-237 | `free` of a live block takes out exactly that block |
| MallocRuns.GetPagesKeeps | src/threads/palloc.c:65-91 | pages given to the rest of the kernel are not the block allocator's |
| MallocRuns.FreePagesKeeps | src/threads/palloc.c:103-126 | freeing them keeps the accounts; the assertion that all are marked holds |
| MallocRuns.ArenaOfAddress | src/threads/malloc.c:240-260 | from a block's address `block_to_arena` finds its arena, and its alignment assertions hold |
| MallocRuns.SlotsApart | src/threads/malloc.c:255-260 | two different blocks, live or free, share no byte |
| MallocRuns.LiveIsSafe | src/threads/malloc.c:83-142 | a live block is large enough and shares no byte with another live block, a free block, an arena header or a page of the rest of the kernel |
| MallocRuns.PageHeldIff | src/threads/malloc.c:219-228 | a page is the allocator's exactly while a live block's arena holds it |
| MallocRuns.RunKeeps | src/threads/malloc.c:83-237 | the invariant holds after every sequence of malloc, free, page gets and page frees |
| MallocRuns.RunSafe | src/threads/malloc.c:83-237 | so each live block is safe at every moment of every run |
| MallocRuns.RunRestores | src/threads/malloc.c:199-237 | when everything is freed the page bitmap, the arenas and the free lists are as at the start |
| AllocatorObject.Allocator.constructor | src/threads/malloc.c:68-79 | no arenas, empty lists, free pages |
| AllocatorObject.Allocator.FindDesc | src/threads/malloc.c:94-96 | the loop finds the smallest descriptor |
| AllocatorObject.Allocator.Alloc | src/threads/malloc.c:83-142 | is the specified malloc on bitmap, headers and lists and keeps the invariant; null exactly for size 0 or when there is no room; otherwise one block that was not live is |
| AllocatorObject.Allocator.NewArena | src/threads/malloc.c:126-133 | the loop puts the arena's blocks on the list in order |
| AllocatorObject.Allocator.DropBlocks | src/threads/malloc.c:223-226 | the loop takes exactly the arena's blocks off the list |
| AllocatorObject.Allocator.ReleaseBlock | src/threads/malloc.c:199-237 | is the specified free |
| AllocatorObject.Allocator.Release | src/threads/malloc.c:199-237 | ignores null; otherwise takes out exactly the live block and keeps the invariant |
| AllocatorObject.Allocator.Realloc | src/threads/malloc.c:178-192 | size 0 frees; otherwise null exactly when there is no room, and then nothing changes; or the new block replaces the old one |
| HashTable.TurnOffLeastIs | src/lib/kernel/hash.c:274-277 | turning off the lowest one bit leaves zero exactly for powers of two, and otherwise keeps the top bit |
| HashTable.SlotFits | src/lib/kernel/hash.c:255-258 | the masked hash is a bucket index |
| HashTable.Hash.constructor | src/lib/kernel/hash.c:22-36 | four empty buckets |
| HashTable.Hash.FindElem | src/lib/kernel/hash.c:262-271 | an equal element is found in its bucket if and only if the table has one |
| HashTable.Hash.BestCount | src/lib/kernel/hash.c:303-307 | the number of buckets is a power of two, at least 4, within a factor two of half the elements |
| HashTable.Hash.Rehash | src/lib/kernel/hash.c:288-343 | the elements stay and each is in the bucket of its hash; with memory the number of buckets suits the number of elements, without it nothing changes |
| HashTable.Hash.Insert | src/lib/kernel/hash.c:85-95 | adds exactly when no equal element is there, which is returned otherwise; the buckets suit the new size if there is memory |
| HashTable.Hash.Replace | src/lib/kernel/hash.c:99-110 | puts the new element in place of the equal one, if any; the buckets suit the new size if there is memory |
| HashTable.Hash.Find | src/lib/kernel/hash.c:114-116 | finds an equal element if and only if there is one |
| HashTable.Hash.Delete | src/lib/kernel/hash.c:125-132 | takes out the equal element, if any, and then the buckets suit the new size if there is memory |
| HashTable.Hash.Next | src/lib/kernel/hash.c:190-203 | steps to the next element over empty buckets, or to the end exactly after the last |
| HashTable.Hash.Iterate | src/lib/kernel/hash.c:173-203 | a full iteration visits every element once |
| InodeStore.ReachesNext | src/filesys/inode.c:165-208 | how many bytes move is the first chunk and what can move after it: nothing without a chunk, nothing without memory where the chunk is no whole sector |
| InodeStore.ReachesMost | src/filesys/inode.c:165-208 | how many bytes move is the largest number that is at most the size and does not go past the end of the file; without memory, the largest such multiple of 512 from an aligned offset |
| InodeStore.SectorWrite | src/filesys/inode.c:240-258 | overwriting part of a sector overwrites those bytes of the device and no other |
| InodeStore.WriteEffect | src/filesys/inode.c:215-268 | a write splices the file's contents at the offset and leaves every file with other sectors unchanged |
| InodeStore.Device.ReadAt | src/filesys/inode.c:165-208 | the buffer gets exactly that slice of the file, and no more of it changes; the slice is the longest that fits size and file, in whole sectors without memory |
| InodeStore.Device.WriteAt | src/filesys/inode.c:215-268 | the device becomes exactly the splice of the written bytes, the most that fit; nothing with writes denied |
| InodeStore.WriteThenRead | src/filesys/inode.c:165-268 | reading back what was written gives it back, as much as fits the file |
| InodeStore.ZeroData | src/filesys/inode.c:76-83 | a new file's data are all zero, and no other sector changes |
| FileSystem.OneMoreOwned | src/filesys/filesys.c:107-113 | a header in a free sector with free data sectors owns them alone |
| FileSystem.OneLessOwned | src/filesys/inode.c:146-149 | releasing a header frees exactly its sectors, all marked before (the assertion); the others keep theirs |
| FileSystem.CreateKeeps | src/filesys/filesys.c:107-117 | whatever fails: creating changes the one entry where the search for a slot stopped, to the name and an inode of the asked length in a sector no live file had, marks exactly that inode's sectors, which were all free, and changes nothing else; or it leaves directory and open files alone, and leaves no trace if it fails before its data sectors are taken |
| FileSystem.EntryRead | src/filesys/inode.c:165-208 | reading one directory entry gives all of it with memory and nothing without |
| FileSystem.CreateSucceedsIff | src/filesys/filesys.c:107-117 | a creation succeeds if and only if memory and device allow, there are a header sector and data sectors, the name is valid and not seen, and the search for a slot stops at an entry |
| FileSystem.CreateNamesIff | src/filesys/directory.c:115-150 | a creation that succeeds keeps the names apart if and only if no other entry with the name was behind what the lookup could read |
| FileSystem.CreateEntriesIff | src/filesys/directory.c:132-147 | a creation that succeeds keeps every entry in use if and only if the search for a slot did not break off at one of them with no free one in front |
| FileSystem.FailedCreateIff | src/filesys/filesys.c:107-117 | a failed creation gives the free map back if and only if it did not get as far as taking data sectors |
| FileSystem.OpenKeeps | src/filesys/inode.c:94-120 | opening gives one in-memory inode per sector, and fails only without memory for a new one |
| FileSystem.OpenCloseCancels | src/filesys/inode.c:94-153 | opening an inode and closing it again leaves no trace |
| FileSystem.CloseKeeps | src/filesys/inode.c:135-153 | a removed file keeps its sectors until its last close, which frees exactly those |
| FileSystemRuns.FileOpenKeeps | src/filesys/filesys.c:124-133 | opening by name finds exactly the names among the entries it could read, so with memory it succeeds if and only if the directory has the name |
| FileSystemRuns.OpenSucceedsIff | src/filesys/filesys.c:124-133 | opening succeeds if and only if the directory opens, an entry that can be read has the name, there is memory for the file, and the inode is open already or there is memory for it |
| FileSystemRuns.OpenCounts | src/filesys/inode.c:94-120 | the inode of the first such entry is open once more, and nothing else has changed |
| FileSystemRuns.CloseCounts | src/filesys/inode.c:135-153 | a close takes one opener of that inode away; it frees sectors only as the last close of a removed file, and then exactly that file's header and data |
| FileSystemRuns.RemoveKeeps | src/filesys/filesys.c:139-145 | removing takes one entry of the name out, and so the name if it was there once, and changes no other entry; the sectors go at once if nobody has the file open and stay marked otherwise |
| FileSystemRuns.RemoveSucceedsIff | src/filesys/directory.c:155-185 | removing succeeds if and only if the directory opens and can be written, an entry that can be read has the name, and the inode of the first such entry is open already or there is memory for it |
| FileSystemRuns.RemoveOpens | src/filesys/directory.c:155-185 | an inode that was open stays open, as removed; one that was not is not open afterwards; no header changes |
| FileSystemRuns.FormatKeeps | src/filesys/filesys.c:148-155 | a formatted device meets the invariant |
| FileSystemWitnesses.FormatIff | src/filesys/filesys.c:148-155 | formatting succeeds if and only if there is room for two headers, the free map and one sector of directory, and takes exactly those sectors |
| FileSystemRuns.StepKeeps | src/filesys/filesys.c:107-145 | every operation, with any failures of memory or device, directory reads included, keeps the invariant: ownership of sectors, one entry and one open inode per sector, no removed inode named |
| FileSystemRuns.RunOwnership | src/filesys/inode.c:60-160 | in every state of every run, headers in use share no sector and all their sectors are marked |
| FileSystemRuns.RunWrites | src/filesys/inode.c:215-268 | in every state of every run a write to one file in use changes exactly that part of its data and no sector, header or data, of any other |
| FileSystemRuns.RunSectors | src/filesys/directory.c:115-185 | in every state of every run, whatever fails, no sector is twice among the entries in use or among the open inodes, and no removed inode is still named |
| FileSystemRuns.RunNamesIff | src/filesys/directory.c:115-185 | a run has no name twice in all its states if and only if it never creates a name that failed reads hid from the lookup |
| FileSystemRuns.StepEntriesIff | src/filesys/directory.c:115-185 | an entry goes only by a removal of its own name if and only if no creation writes over it |
| SectorAccounts.StepExactIff | src/filesys/filesys.c:107-145 | where every marked sector belongs to a file in use and every open file can be found or is removed, a step keeps it so if and only if it neither fails a creation after taking data sectors nor writes an entry over another |
| SectorAccounts.RunExactIff | src/filesys/filesys.c:107-145 | a run has that in all its states if and only if all its steps are so |
| SectorAccounts.SavingRunMarks | src/filesys/inode.c:135-153 | in such a run the marked sectors are exactly the headers and data of the files in use, so a file's sectors are free again once its name and its last opener are gone |
| FileSystemWitnesses.NameTwice | src/filesys/directory.c:132-147 | a run of three creations on a formatted device in which two failed reads put a name into the directory twice, over the entry of another file |
| FileSystemWitnesses.LosesSectors | src/filesys/filesys.c:107-117 | a run of two creations of one name that leaves a sector marked with nobody owning it |
| FileSystemObject.ClosingInRange | src/filesys/free-map.c:37-41 | the assertion in `free_map_release` holds at every close |
| FileSystemObject.Files.constructor | src/filesys/filesys.c:85-97 | a formatted file system |
| FileSystemObject.Files.DirLookup | src/filesys/directory.c:73-89 | the scan finds the first entry in use with that name among those it can read |
| FileSystemObject.Files.OpenLookup | src/filesys/inode.c:98-105 | the scan finds the open inode of the sector |
| FileSystemObject.Files.AddEntry | src/filesys/directory.c:115-150 | both scans stop where a read fails; writes the entry where the second stopped, or fails exactly as specified |
| FileSystemObject.Files.Allocate | src/filesys/free-map.c:25-34 | takes the first free group, and rolls back when the map cannot be written |
| FileSystemObject.Files.NewInode | src/filesys/inode.c:60-89 | is the specified creation of an inode |
| FileSystemObject.Files.Create | src/filesys/filesys.c:107-117 | is the specified transaction, cleanup path included, and keeps the invariant |
| FileSystemObject.Files.OpenInode | src/filesys/inode.c:94-120 | is the specified opening |
| FileSystemObject.Files.CloseInode | src/filesys/inode.c:135-153 | is the specified closing and keeps the invariant |
| FileSystemObject.Files.OpenFile | src/filesys/filesys.c:124-133 | is the specified transaction and keeps the invariant |
| FileSystemObject.Files.EraseAndClose | src/filesys/directory.c:173-184 | erases the entry, marks the inode removed and closes it |
| FileSystemObject.Files.RemoveFile | src/filesys/filesys.c:139-145 | is the specified transaction and keeps the invariant |
| Sorting.Swap | src/lib/stdlib.c:58-68 | swapping byte by byte swaps the two elements and touches nothing else |
| Sorting.Compare | src/lib/stdlib.c:74-77 | compares the two elements |
| Sorting.FloatDown | src/lib/stdlib.c:82-104 | a swap with the bigger child moves the only exception to the heap property down |
| Sorting.HeapTop | src/lib/stdlib.c:82-104 | the first element of a heap is a biggest one |
| Sorting.Heapify | src/lib/stdlib.c:82-104 | floating element i down makes a heap from i on, permuting only the first n elements |
| Sorting.BuildHeap | src/lib/stdlib.c:120-122 | builds a heap of the same elements |
| Sorting.Sort | src/lib/stdlib.c:112-129 | the same elements in order, for every total preorder and every element size, and nothing behind them changes |
| Sorting.BinarySearch | src/lib/stdlib.c:159-178 | returns a position if and only if some element matches, and then that of a match |
| ArgStack.SpansAreWords | src/lib/string.c:211-246 | the tokens are the maximal runs of non-spaces, in order, and all of them |
| ArgStack.NextToken | src/lib/string.c:211-246 | each call returns the next of them, ends it with a null byte in place and changes nothing else |
| ArgStack.PushTokens | src/userprog/process_create.c:303-309 | pushes a pointer to every token in order and leaves the tokens as strings, unless a store would be below the page, which is so exactly if there are too many |
| ArgStack.Reverse | src/userprog/process_create.c:322-329 | the swapping loop reverses the words and touches nothing above them |
| ArgStack.WordRoundTrip | src/userprog/process_create.c:289-300 | a 32-bit word stored in four bytes reads back |
| ArgStack.Aligned | src/userprog/process_create.c:316-320 | the two roundings, of the byte counter up and of the stack pointer down, agree |
| ArgStack.BuildStack | src/userprog/process_create.c:278-337 | for every command line: a store would be below the stack's page if and only if the line does not fit; otherwise argc is at a multiple of 16, then argv, pointers to the tokens in order, a null pointer, above the slot for the return address |
| ArgStack.TooManyWords | src/userprog/process_create.c:278-313 | a line of 2000 bytes that does not |
| Ustar.FormatOctal | src/lib/stdio.c:456-528 | prints the number in octal, padded with zeros to the width |
| Ustar.OctalValue | src/lib/stdio.c:456-528 | the printed digits have that value |
| Ustar.OctalFits | src/lib/stdio.c:456-528 | a number below 8^width takes exactly width characters |
| Ustar.ParseOctalField | src/lib/ustar.c:116-140 | accepts exactly one or more octal digits ended by a space or null byte with a value that fits, and returns it |
| Ustar.OctalRoundTrip | src/lib/ustar.c:116-140 | parsing a printed field gives the number back |
| Ustar.ChecksumIndependent | src/lib/ustar.c:34-49 | the checksum does not depend on its own field |
| Ustar.ChecksumIs | src/lib/ustar.c:34-49 | the checksum is the sum over the header with spaces in bytes 148 to 155 |
| Ustar.CalculateChecksum | src/lib/ustar.c:34-49 | the loop sums the bytes of the header with spaces in bytes 148 to 155 |
| Ustar.StripPrefixes | src/lib/ustar.c:60-64 | the name without a front made up of "/", "./" and "../" whose rest begins with none of them; "." exactly if that rest is empty or ".." |
| Ustar.StripIs | src/lib/ustar.c:60-64 | the same of the specification; so a name that begins with none of the three is itself, but for the empty one and ".." |
| Ustar.FrontUnique | src/lib/ustar.c:60-64 | a name has one such front only |
| Ustar.StripSafe | src/lib/ustar.c:60-64 | a stripped name has nothing left to strip, is not empty and not the parent directory, and stripping is idempotent |
| Ustar.MakeHeader | src/lib/ustar.c:73-105 | fails exactly for stripped names over 99 characters; otherwise every byte of the header is as the format says, field by field at its offset, with the header's own checksum |
| Ustar.NumbersOfMade | src/lib/ustar.c:90-102 | in a made header mode, owner, group, size, time and checksum are octal numbers of those values at bytes 100, 108, 116, 124, 136 and 148, each ended by a null byte |
| Ustar.TextsOfMade | src/lib/ustar.c:88-99 | name, type, magic, version, user and group name are at bytes 0, 156, 257, 263, 265 and 297, and all other bytes are null |
| Ustar.ParseHeader | src/lib/ustar.c:157-198 | returns what the specification does, error by error |
| Ustar.ParseExactly | src/lib/ustar.c:157-198 | a header of null bytes ends the archive; any other is rejected exactly for the first of eight tests that fails, each written out on its bytes: magic, version, checksum field, checksum, name length, type, size field, size; one that passes all gives the name up to its first null byte, stripped, the type and the size |
| Ustar.RoundTrip | src/lib/ustar.c:73-198 | parsing a made header gives back the stripped name, the type and for regular files the size, unless that is negative, which reads as too large |

## Left out

- Devices, interrupt entry, context switch, page tables and inline assembly; `divl` and the atomic bit operations are specified primitives.
- Process exit, exec, wait, pthread_join, ELF loading, system calls.
- RwLock.StepKeeps: takes `cond_wait` as one step and leaves open which sleeping writer `cond_signal` wakes; CondWait.RunIsMonitorRun says when runs of the code are such runs, and CondWait.SignalHighest which writer it is.
- CondWait.StepTornIff: each list operation is one step, so an interrupt in the middle of the insertion in `cond_wait` is left out, as is what happens after a list is torn; priorities may be others at each step, but a raised thread is not moved within its list.
- The timer's sleep list, whose order is by tick; the FIFO policy; the unimplemented schedulers.
- The yields that follow `sema_up`, `thread_set_priority` and `thread_create` are the separate step `Yielding`, which may or may not come next.
- The semaphore's value is unbounded; thread exit is left out, so threads only come.
- IntrusiveList.ListSplice: the range moves within one list, which is all `list_sort` needs; splicing between two lists, `list_unique`, `list_max` and `list_min` are left out.
- IntrusiveList.FindEndOfRun: searches up to the end of the list, which is how `list_sort` calls it.
- AllocatorObject.Allocator.Realloc: which blocks live afterwards, not the copying of their contents.
- Bitmaps.Bitmap.constructor: memory for the bitmap is taken as given.
- Contents of memory: `malloc` and `free` are about which bytes belong to whom; the copying in `realloc`, `calloc`'s zeroing and the debugging fill are left out, and `size + sizeof *a` is taken not to wrap.
- One page pool is modelled; `palloc_init` and the choice between pools are left out.
- HashTable.Hash.constructor: memory for the first four buckets is taken as given; `hash_clear`, `hash_destroy` and `hash_apply` are left out.
- InodeStore.Device.ReadAt: the offset is taken as not negative, as in InodeStore.Device.WriteAt; a negative one would address sectors in front of the file.
- The contents of headers, free map and directory as bytes on the device: `FileSystem` has them as values.
- FileSystemRuns.RunOwnership: owned sectors are marked, not the other way round, since a failed creation keeps its data sectors; SectorAccounts.RunExactIff says exactly when the other way holds too.
- Opening and closing the root directory around each operation is one flag, justified by FileSystem.OpenCloseCancels; `dir_readdir`, file positions and write denial counts are left out.
- ArgStack.BuildStack: starts from the restored command line; the search for the null byte that an earlier step put into it is left out.
- Other conversions of `printf`, and the C string functions not named above.
