# Locks, elision and what they protect: a verified model

The repository studies hardware lock elision. It holds small lock functions and clients for
them (hash map, list, bank, counters, a memory-reordering experiment) and a copy of InnoDB
whose mutexes, events and latching order the experiments replace. This project models the
concurrent core of both and proves what the code is meant to guarantee. All statements are
about every schedule, every number of threads and every input the code admits.

| file | models |
|---|---|
| `OsEvent.dfy` | the manual-reset event with its signal counter |
| `MutexRounds.dfy` | what one call of the mutex amounts to, counted from its words |
| `MutexProtocol.dfy` | spin mutex, waiters field and event as one step relation; infinite fair runs |
| `LatchRules.dfy`, `LevelArray.dfy` | the latching order and the per-thread level array with its intrusive free list |
| `LatchDeadlock.dfy`, `LatchProgress.dfy` | threads that latch and wait under the latching order; that waiters can be served |
| `Sequences.dfy` | sequences without repetition |
| `Sections.dfy`, `Elision.dfy` | critical sections as programs; a machine with transactions and the lock functions |
| `Serializability.dfy`, `MixedElision.dfy` | why the lock functions serialize, and which mixture does not |
| `ProgramOrder.dfy` | a thread completes what it has begun, in that order |
| `ElidedRuns.dfy` | that elision, and the fallback, do run a section |
| `RtmLock.dfy` | the retry loop of the RTM lock, and the same decisions in the machine |
| `Clients.dfy` | bank, counters, store-buffering experiment |
| `HashPrograms.dfy`, `HashBuckets.dfy` | bucket operations word by word, and what they do to the map |
| `HashSystem.dfy`, `HashRuns.dfy`, `HashSafety.dfy`, `HashOrder.dfy`, `HashCount.dfy` | threads on the hash map: reclamation, set refinement from the calls, conservation of items, counting |
| `LinkedItems.dfy` | doubly linked list over the pre-allocating slot allocator |

## How it fits together

**Mutex and event.** One thread step is one shared access on sequentially consistent memory, as
the source assumes. The invariant says that whoever failed its last test-and-set and would
block has a release under way. What a call does is counted from the lock word, the waiters field and
the event alone: each call owns the mutex once, and sets the event exactly if it saw a waiter. From it follow both lemmas of the source, the first one also as
liveness: on every fair infinite run a waiting thread leaves its wait.

**Latching order.** The level array is a class whose abstract value is a multiset of latches
with levels. The verdict of the checker depends on the held levels only. Deadlock freedom is
stated for requests accepted when they are made. A gated level is ordered only if there is one
single latch of its gate level; with two buffer pools, for instance, two blocks can be latched
crosswise (`NonUniqueGateDeadlocks`). That is the exact condition: with several latches of a level
and any number of latches of its gate, no run deadlocks if and only if the level is ordered with
the gates that are unique there, or the table asks for another level first, so that it cannot be
latched in such a world at all.

**Elision.** A section is a program that picks its next load or store from what it has seen. The
machine keeps a read log and a store buffer per transaction, aborts a transaction when a store to
one of its words becomes visible, and publishes stores at commit. Lock functions: the exchange
lock, the HLE exchange lock, RTM with word test and fallback, bare RTM. An unlock is one event that
branches as the source does, on `_xtest`, and can fault; no run contains a fault. An access is allowed if
no section under another lock has the word in use; `ConfinedNeverMeet` and `NothingHeldBack`
show that this excludes no run of the clients. A set of lock functions serializes if and only if it does
not combine bare RTM with functions that take the lock (`SerializesIffNotMixed`).

**Bank and reordering experiment.** Clients are given by what threads begin: the rounds of the
transfer loop, or the rounds of resets, signals and halves. That the log then has the expected
shape is proved from program order.

**Hash map.** The same client steps serve the map with one lock per bucket and the map on bare
transactions: build the item, enter the section, walk, link or unlink, leave, delete what is left
over. What the callers asked is read off their calls alone, and compared with answers and memory. The allocator may overwrite a free item at any time. An item may be used for any bucket after
it has been freed.

**List and allocator.** Free marks (data -1) and links live in the same objects; the classes are
proved together, so that the linked items are exactly the slots not marked free.

Where code and comment disagree the model follows the code, with one recorded exception:
`hle/lock_functions/rtm_lock.cpp:37` tests the pointer `mutex`, its comment speaks of the lock
word. `RtmLock.RtmLockSmart` has both: with the literal test no call is ever elided. The machine
uses the word test, since with the pointer test the function is only the exchange lock.

## Model

| member | source | states |
|---|---|---|
| `OsEvent.CountRisesExactlyOnEdges` | mysql/mysql-5.6.10-glibc/storage/innobase/os/os0sync.cc:433-495 | for every sequence of sets and resets the counter has grown by the number of unset-to-set transitions, counted independently from the operations |
| `OsEvent.SavedCountMissesNoSet` | mysql/mysql-5.6.10-glibc/storage/innobase/os/os0sync.cc:561-618 | LEMMA 2, both directions: after A's reset, a wait with the saved count is released if and only if some set happened, whatever else intervened |
| `OsEvent.ZeroCountSeesOnlyLastOp` | mysql/mysql-5.6.10-glibc/storage/innobase/os/os0sync.cc:564-607 | without a saved count the wait is released if and only if the last operation was a set: exactly when the documented infinite wait occurs |
| `OsEvent.EventObject.constructor` | mysql/mysql-5.6.10-glibc/storage/innobase/os/os0sync.cc:368-407 | a new event is unset with counter 1, so that 0 can mean "no count" |
| `OsEvent.EventObject.ResetEvent` | mysql/mysql-5.6.10-glibc/storage/innobase/os/os0sync.cc:469-495 | refines the reset operation and returns the count that the reset does not change |
| `OsEvent.EventObject.WaitLow` | mysql/mysql-5.6.10-glibc/storage/innobase/os/os0sync.cc:580-618 | against any operations of others, the wait returns at the first moment at which the flag is up or the count differs from the one saved (from the one at the start, if none was), and at no other |
| `OsEvent.EventObject.ResetThenWait` | mysql/mysql-5.6.10-glibc/storage/innobase/os/os0sync.cc:561-618 | the calls composed: reset, any operations of others, wait with the returned count; the wait is over at once if and only if one of them was a set |
| `OsEvent.EventObject.ResetThenWaitWithoutCount` | mysql/mysql-5.6.10-glibc/storage/innobase/os/os0sync.cc:561-618 | the same without the count: over at once if and only if the last operation was a set |
| `MutexProtocol.InvStep` | mysql/mysql-5.6.10-beta/storage/innobase/sync/sync0sync.cc:468-599 | every step of every thread keeps exclusion, sane saved counts, no lost wake-up, and that a set waiters field has somebody responsible for it |
| `MutexProtocol.MutualExclusion` | mysql/mysql-5.6.10-beta/storage/innobase/include/sync0sync.ic:169-234 | in every reachable state at most one thread is in the critical section, and the lock word is 1 exactly then |
| `MutexProtocol.CleanAtRest` | mysql/mysql-5.6.10-beta/storage/innobase/sync/sync0sync.cc:326-332 | the assertions of `mutex_free`: lock word and waiters are 0 once nobody is in the section, the last attempts or the exit, although a late winner leaves waiters at 1 |
| `MutexProtocol.SleeperHasPendingRelease` | mysql/mysql-5.6.10-beta/storage/innobase/sync/sync0sync.cc:119-138 | LEMMA 1 as a state property: for every blocked thread an owner that will see waiters at 1, or a thread about to set the event, exists |
| `MutexProtocol.SetComes` | mysql/mysql-5.6.10-beta/storage/innobase/sync/sync0sync.cc:119-155 | on every fair infinite run the counter passes the saved count of a waiting thread |
| `MutexProtocol.NoInfiniteWait` | mysql/mysql-5.6.10-beta/storage/innobase/sync/sync0sync.cc:119-155 | LEMMA 1 as liveness: on every fair infinite run a thread in the event wait leaves it and spins again |
| `MutexRounds.EveryCallOwnsOnce` | mysql/mysql-5.6.10-beta/storage/innobase/include/sync0sync.ic:169-234 | over every schedule, counted from the words: a thread that is outside has taken the lock word 0 to 1 and given it back once per call, and has set the event for exactly those exits that found waiters at 1 |
| `MutexRounds.OnlyExitsSignal` | mysql/mysql-5.6.10-beta/storage/innobase/include/sync0sync.ic:182-199 | a turn that puts the event up belongs to an exit that has released the word and found waiters at 1 |
| `MutexRounds.SleepsOnlyAfterTrying` | mysql/mysql-5.6.10-beta/storage/innobase/sync/sync0sync.cc:500-580 | a sleeper has found the word at 1 at least SYNC_SPIN_ROUNDS times while spinning and in four attempts after setting waiters |
| `MutexRounds.AttemptsAreBounded` | mysql/mysql-5.6.10-beta/storage/innobase/sync/sync0sync.cc:490-583 | every turn of a trying thread brings it nearer to owning the mutex or to the wait, whatever the word does |
| `MutexRounds.Uncontended` | mysql/mysql-5.6.10-beta/storage/innobase/include/sync0sync.ic:169-234 | a free mutex is taken by the first test-and-set, and an exit without waiters restores the whole state |
| `MutexRounds.Contended` | mysql/mysql-5.6.10-beta/storage/innobase/sync/sync0sync.cc:490-583 | against a taken word, a call ends asleep after exactly its looks, attempts, reset and waiters store, with the count of its reset |
| `LatchRules.OrderedMeansDescending` | mysql/mysql-5.6.10-beta/storage/innobase/sync/sync0sync.cc:1123-1234 | what an accepted request at an ordered level implies: nothing lower is held, and something equal only together with the gate |
| `LatchRules.OrderedIffSelfRefusing` | mysql/mysql-5.6.10-beta/storage/innobase/sync/sync0sync.cc:1123-1313 | over the whole rule table: a level that can be latched with empty hands is ordered, were all other gates unique, if and only if the table refuses a second latch of that level |
| `LatchRules.AcceptsStrict` | mysql/mysql-5.6.10-beta/storage/innobase/sync/sync0sync.cc:1136-1173 | for each of the strict levels: accepted if and only if everything held is greater |
| `LatchRules.AcceptsWaivable` | mysql/mysql-5.6.10-beta/storage/innobase/sync/sync0sync.cc:1129-1135 | the two levels a server switch waives |
| `LatchRules.AcceptsTrx` | mysql/mysql-5.6.10-beta/storage/innobase/sync/sync0sync.cc:1174-1217 | transaction and record latches: in order, or under lock_sys with nothing lower held |
| `LatchRules.AcceptsBlock` | mysql/mysql-5.6.10-beta/storage/innobase/sync/sync0sync.cc:1195-1209 | page hash and block latches: in order, or under a buffer pool |
| `LatchRules.AcceptsBitmap` | mysql/mysql-5.6.10-beta/storage/innobase/sync/sync0sync.cc:1218-1234 | bitmap pages: under their master mutex, else in order unless starting up |
| `LatchRules.AcceptsSeveral` | mysql/mysql-5.6.10-beta/storage/innobase/sync/sync0sync.cc:1182-1192 | levels of which several mutexes may be held |
| `LatchRules.AcceptsIndexTree` | mysql/mysql-5.6.10-beta/storage/innobase/sync/sync0sync.cc:1268-1292 | index trees, and that of the insert buffer with and without the tablespace latch |
| `LatchRules.AcceptsIbuf` | mysql/mysql-5.6.10-beta/storage/innobase/sync/sync0sync.cc:1293-1302 | the insert buffer mutexes that exclude others |
| `LatchRules.AcceptsCovered` | mysql/mysql-5.6.10-beta/storage/innobase/sync/sync0sync.cc:1235-1267 | pages and headers that need a covering latch |
| `LatchRules.AcceptsIbufPage` | mysql/mysql-5.6.10-beta/storage/innobase/sync/sync0sync.cc:1271-1284 | pages of the insert buffer tree |
| `LatchRules.AcceptsPage` | mysql/mysql-5.6.10-beta/storage/innobase/sync/sync0sync.cc:1238-1253 | tablespace and undo pages: covered, or in order |
| `LatchRules.AcceptsTreeNode` | mysql/mysql-5.6.10-beta/storage/innobase/sync/sync0sync.cc:1260-1264 | tree nodes: under an index tree or the dictionary operation latch, or in order |
| `LevelArray.SyncArr.constructor` | mysql/mysql-5.6.10-beta/storage/innobase/sync/sync0sync.cc:1092-1110 | a new array is valid and stands for the empty multiset |
| `LevelArray.SyncArr.LevelsG` | mysql/mysql-5.6.10-beta/storage/innobase/sync/sync0sync.cc:825-859 | true if and only if every level in the multiset exceeds the limit |
| `LevelArray.SyncArr.LevelsContain` | mysql/mysql-5.6.10-beta/storage/innobase/sync/sync0sync.cc:861-890 | true if and only if the level occurs in the multiset |
| `LevelArray.SyncArr.CheckOrder` | mysql/mysql-5.6.10-beta/storage/innobase/sync/sync0sync.cc:1123-1313 | the verdict of the scans over the array equals the rule table applied to the set of held levels |
| `LevelArray.SyncArr.Store` | mysql/mysql-5.6.10-beta/storage/innobase/sync/sync0sync.cc:1315-1338 | adds exactly one entry unless full; the free chain stays acyclic and exact; all slot checks of the source hold |
| `LevelArray.SyncArr.AddLevel` | mysql/mysql-5.6.10-beta/storage/innobase/sync/sync0sync.cc:1058-1338 | outcome for every input: ignored, order error, full, or one more entry, each with its exact condition on the multiset |
| `LevelArray.SyncArr.AddGated` | mysql/mysql-5.6.10-beta/storage/innobase/sync/sync0sync.cc:1174-1217 | adding a transaction or record latch, with the condition written out in the recorded levels |
| `LevelArray.ManyUnderLockSys` | mysql/mysql-5.6.10-beta/storage/innobase/sync/sync0sync.cc:1174-1217 | while lock_sys is recorded any number of them goes in, as far as the array has room |
| `LevelArray.OneWithoutLockSys` | mysql/mysql-5.6.10-beta/storage/innobase/sync/sync0sync.cc:1174-1217 | without it exactly one goes in if everything held is greater, else none |
| `LevelArray.SyncArr.FreeSlot` | mysql/mysql-5.6.10-beta/storage/innobase/sync/sync0sync.cc:1391-1399 | the multiset loses exactly the entry of the slot, and the free chain gains the slot |
| `LevelArray.SyncArr.ResetIfIdle` | mysql/mysql-5.6.10-beta/storage/innobase/sync/sync0sync.cc:1401-1408 | dropping the free list of an idle array changes nothing in what it stands for |
| `LevelArray.SyncArr.ResetLevel` | mysql/mysql-5.6.10-beta/storage/innobase/sync/sync0sync.cc:1347-1432 | outcome for every input; a removal happens if and only if the latch is recorded and not exempt, and takes exactly one entry of it |
| `LatchDeadlock.NoDeadlock` | mysql/mysql-5.6.10-beta/storage/innobase/sync/sync0sync.cc:1123-1234 | in every world and run in which requests are accepted when made, no set of threads waiting at levels ordered with the unique gates waits for itself (S and X modes, gated levels included) |
| `LatchDeadlock.SomeThreadCanRun` | mysql/mysql-5.6.10-beta/storage/innobase/sync/sync0sync.cc:1123-1234 | while somebody waits, some wait can end now or some thread in the way is not waiting |
| `LatchDeadlock.SelfAcceptingLevelDeadlocks` | mysql/mysql-5.6.10-beta/storage/innobase/sync/sync0sync.cc:1182-1192 | a level that accepts a second latch of its own admits a run of accepted requests that ends in deadlock |
| `LatchDeadlock.NonUniqueGateDeadlocks` | mysql/mysql-5.6.10-beta/storage/innobase/sync/sync0sync.cc:1182-1222 | for every gated level, two latches of its gate admit ten accepted events that end in deadlock |
| `LatchDeadlock.OrderedIffNoDeadlock` | mysql/mysql-5.6.10-beta/storage/innobase/sync/sync0sync.cc:1123-1313 | for every level with two or more latches and any latches of its gate: no run deadlocks if and only if the level is ordered with exactly the gates unique in that world, or cannot be latched there |
| `LatchDeadlock.AllOrderedIffNoDeadlock` | mysql/mysql-5.6.10-beta/storage/innobase/sync/sync0sync.cc:1123-1313 | for worlds of many levels, each latchable with empty hands: no run deadlocks if and only if every level is ordered, provided levels that are not ordered have several latches |
| `LatchProgress.EveryWaiterServed` | mysql/mysql-5.6.10-beta/storage/innobase/sync/sync0sync.cc:1123-1234 | from every reachable state with ordered waits, some continuation of grants and releases alone grants every waiter its latch |
| `LatchProgress.GrantGives` | mysql/mysql-5.6.10-beta/storage/innobase/sync/sync0sync.cc:516-523 | a granted latch is held as asked for: alone if exclusive, with no exclusive holder if shared |
| `LatchProgress.ReleaseGivesBack` | mysql/mysql-5.6.10-beta/storage/innobase/include/sync0sync.ic:179-182 | a release gives back this latch and nothing else |
| `Sections.TxIsAlone` | hle/lock_functions/rtm_lock.cpp:14-16 | publishing a transaction's stores at once is what the program does alone |
| `Sections.TxLocal` | hle/lock_functions/rtm_lock.cpp:36-39 | a transaction depends on memory only through the words in its read log |
| `Serializability.InvStep` | hle/lock_functions/rtm_lock.cpp:19-49 | every event under every lock function keeps the invariant of the machine, unless bare RTM is mixed with real locking |
| `Serializability.RunsSerialize` | hle/lock_functions/rtm_lock.cpp:7-49 | every run equals the completed sections one by one in commit/release order: each saw what it would have seen alone, and memory not in use by an owner agrees |
| `Serializability.NoCommitUnderOwner` | hle/lock_functions/hle_exch_lock-spec.cpp:5-18 | an elided section runs and commits only with the lock word at 0 and without an owner, and leaves the word at 0 |
| `Serializability.LockWordHasOneOwner` | hle/lock_functions/atomic_exch_lock-spec.cpp:5-19 | for any combination of lock functions, a lock word is 1 exactly while one thread owns the lock |
| `Serializability.UnlocksPair` | hle/lock_functions/rtm_lock.cpp:42-49 | no run faults: the branch an unlock takes executes `_xend` only in a transaction, which commits, and clears the word only as the one owner of the lock |
| `Serializability.ConflictsAbort` | hle/lock_functions/rtm_lock.cpp:23-39 | a visible store ends exactly the other transactions that have loaded or stored the word, or read the lock word stored to |
| `ElidedRuns.ElisionSucceeds` | hle/lock_functions/rtm_lock.cpp:19-49 | undisturbed, HLE and RTM run any section that ends in a transaction and commit the result it has alone, with no lock word ever 1 |
| `ElidedRuns.FallbackSucceeds` | hle/lock_functions/atomic_exch_lock-spec.cpp:5-19 | an attempt that fails for good, or the plain lock, gives the same result under the lock and leaves its word at 0 |
| `Serializability.ConfinedNeverMeet` | hle/bank/entities/ThreadsafeAccount.cpp:26-40 | sections that keep to the words of their lock are never refused an access |
| `MixedElision.LostUpdate` | hle/bank/time_cmp.cpp:51-89 | for every real lock function next to bare RTM: a run whose result neither order of the two sections explains |
| `MixedElision.SerializesIffNotMixed` | hle/bank/time_cmp.cpp:51-89 | the exact condition: a combination of lock functions serializes if and only if it does not mix bare RTM with a lock that is really taken |
| `RtmLock.RtmLockSmart` | hle/lock_functions/rtm_lock.cpp:19-40 | between 1 and max_retries+1 attempts; it goes on after every failure but the last, takes the fallback exactly when it must not go on, and is elided only by an attempt that saw the word at 0 and committed; with the pointer test as written, never |
| `RtmLock.MaskIsBits` | hle/lock_functions/rtm_lock.cpp:24-28 | a failure may be retried if and only if the explicit, retry or conflict bit of its status is set |
| `RtmLock.MachineFollowsLoop` | hle/lock_functions/rtm_lock.cpp:22-35 | for every list of status codes the machine stands where the loop does: at the next attempt with that many failures, or at the fallback |
| `RtmLock.WordSetIsFailure` | hle/lock_functions/rtm_lock.cpp:36-39 | finding the word at 1 counts as a failure with the explicit bit |
| `RtmLock.RetryBound` | hle/lock_functions/rtm_lock.cpp:19-35 | in every run of the whole machine nobody is in an attempt beyond its retries |
| `Accounts.AccountsConfined` | hle/bank/entities/ThreadsafeAccount.cpp:26-40 | account operations stay within the words of their lock, whatever they load |
| `ProgramOrder.CompletedInOrder` | hle/bank/time_cmp.cpp:94-121 | in every run, the sections a thread has completed, then the one it is in, are those it began, in its own order |
| `Accounts.CarriedIsPending` | hle/bank/time_cmp.cpp:107-112 | at every point of the transfer loop what a thread has taken out and not put back is exactly its pending withdrawal |
| `Accounts.MoneyConserved` | hle/bank/time_cmp.cpp:94-121 | at every moment of every run of transfer loops, balances plus the money of threads between a withdrawal and its deposit equal the initial total |
| `Accounts.AccountBalances` | hle/bank/time_cmp.cpp:107-116 | account by account, at every moment: the initial balance, minus the completed withdrawals of the rounds from it, plus their completed deposits to it |
| `Accounts.BalanceCheckHolds` | hle/bank/time_cmp.cpp:126-152 | once every thread has left its loop after a whole round and is idle, the balances in memory add up to the initial total |
| `Accounts.CounterCheckHolds` | hle/shared_counter/time_cmp.cpp:229-247 | in every run in which threads only increment, the counters together have grown by the number of completed increments |
| `Accounts.CounterValues` | hle/shared_counter/time_cmp.cpp:54-65 | counter by counter: it has grown by the completed increments of the threads that use it |
| `StoreBuffering.OneResultSeesTheOther` | hle/elision_properties/memorybarriertest.cpp:97-228 | whenever main, after any number of rounds of reset, signal and wait, gets to its check, the half that completed last has 1 as its result and the other 0 |
| `HashPrograms.OpCompletes` | hle/hashmap/HashMap.cpp:76-156 | an operation that has come to its end made exactly the loads of the search and the stores for the first matching item, or the end of the list |
| `HashPrograms.OpTouches` | hle/hashmap/HashMap-rtm.cpp:33-138 | at every moment an operation has touched only the head and the linked items of its bucket |
| `HashBuckets.BucketAfter` | hle/hashmap/HashMap.cpp:76-134 | after the stores the bucket is again a list without duplicates, and holds the values the set operation promises |
| `HashBuckets.MapAfter` | hle/hashmap/HashMap.cpp:76-134 | the stores of one bucket operation are the set operation on the whole map |
| `HashBuckets.CompletedOp` | hle/hashmap/HashMap.cpp:76-156 | a completed section did the whole operation and reports an item if and only if the set contains the value |
| `HashRuns.RunKeeps` | hle/hashmap/HashMap-rtm.cpp:33-138 | every run of every number of threads keeps map, jobs, answers and places of items in order |
| `HashSafety.SafeReclamation` | hle/hashmap/HashMap-rtm.cpp:75-108 | no section in progress has touched, or is about to touch, an item that is free, being built, or unlinked and about to be deleted |
| `HashSafety.MapRefinesSet` | hle/hashmap/HashMap.cpp:76-156 | all answers are those of a sequential set in completion order; with no lock held memory holds exactly that set, each value once and in its bucket |
| `HashOrder.AnsweredInOrder` | hle/hashmap/HashMap.cpp:76-156 | in every run, the calls a thread has been answered, then the one it is about, are the calls it made, in order and with their values |
| `HashOrder.MapServesRequests` | hle/hashmap/HashMap.cpp:76-177 | calls are answered in program order, as a set of the calls completed before; with no lock held memory holds exactly the values those calls make, each once, in the list of bucket value % size |
| `HashSafety.EveryItemInOnePlace` | hle/hashmap/HashMap-rtm.cpp:33-108 | each item of the pool is free, linked or in one thread's hands, exactly one of these: linked once or deleted once |
| `HashSafety.InsertReturnsLinked` | hle/hashmap/HashMap-rtm.cpp:28-60 | the pointer an insert returns is, at that moment, a linked item holding the value |
| `HashSafety.NothingHeldBack` | hle/hashmap/HashMap.cpp:76-105 | building an item, reusing a free one and the next access of a section are always allowed |
| `HashSafety.NeverStuck` | hle/hashmap/HashMap.cpp:76-156 | in every reachable state every thread has a step that changes the state, or spins on a lock with exactly one owner, whose next step changes it |
| `HashSafety.AnyCallCanStart` | hle/hashmap/HashMap.cpp:76-156 | a thread at rest may make any call with a value that is not negative |
| `HashCount.CountElements` | hle/hashmap/HashMap.cpp:156-171 | the nested walk over all buckets terminates and returns the size of the set the map stands for |
| `HashSafety.CountAtRest` | hle/hashmap/HashMap.cpp:156-171 | in every reachable state with no lock held the count is the size of the set that the completed operations make |
| `LinkedItems.PreAllocator.constructor` | hle/list/PreAllocator.cpp:7-13 | distinct slots, all marked free |
| `LinkedItems.PreAllocator.Scan` | hle/list/PreAllocator.cpp:18-29 | the ring scan ends; it finds the first free slot after the last allocation, and fails if and only if no slot is free |
| `LinkedItems.PreAllocator.CreateListItem` | hle/list/PreAllocator.cpp:15-32 | fails if and only if every slot is used, first call included; otherwise fills that first free slot and changes no other |
| `LinkedItems.PreAllocator.DeleteListItem` | hle/list/PreAllocator.cpp:33-37 | marks the slot free and nothing else |
| `LinkedItems.List.InsertTail` | hle/list/List.cpp:20-27 | the doubly linked sequence grows by the item at its end |
| `LinkedItems.List.RemoveFromList` | hle/list/List.cpp:29-45 | the doubly linked sequence loses exactly the item |
| `LinkedItems.List.Get` | hle/list/List.cpp:72-80 | the first item with the data, or null if and only if there is none |
| `LinkedItems.List.Contains` | hle/list/List.cpp:66-70 | 1 if and only if the data is in the sequence |
| `LinkedItems.List.Size` | hle/list/List.cpp:90-98 | the length of the sequence |
| `LinkedItems.List.Insert` | hle/list/List.cpp:14-18 | appends in a slot not linked before; links and free marks stay consistent if and only if the data is not -1 |
| `LinkedItems.List.FindAndRemoveFromList` | hle/list/List.cpp:59-64 | unlinks the first occurrence, or changes nothing if absent |
| `LinkedItems.List.Remove` | hle/list/List.cpp:54-57 | deletes the first occurrence from the sequence and frees exactly its slot |
| `LinkedItems.List.Execute` | hle/list/List.cpp:14-64 | any sequence of inserts and removes keeps linked items equal to slots not marked free, with the values of the sequence semantics |
| `LinkedItems.TraversalsAreReverses` | hle/list/List.cpp:14-45 | walking `next` from the front and `prev` from the back visit the same items in opposite order, and both end |

## Left out

- LinkedItems.List.Remove: removing absent data dereferences a null item in the source; here it reports false and changes nothing.
- OsEvent.EventObject.WaitLow: the operations of other threads are a parameter; the condition variable and the mutex inside the event are taken as atomic steps.
- MutexProtocol.NoInfiniteWait: the cells of the wait array (sync0arr.cc is not part of this model) appear only as the reset of the event and the saved count; the once-per-second wake-up of hanging threads is not needed and not modelled.
- LatchDeadlock.NoDeadlock: a latch has one fixed level, a thread does not ask for a latch it holds (recursive rw-lock x-locks), and there are no queues of pending writers.
- LevelArray.SyncArr.AddLevel: the table that finds a thread's array, and the switch that turns order checks off, are outside; an assertion failure of the source is the result `OrderError` or `Full`.
- LatchDeadlock.AllOrderedIffNoDeadlock: levels that need another level first, and single latches of levels that are not ordered, are outside this condition; `NoDeadlock` still holds for the ordered waits of any world.
- Accounts.MoneyConserved: amounts are integers, the source uses doubles.
- HashRuns.RunKeeps: bucket operations are programs over words of shared memory rather than Dafny objects, because other threads act between any two accesses; the exit after one million failed attempts is left out, as it ends the process. `remove` declares `prev_item` outside its retry loop; an abort restores registers and stack, so the walk starts anew.
- HashSafety.MapRefinesSet: values are not negative, as `value % size` must name a bucket; `print` and `countElements` beside other threads are not covered.
- Memory is sequentially consistent outside transactions; weaker orders, cache lines (false sharing, capacity) and nesting are left out. An abort may strike at any moment with any code, which covers their effect on control flow.
- The counter of an event and the retry counters are unbounded integers.
- `smart_hle_lock` in hle/nesting/multiple.cpp does not require the word to be 0, so isolation is not claimed for it.
- Latch rules based on "contains" only are in the rule table and the checker, but no order is claimed for them; `SelfAcceptingLevelDeadlocks` shows what can happen.
- Other allocators, the destructor of the list, the wrappers of the list with locks, Windows paths, timeouts, statistics, printing and timing.
