# TM2C in Dafny

TM2C is a software transactional memory for many-cores without coherent shared state.
Application threads run transactions; lock-service threads hand out read and write locks
over message passing; a contention manager inside each service may revoke the locks of a
running transaction; and one shared abort flag per application, raced by compare-and-swap,
decides whether a transaction commits or aborts. This project models the shared-memory
build with a contention manager (`settings:25`, `settings:48`) and proves what that design
promises.

| file | what it models |
|---|---|
| `Locks.dfy` | the holdings of one service as a set, and what the contention manager decides on them |
| `Protocol.dfy` | the whole system as a step relation: applications, services, FIFO channels, abort flags, memory |
| `Invariant.dfy`, `Serializability.dfy`, `Accounting.dfy`, `Runs.dfy` | the invariants and their proof, step by step, then over runs |
| `Theorems.dfy` | what the protocol guarantees in every state of every run |
| `Attempts.dfy` | attempts read off the steps of a run: what they store and read, when they notice an abort, what they send |
| `SoloRun.dfy` | the run of an undisturbed transaction, for every sequence of loads and stores |
| `Leak.dfy` | a run in which the 16-bit request counters lose a lock |
| `SlotSpec.dfy` | the contents of the lock table as values, and the laws of purging, evicting, adding and releasing |
| `LockTable.dfy` | the lock table itself: bucket chains, slots, reader arrays and per-node logs, updated in place |
| `Service.dfy` | one round of the receive loop of a service on such a table |
| `ServiceRefinement.dfy` | why the small steps of a service in the protocol amount to one call on the table |
| `ServiceRuns.dfy` | the receive loop on a counted table over a whole run of the protocol |
| `ReaderMask.dfy`, `MaskTable.dfy` | the other form of a slot, with the readers in one 64-bit word, and a lock table of such slots |
| `WriteSet.dfy` | the write set: growing array, two scans, commit loop |
| `Allocator.dfy` | the shared-memory allocator with its 8-bit ring, and transactional allocation |
| `Bank.dfy`, `MapReduce.dfy`, `ListSets.dfy` | benchmark programs whose guarantees follow from serializability: transfers, a letter count, hash tables of sorted lists |

## How it is modelled

**Protocol.** A step is one atomic action of one thread. The gaps that make the protocol
hard are kept: a service's decision, its compare-and-swap on each victim and its purge of
that victim are separate steps, and so are a lock grant, its arrival and the later raw
memory read. Victims are evicted in ascending order, as the loop over readers does. The
priority an application sends is any number that is constant within an attempt and does not
decrease over commits, which covers the policies WHOLLY and FAIRCM. The map from addresses
to services is a parameter. `seen`, `peeked`, `granted`, `sent`, `log`, `init`, `skipped` and `under`
are history: they record what happened and decide nothing, except that `granted` stands for what the
program text knows about its own locks. `Attempts.dfy` shows that the lists `ws`, `seen` and `peeked`
are those of the steps taken. Two kinds of step bypass the locks: a peek reads
memory without a lock and promises nothing by itself, and a plain store writes an address on which
no attempt that can still commit has a lock, as `new_node` does while its node is private. A plain
store is logged as a commit of its own.

**Assumptions.** Channels between an application and a service are reliable and FIFO, and
memory and flags are sequentially consistent; ssmp, which carries the messages, is not part
of this model. At the lock table addresses are not 0 and node ids are below 255, because 0 and 0xFF
mark free slots and absent writers.

**Protocol and lock table.** In the protocol a service keeps its locks as a set, and a transaction
may store an address and ask for a lock as often as it likes. The counted table of this build
(`settings:11`) represents that set as long as no attempt asks a second time for a write lock and
none sends a service 65536 requests: `ServiceRuns.ServeAll` runs the receive loop on such a table
over the messages of any such run and finds it with the protocol's locks and calls of abort_node at
the end. So what the theorems say about runs with repeated write requests (`tm2c_rpc_store_all` asks
once for every entry of the write set) holds of the set, and of the table with reader masks
(`MaskTable.InsertKeepsCovered`), but not of the counted one (see below).

**Lock table.** The classes follow the C structures. A log entry, which in the source is a
pair of pointers into one bucket, is a reference to the slot that has both. The log grows by
doubling; its array is a sequence that is replaced when it grows. Hashing is a parameter. The ghost maps
`view` and `logged` say what slots and logs hold, so that every operation is specified as
a change of values, and the laws about those values are lemmas in `SlotSpec.dfy`.

**Benchmark programs.** A committed attempt is described by the reads it made and the
write set it stored; methods give the loops of the source that produce them. In the list
sets a node has a cell for its value and one for its next pointer. Values are peeked at, and
`new_node` fills both cells by plain stores to a node that cannot be reached from any bucket, which
may be one that was unlinked and freed before in the same run.

## Where the code does not do what it should

- `nodes_contacted` counts requests in 16 bits. An attempt that sends a service a positive
  multiple of 65536 requests passes it by when it releases its locks:
  `Theorems.SkippedExactly` says exactly when, `Leak.LockLeftBehind` is such a run.
- In the counted reader array a write lock taken twice is logged twice
  (`src/ssht.c:230-236`) and purged twice: `LockTable.Table.Insert` leaves table and logs in
  agreement exactly if the request is not such a one, `SlotSpec.WrittenTwiceLosesExclusion` follows
  it to a lost exclusion. A table with 64-bit masks tolerates it (`MaskTable.InsertKeepsCovered`).
- A single release by a node that has only the other lock on the address takes the counted table
  out of agreement, and only that does (`LockTable.Table.Remove`).
- The forward scan of the write set returns the oldest store:
  `WriteSet.FrontScanExactly`. The scan of the PGAS build is right for all transactions.
- The block allocator reuses freed blocks whatever their size: `Allocator.AllocFitsExactly`,
  `Allocator.MixedSizesOverlap`.
- A transfer between an account and itself makes or destroys money:
  `Bank.TransferKeepsSumExactly`. The benchmark avoids it if it has two accounts.
- The counting loops of the letter count skip the first character of the file and count the
  end marker in its place, in the parallel and the sequential version alike
  (`bmarks/mapreduce/mr.c:381`): `MapReduce.CountsAreTheFilesExactly`.

## Model

| member | source | states |
|---|---|---|
| Theorems.Serializable | include/tm2c.h:295-323 | in every reachable state each committed attempt read what the serial execution, in the order of the successful CAS to PERSISTING, had in memory at its place |
| Theorems.MemoryIsSerial | src/tm2c_log.c:171-178 | in every reachable state memory, plus the stores that persisting attempts still owe, is the serial memory, where each service keeps its locks as a set; a counted table is such a set for attempts that ask for each write lock once (ServiceRuns.ServeAll) |
| Theorems.QuiescentMemory | include/tm2c.h:312-323 | when nobody persists, memory is exactly the result of the serial execution: aborted attempts leave no trace |
| Theorems.RefinesAtomicAttempts | include/tm2c.h:295-323 | seen through the serial memory every step does nothing, runs one whole attempt alone (reads match and all stores happen; which these are is Attempts.CommitsAreAttempts), or is one plain store |
| Theorems.LogGrows | include/sys_default.h:185-189 | the serial order only grows, so it respects real time |
| Attempts.WriteSetIsStored | include/tm2c.h:440-477 | over every run write set and reads of an application are exactly the stores and reads of its steps since its attempt began, in their order, each read with what memory held then |
| Attempts.CommitsAreAttempts | include/tm2c.h:312-323 | every entry of the serial order is a TryPersist with exactly what its attempt had read and stored by then, or one plain store, in the order of these steps |
| Attempts.CommitsExactly | include/sys_default.h:185-189 | an attempt that tries to commit does so exactly if its flag is clear |
| Attempts.LastStoreIsInMemory | src/tm2c_log.c:171-178 | when an attempt publishes TX_COMMITTED, memory holds at every address it has stored to the value it stored there last |
| Attempts.OwnStoresAreNotRequested | include/tm2c.h:538-545 | no read lock is asked for on an address that the attempt has stored to |
| SoloRun.SoloAttemptCommits | include/tm2c.h:295-323 | from every state in which the services hold no lock and wait, every sequence of loads and stores has a run that commits and leaves the memory that these operations leave when they run straight on it |
| Theorems.GlobalExclusion | src/ssht.c:183-236 | across all services a write lock excludes every other node's lock on the address |
| Theorems.LocksHeldWhilePersisting | include/tm2c.h:251-255 | from the CAS until TX_COMMITTED an attempt has its locks on all it read and stores, and no service is about to take one, even while it purges leftovers of an earlier attempt |
| Theorems.AbortedNeverCommits | include/sys_default.h:146-153 | once a service has set the flag, the attempt never commits, whatever the rest of the run does |
| Attempts.CheckAbortedExactly | include/sys_default.h:161-165 | a check sends the attempt into its release loop exactly if its flag was set |
| Attempts.AbortedNotices | include/tm2c.h:257-261 | over every run, from a check that finds the flag set until it starts again an application asks for nothing, reads nothing, stores nothing and tries no commit |
| Attempts.AbortedSendsOnce | include/tm2c.h:546-552 | from the moment its flag is set an attempt sends at most the one request whose check came before |
| Attempts.ChecksFirst | include/tm2c.h:441-449 | every request, and every store under a lock not just taken for it, comes right after a check that found the flag clear |
| Theorems.WinnerIsLeftAlone | include/sys_default.h:185-189 | once the application has won the race, nothing touches it until it has stored its whole write set and published |
| Theorems.ZombieReadIsDoomed | include/tm2c.h:534-558 | a raw read through a lock that was revoked belongs to an attempt whose abort flag is set already |
| Theorems.VictimsAreBehind | src/tm2c_cm.c:40-52 | every abort is made for an application blocked in a request, whose current priority number is lower than the victim's, or the same with a lower id |
| Theorems.LeastIsNeverVictim | src/tm2c_cm.c:68-94 | nobody sets the abort flag of an application with the lowest priority number and the lowest id among those that have it |
| Attempts.FirstIsNotAborted | src/tm2c_cm.c:40-41 | priorities start equal and ids decide: over every run application 0 is never aborted before its first commit has raised its priority |
| Theorems.RefusalIsJustified | src/sys_default.c:342-386 | a refusal changes no flag and no holding and has a lock in its way, of a holder with a lower priority number, or the same and a lower id, or of the sender itself; that lock was acquired under the priority it is ranked by and belongs to the holder's current attempt, which will release it, or its release is in the channel, unless the release loop left it behind |
| Theorems.LeastIsRefusedOnlyByLeftovers | src/tm2c_cm.c:54-57 | the first application is refused only because of locks whose release is already on its way from an attempt that is over, locks that were left behind, or its own |
| Theorems.NoLeaks | src/tm2c_app.c:395-404 | between transactions, with its messages consumed, an application has no lock and its counters are zero, unless its latest release loop with something to release there passed the service by |
| Theorems.SkippedExactly | src/tm2c_app.c:231-232 | that happens exactly for a positive multiple of 65536 requests to that service, and the next release that is sent there makes up for it |
| Theorems.NothingSkipped | src/tm2c_app.c:231-232 | in a run in which no attempt sends a service 65536 requests nothing is ever left behind |
| Attempts.ContactedIsRequests | src/tm2c_app.c:225-246 | nodes_contacted is the number of requests to the service that have been neither refused nor released since, modulo 65536 |
| Attempts.MessagesAreKept | src/tm2c_app.c:364-405 | what an application has sent to a service, its requests and one release for every service its loop does not pass by, is what the service has taken and then what is in the channel |
| Attempts.PriorityIsLastFinished | include/tm2c.h:312-323 | an application has the priority its last attempt ended with, 0 before the first |
| Attempts.OnlyCommitsRaisePriority | include/tm2c.h:312-323 | a priority changes only when a committed attempt ends, and only upwards |
| Theorems.SpinningIsOnPersisters | include/sys_default.h:147-153 | a service spins only on a victim that is storing or about to publish and can go on without any service |
| Theorems.ServingIsBounded | src/sys_default.c:325-386 | each step of a busy service other than a spin brings it closer to its next message, and nobody else changes its course |
| Theorems.NoStuckState | src/tm2c_app.c:208-217 | an application in a transaction has an enabled step that changes it, or is blocked in a request and its service has one, or a persisting victim that the service spins on |
| Theorems.WaitingEnds | include/sys_default.h:146-153 | waiting is acyclic: no chain of applications waiting for services waiting for persisting victims is longer than these three or meets anybody twice |
| Leak.LockLeftBehind | src/tm2c_app.c:395-404 | a reachable state with an idle application, no message and a lock left |
| Runs.ReachableInv | include/sys_default.h:146-189 | all invariants hold in every reachable state (that attempts act on their flags is Attempts.AbortedNotices) |
| Runs.StepInv | src/sys_default.c:309-386 | every step of every thread keeps all of them |
| Serializability.LiveExclusion | src/ssht.c:183-236 | no two attempts that can still commit were granted conflicting locks |
| Serializability.KeepPlainStore | bmarks/microbench/linkedlist/linkedlist.c:34-60 | a store to a private address keeps reads and memory serial although it takes no lock |
| ServiceRefinement.GrantedAsOneInsert | src/tm2c_cm.c:37-98 | from decision to grant, with all other threads running in between, holdings and calls of abort_node are those of one insert into the lock table |
| ServiceRefinement.RefusedAsOneInsert | src/tm2c_cm.c:54-60 | a refusal is an insert that changes nothing |
| ServiceRuns.RequestedAgainExactly | src/sys_default.c:342-386 | a request that a service takes is for a lock it has recorded for the sender only if the attempt was granted it, and for an attempt that is not aborted exactly then |
| ServiceRuns.EveryMessageIsExpected | src/tm2c.c:317-334 | if no attempt asks twice for a write lock, every message a service takes is one that keeps a counted table in agreement |
| ServiceRuns.ServeAll | src/sys_default.c:309-482 | over such a run the receive loop on a counted table, one whole message at a time, ends with the locks and priorities that the service of the protocol has, having made the same calls of abort_node in the same order |
| LockTable.Table.Insert | src/tm2c_dsl_ht.c:84-95 | tm2c_ht_insert does to the holdings what the contention manager decides on them, changes nothing when it refuses, leaves no occupied slot without a holder, and keeps table and logs in agreement exactly unless it grants a write lock a second time |
| LockTable.Table.BucketInsert | src/ssht.c:95-267 | the same for the chain scans of bucket_insert_r and bucket_insert_w, with evictions in mid-insert that may free the slot being inserted into |
| LockTable.Table.ReadAt | src/ssht.c:104-133 | the reader's branch on a slot that has the address |
| LockTable.Table.WriteAt | src/ssht.c:180-237 | the writer's three branches on it, the one for a node that writes already included |
| LockTable.Table.EnterReader | src/ssht.c:119-132 | the slot is rewritten after the evictions and the node logged once |
| LockTable.Table.EnterWriter | src/ssht.c:188-190 | the slot is rewritten after the evictions and logged, once more if the node was its writer |
| LockTable.Table.FindSlot | src/ssht.c:100-139 | the scan of a chain finds the first slot with the address or there is none in it |
| LockTable.Table.FreeSlot | src/ssht.c:143-169 | the first free slot of the chain; a new bucket is appended only if no slot of the chain is free, and no other slot changes |
| LockTable.Table.RawWaw | src/tm2c_cm.c:37-62 | wins exactly with a lower timestamp, or the same and a lower id; then the defender is aborted and purged, else nothing changes |
| LockTable.Table.War | src/tm2c_cm.c:64-98 | wins exactly if it has a lower timestamp, or the same and a lower id, than each other reader, and purges them although the purges change the array it runs over |
| LockTable.Table.EvictReaders | src/tm2c_cm.c:80-95 | its second loop: each other reader aborted and purged once, in ascending order |
| LockTable.Table.BeatsAll | src/tm2c_cm.c:68-79 | its first loop: true exactly if every other defender has a higher timestamp, or the same and a higher id |
| LockTable.Table.RemoveNode | src/tm2c_dsl_ht.c:103-120 | exactly the node's holdings and log go, every other holding and log stays |
| LockTable.Table.DropAll | src/tm2c_dsl_ht.c:108-118 | dropping one lock per log entry purges every slot of the node |
| LockTable.Table.Remove | include/ssht.h:207-252 | exactly the one holding goes, if there was one, and the slot keeps its address; table and logs stay in agreement exactly unless the node has only the other lock on the address |
| LockTable.Table.constructor | src/ssht.c:38-66 | a new table has no holding and is in agreement |
| LockTable.Slot.Drop | include/ssht.h:163-199 | one lock dropped, the write lock first, and the slot freed when empty |
| LockTable.LogSet.Insert | include/ssht_log.h:95-117 | an entry appended; growth keeps the others |
| LockTable.LogSet.RemoveAt | include/ssht.h:246-250 | one entry gone, the last moved into its place |
| SlotSpec.PurgeKeepsCoherent | src/tm2c_dsl_ht.c:103-120 | a purge keeps table and logs in agreement and takes exactly the node's holdings |
| SlotSpec.DroppedIsPurged | include/ssht.h:181-196 | dropping once per log entry ends in the purged slot, for slots held both ways too |
| SlotSpec.WriteLockGoesFirst | include/ssht.h:181-196 | a drop takes the write lock if the node has it and its read lock otherwise, nobody else's, and frees the slot exactly when nobody is left |
| SlotSpec.PurgeEachKeepsCoherent | src/tm2c_cm.c:80-95 | the same for any set of victims |
| SlotSpec.EvictedSlot | src/ssht.c:104-119 | after the eviction of the blockers the slot can take the requester and is still the only one for the address |
| SlotSpec.EnteredSlot | src/ssht.c:215-221 | entering it yields exactly the granted holdings, in agreement exactly unless the node was its writer already |
| SlotSpec.BlockersAt | src/ssht.c:104-213 | the one slot of an address tells who is in the way and which conflict it is |
| SlotSpec.OthersRead | src/ssht.c:204 | the counter test holds exactly if somebody else reads |
| SlotSpec.CoherentIsExclusive | src/ssht.c:183-236 | a table in agreement never has a writer beside another holder |
| SlotSpec.AbortedEachExactly | src/tm2c_cm.c:80-95 | every victim is aborted once, in ascending order, and nobody else is |
| SlotSpec.DecidedExactly | src/tm2c_cm.c:37-98 | a request is granted exactly if every holder in its way has a higher timestamp, or the same and a higher id; these are aborted once each in ascending order with the kind of conflict and lose all they have, nobody else loses anything; a refusal names what stood in the way and changes nothing |
| SlotSpec.TakeWriteExactly | src/ssht.c:230-236 | a granted write request keeps the agreement exactly if the node did not have the lock |
| SlotSpec.WrittenTwiceLosesExclusion | include/ssht.h:186-195 | a lock written twice and purged lets a writer in beside a reader |
| SlotSpec.ReleasedExactly | include/ssht.h:207-252 | a single release takes exactly that holding and keeps the agreement exactly if the node has that lock |
| Service.Dsl.Handle | src/sys_default.c:325-482 | any message: priority noted, request granted or refused with reply and purge of the sender, or locks released; and for which messages the counted table stays in agreement |
| Service.GivenBackExactly | src/sys_default.c:483-488 | a release takes the one lock of the kind and address it names, the message at the end of an attempt all of the sender's, and no holding of anybody else |
| ReaderMask.MaskSlot.OthersRead | src/ssht.c:201-202 | the test on the mask holds exactly if somebody else reads |
| ReaderMask.MaskSlot.FetchReaders | include/rw_entry_ssht.h:141-159 | the shifting loop fills the array with exactly the readers |
| ReaderMask.MaskSlot.Drop | include/ssht.h:166-179 | dropping on the mask |
| ReaderMask.SameShows | include/rw_entry_ssht.h:119-139 | comparing words is comparing reader sets |
| ReaderMask.OneExactly | include/rw_entry_ssht.h:132-139 | the unique-reader test is exact |
| ReaderMask.SetShows | include/rw_entry_ssht.h:100-104 | setting a bit adds the reader |
| ReaderMask.UnsetShows | include/rw_entry_ssht.h:106-110 | clearing it takes the reader away |
| ReaderMask.SameAsCounter | src/ssht.c:120-130 | mask and counted array do the same to a slot |
| ReaderMask.LoggedTooOftenIsPurged | src/ssht.c:120-122 | purging works although every read is logged again |
| MaskTable.CoveredIsExclusive | src/ssht.c:183-236 | a table of masks whose logs have an entry for every lock never has a writer beside another holder |
| MaskTable.PurgeKeepsCovered | src/tm2c_dsl_ht.c:103-120 | on such a table a purge takes exactly the node's holdings, however often they are logged |
| MaskTable.InsertKeepsCovered | src/ssht.c:104-237 | a granted request, a write lock asked for again included, leads from such a table to such a table with exactly the granted holdings |
| MaskTable.ReleaseKeepsCoveredExactly | include/ssht.h:207-252 | a single release takes exactly that holding and leaves such a table exactly if the node had the lock or was logged too often anyway |
| WriteSet.CommitLeavesLast | src/tm2c_log.c:171-178 | a commit leaves at an address what the scan from the back finds |
| WriteSet.ReadsOwnWrites | src/tm2c_log.c:330-343 | with that scan a transaction reads what it would read if its stores went straight to memory |
| WriteSet.LatestWriteIsRead | include/tm2c.h:534-545 | what is meant by running straight on memory: a read returns the latest store to its address, or what memory held |
| WriteSet.FrontScanExactly | src/tm2c_log.c:187-201 | with the scan from the front it does exactly if at no read the first and latest store to the address differ |
| WriteSet.SingleStoresReadBack | include/tm2c.h:534-545 | storing each address at most once is enough |
| WriteSet.StaleRead | src/tm2c_log.c:187-201 | two stores and a read that returns the older one |
| WriteSet.UpdateIsStore | src/tm2c_log.c:113-127 | an update changes one address of what a commit stores |
| WriteSet.UpdatedIsDistinct | src/tm2c_log.c:113-127 | sets built by updates have no address twice |
| WriteSet.DistinctScansAgree | src/tm2c_log.c:187-201 | on such sets both scans agree |
| WriteSet.CommitIsDirect | src/tm2c_log.c:103-111 | buffered stores and one commit leave the memory of direct stores |
| WriteSet.Buffer.Insert | src/tm2c_log.c:76-111 | the entry is appended and growth by doubling keeps the others |
| WriteSet.Buffer.Update | src/tm2c_log.c:113-127 | the first entry of the address is overwritten, or one appended |
| WriteSet.Buffer.Contains | src/tm2c_log.c:187-201 | the oldest entry of the address |
| WriteSet.Buffer.ContainsFromBack | src/tm2c_log.c:330-343 | the latest entry of the address |
| WriteSet.Buffer.Persist | src/tm2c_log.c:171-178 | memory after all entries in order |
| Allocator.UniformRunsAreSafe | src/tm2c_malloc.c:93-126 | in no run with blocks of one size do two blocks in use overlap, wrap-around of the ring included |
| Allocator.AllocIsFresh | src/tm2c_malloc.c:93-112 | a block in use is never handed out |
| Allocator.AllocFitsExactly | src/tm2c_malloc.c:97-102 | a block handed out fits exactly if it is new or no larger than the waiting one |
| Allocator.LiveBlocksAreDisjoint | src/tm2c_malloc.c:103-107 | as long as blocks fit they do not overlap |
| Allocator.MixedSizesOverlap | src/tm2c_malloc.c:97-102 | four blocks of 8 bytes, three of them freed and one of 16 asked for: it overlaps a block in use |
| Allocator.Push | src/tm2c_malloc.c:120-126 | the ring is a queue that forgets all at the 256th waiting block |
| Allocator.Pop | src/tm2c_malloc.c:97-102 | the spot computed from the two counters is the oldest block |
| Allocator.ReusedInOrder | src/tm2c_malloc.c:93-126 | over a run freed blocks are handed out again in the order in which they were freed, each once, and exactly when three wait |
| Allocator.FullRingForgets | src/tm2c_malloc.c:120-126 | with 255 blocks waiting the next one freed makes all be forgotten |
| Allocator.Heap.Shmalloc | src/tm2c_malloc.c:93-112 | the array, cursor and counters refine that allocator |
| Allocator.Heap.Shfree | src/tm2c_malloc.c:120-126 | and so does freeing |
| Allocator.MemInfo.OnAbort | src/tm2c_mem.c:224-282 | an abort leaves in use exactly what was in use before the transaction |
| Allocator.MemInfo.OnCommit | src/tm2c_mem.c:161-219 | a commit adds what was allocated and takes what was freed |
| Bank.TransferKeepsSumExactly | bmarks/bank.c:85-111 | a transfer keeps the 32-bit sum exactly if the accounts differ or the amount is 0 in 32 bits; which way the money goes is Bank.TransferMoves |
| Bank.TransferMoves | bmarks/bank.c:93-96 | between two accounts it takes the amount from the first, in 32 bits, gives it to the second and leaves everything else alone |
| Bank.CommittedTransferMoves | bmarks/bank.c:85-111 | so does the commit of a transfer attempt |
| Bank.Transfer | bmarks/bank.c:93-109 | the transaction makes the reads and stores of such an attempt |
| Bank.BalanceIsBooked | bmarks/bank.c:85-111 | over every run each single balance is its initial one plus all that committed transfers brought and less all they took, in 32 bits |
| Bank.MoneyIsConserved | bmarks/bank.c:85-111 | over every run the sum after any number of commits is the initial one |
| Bank.TotalsAgree | bmarks/bank.c:144-155 | every committed transactional total returns it |
| Bank.SumSplits | bmarks/bank.c:147-152 | the sum of one account is its balance, that of two groups the sum of theirs |
| Bank.BalancesAgree | bmarks/bank.c:132-143 | so does memory whenever nobody is storing |
| Bank.TotalOf | bmarks/bank.c:147-152 | the accumulating loop returns the sum, wrapped |
| Bank.DestinationDiffersExactly | bmarks/bank.c:304-318 | the draw yields an existing account, changed only if it is the source, and a different one exactly if there are two |
| MapReduce.DrawnInOrder | bmarks/mapreduce/mr.c:334-348 | committed draws return 0, 1, 2, ... once each, the raw read returning the value before the increment |
| MapReduce.NothingIsLost | include/tm2c.h:471-477 | a cell changed by TX_LOAD_STORE only ends with the sum of all additions |
| MapReduce.ParallelIsSequential | bmarks/mapreduce/mr.c:352-432 | for every interleaving, if each process adds what its loop counts for the chunks it has drawn, the merged count of a letter is the sequential one |
| MapReduce.MapReduceLoop | bmarks/mapreduce/mr.c:352-393 | the loop over drawn chunk numbers counts exactly these chunks, class by class |
| MapReduce.MineIsCounted | bmarks/mapreduce/mr.c:357-390 | the draws of a process that are in the commit log are the chunks it counts |
| MapReduce.CountChunk | bmarks/mapreduce/mr.c:380-385 | the counting loop adds, for every letter, the places of its chunk where it stands small or capital |
| MapReduce.OffsetOfLetter | bmarks/mapreduce/mr.c:42-58 | char_offset gives each letter, small or capital, its place in the alphabet, and 26 exactly to everything else |
| MapReduce.CountIsPlaces | bmarks/mapreduce/mr.c:380-385 | a count is the number of places where a character of the class stands |
| MapReduce.MapReduceSeq | bmarks/mapreduce/mr.c:447-485 | the sequential loops return, for every letter, the number of places from 1 to the file size where it stands small or capital |
| MapReduce.ChunksCount | bmarks/mapreduce/mr.c:461-476 | consecutive chunks together count the file without gap or overlap |
| MapReduce.CountsTotalFileSize | bmarks/mapreduce/mr.c:380-385 | the counts of all classes add up to the number of places counted |
| MapReduce.CountsAreTheFilesExactly | bmarks/mapreduce/mr.c:381-384 | they are the counts of the file exactly if its first character is no letter |
| ListSets.SetsAreSets | bmarks/microbench/linkedlist/linkedlist.c:271-310 | over every run, nodes freed and used again included, after any number of commits every bucket is a strictly sorted list between its sentinels that holds what the same operations make of mathematical sets |
| ListSets.ResultsAreSetResults | bmarks/microbench/linkedlist/linkedlist.c:440-483 | every committed operation returned what it returns on those sets |
| ListSets.AnswersExactly | bmarks/microbench/linkedlist/linkedlist.c:271-310 | what that is: 1 exactly if the sets changed as asked, 0 if they did not, and from the naive move 2 if it removed the one value but did not add the other |
| ListSets.TableIsOneSet | bmarks/microbench/hashtable/intset.c:207-275 | every committed operation on the hash table returned what it returns on one set |
| ListSets.AsOneSet | bmarks/microbench/hashtable/intset.c:207-275 | with each value in the bucket of its remainder the buckets together behave as one set |
| ListSets.HashIsUnsigned | bmarks/microbench/hashtable/intset.c:207-215 | the bucket of a negative value is that of the unsigned number with its bits |
| ListSets.PeeksAreSerial | bmarks/microbench/linkedlist/linkedlist.c:159-175 | although values are read without a lock, a committed attempt saw those of the serial execution |
| ListSets.PlainStays | bmarks/microbench/linkedlist/linkedlist.c:34-60 | filling a node that cannot be reached leaves every list as it is |
| ListSets.MovesKeepSizeExactly | bmarks/microbench/hashtable/intset.c:98-275 | a move keeps the number of elements; the naive one loses an element exactly if it returns 2 |
| ListSets.OneOperation | bmarks/microbench/hashtable/intset.c:207-275 | one committed attempt alone turns a table for some sets into a table for the sets after the operation |
| ListSets.WalkEnds | bmarks/microbench/linkedlist/linkedlist.c:155-175 | on a sorted list the search ends between the smaller and the larger values, which decides membership |
| ListSets.LinkedIsList | bmarks/microbench/linkedlist/linkedlist.c:304-310 | linking a node of a value in between keeps the list sorted and ended by its sentinel |
| ListSets.LinkedElements | bmarks/microbench/linkedlist/linkedlist.c:304-310 | and adds exactly that value |
| ListSets.UnlinkedIsList | bmarks/microbench/linkedlist/linkedlist.c:475-480 | unlinking a node keeps the list |
| ListSets.UnlinkedElements | bmarks/microbench/linkedlist/linkedlist.c:475-480 | and takes exactly its value |
| ListSets.Search | bmarks/microbench/linkedlist/linkedlist.c:159-175 | the search loop makes a walk |
| ListSets.MoveTarget | bmarks/microbench/hashtable/intset.c:211-217 | the loop before both moves ends at a value of another bucket, the given one if that is in another bucket already |
| ListSets.SetAdd | bmarks/microbench/linkedlist/linkedlist.c:271-310 | set_add makes the reads and the store that such an attempt makes |
| ListSets.SetRemove | bmarks/microbench/linkedlist/linkedlist.c:440-483 | so does set_remove |
| ListSets.HtMove | bmarks/microbench/hashtable/intset.c:207-275 | so does ht_move |
| ListSets.HtMoveNaive | bmarks/microbench/hashtable/intset.c:98-168 | so does ht_move_naive |

## Left out

- The PGAS branches of contention manager and service, which overwrite a table entry without purging the victim; only the PGAS write-set scan is modelled.
- The policies GREEDY, NOCM and BACKOFF_RETRY: the first resets recorded priorities, the others have no contention manager.
- Early release (`TX_RRLS`, `TX_WRLS`) in the protocol, because it breaks two-phase locking by design; on the lock table it is `LockTable.Table.Remove`.
- Non-transactional loads and stores other than peeks and plain stores to private memory.
- The early-release and read-validation variants of the list, and the snapshot and rollback operations of the hash table.
- Which node the allocator hands out in the list programs: any node that cannot be reached will do.
- ListSets.MoveTarget: for tables of two buckets and ranges of two values or more, because with fewer the loop of the source never ends.
- Fairness and termination of retries beyond the priority order; 64-bit wrap-around of priorities.
- Several threads on one allocator: its cursor and ring are per thread; `stm_malloc` of private memory is the C library's.
- The other ports (SCC, Tilera, Niagara, Opteron, Xeon), start-up, barriers, statistics, printing, options, random numbers, delays.
- Width of data: memory cells hold integers; only the benchmarks wrap to 32 bits. A log or write set that cannot be enlarged is not modelled.
- LockTable.LogSet.Insert: the array of a log is a sequence that is replaced by a longer one, so that reuse of its storage is not modelled.
- Service.Dsl.Handle: one message runs to the end at once; how its parts interleave with other threads is the subject of the protocol.
