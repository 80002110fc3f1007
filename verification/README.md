# Verified models of a SalemCash node

SalemCash is a Bitcoin-derived node with a bundled LevelDB. This project models the parts of it whose
correctness is hardest to see from the code, and proves what they promise:

- **Unspent-output caches** (`CashTypes`, `CashView`, `CashRuns`, `CashCache`). Write-back caches stacked on
  a database, with DIRTY and FRESH marks. Any run of operations and flushes at any level shows one flat map, and
  a write to the database that is interrupted at any moment can be completed.
- **Input selection** (`Selection`, `BranchAndBound`, `Knapsack`). The branch-and-bound search is optimal when
  it finishes, and among all it can settle within its tries when it does not; the randomised solver succeeds exactly when the pool suffices.
- **The check queue** (`CheckQueue`). One master and any number of workers under every schedule: exact verdicts,
  no check twice, no lost wake-up, and an end to every wait.
- **The address manager** (`AddrTables`, `AddrKeeps`, `AddrOps`, `AddrClient`, `AddrEffects`, `AddrMan`, `AddrRuns`,
  `AddrStore`). What every call changes is told from the tables before and after alone. Its own consistency check passes after every run of client calls, and saving and loading loses nothing.
- **256-bit numbers and difficulty** (`Bits`, `Limbs`, `BaseUint`, `Difficulty`). The limb operators compute the
  integers they stand for, up to division, compact targets and block work.
- **The block tree** (`Chain`). Skip pointers, the active chain, forks and locators.
- **Table blocks** (`BlockFormat`, `BlockBuilder`, `BlockIter`). Prefix-compressed blocks read back exactly as they
  were built, forwards, backwards and by binary search.
- **The LRU cache** (`HandleTable`, `LruRing`, `LruCache`). A growing hash table of linked chains, two circular lists
  and reference counts; every link that is redirected is proved against the sequence it runs through.
- **Text codecs** (`Digits`, `Base58`, `Bech32`, `Bech32Text`, `Field1024`, `Bech32Errors`,
  `Bech32Vectors`). Round trips both ways, buffer sizes, and the distance of the Bech32 code: up to three wrong symbols
  within 1023 are noticed, in the data or in the prefix.
- **The rolling Bloom filter** (`RollingBloom`) and **compact blocks** (`CompactBlock`).

Code that changes state in place is modelled by classes and by methods with loops over arrays and fields; each
method is tied to a function of the state before it, or states its promise outright. What holds over whole runs
is proved about those functions. Hashes, randomness, clocks, schedules, comparators and block validity are
arbitrary functions or free choices, so that the results hold for all of them. `Options` holds shared helpers.

Where the code and its comments disagree the model follows the code:

- `SpendCash` returns true also for a cached record that is already spent.
- Flushing a cache whose own best block was never asked for clears the parent's; `FlushBestBlock` says exactly
  when a flush hands the best block on, and `FlushBestBlockGap` gives a stack where it does not.
- `AddCash` without permission to overwrite refuses a coin only if it is cached and unspent. Where the coin is
  unspent further down, it is accepted wrongly: `AddKeeps` gives the exact condition, `MisusedAddResurrects` the effect.
- Multiplying a limb number in place by itself gives zero, because the operand is cleared before it is read.
- A table iterator's restart index may be that of the interval before when it stands on a restart point.
- The check that the address manager makes of itself leaves three things untested (`NoStrays`); with them it is
  equivalent to the invariant, and each of them alone can be wrong while the check passes (`StraysUnchecked`).
- A file of the address manager may announce fewer than zero new entries. Its tried entries are then numbered from
  there, and the one numbered -1, which stands for an empty slot, gets none. This happens if and only if the tried
  records fall into at least as many different slots as the count is below zero (`Unserialize`); `LoadShortFile` loads
  such a file.
- The database refuses a null best block, so a flush onto it succeeds if and only if the cache has a best block of
  its own (`FlushKeeps`); asking for it first is enough wherever one is known (`AskThenFlush`).
- The entry decoder of a table block promises to stay within its limit, but adds two lengths in 32 bits. It keeps
  the promise if and only if they add up without wrapping (`DecodeEntry`); `WrappedEntry` gives bytes where it does
  not. The offset of the next entry always stays within the block (`ShownAdvances`).
- A compact block may have up to 100000 transactions, but positions are kept in 16 bits. Short ids find their own
  slots if and only if there are at most 65536 (`SlotsRight`, `LastIdWraps`), and the search for a free slot ends
  unless 65536 transactions are sent along and some are not (`InitData`, `EndlessAccepted`).

## Model

| member | source | states |
|---|---|---|
| CashView.AnswerIsCoin | cash.cpp:57-64 | what a view answers, through any number of caches, is the coin it stands for; a spent record and no record both mean none |
| CashView.FetchKeeps | cash.cpp:40-55 | fetching leaves what every level of the stack shows unchanged, caches the coin if there is one and touches no other entry, keeps all flags justified and the memory count exact |
| CashView.AddKeeps | cash.cpp:66-85 | adding is accepted and keeps the invariant if and only if overwriting is allowed or the coin is not unspent; accepted, it changes that one coin of the view |
| CashView.MisusedAddResurrects | cash.cpp:74-85 | for every misuse the code does not notice, spending the added coin brings the older one back |
| CashView.SpendKeeps | cash.cpp:98-112 | spending removes exactly one coin from the view, never one from the levels below, and keeps the flags justified |
| CashView.UncacheKeeps | cash.cpp:210-217 | drops the entry if and only if it is clean, no other, and shows nothing different |
| CashView.MergeEntryRight | cash.cpp:145-201 | for every consistent parent and child entry the merged entry is consistent, shows what the child showed, and the FRESH-misapplied error cannot occur |
| CashView.FlushKeeps | cash.cpp:203-208 | a flush of consistent caches fails if and only if it goes to the database from a cache without a best block of its own; otherwise it empties the cache, which goes on showing the same coins, and makes its parent show them too |
| CashRuns.StepRefines | cash.cpp:40-217 | an action at any level succeeds if and only if it does not flush a level without a best block into the database; it then does to the coins and best blocks of all levels just what it does to one plain map and one hash per level |
| CashRuns.RunRefines | cash.cpp:40-217 | every legal run on a stack of any height succeeds, keeps the invariant and refines one plain map and one best-block hash per level |
| CashRuns.AtDepthRefines | cash.cpp:145-208 | reads, uncaching, best-block queries and flushes at any depth below the top change what the levels show only as the reference says, and fail only as it says |
| CashRuns.TopIsFlat | cash.cpp:40-217 | without discarding the top cache, the top map of the reference run depends on adds and spends alone |
| CashRuns.TopShowsFlatMap | cash.cpp:40-217 | after any such run the top view equals one flat map given the same adds and spends |
| CashRuns.GetBestKeeps | cash.cpp:135-139 | asking for the best block remembers it and changes nothing visible |
| CashRuns.FlushBestBlock | cash.cpp:145-208 | a flush that goes ahead hands the best block on if and only if the cache knew it, the parent is a store, or the parent's own is unset or the same as the one below it |
| CashRuns.AskThenFlush | cash.cpp:135-208 | after asking for the best block a flush hands it on, and fails only onto a database when none is known |
| CashRuns.FlushBestBlockGap | cash.cpp:199-207 | a stack of two caches whose flush loses the best block |
| CashCache.CashStore.BatchWrite | txdb.cpp:83-142 | refused exactly by the database's two assertions; otherwise the dirty entries are written, the spent ones erased, all others left and the best block moved on |
| CashCache.CashStore.WriteDatabase | txdb.cpp:83-142 | however the loop is cut into batches, every state of the disk on the way is marked with both blocks and has each record old or new, or is the final one |
| CashCache.WriteAgain | txdb.cpp:89-106 | after an interruption at any moment, writing the same batch again passes the assertions and completes it |
| CashCache.CashViewCache.FetchCash | cash.cpp:40-55 | the object's new stack is the fetched one, and the entry found is returned |
| CashCache.CashViewCache.GetCash | cash.cpp:57-64 | answers the unspent coin through the whole stack |
| CashCache.CashViewCache.AddCash | cash.cpp:66-85 | accepts exactly when adding is defined, with that result; refused, only the memory count has changed |
| CashCache.CashViewCache.SpendCash | cash.cpp:98-112 | leaves the spent stack and moves the coin out |
| CashCache.CashViewCache.AccessCash | cash.cpp:116-123 | on consistent caches shows the coin of the view, or the empty coin |
| CashCache.CashViewCache.HaveCash | cash.cpp:125-128 | true exactly if the view has the coin |
| CashCache.CashViewCache.GetBestBlock | cash.cpp:135-139 | the best block of the nearest level that knows one |
| CashCache.CashViewCache.SetBestBlock | cash.cpp:141-143 | replaces the best block and nothing else |
| CashCache.CashViewCache.MergeOne | cash.cpp:147-198 | one round of the merge, refused exactly when FRESH is misapplied, with the memory count kept in step |
| CashCache.CashViewCache.MergeAll | cash.cpp:147-198 | the loop over a child's entries, in any order, yields the entry-wise merge |
| CashCache.CashViewCache.BatchWrite | cash.cpp:145-201 | the parent after a child's flush |
| CashCache.CashViewCache.Flush | cash.cpp:203-208 | the flushed stack; on consistent caches and a database that is not replaying it succeeds if and only if the database is told a best block |
| CashCache.CashViewCache.Uncache | cash.cpp:210-217 | drops the entry if it is clean |
| CashCache.CashViewCache.AddTransaction | cash.cpp:87-96 | all spendable outputs of a transaction become coins of the view and no other coin changes, if overwriting is checked, the transaction is a coinbase, or none was unspent |
| BranchAndBound.CutLosesNothing | cashselection.cpp:94-97 | under each of the three prunings no completion of the partial selection can beat the best so far |
| BranchAndBound.FitLosesNothing | cashselection.cpp:98-111 | below a selection that fits, none wastes less |
| BranchAndBound.ExchangeEqual | cashselection.cpp:136-141 | exchanging an input for its equal predecessor keeps every sum |
| BranchAndBound.SkipLosesNothing | cashselection.cpp:136-141 | skipping an input whose equal predecessor was left out loses no selection of less waste |
| BranchAndBound.Backtrack | cashselection.cpp:113-129 | walks back and flips, keeping value, availability and waste equal to their sums; the nodes still to be visited are those after the branch left |
| BranchAndBound.Forward | cashselection.cpp:130-148 | one step down, with the sums exact, skipping inputs equal to an omitted one; the nodes still to be visited are one fewer |
| BranchAndBound.Search | cashselection.cpp:86-149 | what it records fits and wastes what it says; nothing that fits and can be settled within the tries wastes less; with as many tries as the rules leave nodes it exhausts the tree; exhausted, nothing that fits wastes less at all |
| BranchAndBound.SelectCashBnB | cashselection.cpp:63-166 | any result is a part of the pool in range with its true value; it is found, and nothing better, whenever something that fits within the waste limit can be settled within 100000 tries; when the search finishes, and always up to 15 inputs, it has the least waste, and failure means that the pool is empty or no selection within the waste limit exists |
| BranchAndBound.NotPassed | cashselection.cpp:91-149 | a selection that a node has not left behind needs more nodes, counted by the pruning and skipping rules, than come before that node |
| BranchAndBound.SelectThirty | cashselection.cpp:63-166 | from four inputs of 7, up to 99993 of 5 and one of 2, in any order and without fee surplus, 30 is selected |
| Selection.SortDescending | cashselection.cpp:83-84 | a permutation in descending effective value |
| Selection.Collect | cashselection.cpp:156-163 | the set and the total of the inputs a choice includes |
| Knapsack.Shuffle | cashselection.cpp:224 | any permutation |
| Knapsack.ApproximateBestSubset | cashselection.cpp:168-212 | whatever the coin tosses, the best subset has the stated total, at least the target and at most the whole; for positive amounts one of its inputs cannot be left out without missing the target |
| Knapsack.FillOnce | cashselection.cpp:179-211 | one repetition always reaches the target, and if it is the first or the best so far is tight the best after it is |
| Knapsack.Partition | cashselection.cpp:226-243 | stops at an exact input, otherwise splits the pool in two around target plus minimum change and finds the least of the larger part |
| Knapsack.SolveSubset | cashselection.cpp:264-299 | a part of the pool worth at least the target; change below the minimum only if the whole pool is worth less than target plus minimum change; never more than the cheapest single input that would do |
| Knapsack.KnapsackSolver | cashselection.cpp:214-301 | for positive amounts it succeeds if and only if the pool reaches the target, returns the true sum of its set, leaves little change only when it must, never takes more than the cheapest sufficient single input, and takes an input that cannot be left out without less than target and minimum change remaining |
| CheckQueue.InitialInv | checkqueue.h:131 | a new queue satisfies the invariant |
| CheckQueue.AddInv | checkqueue.h:146-158 | adding checks keeps it, whichever sleeping worker is woken |
| CheckQueue.FinishInv | checkqueue.h:77-82 | handing in a batch keeps the pending count and the verdict exact |
| CheckQueue.TakeInv | checkqueue.h:107-116 | taking a batch of the computed size keeps every count and loses or doubles no check |
| CheckQueue.BatchIsShare | checkqueue.h:102-107 | a batch is the largest that exceeds neither the batch size nor an equal share of the queue, and never empty |
| CheckQueue.BlockInv | checkqueue.h:98-100 | going to sleep keeps it; a master sleeps only while something is pending |
| CheckQueue.ExecuteInv | checkqueue.h:118-121 | running a check outside the lock keeps it |
| CheckQueue.NextInv | checkqueue.h:66-158 | every atomic step of every thread keeps the invariant |
| CheckQueue.SafeRun | checkqueue.h:66-158 | in every state any schedule reaches: pending is queued plus held, every wait so far answered with the conjunction of exactly its checks, and no check ran twice |
| CheckQueue.WaitReturns | checkqueue.h:88-97 | when the master leaves, its answer is the conjunction of all checks added since the last wait and the queue is as new |
| CheckQueue.NoDeadlock | checkqueue.h:77-100 | while the master waits, some thread can take a step that brings the end nearer: the last wake-up is never lost |
| CheckQueue.ProgressCosts | checkqueue.h:66-124 | every such step lowers a measure |
| CheckQueue.WaitEnds | checkqueue.h:140-143 | every run of such steps is bounded, and one that cannot go on has let the master out |
| AddrKeeps.CreateKeeps | addrman.cpp:81-91 | all indexes stay in step but for the new entry, which has no place yet and is not counted |
| AddrKeeps.SwapKeeps | addrman.cpp:93-111 | a swap in the random order keeps it the inverse of the entries' positions |
| AddrKeeps.DeleteKeeps | addrman.cpp:113-125 | an unreferenced entry can be deleted, its assertions hold, and all indexes stay in step |
| AddrKeeps.ClearKeeps | addrman.cpp:127-140 | clearing a slot frees just that slot, deletes the entry with its last reference, and keeps every count |
| AddrOps.EvictKeeps | addrman.cpp:160-182 | the evicted entry goes back to the new table at its hashed place, and nothing else leaves the tried table |
| AddrOps.MakeTriedKeeps | addrman.cpp:142-188 | a new entry that succeeded can be moved; it ends in its hashed tried slot, all counts exact |
| AddrClient.AlwaysInSomeBucket | addrman.cpp:219-234 | an entry that is not tried is found in some bucket: the bail-out is unreachable |
| AddrClient.GoodKeeps | addrman.cpp:190-252 | for positive times the invariant is kept and no occupied tried slot becomes empty |
| AddrClient.PlaceKeeps | addrman.cpp:303-323 | placing an entry evicts only what may be evicted and leaves the tables consistent, the entry deleted if it got no place |
| AddrClient.AddKeeps | addrman.cpp:254-325 | adding keeps the invariant and the tried table |
| AddrClient.AttemptKeeps | addrman.cpp:327-347 | recording an attempt keeps the invariant |
| AddrClient.ConnectedKeeps | addrman.cpp:495-513 | recording a connection keeps the invariant |
| AddrClient.SetServicesKeeps | addrman.cpp:515-531 | changing services keeps the invariant |
| AddrClient.ShuffleStep | addrman.cpp:474-493 | each draw of GetAddr only permutes the random order |
| AddrClient.ResolveOneKeeps | addrman.cpp:537-587 | resolving a collision keeps the invariant and empties no tried slot |
| AddrEffects.MakeTriedMoves | addrman.cpp:142-188 | the entry is in its hashed tried slot and has left the new table; the entry that was there is back at its place in the new table; what that drives out is deleted if it had no other slot; every other entry and slot is as before |
| AddrEffects.GoodDoes | addrman.cpp:190-252 | a success is noted; a new entry moves to the tried table if its slot is free or need not be tested, is put down as pending if it has to be and fewer than ten are, and otherwise only the notes change; for an unknown address only the time of the last success does |
| AddrEffects.MovedMeans | addrman.cpp:142-188 | a moved entry is tried, in its slot, without any reference; the evicted one is not tried and has one |
| AddrEffects.PlaceDoes | addrman.cpp:303-323 | the slot is taken if it is free, or its entry is terrible or has others and the new one has none; an entry left without any is deleted; nothing else changes |
| AddrEffects.AddDoes | addrman.cpp:254-325 | an unknown routable address becomes a new entry with the notes announced, in its slot for the source, or uses up a number only; a known one is refreshed and, by chance, enters another bucket; others are refused |
| AddrEffects.AddedIsKnown | addrman.cpp:254-325 | an unknown address whose slot may be taken is found by its address afterwards, with one reference, in that slot alone |
| AddrEffects.AttemptDoes | addrman.cpp:327-347 | only the entry of that address and port is noted as tried, and counted as failing once between successes |
| AddrEffects.ConnectedDoes | addrman.cpp:495-513 | only the time of that entry is brought forward, if it is more than twenty minutes old |
| AddrEffects.SetServicesDoes | addrman.cpp:515-531 | only the services of that entry change |
| AddrEffects.ResolveOneDoes | addrman.cpp:537-587 | a pending collision is forgotten, stays pending or moves its entry to the tried table, exactly by the rival in its slot and the clock |
| AddrEffects.ResolveDoes | addrman.cpp:537-587 | pending collisions are resolved one after the other, each so |
| AddrEffects.AnyFront | addrman.cpp:474-493 | any entries, in any order, can come out first of the shuffle |
| AddrEffects.TerribleExactly | addrman.cpp:33-52 | when an entry is not worth keeping, in seconds and counts |
| AddrMan.CAddrMan.Create | addrman.cpp:81-91 | the object's new tables are those of the operation, and the id is new |
| AddrMan.CAddrMan.SwapRandom | addrman.cpp:93-111 | the step-by-step swap is the swap of the operation |
| AddrMan.CAddrMan.Delete | addrman.cpp:113-125 | the step-by-step deletion is the deletion of the operation |
| AddrMan.CAddrMan.ClearNew | addrman.cpp:127-140 | the slot is cleared as the operation says |
| AddrMan.CAddrMan.LeaveNew | addrman.cpp:144-154 | the loop over all buckets removes exactly the entry's slots |
| AddrMan.CAddrMan.MakeTried | addrman.cpp:142-188 | the new tables are those of the operation, its assertions holding |
| AddrMan.CAddrMan.EvictFrom | addrman.cpp:160-182 | the eviction of the operation |
| AddrMan.CAddrMan.FindBucket | addrman.cpp:219-229 | the wrap-around search finds a bucket from any start if and only if there is one |
| AddrMan.CAddrMan.Good | addrman.cpp:190-252 | the new tables are those of the operation, consistent, and as `GoodDoes` tells |
| AddrMan.CAddrMan.Place | addrman.cpp:303-323 | the new tables are those of the operation |
| AddrMan.CAddrMan.Add | addrman.cpp:254-325 | tables and answer are those of the operation for some outcome of the lottery, consistent, and as `AddDoes` tells |
| AddrMan.CAddrMan.Attempt | addrman.cpp:327-347 | the new tables are those of the operation and consistent |
| AddrMan.CAddrMan.Connected | addrman.cpp:495-513 | the new tables are those of the operation and consistent |
| AddrMan.CAddrMan.SetServices | addrman.cpp:515-531 | the new tables are those of the operation and consistent |
| AddrMan.CAddrMan.GetAddr | addrman.cpp:474-493 | a partial shuffle; returned are the entries drawn that are not terrible, no more than the limit, and fewer only when all were drawn |
| AddrMan.CAddrMan.ResolveCollisions | addrman.cpp:537-587 | every pending collision is resolved, in ascending order of ids |
| AddrRuns.EmptyInv | addrman.h:467-489 | a cleared manager is consistent |
| AddrRuns.RunKeeps | addrman.cpp:81-587 | every run of client calls keeps the invariant and never empties a tried slot |
| AddrRuns.InvIffChecked | addrman.cpp:397-471 | the invariant is equivalent to the manager's own check together with the three things the check leaves out |
| AddrRuns.StraysUnchecked | addrman.cpp:397-471 | for each of the three, tables that pass the check and fail it alone |
| AddrRuns.CheckPasses | addrman.cpp:397-471 | the check passes after every run from Clear |
| AddrStore.OrderIs | addrman.h:325-344 | the entries written as new and then as tried are all entries, once each, as many as the counters say |
| AddrStore.BelowCount | addrman.h:327-344 | the two assertions of the writer never fail |
| AddrStore.WriteNew | addrman.h:325-335 | the records of the referenced entries in order, and for every entry the number of those before it |
| AddrStore.WriteTried | addrman.h:336-344 | the records of the tried entries in order |
| AddrStore.WriteBucket | addrman.h:345-358 | the numbers of the entries in a bucket, by position |
| AddrStore.Serialize | addrman.h:312-359 | the file that the tables stand for: of each entry its address, services, time, source, last success and attempts |
| AddrStore.TriedLoads | addrman.h:411-428 | a tried entry that was saved finds its hashed slot free |
| AddrStore.PlaceFinds | addrman.h:432-447 | every number saved for a slot leads back to that slot, which is free, with room for the reference |
| AddrStore.ReadNew | addrman.h:390-409 | fails exactly if records are missing; the new entries come back numbered in order, listed in the random order; without usable places each slot that a record asks for by its source goes to the first that asks, with one reference |
| AddrStore.ReadTried | addrman.h:410-429 | fails exactly if records are missing; tried entries are numbered on from the id count, whatever its sign, and go to their hashed slots, as many below zero as there are different slots; while -1 is not given out every slot goes to the first record that asks for it and no other slot is taken; entries read before stay as they were; of a saved file none is lost |
| AddrStore.ReadBuckets | addrman.h:431-447 | fails exactly if buckets are missing; the places of a saved file are filled again, all of them; only reference counts and the new table change, and nothing at all when the places cannot be used |
| AddrStore.ServedNext | addrman.h:400-408 | a record whose slot is free gets it and leaves the slots of the earlier ones alone, in either table |
| AddrStore.Prune | addrman.h:449-459 | keeps exactly the entries that are tried or referenced; the random order and both tables stay right; those kept change only their place in that order; nothing happens when all have a place |
| AddrStore.Clear | addrman.h:467-489 | everything but the pending collisions is emptied |
| AddrStore.Unserialize | addrman.h:362-465 | loading what was saved from consistent tables gives the same addresses, services, times, sources, last successes and attempts in the same slots of both tables with the same reference counts, up to renumbering, consistent again; a file is accepted if and only if it has the right key size, no more entries than slots and all it announces; it then leaves a right random order and no new entry without a place, and every tried entry is in its hashed slot unless, and only unless, fewer than zero new entries are announced and the tried records fall into so many different slots that numbering them reaches -1; but for that case each tried slot goes to the first record that hashes to it; if the places in the file cannot be used, exactly the slots that the new records ask for by their source are taken, each by the first that asks, and the others are gone |
| AddrStore.LoadShortFile | addrman.h:362-465 | a file that announces -1 new entries and one tried entry, whichever it is, is accepted and leaves that entry in no slot |
| AddrStore.ReloadedInv | addrman.h:362-465 | tables that hold the same entries in the same slots under new numbers satisfy the whole invariant |
| AddrStore.SavedSizes | addrman.h:382-388 | consistent tables never exceed the sizes that loading refuses |
| Limbs.ShlVal | arith_uint256.cpp:23-37 | limbs filled with their shifted pieces are the number times a power of two, modulo the width |
| Limbs.ShrVal | arith_uint256.cpp:40-54 | limbs filled with the pieces shifted down are the quotient by a power of two |
| Limbs.SetBit | arith_uint256.cpp:101 | setting a bit above nothing but zeros adds that power of two |
| BaseUint.UInt.ShiftLeft | arith_uint256.cpp:23-37 | the value times 2^shift modulo 2^(32 width), for every shift |
| BaseUint.UInt.ShiftRight | arith_uint256.cpp:40-54 | the value divided by 2^shift, for every shift |
| BaseUint.UInt.MulSmall | arith_uint256.cpp:57-66 | the product with a 32-bit number modulo the width, intermediate sums within 64 bits |
| BaseUint.UInt.MulRow | arith_uint256.cpp:73-80 | one row adds limb times number at its place, losing only multiples of the modulus |
| BaseUint.UInt.MulAssign | arith_uint256.cpp:69-82 | the product modulo the width, unless the operand is the number itself: then zero |
| BaseUint.UInt.DivRound | arith_uint256.cpp:98-105 | one round keeps dividend = quotient * divisor + rest with the rest ever smaller |
| BaseUint.UInt.DivAssign | arith_uint256.cpp:85-108 | the exact floor quotient for every non-zero divisor, also the number itself; refuses zero |
| BaseUint.UInt.CompareTo | arith_uint256.cpp:111-120 | the order of the two values |
| BaseUint.UInt.Bits | arith_uint256.cpp:173-185 | the number of bits up to the highest set |
| BaseUint.HighestBit | arith_uint256.cpp:177-181 | the highest set bit of a limb |
| BaseUint.UInt.AddAssign | arith_uint256.h:140-150 | the sum modulo the width, also with the number itself |
| BaseUint.UInt.SubAssign | arith_uint256.h:152-156 | the difference, wrapping once below zero |
| BaseUint.UInt.Complement | arith_uint256.h:74-80 | the largest number minus the value |
| BaseUint.UInt.Negate | arith_uint256.h:82-89 | the value's negative modulo the width |
| BaseUint.UInt.Increment | arith_uint256.h:178-185 | one more modulo the width |
| BaseUint.UInt.Assign | arith_uint256.h:93-100 | the 64-bit number |
| BaseUint.UInt.Low64 | arith_uint256.h:250-254 | the value modulo 2^64 |
| Difficulty.OverflowExact | arith_uint256.cpp:219-221 | the three-way test holds exactly if the number does not fit 256 bits |
| Difficulty.SetCompact | arith_uint256.cpp:205-223 | mantissa * 256^(exponent-3) modulo 2^256, with both flags exact |
| Difficulty.CompactVectors | arith_uint256.cpp:205-225 | concrete compact forms and their values |
| Difficulty.TopWord | arith_uint256.cpp:227-240 | mantissa and exponent, the mantissa clear of the sign bit |
| Difficulty.GetCompact | arith_uint256.cpp:225-246 | the greatest number the compact form can express that is not above the value, in normal form; its assertions hold |
| Difficulty.NormalUnique | arith_uint256.cpp:225-246 | normal forms that stand for the same number are the same |
| Difficulty.Recoded | arith_uint256.cpp:205-246 | what encoding makes of a decoded form is canonical, and is the form itself if and only if that is canonical: normal, within 256 bits, no sign on zero |
| Difficulty.Recode | arith_uint256.cpp:205-246 | the same of decoding into a number and encoding it, for every 32-bit form |
| Difficulty.TargetNotAllOnes | chain.cpp:125-132 | the divisor of the work formula never wraps to zero |
| Difficulty.GetBlockProof | chain.cpp:120-133 | floor(2^256 / (target + 1)) for every usable target, otherwise zero |
| Difficulty.HarderIsMoreWork | chain.cpp:120-133 | a smaller target never stands for less work |
| Chain.InvertsLowestOne | chain.cpp:69 | n & (n - 1) takes away the lowest power of two in n |
| Chain.GetSkipHeight | chain.cpp:72-80 | a height below n, from the bit tricks |
| Chain.SkipsBack | chain.cpp:72-80 | an even height skips back by its lowest power of two, an odd one by the two lowest of the height before it |
| Chain.AncestorOfAncestor | chain.cpp:82-107 | an ancestor's ancestor is the block's own |
| Chain.BlockIndex.GetAncestor | chain.cpp:82-107 | the jumping walk ends and returns what single steps along pprev return, its assertion holding; none outside the heights |
| Chain.BlockIndex.BuildSkip | chain.cpp:114-118 | the skip pointer is the ancestor at the skip height |
| Chain.LastCommonAncestor | chain.cpp:154-169 | the highest block that both are or descend from |
| Chain.LastCommonUnique | chain.cpp:154-169 | there is only one |
| Chain.KeptBelow | chain.cpp:16-19 | one right slot means that all slots below are right: the early exit is sound |
| Chain.ActiveChain.SetTip | chain.cpp:10-20 | after any sequence of calls every slot holds the tip's ancestor at its height |
| Chain.ActiveChain.FindFork | chain.cpp:50-59 | the highest chain block that is the given block or an ancestor of it |
| Chain.ActiveChain.GetLocator | chain.cpp:22-48 | ancestors of the start, from itself down to genesis, one block back at a time and then in doubling steps |
| Chain.ForkIsLastCommon | chain.cpp:50-59 | the fork equals the last common ancestor with the tip, and exists when the genesis is the same |
| Base58.MultiplyAdd | base58.cpp:57-63 | the in-place carry loop multiplies and adds exactly, and no carry is left |
| Base58.ConvertInto | base58.cpp:95-109 | the buffer ends with the value of all bytes read |
| Base58.ByteBound | base58.cpp:93 | n bytes always fit n*138/100+1 digits |
| Base58.CharBound | base58.cpp:47 | n digits always fit n*733/1000+1 bytes |
| Base58.ConvertBack | base58.cpp:34-121 | converting between bases and back restores the digits, leading zeros included |
| Base58.DecodeEncoded | base58.cpp:34-121 | decoding the encoding of any bytes gives them back |
| Base58.EncodeDecoded | base58.cpp:34-121 | encoding what an accepted string decodes to gives the string without surrounding white space |
| Base58.EncodeBase58 | base58.cpp:83-121 | the loop computes the specified encoding, its assertion holding |
| Base58.ReadInto | base58.cpp:49-65 | reading and carrying character by character, the buffer has the value of the digits read and no carry is ever left, on every text, also one refused later |
| Base58.DecodeBase58 | base58.cpp:34-81 | accepts exactly the digits within white space and computes the specified decoding; its assertion holds on every text |
| Base58.EncodeThenDecode | base58.cpp:34-121 | running both directions gives the bytes back |
| Base58.AlphabetAt | base58.cpp:14 | the characters of the digits |
| Base58.EncodedVector | base58.cpp:83-121 | a zero byte and three bytes 62 are written 1a3gV |
| BlockFormat.EncodesVarint | coding.cc:47-73 | the five-way encoder writes seven bits a byte |
| BlockFormat.GetVarint32 | coding.cc:112-129 | the loop reads what the definition says, or nothing |
| BlockFormat.VarintRoundTrip | coding.cc:47-129 | an encoded number is read back, and reading stops right after it |
| BlockFormat.FixedRoundTrip | coding.cc:9-18 | four bytes read back the number written |
| BlockFormat.LengthsRoundTrip | block.cc:53-70 | the fast and the slow header path read the lengths that were written |
| BlockFormat.DecodeEntry | block.cc:53-74 | whatever the bytes, what is decoded advances and its 32-bit extent is within the limit; the entry itself is if and only if its two lengths add up without wrapping |
| BlockFormat.WrappedEntry | block.cc:70-72 | seven bytes whose entry is accepted and ends outside |
| BlockFormat.EntryRoundTrip | block.cc:53-74 | decoding at an entry finds its lengths, key bytes and value |
| BlockFormat.FormatVectors | block_builder.cc:93-101 | low bytes first, seven bits a byte, shared length before the others |
| BlockFormat.FinishedOpens | block.cc:23-38 | a finished buffer below 4 GiB opens with the layout it was built with |
| BlockBuilder.CommonPrefix | block_builder.cc:80-85 | the longest shared prefix |
| BlockBuilder.AddLays | block_builder.cc:73-107 | one more entry keeps all entries readable and a restart at every interval |
| BlockBuilder.Builder.constructor | block_builder.cc:39-46 | an empty block |
| BlockBuilder.Builder.Reset | block_builder.cc:48-55 | an empty block again |
| BlockBuilder.Builder.Add | block_builder.cc:73-107 | appends the entry with restarts at the interval, sharing with its predecessor as much as it can between them |
| BlockBuilder.Builder.Finish | block_builder.cc:63-71 | below 4 GiB the bytes open as a block with exactly the entries added |
| BlockIter.FormedEntry | block.cc:226-253 | at every entry of a built block decoding succeeds with the entry's own parts |
| BlockIter.ShownAdvances | block.cc:94-97 | on any bytes the next entry's offset lies further on and not past the entries; the value lies among them if and only if the lengths do not wrap |
| BlockIter.Iter.ParseNextKey | block.cc:226-253 | on any bytes the cursor moves on to the entry that the header announces, its offset within the block, or to the end; on a built block to the next entry, or to the end, without error |
| BlockIter.Iter.Next | block.cc:139-142 | from entry i to entry i + 1, or the end |
| BlockIter.Iter.Prev | block.cc:144-163 | from entry i to entry i - 1, or the end |
| BlockIter.Iter.FindRestart | block.cc:165-192 | the binary search ends at the last restart point with a key below the target, or at the first |
| BlockIter.Iter.Seek | block.cc:165-203 | lands on the first key not below the target, or at the end if there is none |
| BlockIter.Iter.SeekToFirst | block.cc:205-208 | the first entry, or the end of an empty block |
| BlockIter.Iter.SeekToLast | block.cc:210-215 | the last entry, or the end of an empty block |
| BlockIter.ReadAll | block.cc:139-208 | walking a built block yields exactly the entries it was built from |
| BlockIter.BuildAndRead | block.cc:139-208 | any pairs with increasing keys, added to a builder, finished below 4 GiB, opened and walked, come out again |
| BlockIter.NextThenPrev | block.cc:139-163 | Prev undoes Next |
| HandleTable.Relinked | cache.cc:80-104 | redirecting the link before a place of one chain replaces the rest of that chain and leaves every other chain as it was |
| HandleTable.Pushed | cache.cc:135-144 | a node whose link is redirected to the head of a bucket, and the bucket to it, is at the front of that chain, and the map has gained it |
| HandleTable.LeadsOn | cache.cc:135-144 | redirecting a node's link leaves the nodes after it and all chains still to come linked |
| HandleTable.Table.FindPointer | cache.cc:116-123 | following the links finds the entry of a key and hash if and only if the map has it, and the link that leads to it or ends the chain |
| HandleTable.Table.Store | cache.cc:83-100 | writing through that link replaces the rest of one chain |
| HandleTable.Table.Lookup | cache.cc:76-78 | the map's entry |
| HandleTable.Table.Insert | cache.cc:80-94 | the map with the entry put in; the displaced one is returned; never more entries than buckets |
| HandleTable.Table.Remove | cache.cc:96-104 | the map without the entry, which is returned |
| HandleTable.Table.MoveChain | cache.cc:134-145 | every node of a chain is relinked, in place, to the front of its new chain, and counted |
| HandleTable.Table.Resize | cache.cc:125-149 | relinking all chains keeps the map; the count assertion holds; there are buckets enough |
| LruRing.UnlinkedRing | cache.cc:242-245 | the two assignments take one entry out of a circular list and keep the order of the others in both directions |
| LruRing.AppendedRing | cache.cc:247-253 | the four assignments make an entry the newest of a circular list |
| LruRing.Lists.Remove | cache.cc:242-245 | the entry is off the list it was on; neither list changes otherwise |
| LruRing.Lists.Append | cache.cc:247-253 | the entry is last on the list named and the other list is as it was |
| LruRing.Lists.Oldest | cache.cc:293-294 | following the list's own link leads to the oldest entry, or back if there is none |
| LruRing.Lists.After | cache.cc:211-212 | following an entry's link leads to the one next in age, or back to the list |
| LruCache.LookupKeeps | cache.cc:221-262 | a new handle moves an idle entry to the in-use list and keeps every invariant |
| LruCache.ReleaseKeeps | cache.cc:229-267 | giving back a handle that is held keeps every invariant |
| LruCache.EraseKeeps | cache.cc:307-316 | an entry taken out of the table leaves list and charge, and is freed if nothing refers to it |
| LruCache.FreedExactly | cache.cc:71-333 | an entry's deleter has run, once, if and only if it was created and neither cache nor client refers to it; cached entries are on exactly one list, the LRU list if no client holds them |
| LruCache.Cache.Lookup | cache.cc:255-262 | the entry last inserted under the key and not removed since, now held |
| LruCache.Cache.Release | cache.cc:264-267 | with its last handle an entry becomes the newest idle one, or is freed if not cached |
| LruCache.Cache.FinishErase | cache.cc:307-316 | the entry in limbo is gone from the cache |
| LruCache.Cache.Erase | cache.cc:318-321 | the key is gone from the map; the entry is freed if no client holds it |
| LruCache.Cache.EvictOldest | cache.cc:293-300 | the oldest idle entry is evicted and freed, its assertions holding |
| LruCache.Cache.EvictDown | cache.cc:293-300 | evictions go oldest first, no further than needed, until the charge fits or nothing is idle |
| LruCache.Cache.Insert | cache.cc:269-303 | a new held entry; the map gains it and loses only what was evicted, oldest first and no further than needed; the charge fits or nothing is idle; freed are the displaced entry, if idle, and the evicted |
| LruCache.Cache.Prune | cache.cc:323-333 | everything idle is freed, oldest first, and nothing else |
| LruCache.Cache.Destroy | cache.cc:209-219 | refused exactly if a cached entry is held; with no handle out, every entry ever made has then been freed, once |
| Bech32.StepLinear | bech32.cpp:75-91 | the checksum step is linear over exclusive or |
| Bech32.StepInjective | bech32.cpp:75-91 | different states never step to the same state on the same symbol |
| Bech32.RunLinear | bech32.cpp:37-94 | every run of checksum steps is linear over exclusive or |
| Bech32.BurstDetected | bech32.cpp:118-125 | any change within six neighbouring symbols of a valid data part, of any length, fails the checksum; a single changed symbol in particular |
| Bech32.ChecksumVerifies | bech32.cpp:128-139 | the computed checksum verifies |
| Bech32.ChecksumUnique | bech32.cpp:128-139 | no six symbols but the computed checksum verify |
| Field1024.FullOrder | bech32.cpp:46-49 | 1023 steps of multiplying by x bring every element of the field back |
| Field1024.NoShorter | bech32.cpp:46-49 | fewer steps bring none back but zero |
| Field1024.ThreeTerms | bech32.cpp:46-49 | three different powers of x with neighbouring exponents combine to zero only trivially |
| Bech32Errors.Roots | bech32.cpp:44-46 | the generator has three roots that are neighbouring powers of x |
| Bech32Errors.RunValue | bech32.cpp:58-94 | at each root a string of symbols has the value of its remainder |
| Bech32Errors.NoLightWord | bech32.cpp:46-49 | no word with one to three symbols that are not zero, within 1023, has the remainder zero |
| Bech32Errors.ThreeErrorsDetected | bech32.cpp:46-49 | up to three wrong symbols of a valid data part, anywhere within 1023, fail the checksum |
| Bech32Errors.ThreeCharactersRefused | bech32.cpp:159-189 | an accepted text with up to three data characters replaced by any but the separator, and not only in case, is refused |
| Bech32Errors.ExpandedInjective | bech32.cpp:103-115 | different human-readable parts enter the checksum differently |
| Bech32Errors.PrefixErrorDetected | bech32.cpp:103-125 | a wrong character of the prefix, with or without a wrong symbol of the data, fails the checksum |
| Bech32Errors.PrefixCharacterRefused | bech32.cpp:159-189 | an accepted text with one character of its human-readable part replaced, not only in case, is refused, also with one data character replaced as well |
| Bech32.PolyMod | bech32.cpp:37-94 | the loop computes the run of steps |
| Bech32.ExpandHRP | bech32.cpp:103-115 | high bits, a zero, low bits, from which the part can be told again (`ExpandedInjective`) |
| Bech32.VerifyChecksum | bech32.cpp:118-125 | true exactly if the remainder is one |
| Bech32.CreateChecksum | bech32.cpp:128-139 | the specified checksum |
| Bech32Text.DecodeEncoded | bech32.cpp:147-189 | decoding inverts encoding for every non-empty printable prefix without upper-case letters and every data part, up to 90 characters |
| Bech32Text.EncodeDecoded | bech32.cpp:147-189 | an accepted string is, but for case, the encoding of what it decodes to |
| Bech32Text.Encode | bech32.cpp:147-156 | the specified encoding of any symbols |
| Bech32Text.Decode | bech32.cpp:159-189 | the specified decoding, refusals included |
| Bech32Vectors.ShortText | bech32.cpp:128-156 | the prefix a without data is written a12uel5l |
| Bech32Vectors.Alphabet | bech32.cpp:13 | the characters of the symbols |
| RollingBloom.WipedCell | bloom.cpp:256-264 | the mask arithmetic clears the cells of one generation and no others |
| RollingBloom.WithBitIs | bloom.cpp:272-274 | the assignment changes one bit |
| RollingBloom.CellsAge | bloom.cpp:250-265 | when a generation begins every cell is one generation older, and the cells of the oldest are unset |
| RollingBloom.KeyAdded | bloom.cpp:266-275 | every cell shows the generation of the last key that touches it |
| RollingBloom.SetIffCovered | bloom.cpp:248-276 | a cell is set if and only if a key of the current or the two previous generations touches it |
| RollingBloom.RollingBloomFilter.Reset | bloom.cpp:304-312 | all cells unset, nothing remembered |
| RollingBloom.RollingBloomFilter.Wipe | bloom.cpp:256-264 | the loop wipes every word |
| RollingBloom.RollingBloomFilter.SetCells | bloom.cpp:268-275 | the cells of the key carry the current generation and every other cell is as it was |
| RollingBloom.RollingBloomFilter.Insert | bloom.cpp:248-276 | every cell shows the generation of the last key that touches it, or nothing if that is more than two generations ago |
| RollingBloom.RollingBloomFilter.Contains | bloom.cpp:284-296 | true if and only if every cell of the key is touched by a key of the current or the two previous generations, and so always for those keys, which include the last nElements, for any hash |
| CompactBlock.MakeCompact | blockencodings.cpp:18-28 | the compact form describes the block: the coinbase in place, the others by short id in order |
| CompactBlock.FindFree | blockencodings.cpp:79-82 | the search for the next free slot finds it, or every offset 16 bits can hold leads to a filled one |
| CompactBlock.MapShortIds | blockencodings.cpp:76-100 | ends unless all positions are taken; succeeds if and only if no two short ids are alike and no bucket has more than twelve; then they go in order one-to-one onto the free slots |
| CompactBlock.SlotsRight | blockencodings.cpp:78-83 | the positions kept for the short ids are their slots if and only if there are at most 65536 slots |
| CompactBlock.LastIdWraps | blockencodings.cpp:78-83 | with one transaction sent along and 65536 short ids the last id leads to the slot of the one sent, and a match takes its place |
| CompactBlock.EndlessAccepted | blockencodings.cpp:56-83 | a message with 65536 transactions sent along and one short id is not refused, and the search for its slot does not end |
| CompactBlock.SeenRight | blockencodings.cpp:102-161 | a slot holds only the first known transaction with its short id, and holds it if that one is uncontested, although reading may stop early |
| CompactBlock.PartiallyDownloadedBlock.Prefill | blockencodings.cpp:56-72 | refuses exactly null and unreachable transactions; the others go to distinct slots in range |
| CompactBlock.DistancesBack | blockencodings.cpp:56-63 | positions sent as distances from the one before come out again |
| CompactBlock.PartiallyDownloadedBlock.MatchList | blockencodings.cpp:102-161 | every slot is as the transactions read leave it, as many are counted as are taken, and reading stops early only when as many are taken as there are short ids |
| CompactBlock.PartiallyDownloadedBlock.InitData | blockencodings.cpp:46-166 | invalid, endless and successful each exactly when the message says so; then, up to 65536 transactions, every slot is right: filled only by the first known match, filled if that is uncontested; if every match is genuine what is filled agrees with the block |
| CompactBlock.GenuineAgrees | blockencodings.cpp:46-165 | filled slots agree with every block that the message describes and whose short ids match only its own transactions |
| CompactBlock.PartiallyDownloadedBlock.FillBlock | blockencodings.cpp:174-215 | the missing transactions in order rebuild the block exactly; too few or too many are refused; it works once |
| CompactBlock.SendAndRebuild | blockencodings.cpp:18-215 | a block of up to 65536 transactions, put into compact form, set up by a receiver and completed with what is missing there, is rebuilt as it was sent unless a known transaction has the short id of another one in it; with a coinbase that is not null it is set up if and only if no two short ids are alike and no bucket has more than twelve |

## Left out

- Byte-level stream encodings of the address manager and of compact blocks; records and lists stand for them.
- AddrStore.Unserialize: the key's place in the file is taken as the fixed set of keyed hashes.
- CompactBlock.PartiallyDownloadedBlock.InitData: the object is used once, so that its counters start at zero; the number of matches found in the extra pool, which is only logged, is not counted; where each match goes is proved up to 65536 transactions, beyond which it is false.
- CompactBlock.MapShortIds: which bucket an id falls into is an arbitrary fixed function, the table being made large enough at the start.
- BlockIter.Iter.ParseNextKey: bytes past the end of a block are an arbitrary function.
- Bech32Errors.ThreeErrorsDetected: the detection of a fourth error within 89 characters is left out.
- Bech32Errors.ThreeCharactersRefused: a data character replaced by the separator moves the end of the prefix and is left out.
- LruCache.Cache.Insert: an entry's counts and its links of either kind are kept apart rather than in one record, and its address is never reused; the sharding by hash is left out.
- HandleTable.Table.Insert: the node that carries an entry's chain link is made on insertion rather than by the caller.
- HandleTable.Table.Resize: bucket counts are not bounded by 32 bits.
- RollingBloom.RollingBloomFilter.Contains: how likely other keys touch the same cells is not modelled; the sizes computed from the false-positive rate are parameters.
- Chain.BlockIndex.BuildSkip: parent and height are fixed when a block is created; FindEarliestAtLeast is left out.
- CashCache.CashViewCache.AddCash: the size of a script stands for its allocated capacity; sums are not bounded by the machine word.
- CashCache.CashStore.BatchWrite: which entries fill a batch is a free choice; replaying blocks after an interrupted write is left out. The other kind of store is the map that the unit tests use, which keeps spent records.
- BranchAndBound.SelectCashBnB: amounts are unbounded integers; an empty pool is refused even if the empty selection fits, as in the code.
- Knapsack.KnapsackSolver: logging is left out.
- CheckQueue.SafeRun: construction, destruction and the control object that holds the queue's other mutex are left out; which sleeper notify_one wakes is a free choice.
- AddrMan.CAddrMan.GetAddr: the random draws are free choices, and every reading of the clock is one of its own.
- Selecting an address to connect to, its chances in floating point, and picking a tried collision (`Select_`, `GetChance`, `SelectTriedCollision_`).
- Other cache views: value of inputs, access by transaction id, cursors and the exception-catching view.
- The Check variants of Base58 with their hash, and texts with embedded NUL characters.
- Conversions of limb numbers to floating point and hexadecimal text, decrement, and the bitwise assignment operators.
- The plain Bloom filter and transaction matching.
- Everything else in the repository: networking, scripts, consensus rules, the wallet, storage files, the user interface and RPC.
