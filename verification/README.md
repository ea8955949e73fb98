# Verified model of the VERGE node core

A Dafny model of the stateful and arithmetic core of the VERGE node, with proofs of what each part promises.
Objects that the C++ code updates in place are classes here, loops are loops, and every method is proved against
a specification function; the laws are then proved of those functions, over all inputs and over whole runs.

| part | source | files |
|---|---|---|
| block assembly from mempool packages | src/miner.cpp, src/miner.h, src/txmempool.h | BlockAssembler, BlockFees |
| peer address manager, its file and its self-check | src/addrman.cpp, src/addrman.h | AddrMan, AddrManSteps, AddrManOps, AddrManEffects, AddrManResolve, AddrManBuckets, AddrManClear, AddrManager, AddrManCheck, AddrManRestore, AddrManStream, AddrManLayout, AddrManLoad, AddrManFile |
| layered coin caches | src/coins.cpp | Coins, CoinsTraces, CoinsCache |
| concurrent script-check queue | src/checkqueue.h | CheckQueue, CheckQueueProgress |
| partial Merkle trees and the root of a block | src/merkleblock.cpp, src/consensus/merkle.cpp | Merkle, MerkleBlock, MerkleCounts, MerkleCanonical, MerkleLevels |
| message framing and the send and receive queues | src/net.cpp | Channel, Node |
| signature cache | src/cuckoocache.h | Cuckoo, CuckooAnswers, CuckooCache |
| compact block filters and bit streams | src/blockfilter.cpp, src/streams.h | GCS, BitStreams, BlockFilter, FilterLayout |
| rolling Bloom filter | src/bloom.cpp | RollingBloom, BloomSources, RollingBloomFilter |
| bech32 and base58 | src/bech32.cpp, src/base58.cpp | Bech32, Bech32Codec, Bech32Errors, Bech32Field, Base58, Base58Codec |
| 256-bit arithmetic and compact targets | src/arith_uint256.cpp, src/chain.cpp | Limbs, Shifts, Compact, ArithUint256 |
| block index and active chain | src/chain.cpp, src/chain.h, src/validation.cpp | Chain, SkipSteps |
| sequences, bits and powers used throughout | | Collections, Numbers, Bits |

`dafny verify dfyconfig.toml` checks the whole project.

Random numbers, clock readings, socket results and hash functions are parameters, so every statement holds for all
of them. "Computes the specified ..." in the table below means that the method's result and new state equal the
specification function of the same name; the laws of that function are the lemmas listed before it.

Terms used below:

- An address manager is *consistent* when `mapInfo`, `mapAddr`, `vRandom`, both tables, the reference counts and the
  counters agree; *sound* adds that the id counter is not negative; *healthy* adds that every live recorded collision
  has an occupied tried slot.
- A coin cache is *coherent* when DIRTY and FRESH have the meaning that src/coins.h:115-123 gives them; its *view* is
  the map from outpoints to unspent coins that a reader of it sees.
- A cuckoo element is *live* when it is stored and not marked erasable.

## Model

| member | source | states |
|---|---|---|
| BlockAssembly.BlockAssembler.constructor | src/miner.cpp:63-100 | The configured weight is clamped to between 4000 and the block limit less 4000, and the empty block reserves 4000 weight and 400 sigop cost for the coinbase. |
| BlockAssembly.BlockAssembler.OnlyUnconfirmed | src/miner.cpp:222-233 | Exactly the transactions already in the block are removed. |
| BlockAssembly.PackageFits | src/miner.cpp:235-244 | A package with totals at least its true ones that passes TestPackage leaves the block below the weight and the sigop limit. |
| BlockAssembly.BlockAssembler.TestPackageTransactions | src/miner.cpp:251-262 | Accepts exactly when every transaction is final, witness-compatible and not later than the clock as it is read for that transaction; a refusal names a transaction that failed. |
| BlockAssembly.BlockAssembler.AddToBlock | src/miner.cpp:264-273 | The transaction, its fee and its sigop cost are appended and every counter grows by its share. |
| BlockAssembly.ChargeDescendants | src/miner.cpp:288-305 | The inner loop charges one added transaction to each of its descendants outside the package, and to no one else. |
| BlockAssembly.UpdatePackagesForAdded | src/miner.cpp:283-308 | After the loops every entry's size and sigop totals are the old (or cached) totals less those of its newly added ancestors, and no other entry is in the table. |
| BlockAssembly.ChargeOneAccounts | src/miner.cpp:296-304 | Charging an ancestor, on first insertion or by update_for_parent_inclusion, takes exactly its size and sigop cost off the totals. |
| BlockAssembly.PackageKeepsTableSound | src/miner.cpp:283-308 | Adding a package keeps the table sound: size and sigop totals never fall short of the ancestors still missing and are equal to them for entries never erased as failed, and fee totals are what the first charge and the later ones leave. |
| BlockAssembly.SortForBlock | src/miner.cpp:325-334 | The result lists exactly the package, in the order of CompareTxIterByAncestorCount. |
| BlockAssembly.BlockOrder | src/miner.h:81-88 | In that order ancestor counts do not decrease, and among equal ones the hashes grow. |
| BlockAssembly.AncestorsSortFirst | src/miner.h:81-88 | Sorted by ancestor count, every ancestor in a package stands before its descendants. |
| BlockAssembly.SortedPackageKeepsTally | src/miner.cpp:460-467 | Adding a sorted package transaction by transaction keeps the block ancestor-closed, duplicate-free, in dependency order, and its weight, sigop cost, fees and records equal to the sums over it. |
| BlockAssembly.OrderedIsClosed | src/miner.cpp:325-334 | A block in dependency order contains every ancestor of everything in it. |
| BlockAssembly.AheadMeans | src/txmempool.h:287-325 | The order of candidates: by the lower of a transaction's own fee rate and that of its package, the highest first, equal rates by hash. |
| BlockAssembly.AheadTransitive | src/txmempool.h:287-325 | That order is transitive for positive sizes. |
| BlockAssembly.BlockAssembler.SelectCandidate | src/miner.cpp:376-400 | The candidate selected comes before every entry that the index has still to offer and every modified entry. |
| BlockAssembly.BlockAssembler.TryPackage | src/miner.cpp:420-472 | An added package keeps block, limits and table sound, and each of its transactions was tested: it is final, has no witness unless those are included, and is not later than the clock reading recorded for it; a refused package changes nothing and the recorded test really failed. |
| BlockAssembly.BlockAssembler.Evaluate | src/miner.cpp:420-473 | Either the candidate is added, with every transaction tested, or it is recorded as rejected, and the loop's bookkeeping stays on track. |
| BlockAssembly.BlockAssembler.Consider | src/miner.cpp:376-473 | The foremost candidate is evaluated, or found to be below the fee floor and then nothing changes; each evaluation makes progress. |
| BlockAssembly.BlockAssembler.Round | src/miner.cpp:367-473 | One round of the loop skips an entry or considers the foremost candidate; it ends the selection only at the fee floor or after too many failures in a nearly full block. |
| BlockAssembly.BlockAssembler.AddPackageTxs | src/miner.cpp:346-474 | The loop ends; the limits hold; block and table stay sound; every transaction it added was tested and led by a candidate that reached the fee floor and fitted; on exhaustion every transaction is in the block or was rejected for a recorded reason that holds; it ends early only at a foremost candidate below the fee floor, or with the block nearly full after more than 1000 candidates in a row that did not fit. |
| BlockAssembly.AssembleBlock | src/miner.cpp:346-474 | From an empty block, for every well-formed pool, weight setting and fee floor: the block is ancestor-closed and within its limits, and exactly the accepted transactions are in it, each final, without a witness unless included, not later than the clock reading recorded for it, and led by a candidate at or above the fee floor. |
| BlockFees.FeeTotalExactness | src/miner.h:110-122 | At every point of every run the fee total of a candidate that never failed is exact if and only if it has not been charged or the prioritisations of the ancestors charged after the first add up to zero: update_for_parent_inclusion takes off the plain fee. |
| BlockFees.PrioritisedDrifts | src/miner.cpp:296-304 | Wherever a transaction with two or more ancestors has a prioritised one, some order of charging them leaves a wrong fee total. |
| BlockFees.PoolFeesExact | src/miner.cpp:283-308 | All fee totals stay exact, whatever the selection adds and in whatever order it charges, if and only if no transaction with two or more ancestors has a prioritised one. |
| BlockFees.TwoAncestorsDrift | src/miner.h:110-122 | With exactly two ancestors in the block, both prioritised, the fee total is wrong however they got there. |
| BlockFees.FeeTotalsDrift | src/miner.cpp:283-308 | A well-formed pool, a chain of three transactions whose first two are prioritised by 10, where adding the package of the first two leaves a wrong fee total in every order of charging. |
| AddrManSteps.CreateKeeps | src/addrman.cpp:80-90 | A created entry is the one entry between tables; everything else stays consistent. |
| AddrManSteps.SwapKeeps | src/addrman.cpp:92-110 | Swapping two positions of vRandom keeps every index consistent. |
| AddrManSteps.DeleteKeeps | src/addrman.cpp:112-124 | Deleting an entry that is in neither table keeps every index consistent and uncounts it. |
| AddrManSteps.ClearNewKeeps | src/addrman.cpp:126-139 | Emptying a new slot drops one reference and deletes the entry exactly when it was the last, keeping every index consistent. |
| AddrManOps.MakeTriedKeeps | src/addrman.cpp:141-187 | Moving an entry to the tried table, with eviction back to the new table, keeps every index consistent and no tried slot becomes empty. |
| AddrManOps.GoodKeeps | src/addrman.cpp:189-253 | Good_ keeps the tables consistent, tried slots occupied, ids unreused, services unchanged and collisions resolvable, for every state and argument; without testing before eviction no collision is recorded. |
| AddrManOps.AddKeeps | src/addrman.cpp:255-326 | Add_ keeps the invariant, for known and unknown addresses and every outcome of the random test. |
| AddrManOps.UpdatesKeep | src/addrman.cpp:328-348 | Attempt_, Connected_ and SetServices_ keep the invariant. |
| AddrManOps.GetAddrSound | src/addrman.cpp:489-508 | GetAddr_ changes nothing but the order of vRandom and returns distinct entries that are not terrible, at most its percentage and maximum of the entries. |
| AddrManOps.ResolveKeeps | src/addrman.cpp:548-605 | ResolveCollisions_ keeps the invariant and only removes recorded collisions; what it does to them is AddrManResolve.ResolveEffect. |
| AddrManEffects.ClearNewEffect | src/addrman.cpp:126-139 | Emptying a new slot takes one reference from its holder, deletes the holder exactly if that was the last, and changes no other entry. |
| AddrManEffects.MakeTriedEffect | src/addrman.cpp:141-187 | The promoted entry holds its tried slot with its history; a holder evicted from it is back at the new slot that its own source assigns, with one reference; only an entry with its sole reference there is deleted. |
| AddrManEffects.GoodEffect | src/addrman.cpp:189-253 | A success is recorded on the entry; one that is not yet tried is put in its tried slot, unless the slot is taken and its holder is to be tested first, and then it is recorded as a collision if there is room. |
| AddrManEffects.GoodUnknown | src/addrman.cpp:189-205 | A success for a service without an entry of its own changes nothing but the time of the last success. |
| AddrManEffects.AddUnknownEffect | src/addrman.cpp:255-326 | An unknown routable address gets an entry with one reference at the slot its source assigns, unless that slot is held by an entry of good quality with its only reference; the penalty does not apply to an address that announces itself. |
| AddrManEffects.AddKnownEffect | src/addrman.cpp:255-326 | A known address is refreshed, and gains a reference at the slot the source assigns if and only if the news is newer, it has fewer than eight, the draw succeeds and the slot is free or held by an entry of low quality. |
| AddrManEffects.AddUnroutable | src/addrman.cpp:257-258 | Unroutable addresses are ignored. |
| AddrManEffects.AttemptsCountOnce | src/addrman.cpp:328-348 | Of attempts between two successes of any peer only the first counted one is counted against an entry. |
| AddrManEffects.ConnectedFollows | src/addrman.cpp:510-528 | The time of a connected peer is never more than twenty minutes behind. |
| AddrManEffects.ServicesSet | src/addrman.cpp:530-546 | The services of the entry are replaced. |
| AddrManEffects.UpdatesIgnore | src/addrman.cpp:328-348 | These updates touch nothing for a service without an entry of its own. |
| AddrManEffects.TerribleExactly | src/addrman.cpp:32-50 | When an entry is of low quality, in seconds and counts. |
| AddrManEffects.GetAddrCovers | src/addrman.cpp:489-508 | The answer has at most 2500 entries and 23 percent of all; if it has fewer, every entry of good quality is in it. |
| AddrManEffects.FirstPick | src/addrman.cpp:496-507 | The first pick is the entry at the first random number modulo the number of entries, unless that is of low quality. |
| AddrManResolve.ResolveOneEffect | src/addrman.cpp:553-603 | One recorded collision: its newcomer is promoted, goes on waiting or is dropped by the four-hour, one-minute and forty-minute rules, stated on the entries in seconds; other entries keep their histories. |
| AddrManResolve.ResolveEffect | src/addrman.cpp:548-605 | Over all recorded collisions: a tried slot changes its holder only to a recorded newcomer, which is then in the tried table, and only if the holder had no success for four hours and either failed an attempt of more than a minute ago or went untried while the newcomer waited more than forty minutes; a collision stays on record only if its holder is yet to be tested, and does if entry and holder are unchanged; no holder stays that had to give way. |
| AddrManBuckets.TriedGroupSpread | src/addrman.cpp:11-16 | The addresses of one network group are in at most eight tried buckets. |
| AddrManBuckets.SourceGroupSpread | src/addrman.cpp:18-24 | The sources of one group assign addresses to at most 64 new buckets. |
| AddrManOps.SelectCollisionSafe | src/addrman.cpp:607-632 | Unless the pick is live and its tried slot empty, nothing is inserted, and an entry is returned exactly for a live pick: the tried entry in the slot the pick is meant for. |
| AddrManOps.ApplyExact | src/addrman.cpp:607-632 | From every state with consistent tables, an operation breaks them if and only if it is SelectTriedCollision_ on a live collision whose tried slot is empty. |
| AddrManOps.ApplyKeeps | src/addrman.cpp:189-632 | Every other operation keeps the tables consistent, tried slots occupied, ids unreused and services unchanged. |
| AddrManOps.EveryRunHealthy | src/addrman.cpp:92-632 | Over every run of all operations from a healthy manager, such as a cleared one without recorded collisions, the whole invariant holds and tried slots stay occupied. |
| AddrManClear.CollisionRecorded | src/addrman.cpp:235-246 | Two additions and two Good_ calls on rivals for one tried slot record a collision of id 0. |
| AddrManClear.StaleCollisionBreaks | src/addrman.h:459-481 | Whatever collision is left over by Clear, with routable addresses enough to take its id again there is a run that breaks the tables. |
| AddrManClear.ClearExact | src/addrman.h:459-481 | With routable addresses enough, some run after Clear breaks the tables if and only if a collision was recorded before it. |
| AddrManager.CAddrMan.constructor | src/addrman.h:483-486 | A new manager is empty and satisfies the invariant. |
| AddrManager.CAddrMan.Clear | src/addrman.h:459-481 | Everything is emptied except the recorded collisions. |
| AddrManager.CAddrMan.Create | src/addrman.cpp:80-90 | Computes the specified new state, on the real fields. |
| AddrManager.CAddrMan.SwapRandom | src/addrman.cpp:92-110 | Computes the specified swap in place. |
| AddrManager.CAddrMan.Delete | src/addrman.cpp:112-124 | Computes the specified deletion; what its asserts demand is its precondition, met by every caller. |
| AddrManager.CAddrMan.ClearNew | src/addrman.cpp:126-139 | Computes the specified state; its assert on the reference count holds. |
| AddrManager.CAddrMan.MakeTried | src/addrman.cpp:141-187 | Computes the specified state; the loop over all new buckets finds exactly the counted references, so both asserts hold. |
| AddrManager.CAddrMan.FindBucket | src/addrman.cpp:218-228 | The search from a random bucket on finds a bucket holding the entry if and only if there is one. |
| AddrManager.CAddrMan.Good | src/addrman.cpp:189-253 | Computes the specified state, for every random number; the bail-out for an entry in no bucket is never taken. |
| AddrManager.CAddrMan.Add | src/addrman.cpp:255-326 | Computes the specified state and result. |
| AddrManager.CAddrMan.StochasticFactor | src/addrman.cpp:291-294 | The doubling loop computes 2 to the reference count. |
| AddrManager.CAddrMan.Attempt | src/addrman.cpp:328-348 | Computes the specified state. |
| AddrManager.CAddrMan.Connected | src/addrman.cpp:510-528 | Computes the specified state. |
| AddrManager.CAddrMan.SetServices | src/addrman.cpp:530-546 | Computes the specified state. |
| AddrManager.CAddrMan.GetAddr | src/addrman.cpp:489-508 | The in-place shuffle loop computes the specified order and addresses. |
| AddrManager.CAddrMan.ResolveCollisions | src/addrman.cpp:548-605 | The loop over the recorded collisions computes the specified state, whose effect AddrManResolve.ResolveEffect states. |
| AddrManager.CAddrMan.SelectTriedCollision | src/addrman.cpp:607-632 | Computes the specified result, including the entry that operator[] inserts where the tried slot is empty. |
| AddrManCheck.PassesExact | src/addrman.cpp:413-487 | For a non-zero key, what Check_ tests together with what it does not test (ids below the counter, mapAddr without dangling or missing addresses) is equivalent to the invariant. |
| AddrManCheck.HealthyPasses | src/addrman.cpp:413-487 | Between operations the manager passes every test of Check_. |
| AddrManCheck.MissesUnmappedZero | src/addrman.cpp:437-438 | A consistent manager with the address of entry 0 unmapped still passes every test. |
| AddrManCheck.CheckTried | src/addrman.cpp:453-466 | The scan of the tried table with the shrinking set decides whether it holds exactly the tried entries at their own slots. |
| AddrManCheck.CheckNew | src/addrman.cpp:468-479 | The scan of the new table with the decreasing counts decides whether the references match the reference counts. |
| AddrManCheck.CheckEntries | src/addrman.cpp:421-446 | The loop over the entries decides whether every entry passes, and collects the two working sets. |
| AddrManCheck.Check | src/addrman.cpp:413-487 | Returns zero if and only if every test passes, on every state, and changes nothing where all addresses are mapped. |
| AddrManRestore.RenumberingConsistent | src/addrman.h:353-457 | A renumbering of a consistent manager is consistent. |
| AddrManStream.ReadWritten | src/addrman.h:303-439 | Every well-formed dump is read back from what is written of it. |
| AddrManStream.NewFits | src/addrman.h:374-376 | A consistent manager never has more new entries than Unserialize accepts. |
| AddrManStream.TriedFits | src/addrman.h:378-380 | Nor more tried entries. |
| AddrManStream.RoundTrip | src/addrman.h:303-457 | Unserialize after Serialize, from any consistent manager, gives a consistent manager with the same entries, addresses, tried slots, new slots, reference counts and counters, up to numbering the ids in the order written; nothing is lost. |
| AddrManLayout.SavedLayout | src/addrman.h:303-337 | What is saved starts with version 1, the key size 32, the key, both counts and the number of new buckets with bit 30 flipped, followed by the new and then the tried entries. |
| AddrManLayout.NewPlaced | src/addrman.h:382-400 | Where the saved positions cannot be used, every slot that some entry's own source assigns to it holds the first such entry, and no other slot holds any. |
| AddrManLayout.TriedPlaced | src/addrman.h:402-421 | Every tried slot holds the first entry read that belongs there, as read. |
| AddrManLayout.TriedCounted | src/addrman.h:402-421 | Every later one is lost and taken off the count. |
| AddrManLoad.LoadExact | src/addrman.h:353-457 | Of whatever stream can be read, the manager is consistent if and only if no count is negative and every entry that is not lost or pruned has a sane history and an address that no other entry read has. |
| AddrManLoad.GoodRecordsFit | src/addrman.h:353-457 | Records with sane histories and addresses that do not repeat always fit, whatever is lost or pruned of them. |
| AddrManLoad.RepeatedAddressLoads | src/addrman.h:382-399 | A stream of two new entries with one address is read without complaint, but its manager is not consistent. |
| AddrManLoad.LoadedRunHealthy | src/addrman.h:353-457 | A manager read from a stream that fits, with no collision recorded before, is healthy over every later run. |
| AddrManLoad.SavedRunHealthy | src/addrman.h:303-457 | So is a manager saved and read back. |
| AddrManFile.Serialize | src/addrman.h:303-351 | The loops write exactly the specified stream, and both asserts on the counts hold. |
| AddrManFile.LoadNewEntries | src/addrman.h:382-400 | The loop computes the specified entries, or fails exactly where the stream does not hold them. |
| AddrManFile.LoadTriedEntries | src/addrman.h:402-421 | The loop computes the specified entries and takes the lost ones off the count. |
| AddrManFile.LoadPositions | src/addrman.h:423-439 | The nested loops take over exactly the specified references, or fail where the stream ends. |
| AddrManFile.PruneEntries | src/addrman.h:441-451 | Deletes exactly the new entries without references, in ascending order. |
| AddrManFile.Unserialize | src/addrman.h:353-457 | On every stream, succeeds exactly when the specification does and then computes its state. |
| Coins.GetCoinKeeps | src/coins.cpp:42-66 | Fetching fills caches, changes no view of any level and finds what the view shows. |
| Coins.AddCoinSound | src/coins.cpp:68-87 | Adding neither throws nor leaves a wrong flag if and only if overwriting is allowed, the script is unspendable or the outpoint is absent from the view; where it does not throw exactly that coin is added. |
| Coins.SpendCoinSound | src/coins.cpp:101-115 | Spending removes the outpoint from the view, hands out its coin, and keeps the flags truthful. |
| Coins.UncacheKeeps | src/coins.cpp:213-220 | Uncaching changes no view. |
| Coins.MergedEntry | src/coins.cpp:148-204 | Writing a coherent child into its parent never meets the misapplied-FRESH case, shows what the child showed, and leaves truthful flags. |
| Coins.FlushSound | src/coins.cpp:206-211 | Flush never throws, makes the parent's view equal the child's, and changes no other view, whichever clean entries stay. |
| Coins.ApplySound | src/coins.cpp:42-220 | Every permitted operation at any depth of a stack of any height succeeds, keeps the flags' meaning (src/coins.h:115-123) and acts as on plain maps. |
| Coins.EveryRunRefines | src/coins.cpp:42-220 | No run throws, and the views of every run are those of the run on plain outpoint-to-coin maps. |
| CoinsTraces.AddThenSpend | src/coins.cpp:68-115 | A new coin that is spent in the cache it was added to leaves the cache as it was. |
| CoinsTraces.WrittenThenSpent | src/coins.cpp:148-204 | A FRESH coin written to a parent without an entry is FRESH there, and a child that spends it later and writes that leaves no entry in the parent. |
| CoinsTraces.AddedFlags | src/coins.cpp:68-87 | An added coin is DIRTY, and FRESH exactly if the entry was or, without overwriting, was not DIRTY. |
| CoinsTraces.SpentEntry | src/coins.cpp:101-115 | Spending drops a FRESH entry and keeps any other as a spent DIRTY one. |
| CoinsTraces.UncachedEntry | src/coins.cpp:213-220 | Uncaching drops an entry exactly if neither flag is set. |
| CoinsTraces.UnspendableIgnored | src/coins.cpp:68-70 | A coin whose script starts with OP_RETURN or has more than 10000 bytes is not added. |
| CoinsTraces.ReadsAreCached | src/coins.cpp:42-66 | Through any number of caches, what the view has is cached by reading it, and reading it again changes nothing. |
| CoinsTraces.NotWritten | src/coins.cpp:150-160 | Entries that are not DIRTY, or FRESH and spent, are not written. |
| CoinsTraces.WrittenOver | src/coins.cpp:176-200 | Writing onto an entry of the parent keeps the parent's FRESH flag, not the child's. |
| CoinsCache.CCoinsViewCache.FetchCoin | src/coins.cpp:42-57 | Computes the specified stack, through any number of objects below, and keeps every cachedCoinsUsage equal to the memory of the cached coins. |
| CoinsCache.CCoinsViewCache.GetCoin | src/coins.cpp:59-66 | Computes the specified stack and coin. |
| CoinsCache.CCoinsViewCache.AddCoin | src/coins.cpp:68-87 | Computes the specified stack; false where the source throws, and then cachedCoinsUsage stays right if and only if the coin in the way takes no memory. |
| CoinsCache.CCoinsViewCache.SpendCoin | src/coins.cpp:101-115 | Computes the specified stack and the coin moved out, and keeps cachedCoinsUsage right. |
| CoinsCache.CCoinsViewCache.Uncache | src/coins.cpp:213-220 | Computes the specified stack and keeps cachedCoinsUsage right. |
| CoinsCache.CCoinsViewCache.WriteEntry | src/coins.cpp:150-200 | One entry of the child is merged as specified; false where the source throws. |
| CoinsCache.CCoinsViewCache.BatchWrite | src/coins.cpp:148-204 | The erasing loop, in any order of entries, computes the specified merge, takes over the best block and keeps cachedCoinsUsage right; false exactly if some entry is misapplied. |
| CoinsCache.CCoinsViewCache.Flush | src/coins.cpp:206-211 | Computes the specified stack, hands the best block down and keeps cachedCoinsUsage right at every level. |
| CoinsCache.CCoinsViewCache.GetBestBlock | src/coins.cpp:138-142 | Finds the best block of the view, caching it on the way and changing no view. |
| CoinsCache.CCoinsViewCache.SetBestBlock | src/coins.cpp:144-146 | Becomes the best block of the view, and changes nothing else. |
| CoinsCache.UsageChange | src/coins.cpp:148-200 | What a change of one entry does to the memory of all cached coins. |
| CheckQueue.NextKeeps | src/checkqueue.h:67-125 | Every atomic step of master or worker keeps the invariant (nTodo is queued plus in-flight checks, every added check is queued, held, run or skipped, failures are known) and never divides by zero. |
| CheckQueue.ReturnCorrect | src/checkqueue.h:89-98 | With nothing to do, fAllOk holds if and only if all checks added since the last Wait ran and succeeded. |
| CheckQueue.WaitCorrect | src/checkqueue.h:67-125 | A step that returns from Wait returns true if and only if every check added since ran and succeeded. |
| CheckQueue.NoLostWakeup | src/checkqueue.h:80-102 | A master that sleeps un-notified has a worker, awake, with unfinished checks. |
| CheckQueue.NeverStuck | src/checkqueue.h:67-125 | While Wait has not returned some thread can take a step that is no spurious wakeup. |
| CheckQueue.BatchShare | src/checkqueue.h:103-108 | A batch larger than one check is within nBatchSize and as large as still fits the queue once for every thread inside, every idle one again and one more. |
| CheckQueue.AddWakes | src/checkqueue.h:147-159 | All checks added are queued and counted; more than one leave no worker asleep without a notification, one notifies the worker picked, and nobody else is touched. |
| CheckQueue.FailureStops | src/checkqueue.h:117-122 | Once a failure is known, a thread that takes a batch passes over all its checks. |
| CheckQueueProgress.StepWorks | src/checkqueue.h:67-125 | Until Wait returns every step that is no spurious wakeup lowers a bound on the steps left. |
| CheckQueueProgress.SpuriousHarmless | src/checkqueue.h:99-101 | A spurious wakeup does not raise that bound. |
| CheckQueueProgress.EveryRunGoesOn | src/checkqueue.h:67-125 | In every reachable state with Wait running, some thread can go on without a spurious wakeup, a new thread or new checks. |
| CheckQueueProgress.EveryWaitReturns | src/checkqueue.h:67-144 | Wait returns: in every interleaving, with any spurious wakeups in between, the other steps taken while it runs are at most the work there is when they begin. |
| CheckQueue.EveryRunSafe | src/checkqueue.h:67-159 | In every interleaving of a master and any number of workers from a fresh queue the invariant holds at every step, no batch size divides by zero, and Wait returns true if and only if every check added since ran and succeeded. |
| CheckQueue.CCheckQueue.Report | src/checkqueue.h:78-87 | Computes the specified counters and whether the master is notified. |
| CheckQueue.CCheckQueue.Proceed | src/checkqueue.h:89-117 | Computes the specified decision: wait, return or a batch. |
| CheckQueue.CCheckQueue.Enter | src/checkqueue.h:76-118 | Computes the specified clean-up and decision of one critical section. |
| CheckQueue.CCheckQueue.Resume | src/checkqueue.h:89-118 | Computes the specified decision once a wait has ended. |
| CheckQueue.CCheckQueue.PopBatch | src/checkqueue.h:109-115 | The swap loop takes exactly the last checks of the queue. |
| CheckQueue.CCheckQueue.Add | src/checkqueue.h:147-159 | Appends the checks and counts them. |
| CheckQueue.CCheckQueue.RunBatch | src/checkqueue.h:120-122 | Runs checks until one fails and reports whether all succeeded. |
| Merkle.MatchesAuthentic | src/merkleblock.cpp:79-115 | Whatever the bits and hashes, an accepted tree with the true root shows only (index, txid) pairs of the list, in strictly increasing order, if its announced count gives a tree of the right height and no other pair hashes to an inner node. |
| Merkle.InjectiveIsUnique | src/merkleblock.cpp:41-59 | A pairwise-injective hash meets that condition for every list. |
| Merkle.ExtractAuthentic | src/merkleblock.cpp:79-115 | The same for every node of the traversal: a subtree that yields the true hash shows only transactions of its own range. |
| MerkleCounts.CountExact | src/merkleblock.h:89-106 | Where the txids differ and none is the hash of a pair, the announced counts for which every accepted tree is genuine are exactly those whose tree is not lower than the true one. |
| MerkleCounts.NodesDiffer | src/merkleblock.cpp:41-59 | Over pairwise distinct txids the nodes of a level are pairwise distinct. |
| MerkleCounts.TooLowAccepted | src/merkleblock.cpp:133-164 | A lower count lets the path to an inner node pass for a transaction. |
| MerkleCounts.TooHighShown | src/merkleblock.cpp:133-164 | With a count that gives a higher tree, an accepted tree shows only transactions of the list. |
| MerkleCanonical.AcceptedCanonical | src/merkleblock.cpp:61-164 | An accepted tree leaves no hash and less than a byte of bits unused; with the true root and count it carries exactly the hashes and, up to padding, the bits that the encoder writes for its matches if and only if no bit sends the traversal below a node without a match. |
| MerkleCanonical.IdleDescentAccepted | src/merkleblock.cpp:79-115 | A tree over any two different txids that descends and matches nothing is accepted, though the encoder writes one bit and the root. |
| MerkleCanonical.OutOfBounds | src/merkleblock.cpp:133-147 | A tree of no transactions, of more than 16666, with more hashes than transactions or more hashes than bits is refused. |
| MerkleCanonical.UnpackedAt | src/merkleblock.h:93-98 | Bits are packed from the least significant bit of each byte on. |
| MerkleLevels.ComputeMerkleRoot | src/consensus/merkle.cpp:46-63 | The loop hashes the list level by level, its last hash with itself where the number is odd, and reports whether two hashes that form a pair are equal at some level. |
| MerkleLevels.RootIsLevels | src/merkleblock.cpp:41-59 | The root that CalcHash computes from above is the one that ComputeMerkleRoot computes level by level. |
| MerkleLevels.MutatedIsEqualSiblings | src/consensus/merkle.cpp:46-63 | A mutation is reported exactly of those lists that, matched in full, are refused as partial trees. |
| Merkle.BuildSize | src/merkleblock.cpp:61-77 | An encoding has at most one hash per leaf and one bit per hash at least. |
| Merkle.ExtractBuilt | src/merkleblock.cpp:61-115 | Extraction of what was built recomputes the hash, finds exactly the matches and consumes exactly its bits and hashes. |
| Merkle.RoundTrip | src/merkleblock.cpp:61-164 | Building, packing, unpacking and extracting returns the root and exactly the matches if and only if the list is within the limit and no siblings on a descended path are equal; otherwise the tree is rejected. |
| MerkleBlock.CPartialMerkleTree.constructor | src/merkleblock.cpp:117-129 | Computes the specified bits and hashes. |
| MerkleBlock.CPartialMerkleTree.TraverseAndBuild | src/merkleblock.cpp:61-77 | The recursion appends the specified bits and hashes. |
| MerkleBlock.CPartialMerkleTree.TraverseAndExtract | src/merkleblock.cpp:79-115 | The recursion computes the specified hash, cursors, failure flag and matches. |
| MerkleBlock.CPartialMerkleTree.ExtractMatches | src/merkleblock.cpp:133-164 | Computes the specified result, the zero hash where the tree is rejected. |
| MerkleBlock.CPartialMerkleTree.PackBits | src/merkleblock.h:100-103 | The loop packs the bits, least significant first, with zero padding. |
| MerkleBlock.CPartialMerkleTree.UnpackBits | src/merkleblock.h:93-98 | The loop unpacks every bit of every byte. |
| Framing.HeaderRoundTrip | src/net.cpp:1004-1033 | Parsing a header undoes serializing it and the other way round. |
| Framing.CommandRoundTrip | src/protocol.cpp:88-100 | A command is read back if and only if it has at most twelve bytes and no NUL. |
| Framing.FrameLayout | src/net.cpp:3070-3105 | Where the parts of a frame stand: the message start, the command padded with zeros, the size with its least significant byte first, the checksum and the payload. |
| Framing.HeaderAbsorbs | src/net.cpp:1004-1033 | readHeader consumes at least one byte, loses none, yields the header of the bytes absorbed, and fails only for a size above MAX_SIZE. |
| Framing.DataAbsorbs | src/net.cpp:1035-1050 | readData consumes at least one byte and loses none. |
| Channel.ReceiveLossless | src/net.cpp:925-975 | Receiving any chunk loses, adds and reorders no byte. |
| Channel.CompletePrefix | src/net.cpp:925-975 | Complete messages that account for the start of a stream of frames are the first messages pushed. |
| Channel.MatchesMeans | src/net.cpp:925-975 | A message that arrives has the payload pushed, its size and checksum, and its command if that fits. |
| Channel.ReceiveSucceeds | src/net.cpp:925-975 | No chunk of a stream of frames is refused. |
| Channel.FrameExact | src/net.cpp:943-954 | A peer takes a frame if and only if its payload has at most 4000000 bytes. |
| Channel.SendKeeps | src/net.cpp:1069-1119 | For every schedule of partial sends, bytes sent and bytes still queued are the same stream; nSendSize is the total queued and nSendOffset stays inside the first buffer. |
| Channel.SendProgress | src/net.cpp:1069-1119 | A socket that takes some bytes is given as many of the first buffer, at least. |
| Channel.SendsAll | src/net.cpp:1069-1119 | A socket that takes every buffer whole empties the queue. |
| Channel.QueuedKeeps | src/net.cpp:3070-3105 | PushMessage appends exactly the message's frame. |
| Channel.PushedAtOnce | src/net.cpp:3070-3105 | A message pushed onto an empty queue is handed to the socket at once, and behind others it waits. |
| Channel.Delivered | src/net.cpp:925-975 | What has been delivered is a prefix of what was pushed, and all of it once queue and wire are empty. |
| Channel.Drained | src/net.cpp:925-1119 | From every reachable state, a socket that takes all and a receiver that reads all deliver everything pushed. |
| Channel.EveryRunDelivers | src/net.cpp:925-1119 | Under every schedule of pushes, partial sends and receive chunks, exactly the messages that the run pushed arrive, in order, and the peer is never given up. |
| Node.ReadHeader | src/net.cpp:1004-1033 | Computes the specified message and count. |
| Node.ReadData | src/net.cpp:1035-1050 | Computes the specified message and count. |
| Node.CNode.ReceiveMsgBytes | src/net.cpp:925-975 | The loop computes the specified messages, fails where specified, and tells whether a message became complete. |
| Node.CNode.SocketSendData | src/net.cpp:1069-1119 | The loop computes the specified queue and bytes sent. |
| Node.CNode.PushMessage | src/net.cpp:3070-3105 | Computes the specified queue, sending at once exactly if it was empty. |
| Cuckoo.LocsInRange | src/cuckoocache.h:243-253 | All eight locations lie in the table. |
| Cuckoo.DisplaceKeeps | src/cuckoocache.h:406-439 | The displacement chain keeps live elements at their locations and loses nothing but the element it ends with. |
| Cuckoo.PlaceKeeps | src/cuckoocache.h:395-440 | After ageing, insert adds only the new element and drops at most one from live set plus new element. |
| Cuckoo.EpochCheckKeeps | src/cuckoocache.h:289-321 | Ageing gives up only elements and leaves room for one insertion below the epoch limit. |
| Cuckoo.AgedCounts | src/cuckoocache.h:305-311 | Ageing empties the current epoch; what stays live was live, and is as much as the current epoch held. |
| Cuckoo.InsertKeeps | src/cuckoocache.h:392-440 | Insert keeps the epoch limit; it gives up what ageing gives up and at most one element more, and adds only the new element. |
| Cuckoo.LiveFound | src/cuckoocache.h:467-477 | A live element is always found. |
| Cuckoo.ContainsKeeps | src/cuckoocache.h:467-477 | Lookup keeps the table sound, and with erase gives up at most the element looked up; what it answers is CuckooAnswers.ContainsExactly. |
| Cuckoo.EveryRunSound | src/cuckoocache.h:340-477 | Over every run after setup, for every depth limit, live elements are at their locations and the current epoch never exceeds epoch_size + max(1, epoch_size / 16). |
| CuckooAnswers.ContainsExactly | src/cuckoocache.h:467-477 | An element is reported if and only if a slot holds it at one of its eight locations, discardable or not; an erasing lookup that finds it makes one such slot discardable, and nothing else changes anything. |
| CuckooAnswers.EveryAnswerTrue | src/cuckoocache.h:340-477 | Over every run after setup, an element that is reported was inserted in that run or is the default element. |
| CuckooAnswers.ContainsAgain | src/cuckoocache.h:442-457 | What an erasing lookup finds is found again. |
| CuckooAnswers.DisplaceTags | src/cuckoocache.h:406-439 | Displacement keeps every live element with its epoch, and the new one with its own, but for one it may drop. |
| CuckooAnswers.PlaceTags | src/cuckoocache.h:395-440 | An inserted element is live in the current epoch unless it is the one dropped; every other live element keeps its epoch; one inserted again is renewed. |
| CuckooAnswers.StoredIfRoom | src/cuckoocache.h:406-439 | An element with a discardable location is stored there and nothing is dropped; one without takes the place of another, which is displaced in turn, as often as the depth limit allows. |
| CuckooAnswers.SetupExactly | src/cuckoocache.h:340-353 | A new table of at least two slots is discardable throughout, an epoch is 45 percent of it, and the first scan is due after a whole one. |
| CuckooAnswers.EpochCheckExactly | src/cuckoocache.h:289-321 | The table ages if and only if the counter has run out and the current epoch is full; then the current epoch stays live as the old one and the rest becomes discardable. |
| CuckooAnswers.NextLocTurns | src/cuckoocache.h:416-430 | The location displaced is the one after the location displaced last, and the second one at first. |
| CuckooCache.BitPackedFlags.BitSet | src/cuckoocache.h:92-95 | Sets exactly that flag. |
| CuckooCache.BitPackedFlags.BitUnset | src/cuckoocache.h:103-106 | Clears exactly that flag. |
| CuckooCache.Cache.constructor | src/cuckoocache.h:340-353 | Computes the specified empty cache. |
| CuckooCache.Cache.EpochCheck | src/cuckoocache.h:289-321 | The loops compute the specified ageing. |
| CuckooCache.Cache.Insert | src/cuckoocache.h:392-440 | The loops compute the specified cache. |
| CuckooCache.Cache.Contains | src/cuckoocache.h:467-477 | True if and only if some slot holds the element at one of its eight locations; computes the specified cache, in which only an erasing lookup that finds it changes one flag. |
| GCS.MapIntoRangeExact | src/blockfilter.cpp:55-79 | The 32-bit piecewise product is floor(x * n / 2^64) with no intermediate overflow. |
| GCS.GolombRoundTrip | src/blockfilter.cpp:19-48 | Golomb-Rice decoding undoes encoding for every P, whatever follows. |
| GCS.MatchExact | src/blockfilter.cpp:161-191 | Matching sorted queries against an encoded set decides exactly whether they share a value. |
| GCS.CompactSizeRoundTrip | src/serialize.h:265-318 | A size is read back if and only if it is at most MAX_SIZE. |
| GCS.CountRefused | src/serialize.h:316-317 | MAX_SIZE + 1 is written but refused. |
| GCS.FilterExact | src/blockfilter.cpp:104-203 | On a built filter, matching is exact if it has at most MAX_SIZE elements and fails otherwise. |
| GCS.FilterLoads | src/blockfilter.cpp:104-128 | A built filter loads again if and only if it has at most MAX_SIZE elements. |
| FilterLayout.GolombMeans | src/blockfilter.cpp:19-34 | A code is x / 2^P ones, a zero and the remainder in P bits, the highest first. |
| FilterLayout.ByteBitsAt | src/streams.h:525-542 | Bytes are read from their most significant bit on. |
| FilterLayout.CompactSizeLayout | src/serialize.h:265-287 | A size is one byte, or a marker and two, four or eight bytes, the least significant first. |
| FilterLayout.SizeCanonical | src/serialize.h:290-319 | A size is accepted in one form only: what is read is what would be written. |
| FilterLayout.HashIntoExact | src/blockfilter.cpp:81-87 | An element is hashed to floor(SipHash * N * M / 2^64). |
| FilterLayout.ExcessRefused | src/blockfilter.cpp:119-127 | A built filter with bytes added behind it does not load. |
| FilterLayout.ShortRefused | src/blockfilter.cpp:119-127 | Nor does one with bytes of its values cut off. |
| BitStreams.BitStreamWriter.Write | src/streams.h:565-578 | The loop appends exactly the low bits of the number, highest first. |
| BitStreams.BitStreamWriter.Flush | src/streams.h:582-589 | Pads to a whole byte. |
| BitStreams.BitStreamReader.Read | src/streams.h:525-542 | The loop returns the next bits as a number, and fails exactly at the end of the data. |
| BlockFilter.GolombRiceEncode | src/blockfilter.cpp:19-34 | The loop writes the specified code. |
| BlockFilter.GolombRiceDecode | src/blockfilter.cpp:36-48 | The loop reads the specified code. |
| BlockFilter.GCSFilter.BuildHashedSet | src/blockfilter.cpp:89-98 | The sorted list of the hashes of the elements. |
| BlockFilter.GCSFilter.Build | src/blockfilter.cpp:130-159 | Encodes exactly the sorted hashes; fails from 2^32 elements on. |
| BlockFilter.GCSFilter.MatchInternal | src/blockfilter.cpp:161-191 | The merging loops compute the specified answer. |
| BlockFilter.GCSFilter.MatchAny | src/blockfilter.cpp:199-203 | On a built filter of at most MAX_SIZE elements, true if and only if some query hash equals some element hash. |
| BlockFilter.GCSFilter.Load | src/blockfilter.cpp:104-128 | Accepts exactly encodings whose values use up the bytes. |
| RollingBloom.WipeExact | src/bloom.cpp:265-274 | Wiping clears exactly the cells of that generation. |
| RollingBloom.MarkExact | src/bloom.cpp:277-286 | Marking sets exactly that cell to the generation. |
| RollingBloom.InsertKeeps | src/bloom.cpp:257-286 | Every key keeps cells labelled no older than its own generation while it is among the last three. |
| RollingBloom.WindowContained | src/bloom.cpp:257-306 | Over every run of insertions from reset, the filter contains each of the last nElements keys. |
| BloomSources.ResetEmpty | src/bloom.cpp:314-322 | A filter with a hash function contains nothing after a reset. |
| BloomSources.CellPlace | src/bloom.cpp:277-284 | A hash value picks the pair of words by its high bits and the bit by its low six. |
| BloomSources.ContainedHasSources | src/bloom.cpp:257-306 | Over every run from reset, a contained key shares each of its cells with a key of the last three generations. |
| RollingBloomFilter.CRollingBloomFilter.constructor | src/bloom.cpp:217-242 | Computes the specified empty filter. |
| RollingBloomFilter.CRollingBloomFilter.Wipe | src/bloom.cpp:268-274 | The mask arithmetic on pairs of words clears exactly the cells labelled nGeneration. |
| RollingBloomFilter.CRollingBloomFilter.Insert | src/bloom.cpp:257-286 | Computes the specified filter. |
| RollingBloomFilter.CRollingBloomFilter.Contains | src/bloom.cpp:294-306 | Computes the specified answer. |
| RollingBloomFilter.CRollingBloomFilter.Reset | src/bloom.cpp:314-322 | Computes the specified filter with a new tweak. |
| Bech32.FoldLinear | src/bech32.cpp:37-94 | PolyMod is linear over exclusive or. |
| Bech32.ChecksumUnique | src/bech32.cpp:118-139 | Exactly one six-value checksum verifies: the one CreateChecksum returns. |
| Bech32.ChecksumVerifies | src/bech32.cpp:118-139 | Appending CreateChecksum verifies, for every hrp and data. |
| Bech32.RoundTrip | src/bech32.cpp:147-190 | Decode inverts Encode if and only if the hrp is non-empty, printable and lower case and the string has at most 90 characters, also for an hrp that contains '1'. |
| Bech32.AcceptedIsEncoded | src/bech32.cpp:159-190 | Every accepted string is, in lower case, the encoding of what it decodes to. |
| Bech32Field.PolyModIsRemainder | src/bech32.cpp:37-94 | PolyMod packs the remainder, over GF(32), of the polynomial with a leading one and the given coefficients modulo x^6 + {29}x^5 + {22}x^4 + {20}x^3 + {21}x^2 + {29}x + {18}. |
| Bech32Field.StepIsTimesX | src/bech32.cpp:58-92 | A round multiplies by x, adds the value and reduces. |
| Bech32Field.ReductionIs | src/bech32.cpp:86-91 | The five constants are the multiples of k(x) by 1, 2, 4, 8 and 16 in GF(32). |
| Bech32Field.CharsetIs | src/bech32.cpp:12-13 | The character set in order. |
| Bech32Errors.StepInjective | src/bech32.cpp:80-92 | A round of PolyMod loses nothing: states of 30 bits that it takes to one state are equal. |
| Bech32Errors.BurstDetected | src/bech32.cpp:118-125 | No two accepted lists of one hrp and one length differ only within six neighbouring places. |
| Bech32Errors.SingleErrorDetected | src/bech32.cpp:118-125 | Changing one value of an accepted list makes it fail. |
| Bech32Errors.MistypedRefused | src/bech32.cpp:159-190 | A string that differs from an accepted one, case aside, only within six neighbouring characters of the data part is refused. |
| Bech32Errors.ExpandedBack | src/bech32.cpp:103-115 | ExpandHRP loses nothing: each character is 32 times a value in front of the zero plus one behind it. |
| Bech32Errors.ExpandInjective | src/bech32.cpp:103-115 | Different human-readable parts are expanded differently. |
| Bech32Errors.CoveredBurstDetected | src/bech32.cpp:118-125 | Of printable human-readable parts of one length with values, at most one verifies of those that differ within six neighbouring places of the expanded list. |
| Bech32Errors.HrpErrorDetected | src/bech32.cpp:118-125 | Human-readable parts that differ within six neighbouring characters, and there in the low five bits, never both verify with the same values. |
| Bech32Errors.ShortHrpErrorDetected | src/bech32.cpp:118-125 | With at most four characters, as vg, vt and vgrt have, any change of one character is detected. |
| Bech32Errors.MistypedHrpRefused | src/bech32.cpp:159-190 | A string that differs from an accepted one before the separator, in one of the ways above, is refused. |
| Bech32Errors.DecodeExactly | src/bech32.cpp:159-190 | A string is accepted as a human-readable part and values if and only if it has at most 90 characters of one case and its lower-case form is the encoding of those, the part being valid. |
| Bech32Codec.PolyMod | src/bech32.cpp:37-94 | The loop computes the specified residue. |
| Bech32Codec.ExpandHRP | src/bech32.cpp:103-115 | The loop computes the specified values, from which Bech32Errors.ExpandedBack gives back every character. |
| Bech32Codec.CreateChecksum | src/bech32.cpp:128-139 | Computes the specified checksum. |
| Bech32Codec.VerifyChecksum | src/bech32.cpp:118-125 | Decides the specified equation. |
| Bech32Codec.Encode | src/bech32.cpp:147-156 | The loop computes the specified string. |
| Bech32Codec.Decode | src/bech32.cpp:159-190 | The loops compute the specified result, including every refusal. |
| Base58.EncodeFits | src/base58.cpp:95-95 | The 138/100 estimate holds the digits of every byte vector. |
| Base58.DecodeFits | src/base58.cpp:49-49 | The 733/1000 estimate holds the bytes of every digit string. |
| Base58.RoundTrip | src/base58.cpp:36-123 | DecodeBase58 after EncodeBase58 is the identity on every byte vector. |
| Base58.DecodedIsEncoded | src/base58.cpp:36-83 | Every accepted string is, up to surrounding spaces, the encoding of what it decodes to. |
| Base58.EncodedMeans | src/base58.cpp:85-123 | The string of a byte vector has the value of the vector, and as many leading ones as the vector leading zeros. |
| Base58.SpacesSkipped | src/base58.cpp:36-83 | Spaces in front of an encoded string and behind it are skipped. |
| Base58.AlphabetIs | src/base58.cpp:16-16 | The digits from 1, the capital letters without I and O, and the small letters without l. |
| Base58Codec.MulAdd | src/base58.cpp:58-65 | The digit loop computes the product and sum in place and ends without a carry. |
| Base58Codec.EncodeBase58 | src/base58.cpp:85-123 | The loops compute the specified string; the carry assert holds on every input. |
| Base58Codec.ConvertWord | src/base58.cpp:52-68 | Converts digit by digit up to a space or an invalid character; the carry assert holds on every prefix. |
| Base58Codec.DecodeBase58 | src/base58.cpp:36-83 | The loops compute the specified result for every string without NUL, including every refusal. |
| Limbs.AddExact | src/arith_uint256.h:135-145 | Limb addition is addition modulo 2^(32 n). |
| Limbs.SubtractExact | src/arith_uint256.h:147-151 | Adding the negation is subtraction modulo 2^(32 n), exact where it does not borrow. |
| Limbs.MulExact | src/arith_uint256.cpp:70-84 | The nested limb loops multiply modulo 2^(32 n). |
| Limbs.MulSmallExact | src/arith_uint256.cpp:58-68 | Multiplication by 32 bits modulo 2^(32 n). |
| Limbs.NoOverflow | src/arith_uint256.cpp:77-79 | Below 2^32 carry, limbs and factor, no sum exceeds 64 bits and the next carry is below 2^32. |
| Limbs.ShiftLeftExact | src/arith_uint256.cpp:24-39 | The shift loop multiplies by a power of two modulo 2^(32 n). |
| Limbs.ShiftRightExact | src/arith_uint256.cpp:41-56 | The shift loop divides by a power of two. |
| Limbs.CompareExact | src/arith_uint256.cpp:112-122 | Comparison from the top limb is comparison of values. |
| Compact.CompactRoundTrip | src/arith_uint256.cpp:207-248 | SetCompact after GetCompact gives the value truncated to its kept mantissa bytes, neither flag set, for every 256-bit value. |
| Compact.CompactLossless | src/arith_uint256.cpp:207-248 | The round trip gives back the value if and only if the bits below its kept mantissa are zero. |
| Compact.SetCompactFits | src/arith_uint256.cpp:207-225 | The value is exact, nothing being shifted out, if and only if the overflow flag is not set. |
| Compact.OverflowExact | src/arith_uint256.cpp:220-223 | The overflow flag is set if and only if the shifted mantissa does not fit 256 bits. |
| Compact.CompactMeaning | src/arith_uint256.cpp:207-225 | Every compact number is read as its low 23 bits times 256^(size - 3), rounded down, modulo 2^256; it is negative if and only if bit 23 is set and that is not zero, and overflows if and only if that needs more than 256 bits. |
| Compact.SignedRoundTrip | src/arith_uint256.cpp:207-248 | The compact form of a negated number is read back as the truncated value with the sign set exactly where it is not zero. |
| Compact.TruncationSmall | src/arith_uint256.cpp:227-248 | The compact form loses less than one part in 2^15. |
| Compact.TruncationBound | src/arith_uint256.cpp:227-248 | Truncation loses less than one unit of the last kept byte. |
| Compact.BlockProofExact | src/chain.cpp:123-137 | For every accepted target no division by zero occurs and the proof is (floor(2^256 / (t + 1)) - 1) * weight + 1 modulo 2^256; zero for refused ones. |
| Compact.NoProofIfSigned | src/chain.cpp:123-137 | A target whose bit 23 is set has no proof of work, whatever its mantissa and size. |
| Compact.BlockProofMeaning | src/chain.cpp:123-137 | The proof in terms of nBits alone: zero for a magnitude of zero or of more than 256 bits, the quotient otherwise. |
| ArithUint256.Arith.Add | src/arith_uint256.h:135-145 | The carry loop adds modulo 2^256. |
| ArithUint256.Arith.Increment | src/arith_uint256.h:173-180 | The carry loop adds one. |
| ArithUint256.Arith.Decrement | src/arith_uint256.h:190-197 | The borrow loop subtracts one. |
| ArithUint256.Arith.Negated | src/arith_uint256.h:77-84 | Complement and increment negate modulo 2^256. |
| ArithUint256.Arith.Subtract | src/arith_uint256.h:147-151 | Subtracts modulo 2^256, exactly where it does not borrow. |
| ArithUint256.Arith.MulSmall | src/arith_uint256.cpp:58-68 | The carry loop multiplies modulo 2^256. |
| ArithUint256.Arith.Multiply | src/arith_uint256.cpp:70-84 | The nested loops multiply modulo 2^256. |
| ArithUint256.Arith.MulInto | src/arith_uint256.cpp:75-80 | The inner loop adds the product from its limb on, with every limb and carry below 2^32. |
| ArithUint256.Arith.MulIntoLimb | src/arith_uint256.cpp:77-79 | One round of it; the sum fits 64 bits. |
| ArithUint256.Arith.ShiftLeft | src/arith_uint256.cpp:24-39 | The loop shifts left modulo 2^256. |
| ArithUint256.Arith.ShiftRight | src/arith_uint256.cpp:41-56 | The loop shifts right. |
| ArithUint256.Arith.CompareTo | src/arith_uint256.cpp:112-122 | Decides the order of the values. |
| ArithUint256.Arith.BitCount | src/arith_uint256.cpp:174-187 | The position of the highest bit plus one. |
| ArithUint256.Arith.Divide | src/arith_uint256.cpp:86-110 | Shift-and-subtract division gives the floor quotient for every non-zero divisor and fails for zero. |
| ArithUint256.Arith.LongDivision | src/arith_uint256.cpp:98-108 | The loop leaves quotient and remainder. |
| ArithUint256.Arith.SetCompact | src/arith_uint256.cpp:207-225 | Computes the specified value and flags, which Compact.CompactMeaning gives in terms of the number alone. |
| ArithUint256.Arith.GetCompact | src/arith_uint256.cpp:227-248 | Computes the specified compact number; both asserts hold. |
| ArithUint256.GetBlockProof | src/chain.cpp:123-137 | Computes the specified proof of work, which Compact.BlockProofMeaning and Compact.NoProofIfSigned give in terms of nBits alone. |
| SkipHeights.LowestOneCleared | src/chain.cpp:71-72 | n & (n - 1) clears exactly the lowest one bit of every positive n. |
| SkipHeights.SkipBelow | src/chain.cpp:74-83 | A skip height is strictly below its height. |
| SkipHeights.SkipEven | src/chain.cpp:74-83 | An even height skips to where its lowest one bit is cleared. |
| SkipHeights.SkipOdd | src/chain.cpp:74-83 | An odd height skips to one above where the two lowest one bits of the height below are cleared. |
| SkipHeights.SkipOddLast | src/chain.cpp:74-83 | With a single one bit below, it skips to height one. |
| SkipSteps.EveryWalkShort | src/chain.cpp:85-110 | From any height up to 2^k GetAncestor follows at most (k + 2)^2 / 4 - 4 + max(k - 4, k / 2 + 2) links. |
| SkipSteps.LimitAttained | src/chain.cpp:85-110 | For every k from 12 on some walk takes that many. |
| SkipSteps.OneHundredAndTen | src/chain.cpp:78-80 | Up to 2^18 blocks there are at most 110 steps, and there is a walk of 110. |
| SkipSteps.NotLogarithmic | src/chain.cpp:42-45 | No multiple of the logarithm of the height bounds the steps. |
| Chain.CBlockIndex.GetAncestor | src/chain.cpp:85-110 | For every height equals the plain walk along predecessors, nothing where out of range; its assert holds; where all skip links are built it follows exactly the specified number of links. |
| Chain.StepBetween | src/chain.cpp:95-103 | No step of the walk goes below the height looked for. |
| Chain.CBlockIndex.BuildSkip | src/chain.cpp:117-121 | The skip link becomes the ancestor at the skip height. |
| Chain.BlockMap.AddToBlockIndex | src/validation.cpp:2989-3023 | Every tree built by adding blocks has right heights, skip links on all blocks but first ones, latest times and works, and its best header is a known block with no less work than any; a known hash changes nothing. |
| Chain.ChainWorkExact | src/validation.cpp:3015-3015 | nChainWork is the sum of the proofs of a block and all its predecessors, modulo 2^256. |
| Chain.WorkGrows | src/validation.cpp:3015-3015 | As long as the work fits 256 bits and every block adds some, a block has more than each of its ancestors. |
| Chain.TimeMaxExact | src/validation.cpp:3014-3014 | nTimeMax reaches a time if and only if a block up to there does. |
| Chain.CChain.FindEarliestAtLeast | src/chain.cpp:64-69 | The search on latest times finds the first block of the chain whose own time is at least the given one, and nothing exactly if there is none. |
| Chain.CChain.SetTip | src/chain.cpp:13-23 | The early-stopping loop leaves exactly the path to the tip, from any earlier chain. |
| Chain.ContainsExact | src/chain.h:519-522 | A block is contained if and only if it is on the path to the tip. |
| Chain.NextExact | src/chain.h:524-530 | The successor is the contained block preceded by this one; there is one exactly below the tip. |
| Chain.CChain.FindFork | src/chain.cpp:53-62 | The highest ancestor in the chain, and nothing exactly if there is none. |
| Chain.CChain.GetLocator | src/chain.cpp:25-51 | Lists the ancestors at the specified heights, whichever lookup is used. |
| Chain.LocatorReachesGenesis | src/chain.cpp:25-51 | Locator heights strictly decrease from the block to zero. |
| Chain.LocatorLength | src/chain.cpp:25-51 | A locator has at most logarithmically many entries beyond the first ten. |
| Chain.LocatorAt | src/chain.cpp:25-51 | Where each entry of a locator stands: one by one down to the twelfth, then at doubling distances, never below height zero. |
| Chain.LastCommonAncestor | src/chain.cpp:156-173 | The highest common ancestor, nothing exactly if there is none; its assert holds. |

## Findings

Properties that the code does not have on all inputs; the lemmas named show where they fail and exactly when they hold.

- `CAddrMan::Clear` (src/addrman.h:459-481) keeps `m_tried_collisions`. An id recorded there can be taken again by a
  new entry whose tried slot is empty, and `SelectTriedCollision_` then inserts an entry with id -1
  (src/addrman.cpp:629-631). AddrManClear.CollisionRecorded reaches such a set, AddrManClear.StaleCollisionBreaks
  gives the run, AddrManClear.ClearExact says that it exists if and only if a collision was recorded, and
  AddrManOps.ApplyExact which single step breaks the tables.
- `CAddrMan::Check_` reads `mapAddr[info]` (src/addrman.cpp:437), which inserts 0 for an address that is not mapped, so
  an unmapped entry 0 passes: AddrManCheck.MissesUnmappedZero. AddrManCheck.PassesExact lists what is not tested.
- A filter of more than MAX_SIZE elements is built without complaint but can be neither matched nor loaded, because
  `ReadCompactSize` refuses its count: GCS.CountRefused, GCS.FilterExact, GCS.FilterLoads.
- A partial Merkle tree whose announced count is too low passes an inner node off as a transaction:
  MerkleCounts.TooLowAccepted; MerkleCounts.CountExact says which counts are safe.
- A partial Merkle tree may send the reader below a node without any match, which the encoder never does, and is
  accepted: MerkleCanonical.IdleDescentAccepted; MerkleCanonical.AcceptedCanonical says when an accepted tree is the one
  that the encoder writes.
- A partial Merkle tree built over a list with equal siblings on a descended path is rejected by its own reader:
  Merkle.RoundTrip.
- `update_for_parent_inclusion` (src/miner.h:110-122) takes off the plain fee while the first insertion takes off the
  modified one, so fee totals drift where fees were prioritised. BlockFees.FeeTotalsDrift exhibits a pool,
  BlockFees.FeeTotalExactness says for every run which totals are exact, and BlockFees.PoolFeesExact which pools keep
  all of them exact. The block limits do not depend on it.
- `CAddrMan::Unserialize` accepts streams whose manager is not consistent, with a repeated address for instance:
  AddrManLoad.RepeatedAddressLoads; AddrManLoad.LoadExact says which streams are safe.
- An `AddCoin` that throws has already taken the memory of the coin in the way off cachedCoinsUsage
  (src/coins.cpp:75-80): the contract of CoinsCache.CCoinsViewCache.AddCoin says when that matters.
- A message command of more than twelve bytes or with a NUL arrives as another one: Framing.CommandRoundTrip. A message
  of more than MAX_PROTOCOL_MESSAGE_LENGTH bytes is sent but makes the peer give up: Channel.FrameExact.
- The comment in `CChain::GetLocator` (src/chain.cpp:43) calls the skip list O(log n). The steps grow with the square of
  the logarithm: SkipSteps.NotLogarithmic; SkipSteps.EveryWalkShort and SkipSteps.LimitAttained give the exact maximum,
  which for 2^18 blocks is the 110 of the comment in `GetSkipHeight`: SkipSteps.OneHundredAndTen.
- The comment in `CuckooCache::cache::insert` (src/cuckoocache.h:419-420) says that the first location displaced is the
  first of the eight; it is the second: CuckooAnswers.NextLocTurns.
- bech32 `Encode` produces strings that `Decode` refuses for an empty, upper-case or unprintable human-readable part or
  beyond 90 characters: Bech32.RoundTrip.
- GetCompact keeps only the leading mantissa bytes: Compact.CompactRoundTrip, Compact.TruncationBound, and
  Compact.CompactLossless for which values nothing is lost.

## Left out

- Hash functions (double SHA-256, SipHash, MurmurHash, the address bucket hashes) are function parameters; what is
  needed of one is a hypothesis where it is used.
- Integer widths are modelled where they decide something: limbs, GCS products, compact sizes, the cuckoo epoch size.
  Elsewhere counters are unbounded, for instance `nSendSize`, `nTodo` and the sizes in the base58 loops.
- BlockAssembly.BlockAssembler.AddPackageTxs: fee rates are compared in exact integers instead of doubles; coinbase,
  header and witness commitment of CreateNewBlock are not modelled.
- BlockFees.PoolFeesExact: the order in which a package is charged, that of the txids, is left open.
- BlockAssembly.AssembleBlock: the mempool is a parameter, assumed acyclic, with exact ancestor counts and totals,
  positive sizes, weights of at most four times the virtual size and its index sorted by score.
- AddrManOps.GoodKeeps: times are positive, as those of the clock are; with time zero a tried entry without a success
  would be left behind.
- AddrManOps.EveryRunHealthy: starts from a healthy manager; cleared ones with recorded collisions are the subject of
  AddrManClear.ClearExact.
- AddrManBuckets.TriedGroupSpread: that the hashes are composed as GetTriedBucket and GetNewBucket compose them is a
  hypothesis there; elsewhere they are arbitrary functions of key and service.
- AddrManFile.Unserialize: the stream is a sequence of items, not bytes, and what a failed call leaves behind is not
  stated.
- Select_, SelectByService_ and GetChance of the address manager, which are about probabilities.
- AddrManCheck.Check: slots outside the table, which an array cannot have, are excluded.
- CoinsCache.CCoinsViewCache.Flush: what the child keeps when the write below throws is not stated, and the memory of
  a script is a parameter that is zero for an empty one.
- CheckQueue.EveryRunSafe: critical sections and single checks are atomic steps; the memory model below the mutex and
  threads interrupted from outside are not modelled.
- CheckQueueProgress.EveryWaitReturns: counts steps; that the scheduler runs a thread that can go on is its premise.
- Merkle.MatchesAuthentic: assumes that no second pair hashes to an inner node, which a hash can only make hard.
- MerkleBlock.CPartialMerkleTree.TraverseAndExtract: positions and widths are unbounded instead of 32-bit.
- CMerkleBlock and its Bloom matching.
- Channel.EveryRunDelivers: messages are within MAX_PROTOCOL_MESSAGE_LENGTH (Channel.FrameExact shows why); sockets,
  threads, pausing and the version handshake are not modelled.
- Cuckoo.EveryRunSound: the depth limit, computed in floating point, is a parameter; concurrent erasure through
  `contains` is one atomic step.
- BlockFilter.GolombRiceEncode: P is below 64, where the shift of the source is defined.
- RollingBloomFilter.CRollingBloomFilter.constructor: the sizes that the constructor computes in floating point are
  parameters.
- CBloomFilter.
- Base58Codec.DecodeBase58: takes the C string; Base58.RoundTrip and Base58.DecodedIsEncoded are about std::string.
- ArithUint256.GetBlockProof: the weight of the mining algorithm is a parameter; getdouble, SetHex and GetHex.
- SkipSteps.OneHundredAndTen: is about heights up to 2^18; from a greater height, walks of as many blocks are within
  SkipSteps.EveryWalkShort for that height.
- Chain.BlockMap.AddToBlockIndex: the time and the proof of a block are parameters; a header does not name its own hash
  as its predecessor; sequence ids, validity and status flags are not modelled.
- Bech32Errors.HrpErrorDetected: a character of a longer human-readable part that changes its high bits as well changes
  two distant values, which no window of six covers.
- Bech32Errors.BurstDetected: that four errors anywhere in 89 characters are detected, as BIP 173 states, is not proved;
  it rests on an exhaustive search.
- Script evaluation, transaction and block validation, wallet, RPC, Tor, stealth addresses, mining algorithms and the
  user interface.
