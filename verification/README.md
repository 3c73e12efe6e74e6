# Verified models of Bitcoin Core

This project models the parts of the vendored Bitcoin Core sources that keep the most intricate state or rest on the
least obvious arguments, and proves what their comments and tests promise. Code that computes values is modelled by
functions. Code that updates fields or arrays in place is modelled by classes and methods, each proved against a
function, a set of paths, a multiset or a history that is defined without it.

- **Cluster linearization** (`cluster_linearize.h`, `util/feefrac`): the dependency graph with cached ancestor and
  descendant sets, chunking, the branch-and-bound search for the best topologically closed set, `Linearize`,
  `PostLinearize`, `MergeLinearizations`, `FixLinearization`, and the comparison of feerate diagrams. A linearization is
  *as good* as another if its feerate diagram is nowhere below the other's, and *optimal* if it is as good as every
  topological order. Diagrams are functions on the reals; proofs use the dual order, the best gain over a slope.
- **Coins caches** (`coins.h`, `coins.cpp`, `txdb.cpp`): caches with DIRTY and FRESH flags and the linked list of
  flagged entries, stacked to any depth on a database.
- **Check queue** (`checkqueue.h`): the master, the workers and the lock as a state machine whose steps are the locked
  regions and single checks. Threads may be interleaved in any way.
- **Address manager** (`addrman.cpp`): the index, the random order, the two tables and the counters, with the check
  that the manager runs on itself.
- **Headers sync** (`headerssync.cpp`): the two download phases with commitments and the look-ahead buffer. Hashes,
  commitment bits and the work of a header are parameters.
- **Arithmetic on 256 bits and compact targets** (`arith_uint256`), **the block index** (`chain.cpp`), **the cuckoo
  cache** (`cuckoocache.h`), **Bech32** (`bech32.cpp`) and **Base58** (`base58.cpp`).

Random choices, hashes, clocks and iteration orders are parameters or non-deterministic choices, so every result holds
for all of them. `dafny verify dfyconfig.toml` checks the project.

## Model

| member | source | states |
|---|---|---|
| SearchFinders.SearchCandidateFinder.FindCandidateSet | bitcoinkernel/bitcoin/src/cluster_linearize.h:752-1021 | The result is a non-empty closed subset of what remains, never worse than a given one, within the iteration limit. If the limit is not reached, no non-empty closed subset has a higher feerate. There are always fewer iterations than closed subsets, of which there are at most 2^n, so that a limit as large as that is not reached. It holds through the sorted copy of the graph, the pruning, the jump ahead and the split into components. |
| Searching.FindBest | bitcoinkernel/bitcoin/src/cluster_linearize.h:752-1021 | The same for the search on the sorted graph, in which the queue never outgrows its capacity. |
| Searching.SplitPaid | bitcoinkernel/bitcoin/src/cluster_linearize.h:967-978 | A split that is performed lowers by one at least what the queue can still be split: the closed sets that its items allow, less one for each item. |
| ClosedSets.SplitBetween | bitcoinkernel/bitcoin/src/cluster_linearize.h:967-975 | No closed set is allowed by both branches, so that they allow together at most as many as the item did. |
| ClosedSets.PartsBetween | bitcoinkernel/bitcoin/src/cluster_linearize.h:797-812 | The closed sets within two parts of a set, other than the empty one, are at most as many as those within the set. |
| ClosedSets.FewClosed | bitcoinkernel/bitcoin/src/cluster_linearize.h:735-751 | There are at most 2^n closed subsets of n transactions. |
| ClosedSets.FewerClosed | bitcoinkernel/bitcoin/src/cluster_linearize.h:1027-1033 | When a closed set is done, there are no more closed subsets than before. |
| SearchFinders.SameClosed | bitcoinkernel/bitcoin/src/cluster_linearize.h:704-727 | The sorted copy has no more closed sets than the graph. |
| Searching.GreedyBound | bitcoinkernel/bitcoin/src/cluster_linearize.h:832-902 | Every set that a branch allows has a feerate not above that of its greedily computed potential, or is not above the best set so far. |
| Searching.AddItem | bitcoinkernel/bitcoin/src/cluster_linearize.h:832-902 | Any set a branch allows that beats the best one is still allowed by an item of the queue afterwards, whether the branch was queued, improved or dropped. |
| Searching.JumpKeepsHope | bitcoinkernel/bitcoin/src/cluster_linearize.h:850-870 | A set that a branch allows and that beats the best one is matched by one as good that includes the transactions jumped ahead. |
| Searching.NoPotential | bitcoinkernel/bitcoin/src/cluster_linearize.h:883-885 | A branch whose potential is not above the best set allows nothing better. |
| Searching.Split | bitcoinkernel/bitcoin/src/cluster_linearize.h:907-979 | What an item allows and beats the best set is allowed by one of the two branches, whichever transaction was chosen; or the item allows nothing better and is dropped. |
| Searching.ComponentHope | bitcoinkernel/bitcoin/src/cluster_linearize.h:797-812 | Of a closed set that spans connected components, the part in one of them is as good as the whole. |
| Searching.StartQueue | bitcoinkernel/bitcoin/src/cluster_linearize.h:797-812 | The initial items, one per component, together allow something as good as any closed set. |
| Searching.Process | bitcoinkernel/bitcoin/src/cluster_linearize.h:993-1015 | Taking an item from either end of the queue keeps that nothing better was lost, and the capacity. |
| SearchFinders.SearchCandidateFinder.constructor | bitcoinkernel/bitcoin/src/cluster_linearize.h:704-727 | The finder works on a copy of the graph, sorted by feerate, whose closed sets correspond to those of the original. |
| SearchFinders.SearchCandidateFinder.MarkDone | bitcoinkernel/bitcoin/src/cluster_linearize.h:1027-1033 | What is left, in original positions, is what was left before without the given set. |
| AncestorFinders.AncestorCandidateFinder.constructor | bitcoinkernel/bitcoin/src/cluster_linearize.h:578-602 | The ancestor feerates held are those of the ancestor sets within what remains. |
| AncestorFinders.AncestorCandidateFinder.MarkDone | bitcoinkernel/bitcoin/src/cluster_linearize.h:610-621 | Updating the feerates step by step gives what recomputing them from the remaining sets would give. |
| AncestorFinders.AncestorCandidateFinder.FindCandidateSet | bitcoinkernel/bitcoin/src/cluster_linearize.h:640-653 | The result is the remaining ancestor set of some transaction, and none of the others is better: higher in feerate, or equal and smaller. |
| Linearizing.Linearize | bitcoinkernel/bitcoin/src/cluster_linearize.h:1054-1130 | The result is a topological permutation, as good as the old linearization if one is given. It is put together from closed sets that have at least the feerate of every ancestor set that remains, and the highest feerate of all closed sets that remain as long as the budget covers the searches. If flagged as optimal, it is as good as every topological order, and it is so flagged whenever the budget covers as many searches as there are transactions. The cost is within the budget and that of the rounds. |
| Linearizing.FirstPart | bitcoinkernel/bitcoin/src/cluster_linearize.h:1086-1088 | Whatever the budget, no ancestor set has a higher feerate than the first chunk of the result. |
| Linearizing.BestPartFirst | bitcoinkernel/bitcoin/src/cluster_linearize.h:1090-1118 | If the first set is the best closed one, no closed set has a higher feerate than the first chunk of the result. |
| Linearizing.RoundDone | bitcoinkernel/bitcoin/src/cluster_linearize.h:1093-1104 | A round takes no more than its start and the number of closed sets, and half of what is left is enough to complete its search if the budget covers it. |
| Linearizing.OneMorePart | bitcoinkernel/bitcoin/src/cluster_linearize.h:1117-1118 | A chosen set, sorted topologically, is one more part of the order. |
| Linearizing.StayOptimal | bitcoinkernel/bitcoin/src/cluster_linearize.h:1045-1050 | An order that keeps up with every linearization still does so after a closed set of the highest feerate among what remains. |
| PostLinearizing.PostLinearize | bitcoinkernel/bitcoin/src/cluster_linearize.h:1148-1331 | In place: the result is a topological permutation that is as good as before, its chunks are connected, and it is optimal if every transaction has at most one child or every one has at most one parent. |
| MovedLeaves.MovedLeaf | bitcoinkernel/bitcoin/src/cluster_linearize.h:1142-1146 | Moving a leaf to the end, with the same or a higher fee, and post-linearizing gives an order as good as the one before, for every graph and leaf. |
| PostLinearizing.TreeOptimal | bitcoinkernel/bitcoin/src/cluster_linearize.h:1140-1141 | For both tree shapes the post-linearized order is as good as every topological order. |
| TreePasses.TreePassBest | bitcoinkernel/bitcoin/src/cluster_linearize.h:1140-1141 | If descendants form chains, one pass over any topological order is as good as every topological order. |
| TreePasses.OneChildIsChained | bitcoinkernel/bitcoin/src/cluster_linearize.h:1140-1141 | In an acyclic graph, every transaction has at most one child just if descendants form chains. |
| PostPasses.PassImproves | bitcoinkernel/bitcoin/src/cluster_linearize.h:1138-1141 | One pass gives a topological order that is as good, whose chunks are exactly its groups, each of them connected. |
| PostLinearizing.Pass | bitcoinkernel/bitcoin/src/cluster_linearize.h:1242-1330 | In place: a backward or forward pass on linked groups computes the pass on lists of groups, and gives a topological order that is as good. |
| PostLinearizing.Settle | bitcoinkernel/bitcoin/src/cluster_linearize.h:1266-1306 | The merge and swap cycle on the linked groups computes the insertion of a group into a list of groups. |
| PostLinearizing.Merge | bitcoinkernel/bitcoin/src/cluster_linearize.h:1279-1292 | The links represent the same groups, with two neighbours concatenated. |
| PostLinearizing.Swap | bitcoinkernel/bitcoin/src/cluster_linearize.h:1293-1305 | The links represent the same groups, with two neighbours exchanged. |
| PostLinearizing.BuildGroups | bitcoinkernel/bitcoin/src/cluster_linearize.h:1245-1307 | The circular list represents the groups of the whole pass, in either direction. |
| PostLinearizing.WriteBack | bitcoinkernel/bitcoin/src/cluster_linearize.h:1310-1329 | Following the links writes the concatenated groups into the array, reversed in a backward pass. |
| Mirrors.MirrorDominates | bitcoinkernel/bitcoin/src/cluster_linearize.h:1252-1258 | Negating fees and reversing the order carries a comparison of diagrams over to the original graph. |
| Mirrors.MirrorChunking | bitcoinkernel/bitcoin/src/cluster_linearize.h:1252-1258 | A chunking of the mirrored order, reversed, is a chunking of the order. |
| Merging.MergeLinearizations | bitcoinkernel/bitcoin/src/cluster_linearize.h:1337-1373 | The result is a topological permutation that is as good as both inputs. |
| Merging.MergeStep | bitcoinkernel/bitcoin/src/cluster_linearize.h:1351-1369 | The better of the two first chunks, cut by the chunks of the other side, is closed and non-empty, and moving it to the front makes neither side worse at any slope. |
| FixLinearizing.FixLinearization | bitcoinkernel/bitcoin/src/cluster_linearize.h:1376-1405 | In place: the result has the same transactions, is topological whatever the order was, and is unchanged if it was topological. |
| FixLinearizing.FixedLinearizes | bitcoinkernel/bitcoin/src/cluster_linearize.h:1376-1405 | Putting each transaction behind its ancestors among those after it gives a topological order of the same transactions. |
| FixLinearizing.FixedKeeps | bitcoinkernel/bitcoin/src/cluster_linearize.h:1376-1405 | A topological order is a fixed point. |
| LinearizationChunkings.ChunkLinearization | bitcoinkernel/bitcoin/src/cluster_linearize.h:408-424 | The feerates computed by absorbing from the end are those of the chunking of the list. |
| Chunkings.ChunksOfIsChunking | bitcoinkernel/bitcoin/src/cluster_linearize.h:408-424 | The chunks concatenate to the list, however a chunk is cut, its second part has the higher feerate, and feerates do not increase. |
| Chunkings.ChunkingUnique | bitcoinkernel/bitcoin/src/cluster_linearize.h:408-424 | A list has only one chunking. |
| Chunkings.FirstChunkBest | bitcoinkernel/bitcoin/src/cluster_linearize.h:488-493 | The first chunk is the shortest of the prefixes of highest feerate. |
| LinearizationChunkings.LinearizationChunking.constructor | bitcoinkernel/bitcoin/src/cluster_linearize.h:474-483 | The chunks held are those of the list. |
| LinearizationChunkings.LinearizationChunking.BuildChunks | bitcoinkernel/bitcoin/src/cluster_linearize.h:446-471 | Chunks and their sets are those of what remains of the list, chunked from scratch. |
| LinearizationChunkings.LinearizationChunking.MarkDone | bitcoinkernel/bitcoin/src/cluster_linearize.h:496-516 | After any subset is removed, by the fast path or not, the chunks held are those of what remains, chunked from scratch. |
| LinearizationChunkings.RemoveFirstChunk | bitcoinkernel/bitcoin/src/cluster_linearize.h:501-509 | Removing exactly the first chunk leaves the other chunks as they were. |
| LinearizationChunkings.LinearizationChunking.IntersectPrefixes | bitcoinkernel/bitcoin/src/cluster_linearize.h:527-551 | The result is the intersection with the first chunks, for the least number of them that leaves the feerate as high, or the whole set. |
| Improvement.IntersectionInFront | bitcoinkernel/bitcoin/src/cluster_linearize.h:518-526 | If no chunk is above the set, moving that intersection to the front makes the diagram nowhere worse. |
| Improvement.BestClosedInFront | bitcoinkernel/bitcoin/src/cluster_linearize.h:1107-1115 | The same for a closed set of the highest feerate, without an intersection. |
| Improvement.TopoSortLinearizes | bitcoinkernel/bitcoin/src/cluster_linearize.h:314-324 | Sorting by ancestor count and position orders any set topologically. |
| DepGraphs.DepGraph.Remap | bitcoinkernel/bitcoin/src/cluster_linearize.h:90-112 | Transactions move to their new positions with their fees, and are related there just as before. |
| DepGraphs.DepGraph.AddTransaction | bitcoinkernel/bitcoin/src/cluster_linearize.h:134-147 | The first free position is taken, and the cached sets still say which paths there are through all dependencies ever added. |
| DepGraphs.DepGraph.RemoveTransactions | bitcoinkernel/bitcoin/src/cluster_linearize.h:158-172 | Survivors stay related also through removed transactions, and trailing positions are dropped. |
| DepGraphs.DepGraph.AddDependencies | bitcoinkernel/bitcoin/src/cluster_linearize.h:178-199 | The cached sets, updated in place, are again exactly the paths through all dependencies ever added, cycles included. |
| DepGraphs.RelatedByLink | bitcoinkernel/bitcoin/src/cluster_linearize.h:178-199 | Two transactions are connected by a path once the dependencies are added just if they were before, or one is a new ancestor and the other a descendant of the child. |
| DepGraphs.GetReducedParents | bitcoinkernel/bitcoin/src/cluster_linearize.h:209-220 | The result is a minimal set of ancestors from which all others follow. |
| Components.GetConnectedComponent | bitcoinkernel/bitcoin/src/cluster_linearize.h:264-280 | The result is the least set with the transaction that holds all relatives of its members. |
| Components.FindConnectedComponent | bitcoinkernel/bitcoin/src/cluster_linearize.h:289-293 | The component of the first transaction, or nothing if there is none. |
| Components.IsConnected | bitcoinkernel/bitcoin/src/cluster_linearize.h:299-302 | True just if the set is one component of itself. |
| ChunkComparing.CompareChunks | bitcoinkernel/bitcoin/src/util/feefrac.h:226-234 | The answer is exactly how the two diagrams, as functions on the reals and flat beyond their ends, compare: each direction holds just if one is nowhere below the other. No slope has size zero. |
| FeeFracs.DominanceIsNoWorse | bitcoinkernel/bitcoin/src/cluster_linearize.h:1046-1047 | For the same total, a diagram is nowhere below another just if its best gain is at least as high for every slope. |
| Improvement.DominanceIsAsGood | bitcoinkernel/bitcoin/src/cluster_linearize.h:1046-1047 | For two orders of the same transactions, their chunked diagrams compare as the best gains of their prefixes do. |
| CoinsStacks.CoinsStack.Run | bitcoinkernel/bitcoin/src/coins.cpp:48-291 | Any run of operations on a stack of caches of any depth has the same effect on all views, from the database to the top, as on a stack of plain maps. |
| CoinsCaches.CoinsViewCache.FetchCoin | bitcoinkernel/bitcoin/src/coins.cpp:48-64 | No view of the stack changes, and an entry that is fetched has no flags. |
| CoinsCaches.CoinsViewCache.GetCoin | bitcoinkernel/bitcoin/src/coins.cpp:66-70 | The coin that the stack shows, found through all caches below, without changing any view. |
| CoinsCaches.CoinsViewCache.AddCoin | bitcoinkernel/bitcoin/src/coins.cpp:72-111 | The view changes at the outpoint only. Unspendable coins and overwrites are refused just when they should be, the flags after it are exactly determined, and no other entry changes. |
| CoinsCaches.AddedEntryOk | bitcoinkernel/bitcoin/src/coins.cpp:79-103 | The flags given to an added coin are right just if an overwrite was announced, or there was an entry, or nothing unspent is below. |
| CoinsCaches.CoinsViewCache.SpendCoin | bitcoinkernel/bitcoin/src/coins.cpp:133-153 | The coin is no longer shown and the old one is handed out; the entry disappears just if it was FRESH, and is DIRTY otherwise. No view below and no other entry changes. |
| CoinsCaches.CoinsViewCache.WriteEntry | bitcoinkernel/bitcoin/src/coins.cpp:186-252 | An entry of the cache above is refused just if it is FRESH over an unspent coin, which never happens to a consistent stack. Otherwise the view shows it, and which flags result is exactly determined. |
| CoinsCaches.WrittenEntryOk | bitcoinkernel/bitcoin/src/coins.cpp:192-248 | Taking over an entry keeps the flags right with respect to what is below. |
| CoinsCaches.CoinsDB.WriteEntry | bitcoinkernel/bitcoin/src/txdb.cpp:93-155 | The database shows the coin written, or nothing for a spent one, and is unchanged elsewhere. |
| CoinsCaches.CoinsViewCache.Flush | bitcoinkernel/bitcoin/src/coins.cpp:254-263 | The view below becomes what this cache shows, which does not change, and the cache is empty. |
| CoinsCaches.CoinsViewCache.Sync | bitcoinkernel/bitcoin/src/coins.cpp:265-276 | The view below becomes what this cache shows, which does not change. Just the unspent entries are kept, without flags. |
| CoinsCaches.CoinsViewCache.NextAndMaybeErase | bitcoinkernel/bitcoin/src/coins.h:283-297 | The entry is erased if spent and unflagged otherwise, and the next one is the right one although the list has changed. |
| CoinsCaches.CoinsViewCache.Uncache | bitcoinkernel/bitcoin/src/coins.cpp:278-291 | No view and no other entry changes, and an entry that is still there is modified. |
| CoinsCaches.CoinsViewCache.SanityCheck | bitcoinkernel/bitcoin/src/coins.cpp:319-350 | The check of flags, links and memory usage finds nothing, in any state that can be reached. |
| CoinsCaches.CheckEntries | bitcoinkernel/bitcoin/src/coins.cpp:319-336 | The pass over the entries gives the memory usage and the number of flagged entries, and accepts just the allowed combinations of flags. |
| CoinsLists.AddFlagsOk | bitcoinkernel/bitcoin/src/coins.h:132-144 | Flagging an entry appends it to the doubly linked list, unless it is there already. |
| CoinsLists.SetCleanOk | bitcoinkernel/bitcoin/src/coins.h:180-187 | Unflagging takes an entry out of the list, wherever it is. |
| CoinsLists.EraseOk | bitcoinkernel/bitcoin/src/coins.h:172-175 | Dropping an entry leaves a list of the others. |
| CheckQueues.CheckQueue.Run | bitcoinkernel/bitcoin/src/checkqueue.h:72-137 | In any interleaving of any number of rounds, every check added is run or skipped once, and each round returns that all passed just if all checks added in it pass, or else the error of one of them. |
| CheckQueues.CheckQueue.Complete | bitcoinkernel/bitcoin/src/checkqueue.h:166-169 | The round ends, however the threads that can go on are interleaved, and passes just if all checks added pass. |
| CheckQueues.CheckQueue.NotStuck | bitcoinkernel/bitcoin/src/checkqueue.h:72-137 | While the master is in the loop, some thread can go on without waiting. |
| CheckQueues.CheckQueue.MasterWaits | bitcoinkernel/bitcoin/src/checkqueue.h:98-110 | A sleeping master that has not been notified waits for a worker that has a batch. |
| CheckQueues.CheckQueue.Add | bitcoinkernel/bitcoin/src/checkqueue.h:172-189 | Checks are queued and counted, with the same master and workers. |
| CheckQueues.CheckQueue.RunCheck | bitcoinkernel/bitcoin/src/checkqueue.h:128-135 | One check is run. After a failure the rest of the batch is skipped. |
| CheckQueues.CheckQueue.FinishBatch | bitcoinkernel/bitcoin/src/checkqueue.h:83-92 | The batch is counted off, its error is kept if it is the first, and the master is notified of the last batch. |
| CheckQueues.CheckQueue.BatchSize | bitcoinkernel/bitcoin/src/checkqueue.h:116-121 | At least one check is taken, and otherwise the most that a batch may hold, an equal share of the queue for each thread and one more. |
| CheckQueues.CheckQueue.TakeBatch | bitcoinkernel/bitcoin/src/checkqueue.h:116-127 | A batch of that size comes off the end of the queue, and is to be run only if nothing failed yet. |
| CheckQueues.CheckQueue.Return | bitcoinkernel/bitcoin/src/checkqueue.h:98-106 | The master leaves with the result of all checks of the round, and the queue is ready for the next. |
| CheckQueues.CheckQueue.Wake | bitcoinkernel/bitcoin/src/checkqueue.h:98-110 | A thread may wake up at any time. A master that was notified leaves. |
| CheckQueues.RoundEnds | bitcoinkernel/bitcoin/src/checkqueue.h:98-106 | With no checks queued and none in a batch, the result is that of all checks added. |
| AddrMans.AddrMan.Run | bitcoinkernel/bitcoin/src/addrman.cpp:401-1001 | Any run of operations keeps the index, the random order, both tables, all counters and the collisions consistent, and never empties a tried slot. |
| AddrMans.AddrMan.CheckAddrman | bitcoinkernel/bitcoin/src/addrman.cpp:1063-1166 | In every consistent state the check finds nothing but a null key. |
| AddrChecks.CheckAll | bitcoinkernel/bitcoin/src/addrman.cpp:1063-1166 | On any state at all the check passes just if the index, the tables and the counts are as `Checked` says. |
| AddrChecks.CheckedExactly | bitcoinkernel/bitcoin/src/addrman.cpp:1063-1166 | A state is consistent, with a key that is not null, just if it passes the check, and has as many addresses as entries, and counts for every network that has entries. |
| AddrChecks.NetsExact | bitcoinkernel/bitcoin/src/addrman.cpp:1154-1163 | All counts per network are right just if that part of the check passes and every network that has entries has counts. |
| AddrChecks.NetsGap | bitcoinkernel/bitcoin/src/addrman.cpp:1154-1163 | A state that passes the check although a network has an entry that is not counted. |
| AddrChecks.AddressGap | bitcoinkernel/bitcoin/src/addrman.cpp:1096-1099 | A state that passes the check although an address leads to no entry. |
| AddrChecks.CheckEntries | bitcoinkernel/bitcoin/src/addrman.cpp:1077-1108 | The pass over the entries succeeds just if each is in order, and gathers the tried ones, the slots of the new ones and the counts. |
| AddrChecks.CheckTried | bitcoinkernel/bitcoin/src/addrman.cpp:1115-1130 | Going through all slots finds no fault and leaves nothing over just if the tried table has exactly the tried entries, in their slots. |
| AddrChecks.CheckNew | bitcoinkernel/bitcoin/src/addrman.cpp:1132-1145 | The same for the new table and the number of slots of each entry. |
| AddrChecks.CheckNets | bitcoinkernel/bitcoin/src/addrman.cpp:1154-1163 | This part passes just if there are as many counts as networks, and those that there are are right. |
| AddrMans.AddrMan.Find | bitcoinkernel/bitcoin/src/addrman.cpp:401-414 | An address is found just if there is an entry for it. |
| AddrMans.AddrMan.Create | bitcoinkernel/bitcoin/src/addrman.cpp:416-430 | There is a new entry, with an unused id and last in the random order, which has no slot yet. |
| AddrMans.AddrMan.SwapRandom | bitcoinkernel/bitcoin/src/addrman.cpp:432-454 | Two places of the random order are exchanged, and entries know their places. |
| AddrMans.AddrMan.Delete | bitcoinkernel/bitcoin/src/addrman.cpp:456-471 | The entry is gone from everywhere. Others keep all but their place in the random order. |
| AddrMans.AddrMan.ClearNew | bitcoinkernel/bitcoin/src/addrman.cpp:473-489 | The slot is empty. Only the entry in it is affected, and deleted if that was its last slot. |
| AddrMans.AddrMan.MakeTried | bitcoinkernel/bitcoin/src/addrman.cpp:491-548 | The entry leaves all new slots and takes its tried slot. An entry that was there is back in its new slot, counted as new. |
| AddrMans.AddrMan.AddSingle | bitcoinkernel/bitcoin/src/addrman.cpp:550-624 | The entry gets its slot or nothing changes in the tables. An address that is not known is taken just if its slot is empty, or has an entry that is terrible or has other slots. A known one learns of services and a later time. |
| AddrMans.AddrMan.Insert | bitcoinkernel/bitcoin/src/addrman.cpp:599-623 | The slot is taken just if it is empty or has a terrible entry, or has one with more slots while this one has none. |
| AddrMans.AddrMan.Add | bitcoinkernel/bitcoin/src/addrman.cpp:681-691 | Being told of addresses changes neither the tried table nor the collisions, and unless one is added, also not the new table and the addresses known. |
| AddrMans.AddrMan.Good | bitcoinkernel/bitcoin/src/addrman.cpp:626-679 | The entry moves to the tried table just if it is new and its slot there is free or not to be tested first, and an entry that was there is new again. It is noted as a collision just if it is new, its slot is taken and to be tested, and there is room. Otherwise only its times change. |
| AddrMans.AddrMan.Promote | bitcoinkernel/bitcoin/src/addrman.cpp:656-678 | The same for an entry that is new. |
| AddrMans.HowMany | bitcoinkernel/bitcoin/src/addrman.cpp:818-824 | The largest number of addresses within both limits, where zero is no limit. |
| AddrMans.AddrMan.Attempt | bitcoinkernel/bitcoin/src/addrman.cpp:693-711 | Only the attempts of that entry change, and a failure is counted once after each success. |
| AddrMans.AddrMan.Connected | bitcoinkernel/bitcoin/src/addrman.cpp:877-894 | Only the time of that entry changes, if it is more than twenty minutes old. |
| AddrMans.AddrMan.SetServices | bitcoinkernel/bitcoin/src/addrman.cpp:896-910 | Only the services of that entry change. |
| AddrMans.AddrMan.GetAddr | bitcoinkernel/bitcoin/src/addrman.cpp:812-851 | Different known addresses, of the network asked for and not terrible if filtered, within both limits. If there are fewer than the limits allow, all that suit are there. |
| AddrMans.AddrMan.ResolveCollisions | bitcoinkernel/bitcoin/src/addrman.cpp:912-973 | Every collision has its turn, in the order of the ids. It is kept just if there is an entry for it and nothing is decided in the state of its turn. In a turn that is decided for it the entry takes its tried slot, and the one that was there is new again; in every other turn nothing changes. |
| AddrMans.AddrMan.Replace | bitcoinkernel/bitcoin/src/addrman.cpp:943-964 | The entry is in its tried slot, successful now, and one that was there is new again. |
| AddrMans.NextTurn | bitcoinkernel/bitcoin/src/addrman.cpp:916-972 | One more turn extends the history of turns, and decides about this collision only. |
| AddrMans.OneTurn | bitcoinkernel/bitcoin/src/addrman.cpp:916-972 | A single collision is decided in the state before the call. |
| AddrMans.AddrMan.ResolveOne | bitcoinkernel/bitcoin/src/addrman.cpp:912-973 | A collision is settled, and the entry in the slot is replaced, just under the conditions on successes and attempts; otherwise nothing changes. |
| AddrMans.AddrMan.SelectTriedCollision | bitcoinkernel/bitcoin/src/addrman.cpp:975-1001 | The result is the entry that a noted collision would evict. There is none only if there are no collisions, or one is of an entry that is gone. |
| HeadersSyncs.HeadersSync.Run | bitcoinkernel/bitcoin/src/headerssync.cpp:65-134 | In any run of messages, what is released is a linked prefix of the headers of the second phase, which agree with all commitments to those of the first. |
| HeadersSyncs.ReleasedLinked | bitcoinkernel/bitcoin/src/headerssync.cpp:277-291 | Released headers follow one another from the start with permitted difficulties, and are as deep as the buffer or belong to a chain with enough work. |
| HeadersSyncs.HeadersSync.ProcessNextHeaders | bitcoinkernel/bitcoin/src/headerssync.cpp:65-134 | A message succeeds just if all its headers connect, are permitted and agree with the commitments. More is asked for, and the sync ends, just when it should. A message of the second phase that succeeds, full or not, has released just the headers with a full buffer above them, or all once there is enough work; one that fails releases nothing. |
| HeadersSyncs.HeadersSync.StoreCommitments | bitcoinkernel/bitcoin/src/headerssync.cpp:136-172 | The message is taken just if it connects and all headers are permitted and may be committed to. The second phase starts just if there is enough work. |
| HeadersSyncs.HeadersSync.ProcessSingleHeader | bitcoinkernel/bitcoin/src/headerssync.cpp:174-210 | The header is taken just if its difficulty is permitted and there are not too many commitments, which stay those of the headers taken. |
| HeadersSyncs.HeadersSync.StoreRedownloaded | bitcoinkernel/bitcoin/src/headerssync.cpp:212-275 | The header is taken just if it connects, is permitted, and agrees with the commitment if there has to be one. |
| HeadersSyncs.HeadersSync.AcceptableIs | bitcoinkernel/bitcoin/src/headerssync.cpp:212-275 | That depends only on the headers of the two phases. |
| HeadersSyncs.HeadersSync.PreviousBitsIs | bitcoinkernel/bitcoin/src/headerssync.cpp:226-232 | The difficulty compared with is that of the last header just if the buffer is not empty, or nothing was accepted, or the start has the same. |
| HeadersSyncs.HeadersSync.PopReady | bitcoinkernel/bitcoin/src/headerssync.cpp:277-291 | The buffer is left no longer than its size, or empty if all is to be released; the headers are whole again. |
| HeadersSyncs.HeadersSync.Finalize | bitcoinkernel/bitcoin/src/headerssync.cpp:48-60 | The sync is over and nothing that was released is taken back. |
| HeadersSyncs.HeadersSync.constructor | bitcoinkernel/bitcoin/src/headerssync.cpp:17-43 | The first phase starts with no headers. |
| ArithUints.DivAssign | bitcoinkernel/bitcoin/src/arith_uint256.cpp:76-99 | The quotient of the values, by shifting and subtracting; an error just if the divisor is zero. |
| ArithUints.MulAssign | bitcoinkernel/bitcoin/src/arith_uint256.cpp:60-73 | The product of the values, modulo the range. |
| ArithUints.Tight | bitcoinkernel/bitcoin/src/arith_uint256.cpp:66-68 | A carry, a limb and a product of limbs always fit into 64 bits. |
| ArithUints.Bits | bitcoinkernel/bitcoin/src/arith_uint256.cpp:156-168 | The number of bits of the value. |
| Limbs.AddAssign | bitcoinkernel/bitcoin/src/arith_uint256.h:117-127 | The sum of the values, modulo the range, also if both are the same object. |
| Limbs.SubAssign | bitcoinkernel/bitcoin/src/arith_uint256.h:129-133 | The difference of the values, modulo the range. |
| Limbs.Negate | bitcoinkernel/bitcoin/src/arith_uint256.h:59-66 | The negative value, modulo the range. |
| Limbs.Complement | bitcoinkernel/bitcoin/src/arith_uint256.h:51-57 | The largest value minus this one. |
| Limbs.Increment | bitcoinkernel/bitcoin/src/arith_uint256.h:155-162 | The value plus one, modulo the range. |
| Limbs.CompareTo | bitcoinkernel/bitcoin/src/arith_uint256.cpp:102-111 | The order of the values, equal just if all limbs are. |
| LimbShifts.ShiftLeft | bitcoinkernel/bitcoin/src/arith_uint256.cpp:14-28 | The value times a power of two, modulo the range, for every shift. |
| LimbShifts.ShiftRight | bitcoinkernel/bitcoin/src/arith_uint256.cpp:31-45 | The value divided by a power of two, for every shift. |
| Compacts.SetCompact | bitcoinkernel/bitcoin/src/arith_uint256.cpp:175-193 | The value of the compact number, cut to 256 bits; the overflow flag is set just if it does not fit, and the sign just if it is negative and not zero. |
| Compacts.OverflowIs | bitcoinkernel/bitcoin/src/arith_uint256.cpp:189-191 | The three conditions on size and mantissa hold just if the number does not fit. |
| Compacts.GetCompact | bitcoinkernel/bitcoin/src/arith_uint256.cpp:195-216 | The compact number is the value without its low bits. Its size is the least that leaves the top bit of the mantissa free, its mantissa is exactly the upper bytes, and it has the sign asked for, except that zero has none. |
| Compacts.SignFree | bitcoinkernel/bitcoin/src/arith_uint256.cpp:205-211 | With the top bit of the mantissa moved out of the way, the size is the least one that leaves it free. |
| Compacts.BlockProof | bitcoinkernel/bitcoin/src/chain.cpp:121-134 | The work is 2^256 divided by the target plus one, and zero for targets that are negative, too large or zero. |
| Compacts.WorkIs | bitcoinkernel/bitcoin/src/chain.cpp:129-133 | The quotient computed without a number of more than 256 bits is the one wanted. |
| Compacts.NoWrap | bitcoinkernel/bitcoin/src/chain.cpp:121-134 | Adding one to a target that fits does not wrap. |
| Chains.BlockIndex.GetAncestor | bitcoinkernel/bitcoin/src/chain.cpp:83-108 | The ancestor that walking from parent to parent gives, in at most n * n + 1 steps for a height of n bits; nothing for a height out of range. |
| SkipHeights.FewSteps | bitcoinkernel/bitcoin/src/chain.cpp:70-81 | The rule that decides between skipping and going to the parent takes at most n * n + 1 steps down from a height of n bits, to any height. |
| Chains.BlockIndex.constructor | bitcoinkernel/bitcoin/src/chain.cpp:115-119 | The skip pointer leads to the ancestor at the skip height. |
| Chains.LastCommonAncestor | bitcoinkernel/bitcoin/src/chain.cpp:155-178 | The result is a common ancestor, and there is none at any greater height. |
| Chains.LocatorEntries | bitcoinkernel/bitcoin/src/chain.cpp:26-43 | Ancestors from the block to the root at heights given in closed form; beyond 12, each further entry doubles the height that is needed. |
| Chains.Chain.SetTip | bitcoinkernel/bitcoin/src/chain.cpp:16-24 | The chain is that of all ancestors of the block, although a shared part is not visited. |
| Chains.Chain.FindFork | bitcoinkernel/bitcoin/src/chain.cpp:50-59 | The highest ancestor that is in the chain, if there is one. |
| CuckooCaches.Cache.Insert | bitcoinkernel/bitcoin/src/cuckoocache.h:397-445 | An element that is there stays, in the current epoch. Another one takes the first of its slots that may be overwritten. If there is none, elements move, each with its epoch flag, from slot to slot, until one of them has such a slot or the depth limit is reached. The contents with the new element are kept but for one, which was overwritable unless the limit was reached. |
| CuckooCaches.GainsAndLoses | bitcoinkernel/bitcoin/src/cuckoocache.h:393-395 | The set of elements gains the new one at most, and loses one at most. |
| CuckooCaches.WalkOn | bitcoinkernel/bitcoin/src/cuckoocache.h:420-443 | A move is made only by an element none of whose slots may be overwritten, into the slot after the last one. |
| CuckooCaches.Cache.Contains | bitcoinkernel/bitcoin/src/cuckoocache.h:474-484 | True just if the element is anywhere in the table. Only the flag of its slot changes. |
| CuckooCaches.Cache.EpochCheck | bitcoinkernel/bitcoin/src/cuckoocache.h:286-318 | A full epoch makes exactly the slots outside it erasable and otherwise nothing changes; when to count again depends on how much of the epoch is in use. |
| CuckooCaches.Cache.constructor | bitcoinkernel/bitcoin/src/cuckoocache.h:336-349 | An empty table in which all slots may be overwritten. |
| Bech32Errors.ThreeErrorsAreDetected | bitcoinkernel/bitcoin/src/bech32.cpp:137-142 | Changing one to three symbols within a window of 1023 always changes the residue. |
| Bech32Errors.ErrorsShow | bitcoinkernel/bitcoin/src/bech32.cpp:218-239 | Up to three errors at different places make one of the three syndromes differ from zero. |
| Bech32Errors.ValueOfErrors | bitcoinkernel/bitcoin/src/bech32.cpp:218-239 | The value of a residue at a root of the generator is the sum of the errors times powers of that root. |
| Bech32Syndromes.AtTimesX | bitcoinkernel/bitcoin/src/bech32.cpp:218-239 | At a root of the generator, multiplying a residue by x modulo the generator multiplies its value by the root. |
| Bech32Syndromes.Root997 | bitcoinkernel/bitcoin/src/bech32.cpp:218-219 | The power 997 of e is a root of the generator. |
| Bech32Syndromes.Root998 | bitcoinkernel/bitcoin/src/bech32.cpp:218-219 | The power 998 of e is a root of the generator. |
| Bech32Syndromes.Root999 | bitcoinkernel/bitcoin/src/bech32.cpp:218-219 | The power 999 of e is a root of the generator. |
| Bech32Orders.NoReturn | bitcoinkernel/bitcoin/src/bech32.cpp:37-45 | e has order 1023: fewer multiplications by e bring no element of the field back, except zero. |
| Bech32Strings.EncodingsFarApart | bitcoinkernel/bitcoin/src/bech32.cpp:137-142 | Code words of different data of the same length differ in four symbols at least. |
| Bech32Strings.PrefixIsChecked | bitcoinkernel/bitcoin/src/bech32.cpp:311-324 | Changing one character of the prefix always changes the residue. |
| FormatVectors.Bech32Vector | bitcoinkernel/bitcoin/src/test/bech32_tests.cpp:19 | The published encoding of no data with the prefix a. |
| FormatVectors.Bech32mVector | bitcoinkernel/bitcoin/src/test/bech32_tests.cpp:39 | The same with the constant of Bech32m. |
| Bech32s.ChecksumVerifies | bitcoinkernel/bitcoin/src/bech32.cpp:342-353 | With the checksum, the residue is the constant of the encoding. |
| Bech32s.ChecksumUnique | bitcoinkernel/bitcoin/src/bech32.cpp:342-353 | No other six symbols have that residue. |
| Bech32Strings.PolyMod | bitcoinkernel/bitcoin/src/bech32.cpp:130-216 | The loop computes the residue that these results are about. |
| Bech32Strings.CheckCharacters | bitcoinkernel/bitcoin/src/bech32.cpp:287-309 | The positions reported are, in order, just those of characters that are not printable or have another case than the first letter. |
| Bech32Strings.Encode | bitcoinkernel/bitcoin/src/bech32.cpp:358-371 | The method computes the encoding. |
| Bech32Strings.Decode | bitcoinkernel/bitcoin/src/bech32.cpp:374-400 | The method computes the decoding, on every string and limit. |
| Bech32Strings.DecodeEncoded | bitcoinkernel/bitcoin/src/bech32.cpp:374-400 | Decoding gives back the encoding, the prefix and the data. |
| Bech32Strings.EncodeDecoded | bitcoinkernel/bitcoin/src/bech32.cpp:374-400 | What is decoded encodes to the same string in lower case, so that only encodings are accepted. |
| Base58s.MulAdd | bitcoinkernel/bitcoin/src/base58.cpp:63-70 | The buffer holds the number times one base plus a digit; the carry is used up. |
| Base58s.EncodeFits | bitcoinkernel/bitcoin/src/base58.cpp:99-100 | The buffer for encoding is long enough for every length. |
| Base58s.DecodeFits | bitcoinkernel/bitcoin/src/base58.cpp:53-54 | The buffer for decoding is long enough for every length. |
| Base58s.EncodeBase58 | bitcoinkernel/bitcoin/src/base58.cpp:89-127 | The method computes the leading ones and the digits of the number. |
| Base58s.DecodeBase58 | bitcoinkernel/bitcoin/src/base58.cpp:40-87 | The method computes the decoding, on every string and maximal length. |
| Base58s.DecodeEncoded | bitcoinkernel/bitcoin/src/base58.cpp:40-87 | Decoding gives back the bytes, if as many are allowed. |
| Base58s.EncodeDecoded | bitcoinkernel/bitcoin/src/base58.cpp:89-127 | What is decoded encodes to the same string without the spaces around it. |
| FormatVectors.Base58Vector | bitcoinkernel/bitcoin/src/test/data/base58_encode_decode.json:17 | The published vector whose encoding is the whole alphabet. |

## Findings

- **`CheckAddrman` compares the counts per network one way only** (`addrman.cpp:1154-1163`): it needs as many counts as
  networks and compares those that there are. A network with entries but without counts is not noticed if another
  network has zero counts: `AddrChecks.NetsGap` is such a state, and the whole check passes on it. `AddrChecks.NetsExact`
  says exactly when this part is right. `AddrMan.Run` never reaches such a state.
- **`CheckAddrman` does not count the addresses** (`addrman.cpp:1096-1099`): every entry is looked up by its address,
  but an address that leads to no entry is not noticed (`AddrChecks.AddressGap`). With the number of addresses and the
  networks compared as well, passing the check is the same as being consistent (`AddrChecks.CheckedExactly`). No run
  reaches this state either.
- **The second phase of headers sync takes the previous difficulty from the buffer** (`headerssync.cpp:226-232`), and
  from the start of the chain if the buffer is empty. `HeadersSync.PreviousBitsIs` says exactly when that is the
  difficulty of the header before. It always is for a buffer size above zero, as in the source; clauses about
  difficulties in `ProcessNextHeaders` and `ReleasedLinked` name that condition.
- **The first swap of the cuckoo cache** (`cuckoocache.h:424-435`) uses slot 1 of the element; the comment says slot 0.
  The model follows the code.
- **The comments at `cluster_linearize.h:750` and `1052`** say that the search is possibly bounded by the square root of
  2^n. The bound proved is the number of closed subsets, which is at most 2^n and much smaller for graphs with many
  dependencies.
- **The comment at `chain.cpp:77-79`** gives the number of steps found in simulations. The bound proved, the square of
  the number of bits plus one, holds for all heights and is larger.

## Left out

- FeeFrac: fees and sizes are unbounded integers; the 64-bit and 96-bit products and their fallbacks are not modelled.
- Bit sets are sets; their fixed width appears only as the capacity of the search queue and of the graph.
- DepGraph memory accounting and `Compact`, and the seeds of the random generators; random choices are arbitrary.
- Coins: `hashBlock`, `SetBackend`, `EmplaceCoinInternalDANGER`, `AccessByTxid` and writes that fail.
- CoinsCaches.CoinsViewCache.FetchCoin: a spent coin that the view below returns is not modelled, since views return only unspent ones.
- CheckQueue: shutting down, the notification of idle workers (any worker may wake at any time instead) and exceptions.
- CheckQueues.CheckQueue.Complete: workers that wake with nothing to do are left to `Run`, since fairness is not modelled.
- AddrMan: `Select_`, serialization, `GetChance` and the plain queries. The tables are maps from slots, hashes are parameters.
- AddrMans.AddrMan.Add: which of several addresses are taken is stated for one at a time, by `AddSingle`; whether a known address gets another slot is partly random.
- HeadersSync: logging, locators, and how the bound on commitments comes from the clock, which is a parameter.
- HeadersSyncs.HeadersSync.ProcessNextHeaders: when a message succeeds in the second phase is stated for a buffer size above zero.
- Heights, sizes and counters are unbounded integers, except in the limb arithmetic and in the size of an epoch.
- Chains.BlockIndex.constructor: the pointers of a block are set once, when it is made, so that setting them later is not modelled.
- `GetBlockProofEquivalentTime`, conversions to hexadecimal and floating point.
- Cuckoo cache: atomic flags and memory order; the depth limit from floating-point arithmetic is a parameter; the rate of hits.
- Bech32: `LocateErrors`, the tables and packing of `Syndrome`, and the detection of four errors within 89 symbols.
- Base58Check, whose checksum is a hash.
- The Java layer, validation, networking, wallets, RPC and storage.
