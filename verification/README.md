# The state-keeping core of the node

A Dafny model of the parts of the node that keep state: the coins and the choice of the active chain,
the Merkle structures and merged mining, the address manager, the script check queue, and the money
rules, with proofs of what they are relied upon for. `dafny verify dfyconfig.toml` checks everything.

Code that changes things in place is modelled as classes and methods with loops, proved against
functions on values; the laws are lemmas about those functions and invariants of the classes.

- **Coins.** `coins.dfy` (records, spending, undo records), `utxo.dfy` (transactions and blocks on the
  coin state, there and back), `ledger.dfy` (what the coins are in terms of the blocks),
  `rollback.dfy` (what a roll-back leaves of earlier blocks),
  `coins_view.dfy` (layers of caches over a database), `connecting.dfy` (the checks, UpdateCoins,
  ConnectBlock, DisconnectBlock), `money.dfy` and `issuance.dfy` (conservation, subsidies, supply),
  `amounts.dfy`, `coins_file.dfy`, `formats.dfy` and `stored_coins.dfy` (the compact on-disk form).
- **Chain.** `block_index.dfy`, `chain.dfy`, `chain_state.dfy` (SetBestChain, ConnectBestBlock,
  FindBlockByHeight), `locator.dfy` (block locators).
- **Memory pool.** `mempool.dfy`.
- **Merkle.** `merkle.dfy`, `merkle_branch.dfy`, `partial_merkle.dfy`, `partial_tree.dfy` (BIP 37),
  `auxpow.dfy` and `auxpow_slot.dfy` (merged mining).
- **Check queue.** `check_queue.dfy`: one class for the code, and a transition system over any number of
  threads whose steps are the critical sections.
- **Address manager.** `addr_tables.dfy` (the tables as values and what Check_ demands), `addrman.dfy`
  (the operations), `addr_news.dfy` (what is known of an address), `addr_groups.dfy` (localised
  attackers), `addr_check.dfy` (Check_ itself), `addr_file.dfy` (writing and reading).

Main results:

1. `ChainStates.ChainState.Run` and `SetBestChain`: whatever sequence of switches between branches of a
   block tree is attempted, the unspent outputs are always those of replaying the tip's branch from
   genesis, also when blocks are disconnected with undo data read back from disk; versions are exact
   unless negative. A switch succeeds if and only if the joining blocks pass and the leaving blocks'
   dead records are still there, and otherwise changes nothing. It rests on
   `Utxo.DisconnectInvertsConnect`, the inverse law for undo data, and on `Ledger.ReplayLaw`, which says
   what the replayed coins are.
2. `CheckQueues.EveryRun` and `WaitReturns`: in every interleaving each Wait returns the conjunction of
   exactly the checks of its round, and it does return, after a bounded number of steps.
3. `PartialTrees.ExtractBuilt` and `ExtractSound`: completeness and soundness of partial Merkle trees.
4. `AuxPows.SameWorkSameBlock` and `AuxPowSlots.AssembledAccepted`: the same work cannot be used twice
   without exhibiting a hash collision, and honest work is accepted.
5. `AddrChecks.RunThenCheck` and `AddrFiles.RoundTrip`: after any run Check_ finds nothing, and saving
   and loading loses nothing but the numbering. `AddrGroups.FloodContained` and `RangeBounded`: no
   localised attacker can fill the tables.
6. `Money.ConnectConserves`, `Connecting.AcceptableIff`, `Issuance.SupplyBounded`, `Money.SubsidyBounded`:
   value is conserved exactly, what a block may issue is an equivalence, and issuance along a branch is
   bounded.
7. `CoinFiles.RoundTrip`, `Amounts.CompressDecompress`, `Amounts.OneForm`, `StoredCoins.CanBeWritten`: the
   compact formats are exact, but for negative versions, on everything the node writes.
8. `MemPools.TxMemPool.Remove` and `RemoveConflicts`, `Locators.LocatorFinds`.

Where the code and what one might expect of it differ:

- DisconnectBlock is not always clean. A transaction may have data and no outputs; its record is erased
  by the database, and rolling its block back afterwards is reported as inconsistent, which makes
  SetBestChain fail. `Utxo.DisconnectInvertsConnect` and `CleanAfterFlushIff` give the exact conditions,
  `DataOnlyBlockIsUnclean` a block.
- Negative versions do not survive the disk: version -1 is read back as 127. So the coins of a node need
  not be those of the replayed branch; `ChainStates.ChainState.SetBestChain` says exactly when they are,
  `Utxo.NegativeVersionChanges` gives a block. Nothing else is lost, and roll-backs stay clean because
  DisconnectBlock does not compare negative versions.
- Good_ with a time that is not positive, and Attempt_ with a negative one, leave tables that Check_
  rejects: `AddrChecks.GoodPassesIff` and `AttemptPassesIff`, with a run in `SuccessAtTimeZero`.
- Two of the documented examples of variable-length numbers are not what the code writes: 16511 takes two
  bytes, as the table of sizes beside it says, and the middle byte of 65535 is 0xFE
  (`Formats.KnownVarInts`).
- removeConflicts compares transactions without their data field, so what it leaves is a transaction
  equal in the other fields (`MemPools.Leftover`).
- The undo record format drops the version of records without height (`CoinFiles.UnserializeUndo`); the
  records that spending makes carry none.

Choices: transaction ids, block hashes and the results of keyed or pair hashes are arbitrary values,
hash functions arbitrary functions; where security rests on them, the theorem ends in an explicit
collision. Random choices and the order in which notifications reach threads are nondeterministic. Clocks
are parameters. Streams are sequences of tokens. Integers are unbounded except where a width matters:
64-bit amounts in `amounts.dfy` and `coins_file.dfy`, the 32-bit slot computation in `auxpow.dfy`.

## Model

| member | source | states |
|---|---|---|
| `Coins.Trim` | src/main.h:959-965 | the longest prefix whose last output is unspent; everything cut off is spent |
| `Coins.TrimUnique` | src/main.h:943 | there is only one such prefix, so "spent outputs at the end are dropped" determines the record |
| `Coins.Cleanup` | src/main.h:960-965 | the popping loop computes that prefix |
| `Coins.Spend` | src/main.h:1097-1111 | succeeds exactly on an available output; the remaining record and the undo record (metadata only when nothing unspent is left) are those of `SpendOutput`; a failed spend changes nothing |
| `Coins.SpendCanonical` | src/main.h:1097-1111 | spending keeps records in canonical form |
| `Coins.CanonicalPruned` | src/main.h:1126-1132 | a canonical record is pruned exactly when its output list is empty |
| `Coins.SpendThenRestore` | src/main.cpp:2094-2125 | restoring a spent output gives back the very same record and raises none of the three warnings, whatever blank record (or none) is found when the record had been spent completely; if record or undo record have been on disk, the same but for a negative version |
| `Utxo.SameLiveIff` | src/main.h:1126-1132 | two coin states agree on every lookup of unspent outputs exactly when their unpruned parts are equal (or equal but for negative versions, if one has been on disk) |
| `Utxo.ExactIfNoNegative` | src/main.h:1043-1044 | without negative versions among the unspent, the disk changes nothing |
| `Utxo.ExactOnDiskIff` | src/main.h:1043-1044 | a state read from disk is exact if and only if nothing unspent has a negative version |
| `Utxo.HaveInputsIffSpendable` | src/main.cpp:1682-1716 | for a transaction without duplicate inputs, HaveInputs says yes exactly when all spends of UpdateCoins succeed, and these remove exactly the inputs from the unspent outputs |
| `Utxo.SpendInputsLive` | src/main.cpp:1682-1696 | spending and the undo records depend on the unspent outputs only; negative versions changed by the disk change nothing else |
| `Utxo.ConnectLive` | src/main.cpp:2211-2282 | whether a block connects, what it leaves unspent and its undo records depend on the unspent outputs only, and not on negative versions |
| `Utxo.ConnectTxsFacts` | src/main.cpp:2241-2282 | connecting keeps all records canonical and brings only transactions of the block to life |
| `Ledger.ConnectLaw` | src/main.cpp:1682-1696 | for every block that connects: an output is unspent afterwards exactly if it was before or is an output of a transaction of the block, and no transaction of the block spends it; an output of the block is recorded with its value and script, the block's height, its transaction's version, and as coinbase exactly if that is the first; every other output is recorded as before |
| `Ledger.ApplyTxLaw` | src/main.cpp:1682-1696 | the same for one transaction |
| `Ledger.ReplayLaw` | src/main.cpp:2369-2452 | the unspent outputs of a replayed branch are exactly the outputs made by its blocks and not spent by them since, each recorded with value, script, height, version and coinbase flag of the transaction that made it |
| `Ledger.TipLaw` | src/main.cpp:2369-2480 | the same for the coins a node holds at a block, whatever caches and disks they went through, but for negative versions |
| `Utxo.UndoInputsInvert` | src/main.cpp:2085-2131 | restoring the inputs of a transaction from its undo record, last input first, undoes the spends from every state with the same unspent outputs, without warnings, and touches no other record |
| `Utxo.UndoLastTx` | src/main.cpp:2045-2132 | undoing the last transaction of a block gives the unspent outputs before it, also when it spends outputs created in the same block; the comparison passes also for a negative version changed by the disk |
| `Utxo.DisconnectTxsInverts` | src/main.cpp:2045-2132 | the loop from the last to the first transaction undoes the whole block; the exact condition for a clean report |
| `Utxo.DisconnectInvertsConnect` | src/main.cpp:2027-2143 | for every block that connects at height 1 or more and every state with the resulting unspent outputs, DisconnectBlock with the undo records of ConnectBlock succeeds and restores exactly the unspent outputs from before (through disk: but for negative versions); it is clean if and only if the records of the transactions without outputs are still present |
| `Utxo.CleanWhenUnflushed` | src/main.cpp:2049-2069 | as long as completely spent records have not been erased the roll-back is clean |
| `Utxo.CleanAfterFlushIff` | src/txdb.cpp:13-18 | after a flush to the database, which erases completely spent records, the roll-back is clean if and only if every transaction of the block has an output |
| `Utxo.DataOnlyBlockIsUnclean` | src/main.cpp:606-665 | a concrete block that CheckTransaction admits (data but no outputs) and whose roll-back after a flush is reported as unclean |
| `Utxo.NegativeVersionChanges` | src/main.cpp:2059-2064 | a concrete block with version -1: it connects, comes back from disk with version 127, and rolls back cleanly because versions are then not compared |
| `Rollbacks.ConnectTxsHeights` | src/main.cpp:1682-1696 | a connected block gives its height to the records of its transactions and keeps all other heights |
| `Rollbacks.TouchedAlive` | src/main.cpp:2249-2274 | what a transaction spends from was unspent before the block or was created earlier in it |
| `Rollbacks.RolledBack` | src/main.cpp:2045-2132 | after a roll-back every record is blank (a transaction of the block), untouched, or belongs to something that was unspent before the block |
| `Rollbacks.RolledBackHeights` | src/main.cpp:2045-2132 | a roll-back leaves no height that the state before the block does not have |
| `Rollbacks.DeadRecordKept` | src/main.cpp:2049-2071 | rolling back a block neither makes nor destroys the dead record that an earlier block left for a transaction without outputs |
| `Money.ConnectConserves` | src/main.cpp:2241-2303 | connecting a block changes the total unspent value by exactly the coinbase outputs minus the fees |
| `Money.BoundedIssuance` | src/main.cpp:2291-2303 | from height 1660 on an accepted block increases the total unspent value by at most its subsidy plus the regenerated service fees |
| `Money.SubsidySumClosed` | src/main.cpp:1300-1322 | closed form of the subsidies summed up to any height |
| `Money.SubsidyBounded` | src/main.cpp:1300-1322 | the subsidies summed up to any height stay below MAX_MONEY; the exact total on the main network |
| `Issuance.BlockIssuance` | src/main.cpp:2291-2303 | replaying a block that passes adds at most its subsidy and the regenerated service fees |
| `Issuance.ChainIssuance` | src/main.cpp:1294-1334 | between any two heights from 1659 on, a branch whose blocks pass grows by at most the subsidies in between plus the regenerated fees |
| `Issuance.TotalLive` | src/main.h:1126-1132 | the total depends on the unspent outputs only |
| `Issuance.SupplyBounded` | src/main.cpp:1294-1334 | the same bound for the coins a node holds at two blocks of its branch, whatever caches and disks they went through |
| `Money.PrefixConnects` | src/main.cpp:2241-2282 | a block that connects and keeps the value rules does so up to each of its transactions |
| `Money.BlockValuesLive` | src/main.cpp:2264 | fees and value rules depend on the unspent outputs only |
| `BlockIndexes.BlockIndex.constructor` | src/main.cpp:2572-2592 | height and accumulated work follow from the parent |
| `CoinsViews.CoinsViewDB.BatchWrite` | src/txdb.cpp:57-67 | the database after a batch: written records replace old ones in their stored form (no negative versions), completely spent ones are erased |
| `CoinsViews.OverlaySameLive` | src/txdb.cpp:13-18 | erasing instead of writing spent records makes no difference to the unspent outputs; only negative versions change, and no height does |
| `CoinsViews.CoinsViewCache.Over` | src/main.cpp:258-260 | a new layer shows what the layer below shows |
| `CoinsViews.CoinsViewCache.GetCoins` | src/main.cpp:262-292 | reads the flat map that the whole stack stands for; read-through caching changes nothing a later read can see, in this layer or below |
| `CoinsViews.CoinsViewCache.HaveCoins` | src/main.cpp:299-301 | membership in that map |
| `CoinsViews.CoinsViewCache.SetCoins` | src/main.cpp:294-297 | a write is a map update seen from here and nothing below |
| `CoinsViews.CoinsViewCache.GetBestBlock` | src/main.cpp:303-307 | the tip of the stack |
| `CoinsViews.CoinsViewCache.SetBestBlock` | src/main.cpp:309-312 | sets the tip seen from here |
| `CoinsViews.CoinsViewCache.BatchWrite` | src/main.cpp:314-321 | takes over the records of the layer above |
| `CoinsViews.CoinsViewCache.Flush` | src/main.cpp:323-328 | moves everything one layer down; over another cache every lookup from here stays the same, over the database every lookup of unspent outputs does but for negative versions |
| `CoinsViews.CoinsViewCache.SetBackend` | src/main.cpp:247-249 | with another backend, records fetched before keep their value and the others are those of the new backend |
| `CoinsViews.CoinsViewCache.DropBackend` | src/main.cpp:900-930 | with the empty backend exactly the records fetched before remain |
| `Connecting.CheckTransaction` | src/main.cpp:606-663 | accepts exactly the transactions that satisfy `TxOk` |
| `Connecting.TxOkIff` | src/main.cpp:606-663 | what it decides in plain numbers: which values, sums, scripts and null inputs are admitted; the running sums add nothing to the total |
| `Connecting.CheckBlock` | src/main.cpp:2761-2810 | accepts exactly the blocks that satisfy `BlockOk`: coinbase first and only first, every transaction in order, no txid twice |
| `Connecting.HaveInputs` | src/main.cpp:1698-1716 | all inputs unspent in the view, which is left unchanged |
| `Connecting.CheckInputValues` | src/main.cpp:1749-1804 | accepts exactly when all input values and running sums are in range and no more is paid out than in; returns the sum |
| `Connecting.UpdateCoins` | src/main.cpp:1682-1696 | moves the view by exactly `ApplyTx`, whose meaning is `Ledger.ApplyTxLaw`, and returns its undo record |
| `Connecting.CheckOverwrite` | src/main.cpp:2209-2218 | the BIP30 rule on the view |
| `Connecting.ConnectTx` | src/main.cpp:2249-2278 | one transaction of the loop: accepted exactly when its inputs are unspent and its values in order |
| `Connecting.ConnectTransactions` | src/main.cpp:2241-2282 | the loop: succeeds exactly when all transactions connect and keep the value rules; view, undo records and fees are those of the specification |
| `Connecting.ConnectBlock` | src/main.cpp:2177-2368 | succeeds exactly when CheckBlock, the checks outside the model and the coin and value rules pass; then the view has moved by `Connect`, undo data written earlier is kept and otherwise the new one stored in its disk form |
| `Connecting.AcceptableIff` | src/main.cpp:2287-2303 | from height 1660 a block that connects with its values in order is acceptable if and only if the total unspent value grows by no more than the subsidy plus, from 17000 or on test networks, the regenerated fees; from 1501 to 1659 if and only if the coinbase pays at most nine times subsidy, fees and regenerated fees; up to 1500 always |
| `Connecting.AcceptableLive` | src/main.cpp:2211-2303 | whether a block is acceptable depends on the unspent outputs only, and not on negative versions |
| `Connecting.RestoreInputs` | src/main.cpp:2085-2131 | the loop over the inputs is `UndoInputs` |
| `Connecting.RestoreInput` | src/main.cpp:2094-2129 | one input: the record written back and the warnings |
| `Connecting.RemoveOutputs` | src/main.cpp:2049-2071 | the comparison of the created outputs, both ways, and their removal |
| `Connecting.DisconnectTx` | src/main.cpp:2045-2131 | one transaction of the loop; undo data of the wrong shape is an error |
| `Connecting.DisconnectBlock` | src/main.cpp:2027-2143 | is `Disconnect` with the stored undo data, fails without it, and moves the tip to the parent |
| `Chain.ConnectAt` | src/main.cpp:2431-2452 | connecting the next block on any state with the unspent outputs of its branch gives those of the longer branch, and the undo records that belong to it, but for negative versions |
| `Chain.DisconnectAt` | src/main.cpp:2408-2429 | disconnecting the last block with the stored undo records that belong to it gives the unspent outputs of the parent branch; clean if and only if the records of its transactions without outputs are still there |
| `Chain.ReplayDead` | src/main.cpp:2241-2282 | a transaction without outputs never comes to life along a branch as long as the record under its id is its own |
| `Chain.CachedKept` | src/main.cpp:2049-2071 | whether an earlier block rolls back cleanly does not change when a later one is rolled back |
| `Chain.ReplayWellFormed` | src/main.cpp:2241-2282 | replaying a branch from genesis gives canonical records only |
| `Chain.FindFork` | src/main.cpp:2374-2386 | the loop ends with the last common ancestor of tip and new block |
| `Chain.CollectPath` | src/main.cpp:2388-2398 | the list of blocks from a tip down to the fork |
| `Chain.ReversePath` | src/main.cpp:2394-2399 | reversed, that list is a path up from the fork |
| `Chain.PathUpAncestors` | src/main.cpp:2394-2399 | it holds exactly the ancestors of the tip above the fork |
| `Chain.DisconnectAll` | src/main.cpp:2408-2429 | the view ends at the fork with its unspent outputs; it succeeds if and only if, before the first step, the coins held the dead records of every listed block |
| `Chain.DisconnectOne` | src/main.cpp:2408-2418 | one block: clean if and only if its dead records are there; the verdict on all later steps stays what it was |
| `Chain.ConnectOne` | src/main.cpp:2433-2445 | connects exactly the blocks that pass on the replayed coins of their branch and keeps all stored undo data right |
| `Chain.ConnectAll` | src/main.cpp:2431-2452 | succeeds exactly when all blocks pass, else names one that does not |
| `Chain.SwitchBranch` | src/main.cpp:2408-2452 | both loops on one view; if it succeeds nothing was in the way, if it fails something was: a lost dead record or a named block that does not pass |
| `Chain.MoveLinks` | src/main.cpp:2485-2493 | the two loops over pnext turn right links for the old tip into right links for the new one |
| `Chain.NextBack` | src/main.cpp:2485-2493 | moving the tip by one block changes one link |
| `ChainStates.ChainState.SetBestChain` | src/main.cpp:2369-2521 | succeeds if and only if every block that joins passes and the coins hold the dead records of every block that leaves; on success tip and unspent outputs are those of replaying the new branch from genesis, exactly if nothing unspent has a negative version, and after a flush only then; on failure coins, tip and links are as before |
| `ChainStates.ChainState.SwitchCoins` | src/main.cpp:2369-2480 | the coin work in its own cache, with undo data and flushed records in their disk form: written back only when everything succeeded |
| `ChainStates.ExactIff` | src/main.h:1043-1044 | the coins at a block are exact if nothing unspent has a negative version, and once they are on disk only then |
| `ChainStates.ChainState.PlanSwitch` | src/main.cpp:2374-2399 | fork, list to disconnect and list to connect |
| `ChainStates.ChainState.MoveTip` | src/main.cpp:2482-2521 | the links lead from genesis to the new tip and nowhere else |
| `ChainStates.ChainState.RecordFailure` | src/main.cpp:2438-2445 | exactly the block that failed to connect is marked and leaves the candidates, if its failure left a verdict; it is never on the active chain |
| `ChainStates.ChainState.InvalidBlockFound` | src/main.cpp:1533-1542 | marks the block and removes it from the candidates |
| `ChainStates.UpJoins` | src/main.cpp:2394-2399 | the blocks to connect are exactly those on the new branch and not on the old |
| `ChainStates.DownJoins` | src/main.cpp:2388-2392 | the blocks to disconnect are exactly those on the old branch and not on the new |
| `ChainStates.InMainChainIff` | src/main.h:1847-1850 | IsInMainChain holds exactly for the tip and its ancestors |
| `ChainStates.ChainState.FindBlockByHeight` | src/main.cpp:1251-1268 | terminates and returns the only main-chain block at that height, whatever answer was remembered |
| `ChainStates.ChainState.AddToBlockIndex` | src/main.cpp:2562-2593 | a new hash becomes an entry under its parent and a candidate; a known hash is refused |
| `ChainStates.ChainState.BestCandidate` | src/main.h:1910-1921 | a candidate with most work, and of those the one with the smallest hash |
| `ChainStates.ChainState.CheckAncestry` | src/main.cpp:1598-1632 | either a failed ancestor, or exactly the ancestors with more work than the tip, most work first, none of them failed |
| `ChainStates.ChainState.MarkFailed` | src/main.cpp:1602-1613 | exactly the blocks from above the failed one up to the candidate are marked and leave the candidates |
| `ChainStates.ChainState.ConnectBestBlock` | src/main.cpp:1581-1635 | terminates; each new tip has more work than the one before; on success no candidate has more work than the tip |
| `ChainStates.ChainState.Attach` | src/main.cpp:1619-1631 | switches to the listed blocks in order |
| `ChainStates.ChainState.Run` | src/main.cpp:2369-2521 | after any sequence of SetBestChain calls, successful or not, the unspent outputs are those of replaying the tip's branch from genesis, that is, those its blocks made and did not spend: amounts, scripts, heights and coinbase flags exactly, versions exactly unless negative |
| `Locators.Set` | src/main.h:2101-2116 | lists the ancestors at the distances `Back(0)`, `Back(1)`, ... as far as the chain reaches, then genesis |
| `Locators.BackClosed` | src/main.h:2104-2113 | the distances: one by one up to 11, then 9 plus powers of two |
| `Locators.LocatorShort` | src/main.h:2101-2116 | beyond a dozen entries each further entry doubles the height covered |
| `Locators.GetBlockIndex` | src/main.h:2139-2153 | the first listed block that is in the receiver's main chain, else genesis |
| `Locators.OnMainIff` | src/main.h:2144-2149 | what that test decides, in terms of the receiver's tip |
| `Locators.LocatorFinds` | src/main.h:2101-2153 | if the chains part f blocks below the sender's tip, the block found is common and between f and 2f below that tip |
| `MemPools.TxMemPool.AddUnchecked` | src/main.cpp:1060-1070 | adds the transaction and keeps the spend index exact |
| `MemPools.TxMemPool.Accept` | src/main.cpp:862-894 | refuses exactly known ids and conflicts (and what other checks refuse) |
| `MemPools.TxMemPool.Remove` | src/main.cpp:1073-1094 | recursively: exactly the transaction and everything in the pool that depends on it goes; otherwise exactly the transaction; it terminates on acyclic dependencies |
| `MemPools.TxMemPool.RemoveConflicts` | src/main.cpp:1096-1109 | exactly what depends on a rival goes, a rival being a pool transaction that spends an output the transaction spends and differs from it in version, inputs, outputs or lock time; whoever is left and spends such an output agrees with it in all four |
| `MemPools.TxMemPool.RemoveOne` | src/main.cpp:1086-1091 | takes the transaction and its index entries out |
| `MemPools.OneSpender` | src/main.h:2187-2195 | an exact index has one spender per outpoint |
| `MemPools.DependsTrans` | src/main.cpp:1078-1084 | dependency is transitive |
| `MemPools.GoneAll` | src/main.cpp:1078-1084 | a transaction depends on the root exactly if it is the root or depends on a spender of one of its outputs |
| `MemPools.LeftAdd` | src/main.cpp:1078-1084 | removing dependants one after the other removes the union |
| `MemPools.Leftover` | src/main.h:672-678 | such a one differs in the data field only; if ids are determined by contents, it is the transaction itself or has other data |
| `MemPools.ConflictsAreRivals` | src/main.cpp:1099-1106 | what the loop over the inputs finds are the rivals |
| `CheckQueues.CheckQueue.Add` | src/checkqueue.h:135-147 | appends the checks, counts them as to do, and notifies nobody, one worker or all workers |
| `CheckQueues.CheckQueue.LoopSection` | src/checkqueue.h:68-111 | one critical section of Loop is `Section` on the shared fields |
| `CheckQueues.CheckQueue.TakeBatch` | src/checkqueue.h:101-108 | the batch is the back of the queue |
| `CheckQueues.BatchSize` | src/checkqueue.h:101 | between one and the length of the queue, so no pop hits an empty queue, and at most max(1, nBatchSize) |
| `CheckQueues.FairShare` | src/checkqueue.h:96-101 | the largest number within nBatchSize and an equal share of the queue among all threads and one more, but at least one |
| `CheckQueues.EveryBatchBounded` | src/checkqueue.h:96-101 | in every state of every run no batch exceeds max(1, nBatchSize) |
| `CheckQueues.StepKeepsInv` | src/checkqueue.h:61-147 | every step of every thread keeps the invariant |
| `CheckQueues.EveryRun` | src/checkqueue.h:61-147 | for any number of workers and any interleaving: counters exact, each Wait returned exactly the conjunction of the checks added since the Wait before it, and the rounds partition the added checks in order |
| `CheckQueues.ControlAssertionsHold` | src/checkqueue.h:164-171 | the assertions of the controller hold whenever nothing was added since the last Wait |
| `CheckQueues.BusyThreads` | src/checkqueue.h:69-111 | nTotal - nIdle is the number of threads that hold a batch |
| `CheckQueues.SleepingMasterHasWorker` | src/checkqueue.h:82-95 | a master that sleeps un-notified has a worker that still holds a batch |
| `CheckQueues.LastWorkerSignals` | src/checkqueue.h:71-76 | the worker that reports the last check notifies the master |
| `CheckQueues.SectionEnabled` | src/checkqueue.h:101 | a thread outside a critical section can always enter one; the divisor is positive |
| `CheckQueues.CanProceed` | src/checkqueue.h:61-122 | while Wait runs some thread can take a step that is not an idle wake-up: no deadlock |
| `CheckQueues.StepEffort` | src/checkqueue.h:61-122 | every such step of any thread lets Wait return or uses up effort |
| `CheckQueues.WaitReturns` | src/checkqueue.h:129-132 | from every reachable state with a waiting master, under every schedule and whichever workers sleep through their notifications, Wait has returned after at most `Effort` + 1 such steps |
| `Merkle.BuildMerkleTree` | src/main.h:1462-1481 | the array holds all rows; the root is the last node, zero for an empty block |
| `Merkle.AppendRow` | src/main.h:1472-1477 | one row from the row below, the last node paired with itself if it is alone |
| `Merkle.WidthClosed` | src/main.h:1287-1289 | CalcTreeWidth is the size of the row at that height |
| `Merkle.CalcHashIsRow` | src/main.cpp:3057-3073 | a node computed from above is the node of the row built from below |
| `Merkle.CalcHeight` | src/main.cpp:3136-3139 | the height loop stops at the first row of width one |
| `Merkle.CalcHashIsRoot` | src/main.cpp:3057-3073 | at the top it is the root of BuildMerkleTree |
| `MerkleBranches.GetMerkleBranch` | src/main.h:1489-1503 | the siblings on the way up |
| `MerkleBranches.CheckMerkleBranch` | src/main.h:1505-1518 | hashes along the branch; the index -1 gives zero |
| `MerkleBranches.BranchLeadsToRoot` | src/main.h:1489-1518 | the branch of every transaction leads back to the block's root |
| `MerkleBranches.BranchInjective` | src/main.h:1505-1518 | for fixed index and length, two ways to the same root are the same leaf and branch or show two different pairs with the same hash at a level of the branches |
| `PartialMerkle.EncodeBounds` | src/main.cpp:3075-3093 | at most one hash per leaf below a node, at most one plus height per selected leaf |
| `PartialMerkle.DecodeEncode` | src/main.cpp:3075-3127 | decoding an encoded node gives its hash, its selected txids in order, and uses exactly its bits and hashes |
| `PartialMerkle.LeavesInOrder` | src/main.cpp:3095-3127 | reported leaves lie below the node, in increasing order |
| `PartialMerkle.DecodeSound` | src/main.cpp:3095-3127 | a node decoded with its true hash reports only true txids, or a node that was descended into shows two different pairs with the same hash |
| `PartialTrees.Pack` | src/main.h:1316-1318 | bits to bytes |
| `PartialTrees.Unpack` | src/main.h:1311-1313 | bytes to bits |
| `Bits.MaskCounts` | src/main.h:1311-1318 | bit i of a byte counts 2^i |
| `PartialTrees.SendBits` | src/main.h:1304-1321 | after the way through bytes the bits are the same up to padding |
| `PartialTrees.PartialMerkleTree.constructor` | src/main.cpp:3129-3143 | builds the encoding of the root |
| `PartialTrees.PartialMerkleTree.TraverseAndBuild` | src/main.cpp:3075-3093 | appends the encoding of a node |
| `PartialTrees.PartialMerkleTree.TraverseAndExtract` | src/main.cpp:3095-3127 | is `Decode`, with the counters and the bad flag |
| `PartialTrees.PartialMerkleTree.ExtractMatches` | src/main.cpp:3149-3181 | succeeds exactly when all its tests pass, and then returns root and matches of `Decode` |
| `PartialTrees.ParentOfMatch` | src/main.cpp:3077-3081 | the loop finds out whether a selected leaf lies below |
| `PartialTrees.ExtractBuilt` | src/main.cpp:3057-3181 | for every block within the size limit and every mask: the built tree, also after packing to bytes, is accepted with the root of BuildMerkleTree and exactly the matched txids in order; both bounds on the hash count |
| `PartialTrees.ExtractSound` | src/main.cpp:3095-3181 | with the true count, whatever is accepted with the true root yields only txids of the block, at increasing positions, or exhibits a hash collision at a node of the tree |
| `AuxPows.Search` | src/auxpow.cpp:45-49 | the first occurrence of a pattern |
| `AuxPows.Check` | src/auxpow.cpp:20-105 | accepts exactly the proofs that satisfy `Accepted`; what that admits is `AuxPowSlots.AssembledAccepted` and what it excludes `SameWorkSameBlock` |
| `AuxPows.SameWorkSameBlock` | src/auxpow.cpp:42-102 | two accepted proofs with the same parent coinbase script and chain id are at the same slot and prove the same block by the same branch, or exhibit two different pairs with the same hash at a level of their branches |
| `AuxPows.OccursIff` | src/auxpow.cpp:45-49 | an occurrence is a place where the pattern can be cut out |
| `AuxPowSlots.SlotClosed` | src/auxpow.cpp:96-101 | for trees up to 2^30 the 32-bit wrap-arounds do not change the slot |
| `AuxPowSlots.SameSlotIff` | src/auxpow.cpp:96-101 | two chains share a slot if and only if factor times nonce plus id agree modulo the size |
| `AuxPowSlots.ClashIff` | src/auxpow.cpp:96-101 | with one nonce: if and only if their ids agree modulo the size |
| `AuxPowSlots.SameNonceIff` | src/auxpow.cpp:96-101 | a chain gets the same slot again exactly for nonces that agree modulo the size |
| `AuxPowSlots.KnownSlots` | src/auxpow.cpp:96-101 | the slots for some nonces, ids and sizes |
| `AuxPowSlots.AssembledAccepted` | src/auxpow.cpp:20-105 | a proof assembled from a tree of chains with the block in its slot, committed in the script in the documented layout, over a parent block, is accepted if and only if the parent is another chain (or on a test network) and the script does not hold the header elsewhere or the root earlier |
| `AuxPowSlots.CheckAssembled` | src/auxpow.cpp:20-105 | the same for the code |
| `AddrTables.SwapKeepsChecked` | src/addrman.cpp:106-124 | SwapRandom keeps everything Check_ tests |
| `AddrTables.SwapRandomOk` | src/addrman.cpp:106-124 | it keeps vRandom and nRandomPos inverse and vRandom a permutation |
| `AddrTables.CreatedChecked` | src/addrman.cpp:94-104 | a new entry keeps it, with one reference announced |
| `AddrTables.InsertChecked` | src/addrman.cpp:361-367 | putting the announced entry into a bucket with room makes the counts exact again |
| `AddrTables.RemoveChecked` | src/addrman.cpp:160-172 | taking an entry out of a bucket, and deleting it with its last reference, keeps it |
| `AddrTables.RemoveFrame` | src/addrman.cpp:160-172 | nothing else is touched |
| `AddrTables.PromoteChecked` | src/addrman.cpp:204-229 | moving an entry to a tried bucket with room keeps it |
| `AddrTables.ExchangeChecked` | src/addrman.cpp:231-259 | replacing a tried entry, which goes back to a new bucket, keeps it |
| `AddrTables.MadeTriedChecked` | src/addrman.cpp:204-260 | both cases, including that the bucket the entry came from has room |
| `AddrTables.ReferredFrame` | src/addrman.cpp:359-369 | one more reference makes at most one other address unknown and touches no tried entry |
| `AddrTables.Bounded` | src/addrman.h:96-132 | however many addresses are announced, at most 64*64 + 256*64 are kept |
| `AddrMans.AddrMan.constructor` | src/addrman.h:382-390 | an empty manager is in order |
| `AddrMans.AddrMan.Find` | src/addrman.cpp:81-92 | finds exactly the known addresses |
| `AddrMans.AddrMan.Create` | src/addrman.cpp:94-104 | the five tables after a new entry |
| `AddrMans.AddrMan.SwapRandom` | src/addrman.cpp:106-124 | the swap on vRandom and the positions |
| `AddrMans.AddrMan.SelectTried` | src/addrman.cpp:126-148 | reorders one bucket and returns a position in it |
| `AddrMans.AddrMan.ShrinkNew` | src/addrman.cpp:150-202 | exactly one member leaves the bucket: the first terrible one, or, if none is terrible, the oldest of at most four; one seen during thirty days, not dated ahead and with fewer than three attempts never leaves as terrible |
| `AddrMans.AddrMan.PickOldest` | src/addrman.cpp:175-189 | the one last seen longest ago among at most four picks |
| `AddrMans.AddrMan.FirstTerrible` | src/addrman.cpp:155-161 | the first terrible member in id order |
| `AddrMans.TerribleIff` | src/addrman.cpp:40-58 | which entries count as terrible, in seconds and attempts |
| `AddrMans.AddrMan.ClearNew` | src/addrman.cpp:208-216 | takes an entry out of all new buckets, its count reaching exactly zero |
| `AddrMans.AddrMan.MakeTried` | src/addrman.cpp:204-260 | the entry is in its tried bucket; from a full bucket one entry went to its own new bucket if there was room, else to the one the entry came from |
| `AddrMans.AddrMan.Evict` | src/addrman.cpp:231-259 | the replacing half of it |
| `AddrMans.AddrMan.FindNewBucket` | src/addrman.cpp:289-301 | the search from a random start finds a bucket with the entry if there is one |
| `AddrMans.AddrMan.Good` | src/addrman.cpp:262-311 | unknown address or other port: nothing changes; else statistics reset and entry tried; the tables stay in order if and only if the time is positive (or nothing matched) |
| `AddrMans.GoodIff` | src/addrman.cpp:262-311 | that condition, on the tables |
| `AddrMans.GoodKeepsAddresses` | src/addrman.cpp:262-311 | no address becomes unknown; at most one entry loses its tried status, and only from a full bucket |
| `AddrMans.AddrMan.Refer` | src/addrman.cpp:359-367 | one more reference in a bucket, making room if it is full |
| `AddrMans.AddrMan.Lottery` | src/addrman.cpp:346-351 | one draw out of 2^n wins for an entry with n references |
| `AddrMans.AddrMan.Add` | src/addrman.cpp:313-369 | reports new exactly for routable unknown addresses; refreshes known ones and perhaps references them once more, but only a newer announcement of an entry that is not tried and has fewer than four references; what becomes of the entry is `AddrNews.Reannounced` and `Entered` |
| `AddrMans.AddKeepsTried` | src/addrman.cpp:313-369 | the address is known afterwards, at most one other address is lost, no tried entry is touched |
| `AddrNews.Reannounced` | src/addrman.cpp:322-333 | a known entry's time is never set back nor beyond the announced one; an announcement newer by more than an hour (a day, if not online lately) plus the penalty is taken over less the penalty, any other leaves the time; services are the union; nothing else changes |
| `AddrNews.Entered` | src/addrman.cpp:353-367 | an unknown address is entered as announced, its time less the penalty, new, with one reference, in the bucket of its source |
| `AddrNews.Succeeds` | src/addrman.cpp:262-311 | a success sets last success, last try and time, clears the attempts and changes nothing else about the entry |
| `AddrGroups.RangeBounded` | src/addrman.h:96-132 | one address range never holds more than 256 of the 4096 tried places |
| `AddrGroups.AddTouches` | src/addrman.cpp:359-367 | an announcement touches no new bucket outside those its source can reach |
| `AddrGroups.FloodContained` | src/addrman.h:96-132 | whatever sources of one range announce, at most 32 of the 256 new buckets are affected and the tried table is not |
| `AddrMans.AddrMan.Attempt` | src/addrman.cpp:371-388 | one entry's statistics change; in order if and only if the time is not negative (or nothing matched) |
| `AddrMans.AddrMan.Connected` | src/addrman.cpp:510-528 | one entry's time is refreshed if it is more than 20 minutes old |
| `AddrMans.AddrMan.GetAddr` | src/addrman.cpp:494-508 | as many different entries as 23 % and 2500 allow, and no fewer; only the order of vRandom changes |
| `AddrMans.Run` | src/addrman.cpp:94-388 | every run from an empty manager keeps all conditions of Check_ and the size bound |
| `AddrChecks.Check` | src/addrman.cpp:435-491 | Check_ returns 0 exactly for tables that satisfy `Passes` |
| `AddrChecks.StrikeTried` | src/addrman.cpp:466-474 | nothing is left over exactly if the tried buckets list the tried ids, each once |
| `AddrChecks.CountNew` | src/addrman.cpp:476-485 | nothing is left over exactly if every new id is in as many buckets as its count says |
| `AddrChecks.CheckedPasses` | src/addrman.cpp:435-491 | what the operations keep is enough for Check_ |
| `AddrChecks.GoodPassesIff` | src/addrman.cpp:262-311 | after Good_ Check_ is satisfied if and only if the time is positive |
| `AddrChecks.AttemptPassesIff` | src/addrman.cpp:371-388 | after Attempt_ Check_ is satisfied if and only if the time is not negative |
| `AddrChecks.SuccessAtTimeZero` | src/addrman.cpp:262-311 | a run after which Check_ complains: one announcement, then a success at time 0 |
| `AddrChecks.RunThenCheck` | src/addrman.cpp:435-491 | after any run Check_ returns 0 |
| `AddrFiles.Serialize` | src/addrman.h:271-317 | the stream has the documented layout; new entries first, then tried ones, buckets by new numbers |
| `AddrFiles.WriteNew` | src/addrman.h:283-295 | numbers and writes all new entries, stopping early only when all are written |
| `AddrFiles.WriteTried` | src/addrman.h:296-306 | writes all tried entries |
| `AddrFiles.WriteRow` | src/addrman.h:309-316 | the members of a bucket under their new numbers |
| `AddrFiles.TriedRoom` | src/addrman.h:346-347 | a tried bucket never fills up while its former members are read back |
| `AddrFiles.ReadNew` | src/addrman.h:327-339 | rebuilds the new entries |
| `AddrFiles.ReadTried` | src/addrman.h:341-359 | rebuilds the tried entries; from a genuine file none is lost |
| `AddrFiles.ReadBuckets` | src/addrman.h:361-377 | rebuilds the new buckets and reference counts |
| `AddrFiles.RebuiltChecked` | src/addrman.h:318-378 | what was rebuilt satisfies everything Check_ tests |
| `AddrFiles.RebuiltRenumbered` | src/addrman.h:318-378 | it holds the same entries, field by field, status and buckets under new numbers; the last try is forgotten |
| `AddrFiles.Unserialize` | src/addrman.h:271-379 | reading what was written from a manager in order succeeds, loses no entry and gives a manager in order with the same addresses, tried and new status and bucket memberships, up to renumbering |
| `AddrFiles.RoundTrip` | src/addrman.h:248-380 | writing and reading back, together |
| `Amounts.DecompressCompress` | src/main.cpp:5402-5452 | decompressing a compressed amount gives the amount, for all naturals |
| `Amounts.CompressDecompress` | src/main.cpp:5402-5452 | and every natural is the compressed form of some amount: a bijection |
| `Amounts.CompressFits` | src/main.cpp:5402-5427 | codes of amounts up to MAX_MONEY fit into 64 bits |
| `Amounts.CompressAmount` | src/main.cpp:5411-5427 | the loop computes it in 64-bit arithmetic that wraps around, exactly up to MAX_MONEY |
| `Amounts.DecompressAmount` | src/main.cpp:5429-5452 | likewise for the way back, for every 64-bit code |
| `Amounts.WriteVar` | src/serialize.h:273-288 | the two loops write the base-128 form; of a negative number they write one group of its lowest seven bits |
| `Amounts.ReadVarIntFrom` | src/serialize.h:290-303 | the reading loop, on any stream |
| `Amounts.ReadVarInt` | src/serialize.h:273-303 | reading what was written gives the number and leaves the rest of the stream |
| `Amounts.OneForm` | src/serialize.h:273-303 | no number has two forms |
| `Amounts.SizeOfVarInt` | src/serialize.h:260-271 | the size computed is the number of bytes written, also for negative numbers |
| `Formats.KnownAmounts` | src/test/compress_tests.cpp:39-44 | the pairs of the compression tests |
| `Formats.ShortForms` | src/serialize.h:247 | the documented sizes of one, two and three bytes, with the bytes |
| `Formats.KnownVarInts` | src/serialize.h:253-258 | the documented examples, corrected for 16511 and 65535 |
| `CoinFiles.CalcMaskSize` | src/main.h:988-1004 | number of mask bytes without trailing zero bytes, and how many of them are not zero |
| `CoinFiles.FlagByteZero` | src/main.h:991-997 | a mask byte is zero exactly if its eight outputs are spent |
| `CoinFiles.HasOutputIff` | src/main.h:1039 | the assertion in Serialize holds exactly for records with something unspent |
| `CoinFiles.StopsThere` | src/main.h:1073-1084 | the reader has seen all non-zero bytes exactly when it has read all bytes written |
| `CoinFiles.Serialize` | src/main.h:1033-1060 | writes the documented format, for every record with something unspent |
| `CoinFiles.GetSerializeSize` | src/main.h:1010-1031 | equals the number of bytes written |
| `CoinFiles.ReadFlags` | src/main.h:1070-1084 | reads exactly the bytes written and gets every flag |
| `CoinFiles.ReadOuts` | src/main.h:1085-1090 | reads exactly the outputs written, each to its place |
| `CoinFiles.Unserialize` | src/main.h:1062-1094 | reading what was written gives the record without trailing spent outputs, a negative version reduced to seven bits, and uses up the stream |
| `CoinFiles.RoundTrip` | src/main.h:988-1094 | for every unpruned canonical record the round trip gives its stored form, and is exact if and only if the version is not negative |
| `Formats.FirstExample` | src/main.h:903-915 | the first documented record |
| `Formats.SecondExample` | src/main.h:918-935 | the second documented record, a coinbase with two mask bytes |
| `CoinFiles.SerializeUndo` | src/main.h:784-790 | the undo record format |
| `CoinFiles.UnserializeUndo` | src/main.h:792-801 | the round trip is exact but for negative versions and the version of records without height |
| `StoredCoins.ReplayStorable` | src/main.cpp:606-630 | along a branch all outputs, in records and undo data, stay within MAX_MONEY |
| `StoredCoins.CanBeWritten` | src/main.h:1033-1060 | every unspent record a node can hold at a block of its branch, and all undo data of the branch, meet what the formats ask for |
| `StoredCoins.WriteAndRead` | src/main.h:1033-1094 | written to disk and read back, such a record is its stored form, as the database model has it |

## Left out

- Connecting.CheckTransaction: does not model the limits on serialized sizes nor the rules for alias, offer and certificate transactions.
- Connecting.CheckBlock: does not model size limits, proof of work, timestamps, signature operation counts and the comparison of the Merkle root.
- Connecting.CheckInputValues: does not model coinbase maturity, the minimum fee, scripts and the service rules.
- Connecting.ConnectBlock: everything just named is one given outcome per block, `othersPass`; the regenerated service fees are a given number; check-only calls are not modelled; genesis is recognised by having no parent instead of by its hash.
- ChainStates.ChainState.SetBestChain: does not model failing disk reads and writes (a failure to write the coin database after the caches have been merged leaves the new coins in memory), nor the resurrection and removal of pool transactions at its end, nor wallet notifications.
- ChainStates.ChainState.InvalidBlockFound: the reorganisation away from a failed block on the active chain is not modelled, because in every call from SetBestChain the block is off the active chain, which is proved.
- CoinsViews.CoinsViewCache.Flush: a cache without a tip of its own that is flushed into another cache makes that cache forget its tip, as the code does; the tip is therefore only claimed to survive when there is one.
- Connecting.ConnectTx: the same omissions as CheckInputValues, for one transaction.
- Connecting.ConnectTransactions: the same omissions, over the loop; signature operations are not counted.
- Chain.ConnectOne: the checks that are not modelled are given by `Rules`: who passes them, and whose failure leaves no verdict.
- MemPools.TxMemPool.Accept: all checks that do not concern the pool itself are one given outcome, `othersPass`.
- CheckQueues.StepKeepsInv: fQuit stays false, as nothing in the code sets it.
- CheckQueues.WaitReturns: idle wake-ups are not counted as steps; nothing is said about how often they happen.
- CoinFiles.Serialize: the script compressor is one token.
- AddrMans.AddrMan.SelectTried: claims only that the position is in range, because the code records the position before its swap and so does not always return the least recently tried of the inspected entries.
- AddrMans.AddrMan.Add: the 32-bit width of times is not modelled.
- AddrFiles.Unserialize: files written with another number of buckets are read as the code does but nothing is proved about the result.
- AddrChecks.Check: the lookup of a missing address in Check_ also inserts it; only the value it reads is modelled.
- CoinFiles.UnserializeUndo: for records without height the version reads as 0.
- PartialTrees.PartialMerkleTree.ExtractMatches: a refused tree gives no root instead of zero; the 32-bit overflow of tree widths for counts above the size limit is not modelled.
- Coin records are values in the maps of the views; the references into a cache that GetCoins hands out are modelled as reading and writing back.
- The remark that flag bits number at most twice the leaves minus one is false for nodes with one child and is not claimed.
- Hashes, scrypt, signatures, encryption, script evaluation and difficulty are outside the model, as are disk formats other than the two modelled, sockets, remote calls, wallets and start-up.
- The alias, offer and certificate indexes written while connecting and disconnecting go to databases of their own and are not exact inverses of each other.
- Select_, GetChance and the ordering of transactions for a new block work with floating point and random retries; limitedmap does not keep its limit after resizing.
