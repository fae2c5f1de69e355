# Chain state, address manager and peer channel of a proof-of-stake node

A Dafny model of the core of a Bitcoin/PPCoin-lineage node, with proofs of what its operations keep, undo and
promise over whole runs. Objects that the node changes in place are classes whose methods change fields (`CTxDB`,
`CBlockIndex`, `CChainState`, `CAddrMan`, `CNode`, `CNetMessage`, `CBlock`, `CLockOrder`, `COrphanPool`,
`CBlockLocator`, `CScript`); each method is proved against a function of the old state, and the promises are proved
about those functions and as invariants.

`dafny verify dfyconfig.toml` checks everything.

| files | part of the node |
|---|---|
| Transactions, Ledger, TxDb, ConnectInputs, CoinAge, ConnectBlock | the transaction index and what connecting and disconnecting a block does to it |
| Freshness, Supply, Rewards, BlockRules | why transaction ids never return; what blocks mint and burn; when the reward tests do what they are meant to; the rules of a block in full |
| BlockIndex, BlockTree, Targets, ChainIndex, ChainState | the block tree and best-chain switching |
| PostponedRun, RewardRun, SmallChain, Injective | two runs in which switching goes wrong, and the small chains they are made of |
| AddrState, AddrOps, AddrRuns, AddrFields, AddrMan, AddrCheck, AddrDisk, AddrFormat | the address manager, its self-check and its file format |
| Channel, Net | message framing, partial sends and reassembly between two peers |
| Merkle | the flat Merkle tree and its branches |
| Assembly, Miner, MinerRules | block assembly |
| Kernel, Difficulty | stake modifier selection; compact targets, retargeting and trust |
| Sync | the lock-order detector |
| Orphans, Locator | the orphan block pool; block locators |
| BigNum, Script, Base58, Basics | number and script codecs; shared notions |

Main results:

- *Replay.* In every valid chain state the stored index is the replay of the best chain (`StoredIsReplay`), because
  disconnecting a block inverts connecting it exactly when its ids were new (`UndoInvertsApplyBlock`), and they always
  are (`BlockIsFresh`). `AcceptBlock` is characterised completely: which blocks enter the tree, when it succeeds, when
  the state stays valid.
- *Supply.* The unspent outputs of the index add up to the tip's money supply plus all burned coins
  (`SupplyConserved`), and a connected stake block raises the money supply by no more than its coin-age subsidy less
  what it burns (`StakeRaisesSupply`).
- *Address manager.* Every sequence of calls keeps the six tables consistent (`AddrRuns.Run`, `RunCheck`); saving and
  loading loses nothing but the last-try times and the random order (`SavedTrip`).
- *Channel.* Whatever the schedule of pushes, partial writes and receive chunks, what arrives is a prefix of what was
  pushed, message by message (`RunDelivers`).
- *Assembly.* What `CreateNewBlock` picks passes `ConnectBlock` (`CreatedBlockConnects`, `StakedBlockConnects`), and is
  picked in order of what it pays for its size (`SelectTransactions`).

The methods are proved against specification functions, and what those functions amount to is stated on the inputs
themselves: conditions field by field (`ConnectableMeans`, `BlockConnectsMeans`, `AcceptableMeans`, `AssembledMeans`,
`AddedIs`, `HeardIs`, `SavedLayout`) and quantities in numbers (`NextTargetExact`, `CoinAgeHeld`, `IssuedIs`,
`StakeSubsidyExact`, `TrustExact`, `SectionExact`).

## Findings

Where the code does not meet the property one would expect, the code is kept as it is, and a theorem gives the exact
condition under which the property holds.

- A postponed block that fails to connect only ends the loop, and the tip moves past it all the same
  (src/main.cpp:1832-1863). The state is valid afterwards exactly when every postponed block connects
  (`CChainState.SetBestChain`, `CChainState.AcceptBlock`); `PostponedRun.Run` is a run from the genesis block in which
  one refused write is enough to end with an invalid state.
- A block whose own index record the database refuses stays in the block tree although `AcceptBlock` fails
  (`CChainState.AddToBlockIndex`).
- Disconnecting a block erases, and does not restore, a fully spent record that the block had overwritten
  (`Ledger.OverwrittenIsErased` is an instance); it restores the index exactly when no id was in it
  (`Ledger.UndoInvertsApplyBlock`). In a valid state no block that is checked can overwrite a record
  (`Freshness.BlockIsFresh`).
- The reward of a proof-of-work block is judged by the height of the best block, not by its own. The test agrees with
  one by its own height, for all blocks and fees, exactly when both heights lie in the same subsidy band
  (`Rewards.RewardByOwnHeight`), and for one block exactly when what it takes beyond its fees is not between the two
  subsidies (`Rewards.RewardDiffers`). A block at height 60 that takes its 25 coins connects while the best height is
  59 and not once it is 100 (`RewardRun.OldHeightRefused`); `RewardRun.Run` is a run from the genesis block, without any
  failing read or write, in which a chain with more trust is refused for this reason.
- The stake reward is compared as an unsigned number, so within 64 bits it passes exactly when it is not negative, not
  above the limit and has paid the fund (`Rewards.StakeRewardPasses`): a coinstake that gives up one unit is refused
  (`Rewards.NegativeRewardRefused`).
- `Good_` keeps the author's `Check_` passing exactly when the address is unknown or the time is positive
  (`AddrOps.GoodCheck`); `Attempt_` exactly when it is unknown or the time is not negative (`AddrRuns.AttemptCheck`).
- `Add_` reports an unknown address as added whether or not it was stored; it is stored exactly when
  `AddrRuns.AddUnknown` says so, and `AddrRuns.ReportedYetUnknown` is an instance where it is not.
- `Check_` is not complete: looking up an address enters it with id 0, so it accepts a state in which the address of
  entry 0 was forgotten (`AddrCheck.ForgottenPasses`). `AddrCheck.TestsMean` says exactly what it misses.
- `Clear` keeps the entries and the addresses, so the result is consistent exactly when there were none
  (`AddrDisk.ClearConsistent`).
- The receiver gives up at the header of a message longer than the limit, which the sender never checks
  (`Channel.CutFails`, `Channel.RunDelivers`; `Channel.OversizeRefused` is a run in which it happens).
- Repeating the last transaction of an odd list keeps the Merkle root (`Merkle.RepeatKeepsRoot`), and the nodes of the
  level above have the same root as the transactions (`Merkle.ParentsKeepRoot`): both the no-duplicate test and the
  equal heights in `RootCommitsDistinct` are needed.
- The lock-order detector reports exactly when two locks have been taken in both orders (`Sync.RecordGood`), so a
  circle of three threads deadlocks unreported (`Sync.CircleUnreported`).

## How the outside is modelled

- Hashes are numbers; where equal hashes must mean equal contents this is the hypothesis `CollisionFree`, and
  `Injective` gives hashes that meet it. Signatures are a predicate, block files a fixed function of the position.
- Failing writes and reads are given by functions of the number of the attempt (`refuses`, `unreadable`); random draws,
  the clock and socket results are parameters.
- Integers are unbounded except where the code's width matters: the money supply, the burned coins and the stake
  reward wrap at 2^64, address times are 32 bits, message sizes four bytes, targets 256 bits.
- Size, clock, proof of work and signature tests of `CheckBlock` are the opaque `headerChecks`; the time, finality,
  checkpoint and stake-kernel tests of `AcceptBlock` the opaque `contextChecks`; the hard-coded fund address is `isFund`.
- The secret key of the address manager is the bucket hash functions it gives. Fees per kilobyte are
  exact reals.

## Model

| member | source | states |
|---|---|---|
| Ledger.UndoInvertsApply | src/main.cpp:1183-1216 | unsetting the spent pointers of a transaction and erasing its record gives back the index from before it was connected, if its id was not in it |
| Ledger.UndoInvertsApplyBlock | src/main.cpp:1448-1470 | disconnecting a connected block, last transaction first, gives back the index exactly when none of its ids was in it, spends inside the block included |
| Ledger.OverwrittenIsErased | src/main.cpp:1183-1216 | an instance: a block that overwrites a fully spent record, and whose disconnection leaves no record where there was one |
| Ledger.CompactSizeIs | src/serialize.h:167-173 | the length of a count in a block file, which the places of transactions rest on: one byte, or a marker and two, four or eight |
| Freshness.BlockIsFresh | src/main.cpp:1472-1657 | a block of the shape that CheckBlock and the height rule of AcceptBlock demand brings ids that are new and distinct, keeps the index well formed one height further, and is undone by disconnecting it |
| Freshness.CoinbaseIsFresh | src/main.cpp:2181-2185 | a coinbase that starts with its height has an id no earlier block can have used |
| TxDb.CTxDB.ReadTxIndex | src/txdb-leveldb.cpp:191-209 | inside a database transaction a read sees the batch, deletions included, on top of what is stored |
| TxDb.CTxDB.TxnCommit | src/txdb-leveldb.cpp:148-159 | all of the batch is stored or nothing, and the transaction is over either way |
| TxDb.CTxDB.UpdateTxIndex | src/txdb-leveldb.cpp:211-214 | a write shows at once and reaches the disk only with the commit |
| TxDb.CTxDB.EraseTxIndex | src/txdb-leveldb.cpp:224-229 | so does a deletion |
| BlockIndex.IsConfirmedInNPrevBlocks | src/main.cpp:1161-1173 | found exactly when the record lies in the block file place of one of the last n blocks, with the depth of that block |
| BlockIndex.ConfirmedOnPath | src/main.cpp:1161-1173 | being confirmed within n blocks means having the block file place of one of the last n blocks on the path |
| ConnectInputs.FetchInputs | src/main.cpp:1219-1288 | succeeds exactly when every input has a record, a transaction and the output; returns those records, proposed changes first, and says which failures are the fault of the transaction |
| ConnectInputs.FoundWhere | src/main.cpp:1231-1269 | a block takes a previous transaction from the changes proposed so far, else from the database, and fails otherwise; a pool transaction takes it from the database, else from the pool, unspent |
| ConnectInputs.CheckInputs | src/main.cpp:1326-1358 | succeeds exactly when every input is mature, not later than the transaction, not empty and in range and the sum is in range, and returns the sum |
| ConnectInputs.SpendInputs | src/main.cpp:1359-1412 | succeeds exactly when every output is unspent when its turn comes and the signatures are in order; on success every signature verifies, but for blocks below the checkpoint |
| ConnectInputs.TakenMeansSpendable | src/main.cpp:1362-1412 | taking outputs one by one succeeds exactly when all are unspent and none occurs twice |
| ConnectInputs.ConnectInputs | src/main.cpp:1317-1445 | succeeds exactly when the transaction is a coinbase or meets every condition; every signature of an accepted one verifies, but for blocks below the checkpoint, where they do not count; marks exactly its inputs as spent and counts exactly what it burns, modulo 2^64 |
| ConnectInputs.ConnectableMeans | src/main.cpp:1326-1432 | the conditions in full: each input names an existing, unspent, mature output, not later, not empty and in range; none twice; signatures but for blocks below the checkpoint; sum in range; fee of at least 10,000 unless a coinstake |
| ConnectInputs.WriteBackIsMarkAll | src/main.cpp:1404-1411 | writing each record to the pending changes after marking one of its outputs amounts to marking all of them in the index |
| ConnectInputs.DisconnectInputs | src/main.cpp:1183-1216 | succeeds exactly when every input is in the index; clears the spent pointers and erases the record |
| CoinAge.GetCoinAge | src/main.cpp:1911-1955 | the sum over the inputs that are stored, old and deep enough, in coin-days by truncating division; fails when an input is later than the coinstake or unreadable |
| CoinAge.CoinAgeHeld | src/main.cpp:1911-1955 | fails exactly for an input later than the coinstake or without a known block time; otherwise the coin-days are value times time held over the inputs that are six hours old and ten blocks deep, divided by a coin-day and rounded down, but for less than a cent-second at each such input after the first |
| CoinAge.OneInputHeld | src/main.cpp:1911-1955 | with one such input the coin-days are value times time held over a coin-day, rounded down, exactly: the low 64 bits of it, and a negative value by its magnitude |
| ConnectBlock.ConnectTxs | src/main.cpp:1502-1563 | passes exactly when each transaction connects to the index left by those before it; the pending changes are then those of the whole block, and the totals its fees, values, burned coins and stake reward |
| ConnectBlock.CheckReward | src/main.cpp:1569-1622 | passes exactly when the coinbase takes no more than subsidy and fees, or the coinstake no more than its coin age allows and the fund has its share |
| ConnectBlock.ConnectBlock | src/main.cpp:1472-1657 | succeeds exactly when the block connects; the index is then that of the chain with the block, the node has the block's minted coins and supply, and from the checkpoint on every signature verifies; a failure changes nothing |
| ConnectBlock.ConnectedIsSigned | src/main.cpp:1375-1402 | from the checkpoint on, every input of every transaction of a block that connects is signed for the output it takes |
| ConnectBlock.UnsignedBelow | src/main.cpp:1375-1378 | below the checkpoint two nodes that differ only in which signatures verify give the same answer |
| BlockRules.BlockConnectsMeans | src/main.cpp:1472-1624 | a block connects exactly when it is good by itself, each transaction in its turn overwrites at most a fully spent record, keeps the signature operations at 20,000 and finds and may take its inputs, and the reward is right |
| BlockRules.TotalsAddUp | src/main.cpp:1502-1563 | the fees are those of the ordinary transactions, and the signature operations those in scripts and in the scripts paid to |
| BlockRules.MintIs | src/main.cpp:1627-1627 | the minted coins are what the coinbase pays and what coinstakes pay beyond their inputs; for a stake block the stake reward alone |
| BlockRules.StakeRewardIs | src/main.cpp:1549-1556 | the stake reward is what the second transaction pays out beyond what it takes |
| BlockRules.CheckBlockMeans | src/main.cpp:2029-2104 | what makes a block good by itself, transaction by transaction |
| BlockRules.CheckTransactionMeans | src/main.cpp:533-581 | and a transaction, output by output and input by input |
| BlockRules.Kinds | src/main.h:271-280 | coinbase and coinstake told apart by their first input and output; no transaction is both |
| BlockRules.BurnedIs | src/main.cpp:1433-1441 | exactly the outputs of an ordinary transaction with the burn opcode as second script byte are burned |
| ConnectBlock.DisconnectBlock | src/main.cpp:1448-1470 | succeeds exactly when every undone input is there, and leaves the index with the transactions undone last first |
| ConnectBlock.ConnectedIsUndoable | src/main.cpp:1448-1470 | after a block whose ids were new, disconnecting it cannot fail |
| ConnectBlock.OverpayingNeverConnects | src/main.cpp:1569-1577 | a block of one coinbase that pays out the maximum amount never connects, whatever the height of the best block |
| Supply.TxsTotal | src/main.cpp:1502-1563 | along a block the unspent outputs change by exactly the value put out less the value taken in, and the burned coins are counted modulo 2^64 |
| Supply.StakeBlockMints | src/main.cpp:1578-1628 | a connected stake block mints its reward less its fees; within 64 bits the reward is not negative and the rise is at most the coin-age subsidy: the fees cancel |
| Supply.StakeRaisesSupply | src/main.cpp:1626-1628 | within 64 bits, after connecting a stake block the money supply of its node is at most its parent's plus the coin-age subsidy less the coins burned |
| Rewards.RewardByOwnHeight | src/main.cpp:1569-1577 | judging proof-of-work rewards by the best height agrees with judging them by the block's own height, for all blocks and fees, exactly when the two heights lie in one subsidy band |
| Rewards.RewardDiffers | src/main.cpp:1569-1577 | for one block the two disagree exactly when what it takes beyond its fees lies above the lower and within the higher subsidy |
| Rewards.StakeRewardPasses | src/main.cpp:1578-1622 | within 64 bits the stake reward passes exactly when it is not negative, at most the coin-age subsidy and the fees, and has paid the fund |
| Rewards.NegativeRewardRefused | src/main.cpp:1587-1590 | a coinstake that pays out one unit less than it takes in is refused, whatever its coin age |
| Rewards.IssuedIs | src/main.cpp:973-994 | what proof of work may issue up to a height: 57 million coins at height 1, then 10, 20, 25 and 1 a block |
| Rewards.StakeSubsidyExact | src/main.cpp:997-1006 | within 64 bits the coin-age subsidy is coin-days times 6,000,000 * 33 / (365 * 33 + 8), rounded down |
| BlockTree.FindFork | src/main.cpp:1663-1675 | the two-pointer walk ends at the highest common ancestor of the two tips |
| BlockTree.CommonBelow | src/main.cpp:1668-1674 | stepping back from the higher of two blocks loses no common ancestor |
| BlockTree.AncestorOnPath | src/main.cpp:1663-1675 | the ancestors of a block are the blocks on the path to it, each at its height |
| BlockTree.ChildExists | src/main.h:976-979 | a node has a next block on the way to a tip exactly when it is a proper ancestor of it, and that block is its child |
| BlockTree.ExtendTip | src/main.cpp:1776-1776 | moving the tip to a child changes the next link of its parent and no other |
| Targets.GetNextTargetRequired | src/main.cpp:1069-1100 | walking back over the tree finds the target that the sequence of earlier blocks requires: t * (840 + 2a) / 1080, rounded down, for the last target t of the kind and the capped spacing a of the last two, or the limit |
| Targets.RequiredRaisesTrust | src/main.cpp:2144-2146 | a block with the required target decodes to a positive number within the limit of its kind and adds trust |
| ChainIndex.TipUndoes | src/main.cpp:1691-1699 | disconnecting the tip of a replayable chain cannot fail and gives the index of its parent |
| ChainIndex.ConnectedBlock | src/main.cpp:1709-1721 | connecting a block to the index of its parent extends the replay, and changes the unspent total by what the block puts out less what it takes in |
| ChainIndex.MintedSupply | src/main.cpp:1626-1628 | the supply kept at a node is its parent's, plus what the block minted, less what it burned, and so the one its chain has |
| ChainIndex.IndexIsReplay | src/main.cpp:1448-1657 | the index of a node is the fold of connecting blocks over the blocks up to it |
| ChainIndex.ConnectsFromMeans | src/main.cpp:1709-1721 | a branch connects exactly when each of its blocks connects to the replay of those before it, all judged by one best height |
| ChainState.CChainState.ConnectGenesis | src/main.cpp:1792-1798 | only the best hash is written for the genesis block: its transactions never enter the index |
| ChainState.CChainState.DisconnectBranch | src/main.cpp:1691-1707 | disconnecting a branch tip first takes the index back to that of the fork, and fails only when a block cannot be read |
| ChainState.CChainState.ConnectBranch | src/main.cpp:1709-1726 | connecting a branch oldest first takes the index on to that of its tip, and fails only when a block cannot be read or does not connect; the supply along the old chain stays as it was |
| ChainState.CChainState.Relink | src/main.cpp:1734-1742 | clearing the links of one branch and setting those of the other leaves exactly the links of the new chain |
| ChainState.CChainState.Reorganize | src/main.cpp:1659-1757 | starts at the highest common ancestor; succeeds with links, supply and stored index of the new chain, and leaves those of the old chain when it fails; without failing reads and writes it succeeds exactly when every block of the branch connects |
| ChainState.CChainState.SetBestChainInner | src/main.cpp:1761-1783 | attaches one block in its own database transaction, exactly when it connects and the commit is not refused; otherwise its parent stays the connected tip |
| ChainState.CChainState.FindIntermediate | src/main.cpp:1806-1819 | finds the lowest block of the new chain that beats the best chain, and the blocks above it, tip first |
| ChainState.CChainState.ConnectPostponed | src/main.cpp:1831-1853 | attaches the postponed blocks until one fails; index and links stand at the last one that was connected, which is the tip exactly when all connect, failing reads and writes apart |
| ChainState.CChainState.SetBestChain | src/main.cpp:1785-1863 | a failure leaves the state valid and the tip in place; without failing reads and writes success means exactly that the branch up to the first block that beats the best chain connects, and the state is valid afterwards exactly when the postponed blocks connect as well |
| ChainState.CChainState.InsertNode | src/main.cpp:1965-1994 | a new leaf with height, trust and parent of its block enters the tree and keeps everything valid |
| ChainState.CChainState.AddToBlockIndex | src/main.cpp:1957-2013 | the node enters the tree even when its record is refused; a block with no more trust than the best chain changes nothing else, one with more becomes best under the conditions of SetBestChain |
| ChainState.CChainState.AcceptBlock | src/main.cpp:2110-2194 | exactly the acceptable blocks enter the tree, each with a target within its limit; success, the new tip and validity are characterised as in SetBestChain |
| ChainState.CChainState.AcceptableMeans | src/main.cpp:2119-2185 | a checked block is acceptable exactly when it is new, its parent is in the tree, its target is the required one, the outside tests pass, and its coinbase starts with the push of its height |
| ChainState.CChainState.IsInMainChain | src/main.h:976-979 | holds exactly for the ancestors of the best block and itself |
| ChainState.CChainState.FindBlockByHeight | src/main.cpp:884-899 | returns the best chain's block at the height, wherever the cached pointer stands |
| ChainState.CChainState.StoredIsReplay | src/main.cpp:1659-1863 | the stored index is the replay of the best chain and the stored best hash is its tip |
| ChainState.CChainState.SupplyConserved | src/main.cpp:1626-1628 | the unspent outputs of the stored index equal the tip's money supply plus all that was burned along the chain, modulo 2^64 |
| ChainState.CChainState.IdsNeverReturn | src/main.cpp:1502-1563 | no transaction id occurs twice along the best chain |
| ChainState.CChainState.OverpaidTip | src/main.cpp:1831-1853 | a branch that ends with an overpaying block never connects |
| PostponedRun.Run | src/main.cpp:1806-1863 | a run from the genesis block on: with one refused write the first block is not accepted, the second is, and the best block's chain is not the one in the index |
| SmallChain.SingleConnects | src/main.cpp:1569-1577 | a new block of one coinbase connects exactly when it takes no more than the subsidy after the best height |
| RewardRun.OldHeightRefused | src/main.cpp:1569-1577 | a block at height 60 that takes the 25 coins of its height connects at best height 59 and not at 100 |
| RewardRun.SideConnects | src/main.cpp:1709-1721 | a branch of one block that connects from the genesis block at best height 0 and not at 1 |
| RewardRun.Run | src/main.cpp:1659-1757 | from the genesis block, without any failing read or write: a chain with more trust, each of whose blocks connects at the best height just below it, is refused, and the shorter chain stays |
| AddrState.RandomSize | src/addrman.h:455-458 | the random order is as long as there are entries, tried and new |
| AddrState.SwapRandomPermutes | src/addrman.cpp:97-115 | swapping only permutes the random order |
| AddrOps.MakeTriedConsistent | src/addrman.cpp:146-192 | moving a new entry to the tried table keeps the tables consistent |
| AddrOps.MakeTriedMoves | src/addrman.cpp:146-192 | the entry sits at its tried slot and nowhere else, the entry it displaced is back at a new slot of its own, and without displacement nothing is lost |
| AddrOps.GoodConsistent | src/addrman.cpp:194-239 | Good_ keeps the tables consistent |
| AddrOps.GoodCheck | src/addrman.cpp:194-239 | Check_'s clauses survive Good_ exactly when the address is unknown or the time is positive |
| AddrOps.AddConsistent | src/addrman.cpp:241-308 | Add_ keeps the tables consistent |
| AddrRuns.AddCheck | src/addrman.cpp:241-308 | Add_ keeps all of Check_'s clauses |
| AddrRuns.AddUnknown | src/addrman.cpp:279-306 | an unknown address is reported as added, and known afterwards exactly when its slot was free, held a terrible entry, or held one that is also elsewhere; only the address whose last slot it took is forgotten |
| AddrRuns.AddKnown | src/addrman.cpp:250-278 | a known address stays known and is not reported, and at most the address whose last slot it takes is forgotten |
| AddrRuns.ReportedYetUnknown | src/addrman.cpp:288-307 | two addresses with the same slot: the second is reported as added and is not known afterwards |
| AddrRuns.AttemptCheck | src/addrman.cpp:310-327 | Check_'s clauses survive Attempt_ exactly when the address is unknown or the time is not negative |
| AddrRuns.ConnectedCheck | src/addrman.cpp:464-482 | Connected_ keeps all of Check_'s clauses |
| AddrFields.TerribleMeans | src/addrman.cpp:32-50 | which entries are of low quality, field by field |
| AddrFields.GetAddrHandsOut | src/addrman.cpp:442-462 | hands out at most 23 percent and 2500, all reliable and different, and every reliable entry when they are fewer |
| AddrFields.AddedIs | src/addrman.cpp:278-307 | an unknown address is stored exactly when its slot is empty or held by an unreliable entry or one with another place; then with one place, its services and source, its time less the penalty, and no history |
| AddrFields.HeardIs | src/addrman.cpp:255-307 | a known address gets the services added, the later time under the update rule, and one more place exactly when it is news, not tried, below eight places, lucky, and its slot gives way |
| AddrFields.AddUnroutable | src/addrman.cpp:247-248 | an address that is not routable changes nothing |
| AddrFields.GoodIs | src/addrman.cpp:193-241 | a listed service ends in the tried table at its place, in no new bucket, with the time given and no failed attempts; any other changes nothing |
| AddrFields.AttemptsCount | src/addrman.cpp:310-328 | attempts are counted, and the last one is remembered |
| AddrFields.ThirdAttempt | src/addrman.cpp:32-50 | a peer that never answered is unreliable a minute after the third attempt |
| AddrFields.ConnectedIs | src/addrman.cpp:464-482 | the time is set when it is more than twenty minutes older |
| AddrFields.PlacesOf | src/addrman.cpp:11-30 | the buckets and positions that the keyed hashes give |
| AddrRuns.SampleGood | src/addrman.cpp:442-462 | GetAddr_ returns distinct entries that are not terrible, as many as it wants or all there are, and only permutes the random order |
| AddrRuns.StepConsistent | src/addrman.h:478-565 | every call keeps the tables consistent, whatever its arguments |
| AddrRuns.RunCheck | src/addrman.h:478-565 | every sequence of calls with sensible times keeps all of Check_'s clauses |
| AddrMan.CAddrMan.constructor | src/addrman.h:444-452 | a new manager is empty and consistent |
| AddrMan.CAddrMan.DeleteEntry | src/addrman.cpp:117-129 | an entry in no table disappears from the entries, the addresses and the random order, without leaving a gap |
| AddrMan.CAddrMan.ClearNewSlot | src/addrman.cpp:131-144 | the slot is empty and its entry has one reference less, or is gone with its last one |
| AddrMan.CAddrMan.MakeTriedEntry | src/addrman.cpp:146-192 | the loops over the buckets do to the tables what MakeTried stands for; the asserts of the code hold |
| AddrMan.CAddrMan.FindNewBucket | src/addrman.cpp:219-233 | from any start the search meets a bucket that holds the entry: the exit for "something bad happened" is never taken |
| AddrMan.CAddrMan.GoodEntry | src/addrman.cpp:194-239 | changes the tables as Good does, and keeps them consistent |
| AddrMan.CAddrMan.AddEntry | src/addrman.cpp:241-308 | changes the tables and reports as Add does, with the stochastic test on the reference count, and keeps them consistent |
| AddrMan.CAddrMan.AttemptEntry | src/addrman.cpp:310-327 | changes the tables as Attempt does, and keeps them consistent |
| AddrMan.CAddrMan.ConnectedEntry | src/addrman.cpp:464-482 | changes the tables as Connected does, and keeps them consistent |
| AddrMan.CAddrMan.GetAddrEntries | src/addrman.cpp:442-462 | returns the sampled entries and leaves the tables as GetAddr says; every entry returned is reliable, field by field |
| AddrMan.PassedAll | src/addrman.cpp:217-230 | an entry of the new table is in one of the buckets the search visits |
| AddrMan.LuckyOnce | src/addrman.cpp:271-277 | with n places one draw in 2^n is lucky |
| AddrCheck.Check | src/addrman.cpp:373-439 | returns zero exactly when all its tests hold, and CheckPasses holds exactly when it returns zero and the state is Named; a passing state changes by at most the address of entry 0 |
| AddrCheck.TestsMean | src/addrman.cpp:373-439 | Check_'s tests amount to consistency exactly on states in which addresses name their own entries, ids are below the next one and the address of entry 0 is known |
| AddrCheck.ForgottenPasses | src/addrman.cpp:397-397 | a consistent state whose address of entry 0 is forgotten still passes, and is repaired by the check |
| AddrDisk.SavedTrip | src/addrman.h:272-417 | loading what was saved reads exactly that, loses nothing, and gives the same entries at the same slots up to renumbering, the last-try times and the random order; all of Check_'s clauses survive |
| AddrDisk.RenumberedConsistent | src/addrman.h:322-417 | a renumbered state is as consistent as the original |
| AddrDisk.ClearConsistent | src/addrman.h:424-442 | Clear leaves the entries and addresses behind, so it leaves a consistent state exactly when there were none |
| AddrFormat.SavedLayout | src/addrman.h:276-304 | the header, then the new entries and the tried ones, each in order of their ids, field by field, then the buckets |
| AddrFormat.IndicesAre | src/addrman.h:305-318 | a bucket is the number of its occupied places and, in order, the numbers of the entries there |
| AddrFormat.RehashedLoad | src/addrman.h:334-360 | a file of another version or number of buckets keeps no position: of the new entries that hash to one place the first has it, and the others have none |
| AddrFormat.TriedOrLost | src/addrman.h:362-381 | of the tried entries of one place the first is kept, and each other one is lost |
| AddrFormat.PositionRead | src/addrman.h:383-399 | a stored position counts exactly when it names a new entry with fewer than eight places and the place is free |
| AddrFormat.PruneKeeps | src/addrman.h:401-414 | exactly the entries that are tried or have a place are kept, and the others counted as lost |
| AddrFormat.HeaderRead | src/addrman.h:322-335 | a stream without a whole header or with another key size is refused |
| AddrMan.CAddrMan.Serialize | src/addrman.h:272-319 | writes the saved form: header, new entries, tried entries, and the bucket contents by rank |
| AddrMan.CAddrMan.Unserialize | src/addrman.h:322-417 | reads a stream into a fresh manager as Load does, and fails exactly when Load does |
| Channel.FrameFramed | src/protocol.h:44-57 | a frame's size field is the length of its payload, below 2^32 |
| Channel.FrameLayout | src/protocol.h:25-57 | a frame byte by byte: start, command in twelve bytes, size with the lowest byte first, checksum, payload |
| Channel.SealedIsFrame | src/net.h:429-463 | patching size and checksum into the header of a started message gives the frame of its payload |
| Channel.FeedAppend | src/net.cpp:534-563 | receiving a and then b is receiving a + b |
| Channel.FeedCuts | src/net.cpp:534-610 | whatever prefix of the frames arrives, the receiver holds exactly the frames cut at that point, and only the last can be incomplete |
| Channel.CutDelivers | src/net.cpp:534-610 | what the receiver holds is a prefix of what was sent, byte for byte, the last message possibly in part |
| Channel.CutFails | src/net.cpp:565-594 | the receiver gives up exactly when the whole header of a message above the size limit has arrived |
| Channel.GivesUpWhen | src/net.cpp:565-594 | the receiver gives up at the byte that completes a header with a size above 33,554,432, and at no other |
| Channel.OversizeRefused | src/net.cpp:565-594 | an instance: one message longer than the limit is pushed and sent, and the receiver gives up when its header has arrived |
| Channel.CutAll | src/net.cpp:534-610 | when all frames have arrived every message is complete and equal to its frame |
| Channel.AfterSendGood | src/net.cpp:621-662 | a partial write keeps size and offset of the send queue right and leaves exactly the bytes not yet written |
| Channel.AfterSendTwice | src/net.cpp:621-662 | two partial writes amount to one |
| Channel.RunDelivers | src/net.cpp:534-662 | after any schedule of pushes, writes and receive chunks the receiver holds a prefix of the pushed messages, the queue size is the sum of the queued sizes, and the receiver has given up exactly when a header above the limit has arrived |
| Channel.RunDeliversAll | src/net.cpp:534-662 | once everything is written and has arrived, every pushed message is complete |
| Net.CNetMessage.readHeader | src/net.cpp:565-594 | takes exactly the missing header bytes, and refuses exactly at a size above the limit |
| Net.CNetMessage.readData | src/net.cpp:596-610 | takes exactly the missing data bytes |
| Net.CNode.ReceiveMsgBytes | src/net.cpp:534-563 | leaves the messages that feeding the bytes one by one would, and fails exactly when that does |
| Net.CNode.SocketSendData | src/net.cpp:621-662 | whatever the socket takes, the bytes written are the next ones of the queue, and a socket that takes all empties it |
| Net.CNode.EndMessage | src/net.h:429-463 | queues the sealed frame behind everything else, and tries to send only when the queue was empty |
| Net.CNode.AbortMessage | src/net.h:419-426 | the message being written is dropped, and nothing else changes |
| Net.CNode.PushMessage | src/net.h:468-480 | queues the frame of the command and payload |
| Merkle.HeightIsLog | src/main.h:703-720 | the height is the logarithm of the number of leaves, rounded up |
| Merkle.RootOfHalves | src/main.h:703-720 | the root over two halves, each a power of two, is the hash of the left root and the right root |
| Merkle.CBlock.BuildMerkleTree | src/main.h:703-720 | the flat vector is the levels one after the other, odd levels doubling their last node, and the root is returned |
| Merkle.CBlock.GetMerkleBranch | src/main.h:722-736 | collects the siblings on the way from a leaf to the root, all accesses in bounds |
| Merkle.CBlock.CheckMerkleBranch | src/main.h:738-751 | folds a branch up by the bits of the index |
| Merkle.BranchLeads | src/main.h:722-751 | for every leaf the branch leads to the root, and is as long as the tree is high |
| Merkle.BranchProves | src/main.h:738-751 | without collisions, a branch of the right length that leads to the root starts at the leaf its index stands for |
| Merkle.RootCommits | src/main.h:703-720 | without collisions, two lists of equal height have equal roots exactly when they have the same leaves at all places, doubled ones included |
| Merkle.RootCommitsDistinct | src/main.cpp:2084-2104 | without collisions, two lists without duplicates, of equal height and with equal roots are the same list |
| Merkle.RepeatKeepsRoot | src/main.h:703-720 | repeating the last leaf of an odd list keeps the root |
| Merkle.ParentsKeepRoot | src/main.h:703-720 | the nodes of the next level have the same root, at one height less |
| Miner.ScanInputs | src/miner.cpp:164-202 | a transaction waits for exactly its inputs that are not on disk, and is listed under each of them; the total is the value of its previous outputs, on disk or in the pool |
| Miner.CollectCandidates | src/miner.cpp:158-218 | every final, ordinary transaction is either ready or waits for its parents in the pool; each has its fee per thousand bytes as rate |
| Miner.TryAdd | src/miner.cpp:231-289 | a popped transaction is added exactly when it keeps within the limits and connects to what was added before it |
| Miner.SelectTransactions | src/miner.cpp:220-314 | ends with a list each of whose transactions was acceptable in its turn, having considered exactly the transactions whose parents were added; at each turn the one considered pays most for its size of those ready, and is picked exactly when it is acceptable and not too cheap for a block past its minimum size |
| Miner.FeePerKbRated | src/miner.cpp:210-210 | rate times size is a thousand times the fee |
| Miner.PoppedHighest | src/miner.cpp:226-236 | what is popped pays most for its size of all that are ready and have not had their turn |
| Miner.LeftOutRefused | src/miner.cpp:238-282 | a transaction left out although it pays the minimum for its size was refused on another ground in its turn |
| Miner.CreateNewBlock | src/miner.cpp:89-337 | the block on the best block with coinbase and picked transactions, chosen in turns as above; its time is the latest of the past limit, all transactions and, for proof of work, now; a proof-of-work coinbase takes subsidy and fees |
| Miner.ReadyMore | src/miner.cpp:297-313 | adding a transaction makes ready exactly those that waited for it last |
| Miner.CreatedBlockConnects | src/miner.cpp:89-337 | a proof-of-work block so made connects as soon as it passes CheckBlock |
| Miner.StakedBlockConnects | src/main.cpp:2383-2431 | a proof-of-stake template connects with a coinstake behind its coinbase that connects by itself, is in no conflict and stays within its reward with the fees of the template |
| MinerRules.AssembledMeans | src/miner.cpp:238-289 | the picks are those that meet, one after the other, the limits of size, signature operations and time, pay the fee for the size so far, and find and may take their inputs |
| MinerRules.ReadyMeans | src/miner.cpp:149-213 | a pool transaction is considered exactly when it is neither coinbase nor coinstake, final, and each input takes an output in the chain or one of a transaction picked before |
| MinerRules.LimitsAre | src/miner.cpp:117-134 | the largest size is the one asked for, from 1,000 to 999,000, and the minimum no larger |
| Assembly.AssembledConnects | src/miner.cpp:252-289 | picked transactions pass ConnectBlock one by one behind any leading transactions that do |
| Assembly.AssembledBlockConnects | src/miner.cpp:220-337 | with the fees as reward the whole block connects |
| Assembly.AssembledStakeConnects | src/main.cpp:2383-2431 | so does a stake block whose coinstake connects and pays itself no more than its reward |
| Assembly.SameTotals | src/miner.cpp:284-289 | the assembler counts fees and sigops as ConnectBlock will |
| Assembly.AssembledLimits | src/miner.cpp:238-273 | the block stays below the size and sigop limits |
| Assembly.TallySizes | src/miner.cpp:284-286 | the size counted is the reserve plus the sizes of the transactions |
| Assembly.AssembledInTurn | src/miner.cpp:259-282 | each transaction spends what is unspent after those before it, so comes after its parents |
| Assembly.NothingTwice | src/miner.cpp:259-282 | no transaction is included twice, every input is on disk or an earlier transaction of the block, and no output is spent twice |
| Kernel.GetStakeModifierSelectionInterval | src/kernel.cpp:46-52 | the interval is the sum of the sections |
| Kernel.SectionsGrow | src/kernel.cpp:39-43 | sections never shrink, from a third of the modifier interval to all of it |
| Kernel.SectionExact | src/kernel.cpp:39-43 | section n is 37,800 / (189 - 2n), rounded down |
| Kernel.SelectBlockFromCandidates | src/kernel.cpp:57-96 | finds a candidate exactly when one is free, and finds the chosen one: the least selection hash among the free ones up to the stop, or the first free one; on the hashes themselves no free candidate up to the stop beats it |
| Kernel.ChosenNotBeaten | src/kernel.cpp:76-92 | a work block is chosen only over stake blocks with hashes of at least 2^32 times its own, a stake block only over work blocks with hashes above a 2^32th of its own; within a kind the least hash, divided for stake blocks |
| Kernel.ChosenUnique | src/kernel.cpp:57-96 | the chosen candidate is unique |
| Kernel.SomeFree | src/kernel.cpp:148-154 | while fewer candidates are picked than there are, one is free |
| Kernel.SelectRounds | src/kernel.cpp:144-160 | the rounds never fail, pick min(64, n) candidates, each the chosen one of its round, and build the number of their entropy bits |
| Kernel.PicksDistinct | src/kernel.cpp:146-160 | no candidate is picked twice |
| Kernel.PicksUnbeaten | src/kernel.cpp:146-160 | in its round no pick is beaten, on the hashes themselves, by a candidate up to the stop that was not picked before, and a pick from after the stop is the first one left |
| Kernel.BitsAt | src/kernel.cpp:155-156 | bit r of the modifier is the entropy bit of the block picked in round r |
| Kernel.CandidatesGood | src/kernel.cpp:129-142 | the sorted candidates are distinct blocks of the chain |
| Kernel.CandidatesInOrder | src/kernel.cpp:133-142 | they are in order of time, and of their hashes where times are equal |
| Kernel.FirstCandidateIs | src/kernel.cpp:135-140 | they reach back to the last block that is too early |
| Kernel.LastGeneratedIs | src/kernel.cpp:25-36 | the last modifier is that of the last block that generated one |
| Kernel.GetLastStakeModifier | src/kernel.cpp:25-36 | finds the nearest block that generated a modifier |
| Kernel.ComputeNextStakeModifier | src/kernel.cpp:111-189 | keeps the modifier within an interval, and otherwise builds the new one from the picks over the candidates of the selection interval, none of which is beaten in its round; the stop of the last of 64 rounds is the time of the previous block, aligned to the interval |
| Difficulty.SetCompact | src/bignum.h:322-332 | the number that a compact form stands for |
| Difficulty.GetCompact | src/bignum.h:334-345 | the compact form of a number |
| Difficulty.RoundTrip | src/bignum.h:322-345 | decoding the compact form cuts a number to its three leading bytes: never more, and positive when it was |
| Difficulty.DecodeExact | src/bignum.h:322-332 | a compact form is a signed 23-bit mantissa, shifted by its size in bytes |
| Difficulty.EncodeCanonical | src/bignum.h:334-345 | the compact form of a positive number is canonical |
| Difficulty.NextTargetInRange | src/main.cpp:1069-1100 | whatever the chain, the next target decodes to a positive number within the limit, and is canonical |
| Difficulty.NextTargetExact | src/main.cpp:1069-1100 | the new target in numbers: t * (840 + 2a) / 1080, rounded down, the limit when that is out of range |
| Difficulty.NextTargetEarly | src/main.cpp:1074-1081 | the limit as long as there are no two blocks of the kind after the first |
| Difficulty.RetargetHardens | src/main.cpp:1083-1099 | faster blocks make the compact target strictly harder |
| Difficulty.RetargetEases | src/main.cpp:1083-1094 | slower ones make the number no smaller, and strictly larger from 540 on |
| Difficulty.RetargetGrows | src/main.cpp:1089-1094 | a slower block never makes the target harder |
| Difficulty.RetargetBounded | src/main.cpp:1083-1094 | one step changes the target by at most a factor of three up and seven ninths down |
| Difficulty.RetargetSteady | src/main.cpp:1069-1100 | at the target spacing a canonical target stays what it is |
| Difficulty.TrustPositive | src/main.cpp:2210-2219 | a target in range gives positive trust |
| Difficulty.TrustExact | src/main.cpp:2210-2219 | the trust is 2^256 / (t + 1), rounded down, and none without a positive target |
| Difficulty.TrustFalls | src/main.cpp:2210-2219 | an easier target gives no more trust |
| Difficulty.TrustGrows | src/main.cpp:1979-1979 | along a chain of blocks that carry the targets required of their kind, trust rises with every block |
| Sync.CLockOrder.push_lock | src/sync.cpp:80-108 | records the orders of all held locks with the new one up to itself, and reports exactly when the opposite order of one was recorded |
| Sync.CLockOrder.pop_lock | src/sync.cpp:110-120 | the thread forgets its last lock |
| Sync.RecordGood | src/sync.cpp:86-105 | while the orders are antisymmetric, a report is made exactly when recording makes them not so |
| Sync.RecordIs | src/sync.cpp:86-105 | what is recorded and when a report is made, in terms of the locks held |
| Sync.TryRecordsNothing | src/sync.cpp:83-86 | a lock that is only tried records nothing |
| Sync.StepExclusive | src/sync.h:111-147 | no step lets two threads own one lock |
| Sync.StepRecorded | src/sync.cpp:80-120 | as long as nothing is reported the orders are antisymmetric and hold every pair of locks held together |
| Sync.DeadlockReported | src/sync.cpp:56-120 | after any run, two threads that each wait for a lock the other owns mean that a report was made |
| Sync.CircleUnreported | src/sync.cpp:80-108 | three threads in a circle deadlock with no report |
| Orphans.AddGood | src/main.cpp:2321-2332 | adding an orphan keeps the two maps and the size in step |
| Orphans.EraseGood | src/main.cpp:940-965 | so does erasing one |
| Orphans.COrphanPool.AddOrphan | src/main.cpp:2321-2332 | enters the orphan into both maps and counts its size |
| Orphans.COrphanPool.GetOrphanRoot | src/main.cpp:915-928 | the end of the chain of parents in the pool |
| Orphans.COrphanPool.WantedByOrphan | src/main.cpp:931-937 | the parent of the root orphan, which is not in the pool |
| Orphans.COrphanPool.PruneOrphanBlocks | src/main.cpp:940-965 | ends at or below the limit, removes no orphan that another one left depends on, and nothing when within the limit |
| Orphans.COrphanPool.ProcessDependents | src/main.cpp:2350-2374 | the queue ends; it holds exactly the accepted orphans under accepted blocks, and exactly the orphans under accepted blocks have left the pool, rejected ones too |
| Locator.DistanceIs | src/main.h:1214-1229 | entry k is k below the tip up to 11, and 9 + 2^(k - 10) after that |
| Locator.EntriesFew | src/main.h:1214-1229 | a locator has n > 12 entries before the genesis hash only if the tip is at height 9 + 2^(n - 11) or more, and never more entries than blocks |
| Locator.CBlockLocator.Set | src/main.h:1214-1229 | lists the hashes at those distances and the genesis hash |
| Locator.CBlockLocator.GetBlockIndex | src/main.h:1252-1266 | returns the first listed block of the main chain, or the genesis block |
| Locator.FirstFoundIs | src/main.h:1252-1266 | a peer answers from the first listed block that it has and that has a next block or is its best one, else from the genesis block |
| Locator.NotFarBelow | src/main.h:1214-1229 | the first entry at or below f is f itself up to 11, and never more than 2f |
| Locator.ForkFound | src/main.h:1252-1266 | a peer that forks f below the tip answers with a common ancestor, the fork itself when f is at most 11, and never more than 2f below the tip |
| BigNum.MpiRoundTrip | src/bignum.h:295-320 | decoding the byte form of a number gives it back, sign included |
| BigNum.SetInt64 | src/bignum.h:166-207 | the moving-pointer loop writes the byte form of every 64-bit number, the least one included |
| Script.CScript.PushData | src/script.h:413-438 | appends opcode, size and data in the shortest of the four length forms |
| Script.CScript.PushInt64 | src/script.h:297-309 | appends the small-number opcode or the push of the number's bytes |
| Script.PushForms | src/script.h:413-438 | the four forms, opcode by opcode |
| Script.SmallNumbers | src/script.h:297-309 | the bytes of the numbers up to 32,767 |
| Script.CScript.GetOp2 | src/script.h:476-527 | reads the instruction at a position, and fails exactly when it is not all there |
| Script.ReadPushed | src/script.h:476-527 | what was appended reads back, wherever it stands in the script |
| Script.ScriptRoundTrip | src/script.h:413-527 | every sequence of pushes in the four length forms and of higher opcodes reads back as itself, to the last byte |
| Script.IntRoundTrip | src/script.h:297-309 | every 64-bit number pushed reads back as itself |
| Script.IntPushPrefixFree | src/main.cpp:2181-2185 | a script starts with the push of at most one number, so the coinbase fixes the height |
| Base58.EncodeBase58 | src/base58.h:32-70 | the loop over the big number gives the base 58 digits behind one '1' for each leading zero byte |
| Base58.AlphabetIs | src/base58.h:29-29 | the alphabet is the digits and letters but 0, O, I and l; spaces are tab to carriage return and the blank |
| Base58.SameNumber | src/base58.h:32-70 | the string and the bytes are the same number, to the base 58 and to the base 256, most significant first |
| Base58.LeadingAlike | src/base58.h:63-65 | as many ones lead the string as zero bytes the bytes |
| Base58.DecodeBase58 | src/base58.h:80-124 | succeeds exactly on digits between spaces, and gives the bytes of the number behind one zero for each leading '1' |
| Base58.DecodeEncoded | src/base58.h:32-124 | decoding what was encoded gives the bytes back |
| Base58.EncodeDecoded | src/base58.h:32-124 | encoding what was decoded from alphabet characters gives the string back |
| Base58.EncodeBase58Check | src/base58.h:137-144 | encodes the bytes followed by their checksum |
| Base58.DecodeBase58Check | src/base58.h:148-165 | succeeds exactly when the decoded bytes end with the checksum of the others, and returns those |
| Base58.CheckRoundTrip | src/base58.h:137-165 | what was encoded with its checksum decodes to exactly that |

## Left out

- Unserialize: into a manager that already holds entries, or with a negative count of new entries in the stream, is not modelled.
- PostponedRun.Run: the opaque tests of CheckBlock and AcceptBlock are taken to pass.
- RewardRun.Run: so are they here.
- StakedBlockConnects: that SignBlock drops picked transactions later than the coinstake is not modelled; the fees it then still counts are those of all picked transactions.
- CollectCandidates: the branch that forgets a transaction with a missing input is excluded by requiring that every parent is on disk or in the pool.
- CreateNewBlock: the branch that forgets a transaction with a missing input is excluded by requiring that every parent is on disk or in the pool.
- ComputeNextStakeModifier: works on the sequence of blocks up to the previous one instead of nodes; its checkpoints and the second modifier of each block are not modelled.
- Check: the test that the secret key is set.
- AcceptBlock: the order of its tests, its misbehaviour scores and the relay of the block.
- ConnectBlock: the mode that only checks, without a file position, and the write of the on-disk `hashNext` of the previous block.
- DisconnectBlock: the write that clears the on-disk `hashNext` of the previous block, and its failing exit.
- Reorganize: the transactions that return to the memory pool or leave it.
- SetBestChainInner: removing the transactions of the block from the memory pool, and the note of an invalid chain.
- AddToBlockIndex: the stake modifier, entropy bit and proof hash of the node.
- EndMessage: dropping messages at random for testing.
- SetBestChain: the memory pool after a reorganization, wallet notification, upgrade warnings and the block-notify command.
- TxnBegin: always succeeds, as in the LevelDB implementation; that another implementation could fail is not modelled.
- PruneOrphanBlocks: the chains of orphans are taken to have no cycle, as hashes make sure.
- PushMessage: a payload of 2^32 bytes or more, whose size field wraps, is framed but not delivered in the run theorems.
- EvalScript and Solver (signatures are a predicate), CheckTransaction as a method, FindAndDelete and IsPushOnly.
- Block index records on disk beyond the one write that can be refused, LoadBlockIndex, and the on-disk `hashNext`.
- Select_ and GetChance: a random search that ends with probability one, over floating point.
- Block trust beyond 256 bits: chain trust is unbounded here.
- ProcessMessages and what messages mean; sockets, threads, DNS, RPC, the wallet, encryption and alerts.
- The hard-coded checkpoints and block dates.
