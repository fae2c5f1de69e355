/** A run, from the genesis block on, that ends with a best block whose chain is not in the index. The database
    refuses one write: the block's own record, so that the block stays in the tree without having become best.
    The next block is connected after it, as a postponed block, and pays out too much. */
module PostponedRun {
  import opened Transactions
  import opened Ledger
  import opened TxDb
  import opened BlockIndex
  import opened BlockTree
  import opened ChainIndex
  import opened ConnectInputs
  import opened ConnectBlock
  import opened ChainState
  import opened Injective
  import opened SmallChain
  import BigNum
  import Difficulty
  import Freshness
  import Script
  import Targets

  // ----- the two blocks

  /** An honest block at height 1. */
  function First(nLimit: BigNum.Target): Block { Single(nLimit, 0, 1, [0x51, 0], 0) }

  /** A block on top of it that pays out more than any reward. */
  function Second(nLimit: BigNum.Target): Block {
    Single(nLimit, OfBlock(First(nLimit)), 2, [0x52, 0], MAX_MONEY)
  }

  function RunEnv(nLimit: BigNum.Target): Env { EnvOf(nLimit, [First(nLimit), Second(nLimit)]) }

  lemma DifferentHashes(nLimit: BigNum.Target)
    ensures OfBlock(First(nLimit)) != 0 && OfBlock(Second(nLimit)) != 0
      && OfBlock(First(nLimit)) != OfBlock(Second(nLimit))
  {
    hide Bits, OfBlock;
    HashesDiffer(First(nLimit), Second(nLimit));
  }

  /** The honest block connects on top of the genesis block. */
  lemma FirstConnects(nLimit: BigNum.Target, pindex: CBlockIndex)
    ensures BlockConnects(RunEnv(nLimit), map[], map[], pindex, First(nLimit), 0)
  {
    hide Bits;
    SingleConnects(nLimit, [First(nLimit), Second(nLimit)], map[], pindex, 0, 1, [0x51, 0], 0, 0);
  }

  // ----- the run

  /** The genesis block is the only one; the database will refuse its second write. */
  ghost predicate Started(s: CChainState, nLimit: BigNum.Target)
    reads s, s.txdb, s.mapBlockIndex.Values
  {
    && s.Valid() && s.env == RunEnv(nLimit) && s.mempool == map[]
    && s.txdb.refuses == (k => k == 1) && s.unreadable == (k => false)
    && s.mapBlockIndex == map[0 := s.pindexBest] && s.pindexBest == s.pindexGenesisBlock && s.pindexBest.hash == 0
    && s.pindexBest.nHeight == 0 && s.txdb.nWrites == 1
  }

  /** The first block is in the tree, on top of the genesis block, which is still the best one. */
  ghost predicate Refused(s: CChainState, first: CBlockIndex, nLimit: BigNum.Target)
    reads s, s.txdb, s.mapBlockIndex.Values
  {
    && s.Valid() && s.env == RunEnv(nLimit) && s.mempool == map[]
    && s.txdb.refuses == (k => k == 1) && s.unreadable == (k => false)
    && s.mapBlockIndex == map[0 := s.pindexBest, OfBlock(First(nLimit)) := first] && s.InTree(first)
    && s.pindexBest == s.pindexGenesisBlock && s.pindexBest.hash == 0 && s.pindexBest.nHeight == 0
    && first.pprev == s.pindexBest && first.nChainTrust > s.nBestChainTrust && !first.fProofOfStake
    && BlockOf(s.env, first) == Some(First(nLimit)) && s.txdb.nWrites == 2
  }

  method Start(nLimit: BigNum.Target) returns (s: CChainState)
    ensures fresh(s) && fresh(s.txdb) && fresh(s.mapBlockIndex.Values) && Started(s, nLimit)
  {
    NoCollisions(nLimit, [First(nLimit), Second(nLimit)]);
    var txdb := new CTxDB(k => k == 1);
    var connected := CChainState.ConnectGenesis(txdb, 0);
    var genesis := new CBlockIndex(0, null, 0, 0, GENESIS);
    s := new CChainState(RunEnv(nLimit), map[], txdb, genesis, k => false);
  }

  lemma Alone(s: CChainState, nLimit: BigNum.Target)
    requires Started(s, nLimit)
    ensures s.Tree() && s.InTree(s.pindexBest)
  {
    hide AllAccepted, IsAncestor, CChainState.Connected, CChainState.Indexed, First, RunEnv, Freshness.CollisionFree,
      CChainState.Tree;
  }

  /** The first block passes the tests of AcceptBlock. */
  lemma FirstAcceptable(s: CChainState, nLimit: BigNum.Target)
    requires Started(s, nLimit)
    ensures CheckBlock(s.env, First(nLimit)) && s.Acceptable(First(nLimit))
    ensures s.env.blockAt(0, 1) == Some(First(nLimit)) && Freshness.OnDisk(s.env, Placed(0, 1, First(nLimit).vtx))
    ensures s.env.blockHash(First(nLimit)) == OfBlock(First(nLimit)) != 0
    ensures First(nLimit).hashPrevBlock == 0 && !First(nLimit).IsProofOfStake()
  {
    hide OfBlock, CheckBlock, Freshness.OnDisk, Targets.Required, Bits, CChainState.Valid, AllAccepted, IsAncestor;
    Alone(s, nLimit);
    var blocks := [First(nLimit), Second(nLimit)];
    Checked(nLimit, blocks, 0, 1, [0x51, 0], 0);
    Filed(nLimit, blocks, 0);
    DifferentHashes(nLimit);
    EarlyTarget(nLimit, blocks, s.pindexBest);
    assert Script.IntBytes(1) == [0x51] <= [0x51, 0];
  }

  /** Its own record refused, the first block is not accepted, but it is in the tree. */
  method AddFirst(s: CChainState, nLimit: BigNum.Target) returns (ok: bool, ghost first: CBlockIndex)
    requires Started(s, nLimit)
    modifies s, s.txdb, s.mapBlockIndex.Values
    ensures !ok && fresh(s.mapBlockIndex.Values - old(s.mapBlockIndex.Values)) && Refused(s, first, nLimit)
  {
    hide OfBlock, CheckBlock, Freshness.OnDisk, Freshness.CollisionFree, Bits, CChainState.Connected,
      CChainState.Indexed, CChainState.Acceptable, Refusals, ConnectsFrom, Difficulty.BlockTrust, First, RunEnv,
      IsAncestor, IsFork, CTxDB.Failures, CChainState.IoFailures, AllAccepted;
    FirstAcceptable(s, nLimit);
    ghost var pfork, added, node, reached;
    ok, node, pfork, added, reached := s.AcceptBlock(First(nLimit), 0, 1);
    first := node;
  }

  lemma Low(s: CChainState, first: CBlockIndex, nLimit: BigNum.Target)
    requires Refused(s, first, nLimit)
    ensures s.Tree() && s.pindexBest.pprev == null && forall h :: h in s.mapBlockIndex ==>
      s.mapBlockIndex[h].nHeight <= 1
  {
    hide AllAccepted, IsAncestor, CChainState.Connected, CChainState.Indexed, First, RunEnv, Freshness.CollisionFree;
  }

  /** So does the second, on top of the first. */
  lemma SecondAcceptable(s: CChainState, first: CBlockIndex, nLimit: BigNum.Target)
    requires Refused(s, first, nLimit)
    ensures CheckBlock(s.env, Second(nLimit)) && s.Acceptable(Second(nLimit))
    ensures s.env.blockAt(0, 2) == Some(Second(nLimit)) && Freshness.OnDisk(s.env, Placed(0, 2, Second(nLimit).vtx))
    ensures Overpays(Second(nLimit)) && Second(nLimit).hashPrevBlock == OfBlock(First(nLimit))
    ensures s.env.blockHash(Second(nLimit)) == OfBlock(Second(nLimit)) != OfBlock(First(nLimit))
  {
    hide OfBlock, CheckBlock, Freshness.OnDisk, Targets.Required, Bits, Tx.ValueOut, CChainState.Valid, AllAccepted,
      IsAncestor;
    Low(s, first, nLimit);
    var blocks := [First(nLimit), Second(nLimit)];
    Checked(nLimit, blocks, OfBlock(First(nLimit)), 2, [0x52, 0], MAX_MONEY);
    CoinbaseValue(2, [0x52, 0], MAX_MONEY);
    Filed(nLimit, blocks, 1);
    DifferentHashes(nLimit);
    EarlyTarget(nLimit, blocks, first);
    assert Script.IntBytes(2) == [0x52] <= [0x52, 0];
  }

  /** The lowest block that beats the genesis block is the first one, and it connects. */
  lemma FirstIsFirst(s: CChainState, first: CBlockIndex, second: CBlockIndex, pfork: CBlockIndex, lowest: CBlockIndex,
                     genesis: CBlockIndex, nLimit: BigNum.Target)
    requires s.Base() && s.InTree(second) && second.pprev == first && first.pprev == genesis
    requires genesis.Linked() && genesis.pprev == null
    requires s.env == RunEnv(nLimit) && s.mempool == map[] && BlockOf(s.env, first) == Some(First(nLimit))
    requires IsAncestor(lowest, second) && lowest.nChainTrust > genesis.nChainTrust
      && first.nChainTrust > genesis.nChainTrust
    requires lowest.pprev != null ==> lowest.pprev.nChainTrust <= genesis.nChainTrust
    requires s.InTree(lowest) && IsFork(pfork, genesis, lowest, s.mapBlockIndex.Values)
    ensures lowest == first && pfork == genesis
    ensures ConnectsFrom(s.env, s.mempool, pfork, lowest, 0)
  {
    hide BlockConnects, First, Accepted, CChainState.Tree, RunEnv;
    assert lowest != second;
    assert IsAncestor(lowest, first);
    assert pfork == genesis;
    assert IndexAt(s.env, genesis) == map[];
    FirstConnects(nLimit, first);
  }

  /** The second block is accepted, and is the best block of a state that is not valid. */
  method AddSecond(s: CChainState, ghost first: CBlockIndex, nLimit: BigNum.Target) returns (ok: bool)
    requires Refused(s, first, nLimit)
    modifies s, s.txdb, s.mapBlockIndex.Values
    ensures ok && s.Base() && !s.Valid() && s.pindexBest.hash == OfBlock(Second(nLimit))
  {
    hide OfBlock, CheckBlock, Freshness.OnDisk, Freshness.CollisionFree, Bits, CChainState.Connected,
      CChainState.Indexed, CChainState.Acceptable, Refusals, ConnectsFrom, Difficulty.BlockTrust, Second, Overpays,
      First, RunEnv, IsAncestor, IsFork, CChainState.Tree, CTxDB.Failures, CChainState.IoFailures, CBlockIndex.Linked,
      CBlockIndex.Describes;
    Low(s, first, nLimit);
    SecondAcceptable(s, first, nLimit);
    Failed(s);
    ghost var genesis := s.pindexBest;
    ghost var pfork, lowest, second, reached;
    ok, second, pfork, lowest, reached := s.AcceptBlock(Second(nLimit), 0, 2);
    Failed(s);
    FirstIsFirst(s, first, second, pfork, lowest, genesis, nLimit);
    s.OverpaidTip(lowest, second, Second(nLimit), 0);
  }

  lemma Failed(s: CChainState)
    requires s.txdb.refuses == (k => k == 1) && s.unreadable == (k => false) && s.txdb.nWrites >= 2
    ensures s.txdb.Failures() == 1 && s.IoFailures() == 0
  {
    OneRefusal(s.txdb.nWrites);
    NoRefusal(s.nReads);
  }

  lemma {:induction false} OneRefusal(n: nat)
    ensures Refusals(k => k == 1, n) == if n >= 2 then 1 else 0
  {
    if n > 0 { OneRefusal(n - 1); }
  }

  lemma {:induction false} NoRefusal(n: nat)
    ensures Refusals(k => false, n) == 0
  {
    if n > 0 { NoRefusal(n - 1); }
  }

  /** The run: the first block is not accepted, the second one is, and then the best block's chain is not what
      the index holds. */
  method Run(nLimit: BigNum.Target) returns (s: CChainState, okFirst: bool, okSecond: bool)
    ensures !okFirst && okSecond && s.Base() && !s.Valid() && s.pindexBest.hash == OfBlock(Second(nLimit))
  {
    hide Started, Refused, CChainState.Valid, CChainState.Base, RunEnv, First, Second;
    s := Start(nLimit);
    ghost var first;
    okFirst, first := AddFirst(s, nLimit);
    okSecond := AddSecond(s, first, nLimit);
  }
}
