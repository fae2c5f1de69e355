/** A run without any failing read or write in which an honest chain with more trust is refused: its first block
    took the subsidy of its own height, and is judged by the height of the best block when the chain is to be
    switched to. */
module RewardRun {
  import opened Transactions
  import opened Ledger
  import opened TxDb
  import opened BlockIndex
  import opened BlockTree
  import opened ChainIndex
  import opened ConnectInputs
  import opened ConnectBlock
  import opened ChainState
  import opened Injective
  import opened SmallChain
  import BigNum
  import Difficulty
  import Freshness
  import Script
  import Targets

  // ----- instances

  /** A block at height 60 that takes the 25 coins of its height: allowed while the best block is below it, and not
      once the best block is at height 100. */
  lemma OldHeightRefused(nLimit: BigNum.Target, pindex: CBlockIndex)
    requires pindex.nHeight == 60
    ensures Script.IntBytes(60) == [1, 60] && PowSubsidy(pindex.nHeight) == 25 * COIN
    ensures var env, block := EnvOf(nLimit, []), Single(nLimit, 0, 1, [1, 60], 25 * COIN);
      && BlockConnects(env, map[], map[], pindex, block, 59)
      && !BlockConnects(env, map[], map[], pindex, block, 100)
  {
    hide BlockConnects, Bits, Script.IntBytes;
    SingleConnects(nLimit, [], map[], pindex, 0, 1, [1, 60], 25 * COIN, 59);
    SingleConnects(nLimit, [], map[], pindex, 0, 1, [1, 60], 25 * COIN, 100);
    HeightBytes();
  }

  lemma HeightBytes()
    ensures Script.IntBytes(60) == [1, 60]
  {
    assert Script.Getvch(60) == [60];
  }

  // ----- the blocks of the run

  const FIRST_SUBSIDY: int := 57_000_000 * COIN

  /** Two blocks at height 1 that take the subsidy of that height, and one on top of the second. */
  function Best(nLimit: BigNum.Target): Block { Single(nLimit, 0, 1, [0x51, 0], FIRST_SUBSIDY) }

  function Side(nLimit: BigNum.Target): Block { Single(nLimit, 0, 1, [0x51, 1], FIRST_SUBSIDY) }

  function Next(nLimit: BigNum.Target): Block { Single(nLimit, OfBlock(Side(nLimit)), 2, [0x52, 0], 0) }

  function RunEnv(nLimit: BigNum.Target): Env { EnvOf(nLimit, [Best(nLimit), Side(nLimit), Next(nLimit)]) }

  lemma DifferentHashes(nLimit: BigNum.Target)
    ensures OfBlock(Best(nLimit)) != 0 && OfBlock(Side(nLimit)) != 0 && OfBlock(Next(nLimit)) != 0
    ensures OfBlock(Best(nLimit)) != OfBlock(Side(nLimit)) && OfBlock(Best(nLimit)) != OfBlock(Next(nLimit))
    ensures OfBlock(Side(nLimit)) != OfBlock(Next(nLimit))
  {
    hide Bits, OfBlock;
    HashesDiffer(Best(nLimit), Side(nLimit));
    HashesDiffer(Best(nLimit), Next(nLimit));
    HashesDiffer(Side(nLimit), Next(nLimit));
  }

  /** Both blocks at height 1 connect while the best height is 0, and neither once it is 1. */
  lemma FirstConnects(nLimit: BigNum.Target, pindex: CBlockIndex, nBestHeight: int)
    requires nBestHeight == 0 || nBestHeight == 1
    ensures BlockConnects(RunEnv(nLimit), map[], map[], pindex, Best(nLimit), nBestHeight) <==> nBestHeight == 0
    ensures BlockConnects(RunEnv(nLimit), map[], map[], pindex, Side(nLimit), nBestHeight) <==> nBestHeight == 0
  {
    hide Bits, BlockConnects;
    var blocks := [Best(nLimit), Side(nLimit), Next(nLimit)];
    SingleConnects(nLimit, blocks, map[], pindex, 0, 1, [0x51, 0], FIRST_SUBSIDY, nBestHeight);
    SingleConnects(nLimit, blocks, map[], pindex, 0, 1, [0x51, 1], FIRST_SUBSIDY, nBestHeight);
  }

  /** The third block connects on top of the second. */
  lemma NextConnects(nLimit: BigNum.Target, b: Placed, pindex: CBlockIndex)
    requires b.vtx == Side(nLimit).vtx
    ensures BlockConnects(RunEnv(nLimit), map[], ApplyBlock(RunEnv(nLimit), map[], b), pindex, Next(nLimit), 1)
  {
    hide Bits, BlockConnects, OfTx, OfBlock;
    var env, ix := RunEnv(nLimit), ApplyBlock(RunEnv(nLimit), map[], b);
    var tx := Coinbase(2, [0x52, 0], 0);
    ApplyTxsKeys(env, map[], b, 1);
    InIdsBelow(env, b.vtx, 1, OfTx(tx));
    if OfTx(tx) == OfTx(b.vtx[0]) { TxInjective(tx, b.vtx[0]); }
    SingleConnects(nLimit, [Best(nLimit), Side(nLimit), Next(nLimit)], ix, pindex, OfBlock(Side(nLimit)), 2, [0x52, 0],
      0, 1);
  }

  // ----- the run

  /** Nothing fails in the run. */
  ghost predicate Running(s: CChainState, nLimit: BigNum.Target)
    reads s, s.txdb, s.mapBlockIndex.Values
  {
    && s.Valid() && s.env == RunEnv(nLimit) && s.mempool == map[]
    && s.txdb.refuses == (k => false) && s.unreadable == (k => false)
    && s.pindexGenesisBlock.hash == 0 && s.pindexGenesisBlock.nHeight == 0
  }

  ghost predicate Started(s: CChainState, nLimit: BigNum.Target)
    reads s, s.txdb, s.mapBlockIndex.Values
  {
    Running(s, nLimit) && s.pindexBest == s.pindexGenesisBlock && s.mapBlockIndex == map[0 := s.pindexBest]
  }

  /** A node of the run. */
  ghost predicate NodeOf(s: CChainState, n: CBlockIndex, block: Block, pprev: CBlockIndex)
    reads s
  {
    && s.InTree(n) && n.pprev == pprev && n.hash == OfBlock(block) && BlockOf(s.env, n) == Some(block)
    && n.nChainTrust == pprev.nChainTrust + Difficulty.BlockTrust(block.nBits) && !n.fProofOfStake
  }

  /** The first block is best. */
  ghost predicate Extended(s: CChainState, nLimit: BigNum.Target)
    reads s, s.txdb, s.mapBlockIndex.Values
  {
    && Running(s, nLimit) && NodeOf(s, s.pindexBest, Best(nLimit), s.pindexGenesisBlock)
    && s.mapBlockIndex == map[0 := s.pindexGenesisBlock, OfBlock(Best(nLimit)) := s.pindexBest]
  }

  /** The second block is beside it. */
  ghost predicate Split(s: CChainState, side: CBlockIndex, nLimit: BigNum.Target)
    reads s, s.txdb, s.mapBlockIndex.Values
  {
    && Running(s, nLimit) && NodeOf(s, s.pindexBest, Best(nLimit), s.pindexGenesisBlock)
    && NodeOf(s, side, Side(nLimit), s.pindexGenesisBlock)
    && s.mapBlockIndex == map[0 := s.pindexGenesisBlock, OfBlock(Best(nLimit)) := s.pindexBest,
      OfBlock(Side(nLimit)) := side]
  }

  lemma NothingFails(s: CChainState)
    requires s.txdb.refuses == (k => false) && s.unreadable == (k => false)
    ensures s.txdb.Failures() == 0 && s.IoFailures() == 0
  {
    NoRefusal(s.txdb.nWrites);
    NoRefusal(s.nReads);
  }

  lemma {:induction false} NoRefusal(n: nat)
    ensures Refusals(k => false, n) == 0
  {
    if n > 0 { NoRefusal(n - 1); }
  }

  method Start(nLimit: BigNum.Target) returns (s: CChainState)
    ensures fresh(s) && fresh(s.txdb) && fresh(s.mapBlockIndex.Values) && Started(s, nLimit)
  {
    NoCollisions(nLimit, [Best(nLimit), Side(nLimit), Next(nLimit)]);
    var txdb := new CTxDB(k => false);
    var connected := CChainState.ConnectGenesis(txdb, 0);
    var genesis := new CBlockIndex(0, null, 0, 0, GENESIS);
    s := new CChainState(RunEnv(nLimit), map[], txdb, genesis, k => false);
  }

  lemma GenesisNode(s: CChainState, nLimit: BigNum.Target)
    requires Running(s, nLimit) && 0 in s.mapBlockIndex && s.mapBlockIndex[0] == s.pindexGenesisBlock
    ensures s.Base() && s.InTree(s.pindexGenesisBlock) && s.pindexGenesisBlock.pprev == null
  {
    hide AllAccepted, IsAncestor, CChainState.Connected, CChainState.Indexed, RunEnv, Freshness.CollisionFree;
    s.FiledNode(0);
  }

  /** The blocks at height 1 are acceptable until they are in the tree. */
  lemma FirstAcceptable(s: CChainState, block: Block, i: nat, nLimit: BigNum.Target)
    requires Running(s, nLimit) && 0 in s.mapBlockIndex && s.mapBlockIndex[0] == s.pindexGenesisBlock
    requires (i == 0 && block == Best(nLimit)) || (i == 1 && block == Side(nLimit))
    requires OfBlock(block) !in s.mapBlockIndex
    ensures CheckBlock(s.env, block) && s.Base() && s.Acceptable(block)
    ensures s.env.blockAt(0, i + 1) == Some(block) && Freshness.OnDisk(s.env, Placed(0, i + 1, block.vtx))
    ensures s.env.blockHash(block) == OfBlock(block) != 0 && block.hashPrevBlock == 0 && !block.IsProofOfStake()
  {
    hide CheckBlock, Freshness.OnDisk, Targets.Required, Bits, CChainState.Valid, AllAccepted, IsAncestor, OfBlock;
    GenesisNode(s, nLimit);
    var blocks := [Best(nLimit), Side(nLimit), Next(nLimit)];
    Checked(nLimit, blocks, 0, 1, if i == 0 then [0x51, 0] else [0x51, 1], FIRST_SUBSIDY);
    Filed(nLimit, blocks, i);
    DifferentHashes(nLimit);
    EarlyTarget(nLimit, blocks, s.pindexGenesisBlock);
    assert Script.IntBytes(1) == [0x51] <= [0x51, 0] && [0x51] <= [0x51, 1];
  }

  /** So is the third, once its parent is. */
  lemma NextAcceptable(s: CChainState, side: CBlockIndex, nLimit: BigNum.Target)
    requires Split(s, side, nLimit)
    ensures CheckBlock(s.env, Next(nLimit)) && s.Base() && s.Acceptable(Next(nLimit))
    ensures s.env.blockAt(0, 3) == Some(Next(nLimit)) && Freshness.OnDisk(s.env, Placed(0, 3, Next(nLimit).vtx))
    ensures s.env.blockHash(Next(nLimit)) == OfBlock(Next(nLimit))
      && Next(nLimit).hashPrevBlock == OfBlock(Side(nLimit))
    ensures OfBlock(Next(nLimit)) !in s.mapBlockIndex && !Next(nLimit).IsProofOfStake()
  {
    hide CheckBlock, Freshness.OnDisk, Targets.Required, Bits, CChainState.Valid, AllAccepted, IsAncestor, OfBlock;
    DifferentHashes(nLimit);
    GenesisNode(s, nLimit);
    var blocks := [Best(nLimit), Side(nLimit), Next(nLimit)];
    Checked(nLimit, blocks, OfBlock(Side(nLimit)), 2, [0x52, 0], 0);
    Filed(nLimit, blocks, 2);
    EarlyTarget(nLimit, blocks, side);
    assert Script.IntBytes(2) == [0x52] <= [0x52, 0];
  }

  /** What a switch from the genesis block to a child of it comes to. */
  lemma FromGenesis(s: CChainState, best: CBlockIndex, pfork: CBlockIndex, first: CBlockIndex, genesis: CBlockIndex,
                    nLimit: BigNum.Target)
    requires s.Base() && NodeOf(s, best, Best(nLimit), genesis) && genesis.pprev == null && genesis.Linked()
    requires s.env == RunEnv(nLimit) && s.mempool == map[]
    requires IsAncestor(first, best) && first.nChainTrust > genesis.nChainTrust
    requires s.InTree(first) && IsFork(pfork, genesis, first, s.mapBlockIndex.Values)
    ensures first == best && pfork == genesis && ConnectsFrom(s.env, s.mempool, pfork, first, 0)
  {
    hide BlockConnects, Best, RunEnv, Accepted, CChainState.Tree, Difficulty.BlockTrust;
    assert pfork == genesis && IndexAt(s.env, genesis) == map[];
    FirstConnects(nLimit, best, 0);
  }

  /** The first block is accepted. */
  method AddBest(s: CChainState, nLimit: BigNum.Target) returns (ok: bool)
    requires Started(s, nLimit)
    modifies s, s.txdb, s.mapBlockIndex.Values
    ensures ok && fresh(s.mapBlockIndex.Values - old(s.mapBlockIndex.Values)) && Extended(s, nLimit)
  {
    hide OfBlock, CheckBlock, Freshness.OnDisk, Freshness.CollisionFree, Bits, CChainState.Connected,
      CChainState.Indexed, CChainState.Acceptable, Refusals, ConnectsFrom, Difficulty.BlockTrust, Best, RunEnv,
      IsAncestor, IsFork, CTxDB.Failures, CChainState.IoFailures, AllAccepted, CBlockIndex.Linked, Difficulty.Decode,
      Targets.LimitsOf;
    DifferentHashes(nLimit);
    FirstAcceptable(s, Best(nLimit), 0, nLimit);
    GenesisNode(s, nLimit);
    NothingFails(s);
    ghost var genesis := s.pindexBest;
    ghost var best, pfork, first, reached;
    ok, best, pfork, first, reached := s.AcceptBlock(Best(nLimit), 0, 1);
    NothingFails(s);
    AddsTrust(s, best, genesis, Best(nLimit));
    FromGenesis(s, best, pfork, first, genesis, nLimit);
  }

  lemma AddsTrust(s: CChainState, n: CBlockIndex, pprev: CBlockIndex, block: Block)
    requires n.Linked() && n.pprev == pprev && n.nChainTrust == pprev.nChainTrust + Difficulty.BlockTrust(block.nBits)
    ensures Difficulty.BlockTrust(block.nBits) > 0 && n.nChainTrust > pprev.nChainTrust
  {
    hide Difficulty.BlockTrust;
  }

  lemma SameBits(nLimit: BigNum.Target)
    ensures Best(nLimit).nBits == Side(nLimit).nBits == Next(nLimit).nBits
  {
    hide Bits;
  }

  /** No node is high up. */
  lemma Low(s: CChainState, side: CBlockIndex, nLimit: BigNum.Target)
    requires Extended(s, nLimit) || Split(s, side, nLimit)
    ensures s.Tree() && 0 in s.mapBlockIndex && s.mapBlockIndex[0] == s.pindexGenesisBlock
    ensures s.nBestHeight == 1 && forall h :: h in s.mapBlockIndex ==> s.mapBlockIndex[h].nHeight <= 1
  {
    hide AllAccepted, IsAncestor, CChainState.Connected, CChainState.Indexed, Best, Side, RunEnv,
      Freshness.CollisionFree, Difficulty.BlockTrust, OfBlock;
    DifferentHashes(nLimit);
  }

  /** The second block is accepted beside it, with as much trust. */
  method AddSide(s: CChainState, nLimit: BigNum.Target) returns (ok: bool, ghost side: CBlockIndex)
    requires Extended(s, nLimit)
    modifies s, s.txdb, s.mapBlockIndex.Values
    ensures ok && fresh(s.mapBlockIndex.Values - old(s.mapBlockIndex.Values)) && Split(s, side, nLimit)
    ensures side.nChainTrust == s.pindexBest.nChainTrust
  {
    hide OfBlock, CheckBlock, Freshness.OnDisk, Freshness.CollisionFree, Bits, CChainState.Connected,
      CChainState.Indexed, CChainState.Acceptable, Refusals, ConnectsFrom, Difficulty.BlockTrust, Best, Side, RunEnv,
      IsAncestor, IsFork, CTxDB.Failures, CChainState.IoFailures, AllAccepted, CBlockIndex.Linked, CChainState.Tree,
      Difficulty.Decode, Targets.LimitsOf;
    DifferentHashes(nLimit);
    SameBits(nLimit);
    Low(s, s.pindexBest, nLimit);
    FirstAcceptable(s, Side(nLimit), 1, nLimit);
    GenesisNode(s, nLimit);
    ghost var node, pfork, first, reached;
    ok, node, pfork, first, reached := s.AcceptBlock(Side(nLimit), 0, 2);
    side := node;
    assert Running(s, nLimit);
    assert NodeOf(s, side, Side(nLimit), s.pindexGenesisBlock);
    assert NodeOf(s, s.pindexBest, Best(nLimit), s.pindexGenesisBlock);
  }

  /** The chain of the third block beats the best one and does not connect: its first block takes the subsidy of
      height 1, and is judged as one of height 2. */
  lemma SideRefused(s: CChainState, best: CBlockIndex, side: CBlockIndex, next: CBlockIndex, pfork: CBlockIndex,
                    first: CBlockIndex, genesis: CBlockIndex, nLimit: BigNum.Target)
    requires s.Base() && genesis.pprev == null && genesis.Linked() && s.env == RunEnv(nLimit) && s.mempool == map[]
    requires NodeOf(s, best, Best(nLimit), genesis) && NodeOf(s, side, Side(nLimit), genesis)
      && NodeOf(s, next, Next(nLimit), side)
    requires IsAncestor(first, next) && first.nChainTrust > best.nChainTrust == side.nChainTrust > genesis.nChainTrust
    requires s.InTree(first) && IsFork(pfork, best, first, s.mapBlockIndex.Values)
    ensures first == next && pfork == genesis && !ConnectsFrom(s.env, s.mempool, pfork, first, 1)
  {
    hide BlockConnects, Best, Side, Next, RunEnv, Accepted, CChainState.Tree, Difficulty.BlockTrust, OfBlock;
    DifferentHashes(nLimit);
    ChildAncestors(first, side, genesis);
    ChildAncestors(pfork, side, genesis);
    ChildAncestors(pfork, best, genesis);
    SideConnects(s, side, genesis, nLimit);
  }

  lemma ChildAncestors(a: CBlockIndex, n: CBlockIndex, genesis: CBlockIndex)
    requires n.Linked() && n.pprev == genesis && genesis.pprev == null
    ensures IsAncestor(a, n) <==> a == n || a == genesis
  {
    assert IsAncestor(a, genesis) <==> a == genesis;
  }

  /** By itself the second block connects to the genesis block, as long as that is the best one. */
  lemma SideConnects(s: CChainState, side: CBlockIndex, genesis: CBlockIndex, nLimit: BigNum.Target)
    requires s.env == RunEnv(nLimit) && s.mempool == map[] && NodeOf(s, side, Side(nLimit), genesis)
      && genesis.pprev == null
    requires genesis.Linked() && IsAncestor(genesis, side)
    ensures ConnectsFrom(s.env, s.mempool, genesis, side, 0) && !ConnectsFrom(s.env, s.mempool, genesis, side, 1)
  {
    hide BlockConnects, Side, RunEnv, Accepted, Difficulty.BlockTrust;
    assert IndexAt(s.env, genesis) == map[];
    FirstConnects(nLimit, side, 0);
    FirstConnects(nLimit, side, 1);
  }

  lemma SameCoinbase(s: CChainState, side: CBlockIndex, nLimit: BigNum.Target)
    requires BlockOf(s.env, side) == Some(Side(nLimit))
    ensures PlacedOf(s.env, side).vtx == Side(nLimit).vtx
  {
    hide Bits;
  }

  /** And the third connects on top of it. */
  lemma NextNodeConnects(s: CChainState, side: CBlockIndex, next: CBlockIndex, genesis: CBlockIndex,
                         nLimit: BigNum.Target)
    requires s.env == RunEnv(nLimit) && s.mempool == map[] && genesis.pprev == null
    requires NodeOf(s, side, Side(nLimit), genesis) && NodeOf(s, next, Next(nLimit), side)
    ensures NodeConnects(s.env, s.mempool, next, 1)
  {
    hide BlockConnects, Side, Next, RunEnv, Accepted, Difficulty.BlockTrust, ApplyBlock;
    assert IndexAt(s.env, genesis) == map[];
    assert IndexAt(s.env, side) == ApplyBlock(s.env, map[], PlacedOf(s.env, side));
    SameCoinbase(s, side, nLimit);
    NextConnects(nLimit, PlacedOf(s.env, side), next);
  }

  /** The third block is not accepted, although nothing has failed: the best block stays. */
  method AddNext(s: CChainState, ghost side: CBlockIndex, nLimit: BigNum.Target) returns (ok: bool,
                 ghost next: CBlockIndex)
    requires Split(s, side, nLimit) && side.nChainTrust == s.pindexBest.nChainTrust
    modifies s, s.txdb, s.mapBlockIndex.Values
    ensures !ok && Running(s, nLimit) && NodeOf(s, s.pindexBest, Best(nLimit), s.pindexGenesisBlock)
    ensures NodeOf(s, side, Side(nLimit), s.pindexGenesisBlock) && NodeOf(s, next, Next(nLimit), side)
    ensures next.nChainTrust > s.pindexBest.nChainTrust
  {
    hide OfBlock, CheckBlock, Freshness.OnDisk, Freshness.CollisionFree, Bits, CChainState.Connected,
      CChainState.Indexed, CChainState.Acceptable, Refusals, ConnectsFrom, Difficulty.BlockTrust, Best, Side, Next,
      RunEnv, IsAncestor, IsFork, CTxDB.Failures, CChainState.IoFailures, AllAccepted, CBlockIndex.Linked,
      Difficulty.Decode, Targets.LimitsOf;
    DifferentHashes(nLimit);
    Low(s, side, nLimit);
    GenesisNode(s, nLimit);
    NextAcceptable(s, side, nLimit);
    NothingFails(s);
    ghost var genesis, best := s.pindexGenesisBlock, s.pindexBest;
    ghost var node, pfork, first, reached;
    ok, node, pfork, first, reached := s.AcceptBlock(Next(nLimit), 0, 3);
    next := node;
    NothingFails(s);
    AddsTrust(s, side, genesis, Side(nLimit));
    AddsTrust(s, next, side, Next(nLimit));
    SideRefused(s, best, side, next, pfork, first, genesis, nLimit);
  }

  lemma Outcome(s: CChainState, side: CBlockIndex, next: CBlockIndex, nLimit: BigNum.Target)
    requires Running(s, nLimit) && NodeOf(s, s.pindexBest, Best(nLimit), s.pindexGenesisBlock)
    requires NodeOf(s, side, Side(nLimit), s.pindexGenesisBlock) && NodeOf(s, next, Next(nLimit), side)
    ensures s.Valid() && s.txdb.Failures() == 0 && s.IoFailures() == 0
    ensures s.InTree(side) && s.InTree(next) && side.pprev == s.pindexGenesisBlock && next.pprev == side
    ensures s.pindexBest.hash == OfBlock(Best(nLimit)) && IsAncestor(s.pindexGenesisBlock, side)
    ensures ConnectsFrom(s.env, s.mempool, s.pindexGenesisBlock, side, 0) && NodeConnects(s.env, s.mempool, next, 1)
    ensures !ConnectsFrom(s.env, s.mempool, s.pindexGenesisBlock, side, 1)
  {
    hide BlockConnects, RunEnv, Best, Side, Next, Accepted, ConnectsFrom, NodeConnects, Freshness.CollisionFree,
      CChainState.Connected, CChainState.Indexed, Difficulty.BlockTrust, CTxDB.Failures, CChainState.IoFailures;
    NothingFails(s);
    SideConnects(s, side, s.pindexGenesisBlock, nLimit);
    NextNodeConnects(s, side, next, s.pindexGenesisBlock, nLimit);
  }

  /** The run: a chain that beats the best one is refused though nothing fails and its blocks connect in turn, each
      with the best height just below it. */
  method Run(nLimit: BigNum.Target)
    returns (s: CChainState, okBest: bool, okSide: bool, okNext: bool, ghost side: CBlockIndex, ghost next: CBlockIndex)
    ensures okBest && okSide && !okNext && s.Valid() && s.txdb.Failures() == 0 && s.IoFailures() == 0
    ensures s.InTree(side) && s.InTree(next) && side.pprev == s.pindexGenesisBlock && next.pprev == side
    ensures s.pindexBest.hash == OfBlock(Best(nLimit)) && next.nChainTrust > s.pindexBest.nChainTrust
    ensures ConnectsFrom(s.env, s.mempool, s.pindexGenesisBlock, side, 0) && NodeConnects(s.env, s.mempool, next, 1)
    ensures !ConnectsFrom(s.env, s.mempool, s.pindexGenesisBlock, side, 1)
  {
    hide Started, Extended, Split, Running, NodeOf, CChainState.Valid, CChainState.Base, CChainState.InTree, RunEnv,
      Best, Side, Next,
      ConnectsFrom, NodeConnects, IsAncestor, AllAccepted, CBlockIndex.Linked;
    s := Start(nLimit);
    okBest := AddBest(s, nLimit);
    okSide, side := AddSide(s, nLimit);
    okNext, next := AddNext(s, side, nLimit);
    Outcome(s, side, next, nLimit);
  }
}
