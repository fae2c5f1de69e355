/** The transaction index that belongs to each block of the tree: the replay of its chain. */
module ChainIndex {
  import opened Transactions
  import opened Ledger
  import opened BlockIndex
  import opened BlockTree
  import opened ConnectInputs
  import opened ConnectBlock
  import Freshness
  import Supply

  /** The block stored for a node. */
  function BlockOf(env: Env, p: CBlockIndex): Option<Block> {
    env.blockAt(p.nFile, p.nBlockPos)
  }

  /** What AcceptBlock has established for a node before it enters the tree. */
  ghost predicate Accepted(env: Env, p: CBlockIndex)
    requires BlockOf(env, p).Some?
  {
    && env.blockHash(BlockOf(env, p).value) == p.hash
    && Freshness.OnDisk(env, PlacedOf(env, p))
    && p.nHeight < 0x8000_0000
    && CheckBlock(env, BlockOf(env, p).value)
    && Freshness.HasHeight(BlockOf(env, p).value.vtx[0], p.nHeight)
  }

  function PlacedOf(env: Env, p: CBlockIndex): Placed
    requires BlockOf(env, p).Some?
  {
    PlacedAt(p, BlockOf(env, p).value)
  }

  /** All nodes up to p but the root have been accepted. */
  ghost predicate AllAccepted(env: Env, p: CBlockIndex)
    requires p.Linked()
    decreases p.nHeight
  {
    p.pprev == null || (AllAccepted(env, p.pprev) && BlockOf(env, p).Some? && Accepted(env, p))
  }

  /** The index after connecting the chain up to p; the root's own transactions are never connected. */
  ghost function IndexAt(env: Env, p: CBlockIndex): Index
    requires p.Linked() && AllAccepted(env, p)
    decreases p.nHeight
  {
    if p.pprev == null then map[] else ApplyBlock(env, IndexAt(env, p.pprev), PlacedOf(env, p))
  }

  ghost predicate NodeConnects(env: Env, mempool: map<uint256, Tx>, p: CBlockIndex, nBestHeight: int)
    requires p.Linked() && p.pprev != null && AllAccepted(env, p)
  {
    BlockConnects(env, mempool, IndexAt(env, p.pprev), p, BlockOf(env, p).value, nBestHeight)
  }

  /** Each block after the fork, up to p, connects to the index of its parent. */
  ghost predicate ConnectsFrom(env: Env, mempool: map<uint256, Tx>, fork: CBlockIndex, p: CBlockIndex, nBestHeight: int)
    requires p.Linked() && AllAccepted(env, p) && IsAncestor(fork, p)
    decreases p.nHeight
  {
    p == fork ||
    (ConnectsFrom(env, mempool, fork, p.pprev, nBestHeight) && NodeConnects(env, mempool, p, nBestHeight))
  }

  /** A branch connects exactly when each of its blocks connects to the index of its parent, all of them judged by the
      same best height. */
  lemma {:induction false} ConnectsFromMeans(env: Env, mempool: map<uint256, Tx>, fork: CBlockIndex, p: CBlockIndex,
                                             nBestHeight: int)
    requires p.Linked() && AllAccepted(env, p) && IsAncestor(fork, p)
    ensures fork.nHeight <= p.nHeight
    ensures ConnectsFrom(env, mempool, fork, p, nBestHeight) <==>
      forall h :: fork.nHeight < h <= p.nHeight ==> StepConnects(env, mempool, p, h, nBestHeight)
    decreases p.nHeight
  {
    hide BlockConnects, Accepted, IndexAt, StepConnects;
    AncestorFacts(fork, p);
    if p != fork {
      ConnectsFromMeans(env, mempool, fork, p.pprev, nBestHeight);
      LastStep(env, mempool, p, nBestHeight);
      forall h | fork.nHeight < h < p.nHeight
        ensures StepConnects(env, mempool, p, h, nBestHeight) == StepConnects(env, mempool, p.pprev, h, nBestHeight)
      {
        SameStep(env, mempool, p, h, nBestHeight);
      }
    }
  }

  /** The block at height h of the path to p connects to the replay of those before it. */
  ghost predicate StepConnects(env: Env, mempool: map<uint256, Tx>, p: CBlockIndex, h: nat, nBestHeight: int)
    requires p.Linked()
  {
    && 0 < h <= p.nHeight && p.Path()[h - 1].Linked() && AllAccepted(env, p.Path()[h - 1])
    && var n := p.Path()[h];
       BlockOf(env, n).Some? && BlockConnects(env, mempool, IndexAt(env, p.Path()[h - 1]), n, BlockOf(env, n).value,
         nBestHeight)
  }

  lemma LastStep(env: Env, mempool: map<uint256, Tx>, p: CBlockIndex, nBestHeight: int)
    requires p.Linked() && AllAccepted(env, p) && p.pprev != null
    ensures StepConnects(env, mempool, p, p.nHeight, nBestHeight) == NodeConnects(env, mempool, p, nBestHeight)
  {
    hide BlockConnects, Accepted, IndexAt;
    assert p.Path()[p.nHeight] == p && p.Path()[p.nHeight - 1] == p.pprev;
  }

  lemma SameStep(env: Env, mempool: map<uint256, Tx>, p: CBlockIndex, h: nat, nBestHeight: int)
    requires p.Linked() && p.pprev != null && 0 < h < p.nHeight
    ensures StepConnects(env, mempool, p, h, nBestHeight) == StepConnects(env, mempool, p.pprev, h, nBestHeight)
  {
    hide BlockConnects, Accepted, IndexAt, AllAccepted;
    assert p.Path()[h] == p.pprev.Path()[h] && p.Path()[h - 1] == p.pprev.Path()[h - 1];
  }

  /** Every transaction of the chain up to p spends unspent outputs of what came before it. */
  ghost predicate Replayable(env: Env, p: CBlockIndex)
    requires p.Linked() && AllAccepted(env, p)
    decreases p.nHeight
  {
    p.pprev == null ||
    (Replayable(env, p.pprev) && SpendableTxs(env, IndexAt(env, p.pprev), PlacedOf(env, p), |PlacedOf(env, p).vtx|))
  }

  lemma AcceptedIsShaped(env: Env, p: CBlockIndex)
    requires BlockOf(env, p).Some? && Accepted(env, p)
    ensures Freshness.Shaped(PlacedOf(env, p), p.nHeight)
  {
    var vtx := BlockOf(env, p).value.vtx;
    forall i | 0 < i < |vtx|
      ensures !vtx[i].IsCoinBase() && |vtx[i].vin| > 0
    {
      assert vtx[i] in vtx && CheckTransaction(env, vtx[i]);
    }
  }

  /** Along a replayable chain the index stays well formed, so ids never come back. */
  lemma {:induction false} ChainWellIndexed(env: Env, p: CBlockIndex)
    requires Freshness.CollisionFree(env)
    requires p.Linked() && AllAccepted(env, p) && Replayable(env, p)
    ensures Freshness.WellIndexed(env, IndexAt(env, p), p.nHeight + 1)
    ensures p.pprev != null ==>
      FreshIds(env, IndexAt(env, p.pprev), PlacedOf(env, p).vtx)
        && SpendableBlock(env, IndexAt(env, p.pprev), PlacedOf(env, p))
    decreases p.nHeight
  {
    hide Freshness.CollisionFree, Freshness.WellIndexed, Freshness.GoodRecord, Accepted, ApplyBlock, SpendableTxs,
      SpendableBlock, FreshIds;
    if p.pprev == null {
      EmptyIsWellIndexed(env, p.nHeight + 1);
    } else {
      ChainWellIndexed(env, p.pprev);
      AcceptedIsShaped(env, p);
      AcceptedFacts(env, p);
      Freshness.BlockIsFresh(env, IndexAt(env, p.pprev), PlacedOf(env, p), p.nHeight);
    }
  }

  lemma EmptyIsWellIndexed(env: Env, nHeight: int)
    ensures Freshness.WellIndexed(env, map[], nHeight)
  {
  }

  lemma AcceptedFacts(env: Env, p: CBlockIndex)
    requires BlockOf(env, p).Some? && Accepted(env, p)
    ensures Freshness.OnDisk(env, PlacedOf(env, p)) && 0 <= p.nHeight < 0x8000_0000
    ensures CheckBlock(env, BlockOf(env, p).value) && NoDuplicates(Ids(env, PlacedOf(env, p).vtx))
  {
  }

  /** Disconnecting the tip of a replayable chain gives the index of its parent, and cannot fail. */
  lemma TipUndoes(env: Env, p: CBlockIndex)
    requires Freshness.CollisionFree(env)
    requires p.Linked() && p.pprev != null && AllAccepted(env, p) && Replayable(env, p)
    ensures UndoBlock(env, IndexAt(env, p), PlacedOf(env, p)) == IndexAt(env, p.pprev)
    ensures UndoableTxs(env, IndexAt(env, p), PlacedOf(env, p).vtx, |PlacedOf(env, p).vtx|)
  {
    hide Freshness.CollisionFree, Freshness.WellIndexed, Accepted, SpendableTxs, ApplyTxs, UndoTxs, UndoableTxs,
      FreshIds;
    ChainWellIndexed(env, p);
    var ix, b := IndexAt(env, p.pprev), PlacedOf(env, p);
    UndoInvertsApplyBlock(env, ix, b);
    ConnectedIsUndoable(env, ix, b, |b.vtx|);
  }

  /** Records along a replayable chain belong to transactions on disk. */
  lemma ChainStored(env: Env, p: CBlockIndex)
    requires Freshness.CollisionFree(env)
    requires p.Linked() && AllAccepted(env, p) && Replayable(env, p)
    ensures Supply.Stored(env, IndexAt(env, p))
  {
    hide Freshness.CollisionFree, Accepted, ApplyBlock, AllAccepted, Replayable;
    ChainWellIndexed(env, p);
    forall h | h in IndexAt(env, p)
      ensures Supply.StoredRecord(env, IndexAt(env, p)[h])
    {
      assert Freshness.GoodRecord(env, IndexAt(env, p), h, p.nHeight + 1);
    }
  }

  /** A block that connects extends a replayable chain, and moves the total of unspent outputs by what it
      puts out and takes in. */
  lemma ConnectedBlock(env: Env, mempool: map<uint256, Tx>, p: CBlockIndex, nBestHeight: int)
    requires Freshness.CollisionFree(env)
    requires p.Linked() && p.pprev != null && AllAccepted(env, p) && Replayable(env, p.pprev)
    requires NodeConnects(env, mempool, p, nBestHeight)
    ensures Replayable(env, p)
    ensures var t := TotalsOf(env, mempool, IndexAt(env, p.pprev), PlacedOf(env, p), |PlacedOf(env, p).vtx|);
      && Supply.Total(env, IndexAt(env, p)) == Supply.Total(env, IndexAt(env, p.pprev)) + t.nValueOut - t.nValueIn
      && t.nBurnCoins == Wrap(Supply.BurnedIn(PlacedOf(env, p).vtx))
  {
    hide Freshness.CollisionFree, Accepted, CheckBlock, TxsConnect, RewardOk, SpendableTxs, ApplyTxs, TotalsOf,
         Supply.Total, Supply.BurnedIn, Wrap, Supply.Stored, NoDuplicates, Freshness.OnDisk;
    ChainStored(env, p.pprev);
    AcceptedFacts(env, p);
    var b := PlacedOf(env, p);
    assert b.vtx[..|b.vtx|] == b.vtx;
    Supply.TxsTotal(env, mempool, IndexAt(env, p.pprev), b, |b.vtx|, p, nBestHeight);
  }

  // ----- the supply of a chain

  /** The coins burned along the chain up to p. */
  ghost function BurnedUpTo(env: Env, p: CBlockIndex): int
    requires p.Linked() && AllAccepted(env, p)
    decreases p.nHeight
  {
    if p.pprev == null then 0 else BurnedUpTo(env, p.pprev) + Supply.BurnedIn(PlacedOf(env, p).vtx)
  }

  /** The money supply that belongs to a block: unspent outputs less the coins burned, modulo 2^64. */
  ghost function SupplyAt(env: Env, p: CBlockIndex): nat
    requires p.Linked() && AllAccepted(env, p)
  {
    Wrap(Supply.Total(env, IndexAt(env, p)) - BurnedUpTo(env, p))
  }

  /** The supply figure ConnectBlock stores is the one that belongs to the block, if its parent's was. */
  lemma MintedSupply(env: Env, mempool: map<uint256, Tx>, p: CBlockIndex, nBestHeight: int)
    requires Freshness.CollisionFree(env)
    requires p.Linked() && p.pprev != null && AllAccepted(env, p) && Replayable(env, p.pprev)
    requires NodeConnects(env, mempool, p, nBestHeight)
    requires Minted(env, mempool, IndexAt(env, p.pprev), p, BlockOf(env, p).value)
    requires p.pprev.nMoneySupply == SupplyAt(env, p.pprev)
    ensures p.nMoneySupply == SupplyAt(env, p)
  {
    hide Freshness.CollisionFree, Accepted, NodeConnects, Replayable, TotalsOf, Supply.Total, Supply.BurnedIn, IndexAt;
    ConnectedBlock(env, mempool, p, nBestHeight);
    var t := TotalsOf(env, mempool, IndexAt(env, p.pprev), PlacedOf(env, p), |PlacedOf(env, p).vtx|);
    WrapChain(Supply.Total(env, IndexAt(env, p.pprev)) - BurnedUpTo(env, p.pprev), t.nValueOut - t.nValueIn,
      Supply.BurnedIn(PlacedOf(env, p).vtx));
  }

  lemma WrapChain(a: int, d: int, burned: int)
    ensures Wrap(Wrap(a) + d - Wrap(burned)) == Wrap(a + d - burned)
  {
  }

  /** Replay of the blocks of a chain, oldest first, written as a fold over the sequence of blocks. */
  ghost function BlocksUpTo(env: Env, p: CBlockIndex): seq<Placed>
    requires p.Linked() && AllAccepted(env, p)
    decreases p.nHeight
  {
    if p.pprev == null then [] else BlocksUpTo(env, p.pprev) + [PlacedOf(env, p)]
  }

  lemma {:induction false} IndexIsReplay(env: Env, p: CBlockIndex)
    requires p.Linked() && AllAccepted(env, p)
    ensures IndexAt(env, p) == Replay(env, BlocksUpTo(env, p))
    decreases p.nHeight
  {
    if p.pprev != null {
      IndexIsReplay(env, p.pprev);
      var bs := BlocksUpTo(env, p);
      assert bs[..|bs| - 1] == BlocksUpTo(env, p.pprev);
    }
  }
}
