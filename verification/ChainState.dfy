/** The global chain state of main.cpp: the block tree, the best chain and its transaction index, and the
    operations that move the best chain. */
module ChainState {
  import opened Basics
  import opened Transactions
  import opened Ledger
  import opened TxDb
  import opened BlockIndex
  import opened BlockTree
  import opened ChainIndex
  import ConnectBlock
  import ConnectInputs
  import Freshness
  import Supply
  import Script
  import Targets
  import Difficulty

  class CChainState {
    const env: Env
    const mempool: map<uint256, Tx>
    const txdb: CTxDB
    const pindexGenesisBlock: CBlockIndex

    var mapBlockIndex: map<uint256, CBlockIndex>
    var pindexBest: CBlockIndex
    var hashBestChain: uint256
    var nBestHeight: int
    var nBestChainTrust: nat
    var pblockindexFBBHLast: CBlockIndex?
    const unreadable: nat -> bool   // which reads of the block files fail
    var nReads: nat

    // ----- invariants

    ghost predicate InTree(n: CBlockIndex)
      reads `mapBlockIndex
    {
      && n.hash in mapBlockIndex && mapBlockIndex[n.hash] == n
      && n.Linked() && AllAccepted(env, n) && IsAncestor(pindexGenesisBlock, n)
      && (n.pprev != null ==> n.pprev.hash in mapBlockIndex && mapBlockIndex[n.pprev.hash] == n.pprev)
    }

    /** Every node is filed under its hash and hangs, through nodes of the tree, from the genesis block. */
    ghost predicate Tree()
      reads `mapBlockIndex
    {
      && (forall h :: h in mapBlockIndex ==> InTree(mapBlockIndex[h]) && mapBlockIndex[h].hash == h)
      && pindexGenesisBlock.pprev == null
    }

    /** The links follow the chain of the tip and nothing else. */
    ghost predicate Links(tip: CBlockIndex)
      requires tip.Linked()
      reads `mapBlockIndex, mapBlockIndex.Values`pnext
    {
      forall n :: n in mapBlockIndex.Values ==> n.pnext == ChildToward(tip, n)
    }

    /** The money supply figures along the chain of the tip are the ones that belong to its blocks. */
    ghost predicate SupplyOk(tip: CBlockIndex)
      requires Tree() && tip.Linked()
      reads `mapBlockIndex, mapBlockIndex.Values`nMoneySupply
    {
      forall h :: h in mapBlockIndex && IsAncestor(mapBlockIndex[h], tip) ==>
        mapBlockIndex[h].nMoneySupply == SupplyAt(env, mapBlockIndex[h])
    }

    /** What holds in memory of a tip whose chain has been connected. */
    ghost predicate Connected(tip: CBlockIndex)
      requires Tree() && InTree(tip)
      reads `mapBlockIndex, mapBlockIndex.Values
    {
      Links(tip) && SupplyOk(tip) && Replayable(env, tip)
    }

    /** The database holds exactly the replay of the tip's chain. */
    ghost predicate Indexed(tip: CBlockIndex)
      requires Tree() && InTree(tip)
      reads `mapBlockIndex, txdb
    {
      txdb.stored == IndexAt(env, tip) && txdb.storedBest == tip.hash
    }

    /** The tip's figures are the ones kept beside it. */
    ghost predicate BestFigures()
      reads `pindexBest, `hashBestChain, `nBestHeight, `nBestChainTrust
    {
      && hashBestChain == pindexBest.hash && nBestHeight == pindexBest.nHeight
      && nBestChainTrust == pindexBest.nChainTrust
    }

    ghost predicate Base()
      reads `mapBlockIndex, `pindexBest, `hashBestChain, `nBestHeight, `nBestChainTrust
    {
      Freshness.CollisionFree(env) && Tree() && InTree(pindexBest) && BestFigures()
    }

    ghost predicate Valid()
      reads this, txdb, mapBlockIndex.Values
    {
      && Base()
      && txdb.activeBatch.None?
      && Connected(pindexBest) && Indexed(pindexBest)
      && (pblockindexFBBHLast != null ==> IsAncestor(pblockindexFBBHLast, pindexBest))
    }

    // ----- the genesis block

    /** The first branch of SetBestChain: only the best hash is written. */
    static method ConnectGenesis(txdb: CTxDB, hash: uint256) returns (ok: bool)
      requires txdb.activeBatch.None?
      modifies txdb
      ensures txdb.activeBatch.None? && txdb.stored == old(txdb.stored)
      ensures txdb.storedBest == if ok then hash else old(txdb.storedBest)
      ensures txdb.nWrites == old(txdb.nWrites) + 1 && ok == !txdb.refuses(old(txdb.nWrites))
    {
      txdb.TxnBegin();
      var written := txdb.WriteHashBestChain(hash);
      ok := txdb.TxnCommit();
    }

    /** The state once the genesis block is in. */
    constructor (env: Env, mempool: map<uint256, Tx>, txdb: CTxDB, genesis: CBlockIndex, unreadable: nat -> bool)
      requires Freshness.CollisionFree(env)
      requires genesis.pprev == null && genesis.nHeight == 0 && genesis.pnext == null && genesis.nMoneySupply == 0
      requires txdb.activeBatch.None? && txdb.stored == map[] && txdb.storedBest == genesis.hash
      ensures Valid() && pindexBest == genesis && pindexGenesisBlock == genesis
      ensures this.env == env && this.mempool == mempool && this.txdb == txdb
        && mapBlockIndex == map[genesis.hash := genesis]
      ensures this.unreadable == unreadable && nReads == 0
    {
      this.env, this.mempool, this.txdb, pindexGenesisBlock := env, mempool, txdb, genesis;
      mapBlockIndex := map[genesis.hash := genesis];
      pindexBest, hashBestChain, nBestHeight, nBestChainTrust := genesis, genesis.hash, genesis.nHeight,
        genesis.nChainTrust;
      pblockindexFBBHLast, this.unreadable, nReads := null, unreadable, 0;
    }

    // ----- reading a block back

    /** The reads that have failed so far. */
    ghost function IoFailures(): nat
      reads `nReads
    {
      Refusals(unreadable, nReads)
    }

    lemma HasBlock(p: CBlockIndex)
      requires InTree(p) && p.pprev != null
      ensures BlockOf(env, p).Some?
    {
      hide Accepted, IsAncestor;
    }

    /** ReadFromDisk of a node's block; it may fail. */
    method ReadFromDisk(pindex: CBlockIndex) returns (block: Option<Block>)
      requires Base() && InTree(pindex) && pindex.pprev != null
      modifies this`nReads
      ensures block.Some? ==> block == BlockOf(env, pindex) && IoFailures() == old(IoFailures())
      ensures block.None? ==> IoFailures() == old(IoFailures()) + 1
    {
      hide Base, AllAccepted, IsAncestor;
      HasBlock(pindex);
      block := if unreadable(nReads) then None else env.blockAt(pindex.nFile, pindex.nBlockPos);
      nReads := nReads + 1;
    }

    // ----- connecting one more block

    /** ConnectBlock on top of the index of its parent. */
    method ConnectTip(p: CBlockIndex, block: Block, ghost others: CBlockIndex) returns (ok: bool)
      requires Base() && InTree(p) && p.pprev != null && BlockOf(env, p) == Some(block)
      requires txdb.activeBatch.Some? && txdb.View() == IndexAt(env, p.pprev)
      requires Replayable(env, p.pprev) && SupplyOk(p.pprev)
      requires InTree(others) && !IsAncestor(p, others) && SupplyOk(others)
      modifies txdb, p`nMint, p`nMoneySupply
      ensures txdb.activeBatch.Some? && txdb.stored == old(txdb.stored) && txdb.storedBest == old(txdb.storedBest)
      ensures txdb.nWrites == old(txdb.nWrites)
      ensures ok == NodeConnects(env, mempool, p, nBestHeight)
      ensures ok ==> txdb.View() == IndexAt(env, p) && Replayable(env, p) && SupplyOk(p)
      ensures SupplyOk(p.pprev) && SupplyOk(others)
      ensures !ok ==> unchanged(p)
    {
      hide Refusals, Written, WrittenBest, Freshness.CollisionFree, ConnectBlock.BlockConnects, SupplyAt, Replayable,
        AllAccepted, ApplyBlock, ConnectBlock.Minted;
      ok := ConnectBlock.ConnectBlock(env, mempool, txdb, block, p, nBestHeight);
      assert !IsAncestor(p, p.pprev) by {
        if IsAncestor(p, p.pprev) { AncestorFacts(p, p.pprev); }
      }
      if ok {
        ConnectedBlock(env, mempool, p, nBestHeight);
        MintedSupply(env, mempool, p, nBestHeight);
      }
    }

    // ----- Reorganize

    /** The nodes of a branch, tip first. */
    method CollectDown(pfork: CBlockIndex, tip: CBlockIndex) returns (v: seq<CBlockIndex>)
      requires tip.Linked() && IsAncestor(pfork, tip)
      ensures v == DownFrom(pfork, tip)
    {
      v := [];
      var pindex: CBlockIndex := tip;
      while pindex != pfork
        invariant pindex.Linked() && IsAncestor(pfork, pindex)
        invariant v + DownFrom(pfork, pindex) == DownFrom(pfork, tip)
        decreases pindex.nHeight
      {
        v := v + [pindex];
        pindex := pindex.pprev;
      }
    }

    /** Blocks of the tree have their parents in the tree. */
    lemma {:induction false} BranchInTree(pfork: CBlockIndex, tip: CBlockIndex)
      requires Tree() && InTree(tip) && IsAncestor(pfork, tip)
      ensures InTree(pfork)
      ensures forall n :: n in Segment(pfork, tip) ==> InTree(n)
      ensures forall n :: n in DownFrom(pfork, tip) ==> InTree(n)
      decreases tip.nHeight
    {
      if pfork != tip { BranchInTree(pfork, tip.pprev); }
    }

    lemma {:induction false} ReplayableBelow(a: CBlockIndex, tip: CBlockIndex)
      requires tip.Linked() && AllAccepted(env, tip) && Replayable(env, tip) && IsAncestor(a, tip)
      ensures a.Linked() && AllAccepted(env, a) && Replayable(env, a)
      decreases tip.nHeight
    {
      if a != tip { ReplayableBelow(a, tip.pprev); }
    }

    /** Read and disconnect the block at the tip of a connected chain. */
    method DisconnectTip(p: CBlockIndex) returns (ok: bool)
      requires Base() && InTree(p) && p.pprev != null && Replayable(env, p)
      requires txdb.activeBatch.Some? && txdb.View() == IndexAt(env, p)
      modifies txdb, this`nReads
      ensures txdb.activeBatch.Some? && txdb.stored == old(txdb.stored) && txdb.storedBest == old(txdb.storedBest)
      ensures txdb.nWrites == old(txdb.nWrites)
      ensures IoFailures() == old(IoFailures()) + if ok then 0 else 1
      ensures ok ==> txdb.View() == IndexAt(env, p.pprev)
    {
      hide Refusals, Written, WrittenBest, Freshness.CollisionFree, Tree, SupplyOk, Accepted, ApplyBlock,
        ConnectBlock.UndoableTxs, UndoTxs;
      var block := ReadFromDisk(p);
      if block.None? {
        return false;
      }
      TipUndoes(env, p);
      ok := ConnectBlock.DisconnectBlock(env, txdb, block.value);
    }

    lemma OneDown(pfork: CBlockIndex, cur: CBlockIndex)
      requires Tree() && InTree(cur) && IsAncestor(pfork, cur) && cur != pfork && Replayable(env, cur)
      ensures cur.pprev != null && InTree(cur.pprev) && Replayable(env, cur.pprev) && IsAncestor(pfork, cur.pprev)
      ensures DownFrom(pfork, cur) == [cur] + DownFrom(pfork, cur.pprev)
    {
    }

    /** Disconnect the shorter branch, tip first: the index goes back to that of the fork. */
    method DisconnectBranch(pfork: CBlockIndex, tip: CBlockIndex, v: seq<CBlockIndex>) returns (ok: bool)
      requires Base() && InTree(tip) && Replayable(env, tip) && IsAncestor(pfork, tip) && v == DownFrom(pfork, tip)
      requires txdb.activeBatch.Some? && txdb.View() == IndexAt(env, tip)
      modifies txdb, this`nReads
      ensures txdb.activeBatch.Some? && txdb.stored == old(txdb.stored) && txdb.storedBest == old(txdb.storedBest)
      ensures txdb.nWrites == old(txdb.nWrites)
      ensures if ok then IoFailures() == old(IoFailures()) else IoFailures() > old(IoFailures())
      ensures ok ==> InTree(pfork) && Replayable(env, pfork) && txdb.View() == IndexAt(env, pfork)
    {
      hide Refusals, Written, WrittenBest, Freshness.CollisionFree, Tree, AllAccepted, Replayable, IndexAt, IsAncestor;
      ghost var cur: CBlockIndex := tip;
      for i := 0 to |v|
        invariant Base() && InTree(cur) && IsAncestor(pfork, cur) && DownFrom(pfork, cur) == v[i..]
          && Replayable(env, cur)
        invariant txdb.activeBatch.Some? && txdb.stored == old(txdb.stored) && txdb.storedBest == old(txdb.storedBest)
        invariant txdb.nWrites == old(txdb.nWrites) && IoFailures() == old(IoFailures())
        invariant txdb.View() == IndexAt(env, cur)
      {
        OneDown(pfork, cur);
        ok := DisconnectTip(v[i]);
        if !ok {
          return;
        }
        cur := cur.pprev;
      }
      ok := true;
    }

    /** Connect the longer branch, oldest first. */
    method ConnectBranch(pfork: CBlockIndex, tip: CBlockIndex, w: seq<CBlockIndex>) returns (ok: bool)
      requires Base() && InTree(tip) && IsAncestor(pfork, tip) && w == Segment(pfork, tip)
      requires InTree(pfork) && Replayable(env, pfork) && SupplyOk(pfork) && SupplyOk(pindexBest)
      requires IsFork(pfork, pindexBest, tip, mapBlockIndex.Values)
      requires txdb.activeBatch.Some? && txdb.View() == IndexAt(env, pfork)
      modifies txdb, this`nReads, (set n | n in w)`nMint, (set n | n in w)`nMoneySupply
      ensures Base() && InTree(tip)
      ensures txdb.activeBatch.Some? && txdb.stored == old(txdb.stored) && txdb.storedBest == old(txdb.storedBest)
      ensures txdb.nWrites == old(txdb.nWrites)
      ensures SupplyOk(pindexBest)
      ensures ok ==> txdb.View() == IndexAt(env, tip) && Replayable(env, tip) && SupplyOk(tip)
      ensures ok ==> IoFailures() == old(IoFailures()) && ConnectsFrom(env, mempool, pfork, tip, nBestHeight)
      ensures !ok ==> IoFailures() > old(IoFailures()) || !ConnectsFrom(env, mempool, pfork, tip, nBestHeight)
    {
      hide Refusals, Written, WrittenBest, Freshness.CollisionFree, SupplyOk, Accepted, ApplyBlock, NodeConnects,
        AllAccepted, IndexAt, IsAncestor, Tree, CBlockIndex.Linked;
      ghost var cur: CBlockIndex := pfork;
      SelfAncestor(pfork);
      BranchInTree(pfork, tip);
      for i := 0 to |w|
        invariant Base() && InTree(cur) && cur == (if i == 0 then pfork else w[i - 1])
        invariant IsAncestor(pfork, cur) && Replayable(env, cur) && SupplyOk(cur) && SupplyOk(pindexBest)
        invariant txdb.activeBatch.Some? && txdb.stored == old(txdb.stored) && txdb.storedBest == old(txdb.storedBest)
        invariant txdb.nWrites == old(txdb.nWrites) && IoFailures() == old(IoFailures())
        invariant txdb.View() == IndexAt(env, cur)
        invariant ConnectsFrom(env, mempool, pfork, cur, nBestHeight)
      {
        SegmentAt(pfork, tip, i);
        assert w[i] in w;
        AboveFork(pfork, pindexBest, tip, w[i], mapBlockIndex.Values);
        var block := ReadFromDisk(w[i]);
        if block.None? {
          return false;
        }
        ok := ConnectTip(w[i], block.value, pindexBest);
        if !ok {
          BrokenBranch(pfork, w[i], tip);
          return;
        }
        cur := w[i];
      }
      if |w| > 0 {
        assert cur == tip;
      }
      ok := true;
    }

    /** A branch does not connect when one of its blocks does not. */
    lemma {:induction false} BrokenBranch(pfork: CBlockIndex, q: CBlockIndex, tip: CBlockIndex)
      requires tip.Linked() && AllAccepted(env, tip) && IsAncestor(pfork, tip) && IsAncestor(q, tip)
      requires q.Linked() && q != pfork && IsAncestor(pfork, q) && q.pprev != null
      requires AllAccepted(env, q) && !NodeConnects(env, mempool, q, nBestHeight)
      ensures !ConnectsFrom(env, mempool, pfork, tip, nBestHeight)
      decreases tip.nHeight
    {
      if q != tip {
        AncestorFacts(pfork, q);
        AncestorFacts(q, tip);
        BrokenBranch(pfork, q, tip.pprev);
      }
    }

    // ----- moving the links

    /** Clear the links of the disconnected branch. */
    method UnlinkBranch(pfork: CBlockIndex, tip: CBlockIndex, v: seq<CBlockIndex>)
      requires Tree() && InTree(tip) && IsAncestor(pfork, tip) && v == DownFrom(pfork, tip)
      requires Links(tip)
      modifies mapBlockIndex.Values`pnext
      ensures InTree(pfork) && Links(pfork)
    {
      hide AllAccepted, SupplyAt;
      ghost var cur: CBlockIndex := tip;
      for i := 0 to |v|
        invariant InTree(cur) && IsAncestor(pfork, cur) && DownFrom(pfork, cur) == v[i..]
        invariant Links(cur)
      {
        assert v[i] == cur && cur != pfork;
        if v[i].pprev != null {
          v[i].pprev.pnext := null;
        }
        forall n | n in mapBlockIndex.Values
          ensures n.pnext == ChildToward(cur.pprev, n)
        {
          ExtendTip(cur, n);
        }
        cur := cur.pprev;
      }
    }

    /** Set the links of the connected branch. */
    method LinkBranch(pfork: CBlockIndex, tip: CBlockIndex, w: seq<CBlockIndex>)
      requires Tree() && InTree(tip) && IsAncestor(pfork, tip) && w == Segment(pfork, tip)
      requires InTree(pfork) && Links(pfork)
      modifies mapBlockIndex.Values`pnext
      ensures Links(tip)
    {
      hide AllAccepted, SupplyAt;
      BranchInTree(pfork, tip);
      ghost var cur: CBlockIndex := pfork;
      for i := 0 to |w|
        invariant InTree(cur) && cur == (if i == 0 then pfork else w[i - 1])
        invariant Links(cur)
      {
        SegmentAt(pfork, tip, i);
        assert w[i] in w;
        if w[i].pprev != null {
          w[i].pprev.pnext := w[i];
        }
        forall n | n in mapBlockIndex.Values
          ensures n.pnext == ChildToward(w[i], n)
        {
          ExtendTip(w[i], n);
        }
        cur := w[i];
      }
      if |w| > 0 {
        assert cur == tip;
      }
    }

    lemma GenesisBelow(n: CBlockIndex)
      requires Tree() && InTree(n)
      ensures n.Linked() && IsAncestor(pindexGenesisBlock, n)
    {
    }

    /** The memory work of Reorganize. */
    method Relink(pfork: CBlockIndex, pindexNew: CBlockIndex, v: seq<CBlockIndex>, w: seq<CBlockIndex>)
      requires Tree() && InTree(pindexBest) && InTree(pindexNew) && InTree(pfork) && Links(pindexBest)
      requires IsAncestor(pfork, pindexBest) && IsAncestor(pfork, pindexNew)
      requires v == DownFrom(pfork, pindexBest) && w == Segment(pfork, pindexNew)
      modifies mapBlockIndex.Values`pnext
      ensures Links(pindexNew)
    {
      hide AllAccepted, Links, IsAncestor;
      UnlinkBranch(pfork, pindexBest, v);
      LinkBranch(pfork, pindexNew, w);
    }

    /** The database work of Reorganize. */
    method SwitchIndex(pfork: CBlockIndex, pindexNew: CBlockIndex, v: seq<CBlockIndex>,
                       w: seq<CBlockIndex>) returns (ok: bool)
      requires Base() && InTree(pindexNew) && SupplyOk(pindexBest) && Replayable(env, pindexBest)
      requires IsFork(pfork, pindexBest, pindexNew, mapBlockIndex.Values)
      requires v == DownFrom(pfork, pindexBest) && w == Segment(pfork, pindexNew)
      requires txdb.activeBatch.Some? && txdb.View() == IndexAt(env, pindexBest)
      modifies txdb, this`nReads, (set n | n in w)`nMint, (set n | n in w)`nMoneySupply
      ensures txdb.activeBatch.Some? && txdb.stored == old(txdb.stored) && txdb.storedBest == old(txdb.storedBest)
      ensures txdb.nWrites == old(txdb.nWrites) && InTree(pfork) && SupplyOk(pindexBest)
      ensures ok ==> txdb.View() == IndexAt(env, pindexNew) && Replayable(env, pindexNew) && SupplyOk(pindexNew)
      ensures ok ==> IoFailures() == old(IoFailures()) && ConnectsFrom(env, mempool, pfork, pindexNew, nBestHeight)
      ensures !ok ==> IoFailures() > old(IoFailures()) || !ConnectsFrom(env, mempool, pfork, pindexNew, nBestHeight)
    {
      hide Refusals, Written, WrittenBest, Freshness.CollisionFree, Tree, AllAccepted, SupplyOk, Replayable, IndexAt,
        ConnectsFrom, Segment, DownFrom, IsAncestor;
      BranchInTree(pfork, pindexBest);
      SupplyBelow(pfork, pindexBest);
      ok := DisconnectBranch(pfork, pindexBest, v);
      if ok {
        ok := ConnectBranch(pfork, pindexNew, w);
      }
    }

    /** Reorganize switches to the chain of pindexNew in one database transaction. Without a failing read or
        commit it succeeds exactly when every block of the longer branch connects, and a failure leaves the
        stored index, the links and the figures of the best chain as they were. */
    method Reorganize(pindexNew: CBlockIndex) returns (ok: bool, ghost pfork: CBlockIndex)
      requires Base() && InTree(pindexNew) && Connected(pindexBest) && Indexed(pindexBest)
      requires txdb.activeBatch.Some? && txdb.View() == txdb.stored
      modifies txdb, this`nReads, mapBlockIndex.Values
      ensures IsFork(pfork, pindexBest, pindexNew, mapBlockIndex.Values)
      ensures txdb.nWrites >= old(txdb.nWrites)
      ensures ok ==> txdb.activeBatch.None? && Connected(pindexNew) && Indexed(pindexNew)
      ensures !ok ==> Connected(pindexBest) && Indexed(pindexBest)
      ensures ok ==> ConnectsFrom(env, mempool, pfork, pindexNew, nBestHeight)
      ensures ok ==> IoFailures() == old(IoFailures()) && txdb.Failures() == old(txdb.Failures())
      ensures !ok && IoFailures() == old(IoFailures()) && txdb.Failures() == old(txdb.Failures()) ==>
        !ConnectsFrom(env, mempool, pfork, pindexNew, nBestHeight)
    {
      hide Refusals, Freshness.CollisionFree, Tree, AllAccepted, SupplyOk, Links, Replayable, IndexAt, ConnectsFrom,
        Segment, DownFrom, BestFigures, Written, WrittenBest, IsAncestor, CBlockIndex.Linked;
      GenesisBelow(pindexBest);
      GenesisBelow(pindexNew);
      var fork := FindFork(pindexBest, pindexNew, pindexGenesisBlock, mapBlockIndex.Values);
      pfork := fork;
      var vDisconnect := CollectDown(fork, pindexBest);
      var vConnect := CollectDown(fork, pindexNew);
      ReversedDown(fork, pindexNew);
      vConnect := Reversed(vConnect);
      BranchInTree(fork, pindexNew);
      ok := SwitchIndex(fork, pindexNew, vDisconnect, vConnect);
      if !ok {
        return;
      }
      var written := txdb.WriteHashBestChain(pindexNew.hash);
      ok := txdb.TxnCommit();
      if !ok {
        return;
      }
      Relink(fork, pindexNew, vDisconnect, vConnect);
    }

    lemma SupplyBelow(a: CBlockIndex, tip: CBlockIndex)
      requires Tree() && InTree(tip) && InTree(a) && IsAncestor(a, tip) && SupplyOk(tip)
      ensures SupplyOk(a)
    {
      forall h | h in mapBlockIndex && IsAncestor(mapBlockIndex[h], a)
        ensures mapBlockIndex[h].nMoneySupply == SupplyAt(env, mapBlockIndex[h])
      {
        AncestorTrans(mapBlockIndex[h], a, tip);
      }
    }

    // ----- SetBestChain

    /** Attach one block to the chain being built, in its own database transaction. */
    method SetBestChainInner(pindexNew: CBlockIndex, block: Block) returns (ok: bool)
      requires Base() && InTree(pindexNew) && pindexNew.pprev != null && BlockOf(env, pindexNew) == Some(block)
      requires InTree(pindexNew.pprev) && Connected(pindexNew.pprev) && Indexed(pindexNew.pprev)
      requires txdb.activeBatch.Some? && txdb.View() == txdb.stored
      modifies txdb, mapBlockIndex.Values
      ensures txdb.activeBatch.None?
      ensures txdb.nWrites >= old(txdb.nWrites)
      ensures ok ==> Connected(pindexNew) && Indexed(pindexNew)
      ensures !ok ==> Connected(pindexNew.pprev) && Indexed(pindexNew.pprev)
      ensures ok ==> NodeConnects(env, mempool, pindexNew, nBestHeight) && txdb.Failures() == old(txdb.Failures())
      ensures !ok && txdb.Failures() == old(txdb.Failures()) ==> !NodeConnects(env, mempool, pindexNew, nBestHeight)
    {
      hide Refusals, Written, WrittenBest, Freshness.CollisionFree, SupplyOk, Replayable, IndexAt, NodeConnects,
        AllAccepted;
      NotBelowParent(pindexNew);
      ok := ConnectTip(pindexNew, block, pindexNew.pprev);
      if ok {
        ok := txdb.WriteHashBestChain(pindexNew.hash);
      }
      if !ok {
        txdb.TxnAbort();
        return;
      }
      ok := txdb.TxnCommit();
      if !ok {
        return;
      }
      pindexNew.pprev.pnext := pindexNew;
      forall n | n in mapBlockIndex.Values
        ensures n.pnext == ChildToward(pindexNew, n)
      {
        ExtendTip(pindexNew, n);
      }
    }

    lemma NotBelowParent(p: CBlockIndex)
      requires p.Linked() && p.pprev != null
      ensures !IsAncestor(p, p.pprev)
    {
      if IsAncestor(p, p.pprev) { AncestorFacts(p, p.pprev); }
    }

    /** The lowest block of the new chain that already beats the best chain, and the blocks above it. */
    method FindIntermediate(pindexNew: CBlockIndex) returns (pindexIntermediate: CBlockIndex,
                            vpindexSecondary: seq<CBlockIndex>)
      requires Base() && InTree(pindexNew) && pindexNew.nChainTrust > pindexBest.nChainTrust
      ensures InTree(pindexIntermediate) && IsAncestor(pindexIntermediate, pindexNew)
      ensures vpindexSecondary == DownFrom(pindexIntermediate, pindexNew)
      ensures pindexIntermediate.nChainTrust > pindexBest.nChainTrust
      ensures pindexIntermediate.pprev != null ==> pindexIntermediate.pprev.nChainTrust <= pindexBest.nChainTrust
    {
      hide AllAccepted, Freshness.CollisionFree;
      pindexIntermediate, vpindexSecondary := pindexNew, [];
      while pindexIntermediate.pprev != null && pindexIntermediate.pprev.nChainTrust > pindexBest.nChainTrust
        invariant InTree(pindexIntermediate) && IsAncestor(pindexIntermediate, pindexNew)
        invariant pindexIntermediate.nChainTrust > pindexBest.nChainTrust
        invariant vpindexSecondary == DownFrom(pindexIntermediate, pindexNew)
        decreases pindexIntermediate.nHeight
      {
        DownOneMore(pindexIntermediate, pindexNew);
        vpindexSecondary := vpindexSecondary + [pindexIntermediate];
        pindexIntermediate := pindexIntermediate.pprev;
      }
    }

    lemma {:induction false} DownOneMore(f: CBlockIndex, p: CBlockIndex)
      requires p.Linked() && IsAncestor(f, p) && f.pprev != null && f.Linked()
      ensures IsAncestor(f.pprev, p) && DownFrom(f.pprev, p) == DownFrom(f, p) + [f]
      decreases p.nHeight
    {
      AncestorTrans(f.pprev, f, p);
      if f != p {
        DownOneMore(f, p.pprev);
        if f.pprev == p { AncestorFacts(f, p); }
      } else {
        NotBelowParent(p);
      }
    }

    /** Read one postponed block and attach it. */
    method ConnectNext(p: CBlockIndex) returns (ok: bool)
      requires Base() && InTree(p) && p.pprev != null
      requires InTree(p.pprev) && Connected(p.pprev) && Indexed(p.pprev)
      requires txdb.activeBatch.None?
      modifies txdb, this`nReads, mapBlockIndex.Values
      ensures txdb.activeBatch.None?
      ensures txdb.nWrites >= old(txdb.nWrites)
      ensures ok ==> Connected(p) && Indexed(p) && NodeConnects(env, mempool, p, nBestHeight)
      ensures ok ==> txdb.Failures() == old(txdb.Failures()) && IoFailures() == old(IoFailures())
      ensures !ok ==> Connected(p.pprev) && Indexed(p.pprev)
      ensures !ok && txdb.Failures() == old(txdb.Failures()) && IoFailures() == old(IoFailures()) ==>
        !NodeConnects(env, mempool, p, nBestHeight)
    {
      hide Refusals, Written, WrittenBest, Freshness.CollisionFree, SupplyOk, Replayable, IndexAt, NodeConnects,
        AllAccepted, Links, Tree, BestFigures;
      var block := ReadFromDisk(p);
      if block.None? {
        return false;
      }
      txdb.TxnBegin();
      ok := SetBestChainInner(p, block.value);
    }

    /** Connect the postponed blocks, each in its own transaction, until one fails. */
    method ConnectPostponed(first: CBlockIndex, pindexNew: CBlockIndex,
                            v: seq<CBlockIndex>) returns (ghost reached: CBlockIndex)
      requires Base() && InTree(pindexNew) && IsAncestor(first, pindexNew) && v == DownFrom(first, pindexNew)
      requires InTree(first) && Connected(first) && Indexed(first)
      requires txdb.activeBatch.None?
      modifies txdb, this`nReads, mapBlockIndex.Values
      ensures txdb.activeBatch.None?
      ensures txdb.nWrites >= old(txdb.nWrites)
      ensures InTree(reached) && IsAncestor(first, reached) && IsAncestor(reached, pindexNew)
      ensures Connected(reached) && Indexed(reached)
      ensures reached == pindexNew ==> ConnectsFrom(env, mempool, first, pindexNew, nBestHeight)
      ensures reached != pindexNew && txdb.Failures() == old(txdb.Failures()) && IoFailures() == old(IoFailures()) ==>
        !ConnectsFrom(env, mempool, first, pindexNew, nBestHeight)
    {
      hide Refusals, Written, WrittenBest, Freshness.CollisionFree, SupplyOk, Replayable, IndexAt, NodeConnects,
        AllAccepted, Links, BestFigures, IsAncestor, Tree;
      SelfAncestor(first);
      ReversedDown(first, pindexNew);
      BranchInTree(first, pindexNew);
      var w := Reversed(v);
      reached := first;
      for i := 0 to |w|
        invariant reached == (if i == 0 then first else w[i - 1])
        invariant Base() && InTree(reached) && IsAncestor(first, reached) && IsAncestor(reached, pindexNew)
        invariant Connected(reached) && Indexed(reached)
        invariant txdb.activeBatch.None?
        invariant txdb.nWrites >= old(txdb.nWrites)
        invariant txdb.Failures() == old(txdb.Failures()) && IoFailures() == old(IoFailures())
        invariant ConnectsFrom(env, mempool, first, reached, nBestHeight)
      {
        SegmentAt(first, pindexNew, i);
        assert w[i] in w;
        var ok := ConnectNext(w[i]);
        if !ok {
          NotReached(first, pindexNew, w, i);
          if !NodeConnects(env, mempool, w[i], nBestHeight) { BrokenBranch(first, w[i], pindexNew); }
          return;
        }
        reached := w[i];
      }
      if |w| > 0 {
        assert reached == pindexNew;
      }
    }

    lemma NotReached(first: CBlockIndex, pindexNew: CBlockIndex, w: seq<CBlockIndex>, i: nat)
      requires pindexNew.Linked() && IsAncestor(first, pindexNew) && w == Segment(first, pindexNew) && i < |w|
      ensures (if i == 0 then first else w[i - 1]) != pindexNew
    {
      SegmentAt(first, pindexNew, i);
      AncestorFacts(w[i], pindexNew);
    }

    /** The last branch of SetBestChain: reorganize to the lowest block that beats the best chain, then connect
        the postponed blocks above it. */
    method SwitchBranch(pindexNew: CBlockIndex)
      returns (ok: bool, ghost pfork: CBlockIndex, ghost first: CBlockIndex, ghost reached: CBlockIndex)
      requires Base() && InTree(pindexNew) && pindexNew.nChainTrust > nBestChainTrust
      requires Connected(pindexBest) && Indexed(pindexBest)
      requires txdb.activeBatch.Some? && txdb.View() == txdb.stored
      modifies txdb, this`nReads, mapBlockIndex.Values
      ensures txdb.activeBatch.None?
      ensures txdb.nWrites >= old(txdb.nWrites)
      ensures !ok ==> Connected(pindexBest) && Indexed(pindexBest)
      ensures InTree(first) && IsAncestor(first, pindexNew) && first.nChainTrust > nBestChainTrust
      ensures first.pprev != null ==> first.pprev.nChainTrust <= nBestChainTrust
      ensures IsFork(pfork, pindexBest, first, mapBlockIndex.Values)
      ensures ok ==> ConnectsFrom(env, mempool, pfork, first, nBestHeight)
      ensures !ok && txdb.Failures() == old(txdb.Failures()) && IoFailures() == old(IoFailures()) ==>
        !ConnectsFrom(env, mempool, pfork, first, nBestHeight)
      ensures ok ==> InTree(reached) && IsAncestor(first, reached) && IsAncestor(reached, pindexNew)
      ensures ok ==> Connected(reached) && Indexed(reached)
      ensures ok && txdb.Failures() == old(txdb.Failures()) && IoFailures() == old(IoFailures()) ==>
        (reached == pindexNew <==> ConnectsFrom(env, mempool, first, pindexNew, nBestHeight))
    {
      hide Refusals, Written, WrittenBest, Freshness.CollisionFree, Tree, SupplyOk, Replayable, IndexAt, ConnectsFrom,
        AllAccepted, Links, IsAncestor, DownFrom;
      var pindexIntermediate, vpindexSecondary := FindIntermediate(pindexNew);
      first, reached := pindexIntermediate, pindexIntermediate;
      ok, pfork := Reorganize(pindexIntermediate);
      if !ok {
        txdb.TxnAbort();
        return;
      }
      reached := ConnectPostponed(pindexIntermediate, pindexNew, vpindexSecondary);
    }

    /** The branches of SetBestChain: attach the block to the best chain, or switch to another branch. */
    method SwitchChain(pindexNew: CBlockIndex, block: Block)
      returns (ok: bool, ghost pfork: CBlockIndex, ghost first: CBlockIndex, ghost reached: CBlockIndex)
      requires Valid() && InTree(pindexNew) && pindexNew.pprev != null && BlockOf(env, pindexNew) == Some(block)
      requires pindexNew.pprev.hash == block.hashPrevBlock
      requires pindexNew.nChainTrust > nBestChainTrust
      modifies txdb, this`nReads, mapBlockIndex.Values
      ensures Base() && txdb.activeBatch.None?
      ensures txdb.nWrites >= old(txdb.nWrites)
      ensures !ok ==> Connected(pindexBest) && Indexed(pindexBest)
      ensures InTree(first) && IsAncestor(first, pindexNew) && first.nChainTrust > nBestChainTrust
      ensures first.pprev != null ==> first.pprev.nChainTrust <= nBestChainTrust
      ensures IsFork(pfork, pindexBest, first, mapBlockIndex.Values)
      ensures ok ==> ConnectsFrom(env, mempool, pfork, first, nBestHeight)
      ensures !ok && txdb.Failures() == old(txdb.Failures()) && IoFailures() == old(IoFailures()) ==>
        !ConnectsFrom(env, mempool, pfork, first, nBestHeight)
      ensures ok ==> InTree(reached) && IsAncestor(first, reached) && IsAncestor(reached, pindexNew)
      ensures ok ==> Connected(reached) && Indexed(reached)
      ensures ok && txdb.Failures() == old(txdb.Failures()) && IoFailures() == old(IoFailures()) ==>
        (reached == pindexNew <==> ConnectsFrom(env, mempool, first, pindexNew, nBestHeight))
    {
      hide Refusals, Written, WrittenBest, Freshness.CollisionFree, Tree, SupplyOk, Replayable, IndexAt, NodeConnects,
        AllAccepted, Links;
      pfork, first, reached := pindexBest, pindexNew, pindexNew;
      txdb.TxnBegin();
      if block.hashPrevBlock == hashBestChain {
        ForkAtBest(pindexNew);
        ok := SetBestChainInner(pindexNew, block);
      } else {
        ok, pfork, first, reached := SwitchBranch(pindexNew);
      }
    }

    /** A child of the best block forks from it at the best block itself. */
    lemma ForkAtBest(p: CBlockIndex)
      requires Base() && InTree(p) && p.pprev == pindexBest
      ensures IsFork(pindexBest, pindexBest, p, mapBlockIndex.Values)
      ensures ConnectsFrom(env, mempool, pindexBest, p, nBestHeight) == NodeConnects(env, mempool, p, nBestHeight)
    {
      hide Freshness.CollisionFree, NodeConnects, Tree, Accepted, IndexAt, BestFigures;
      SelfAncestor(pindexBest);
      HighestCommon(p);
    }

    lemma HighestCommon(p: CBlockIndex)
      requires pindexBest.Linked() && p.Linked() && p.pprev == pindexBest
      ensures forall c :: c in mapBlockIndex.Values && IsCommon(c, pindexBest, p) ==> c.nHeight <= pindexBest.nHeight
    {
      forall c | c in mapBlockIndex.Values && IsCommon(c, pindexBest, p)
        ensures c.nHeight <= pindexBest.nHeight
      {
        AncestorFacts(c, pindexBest);
      }
    }

    /** SetBestChain makes pindexNew the best block. If it fails nothing visible has changed. If it succeeds the
        database and the links stand at the last block that was really connected: the whole state is valid
        exactly when that is pindexNew, and without failing reads and commits exactly when every postponed
        block connects. */
    method SetBestChain(pindexNew: CBlockIndex, block: Block)
      returns (ok: bool, ghost pfork: CBlockIndex, ghost first: CBlockIndex, ghost reached: CBlockIndex)
      requires Valid() && InTree(pindexNew) && pindexNew.pprev != null && BlockOf(env, pindexNew) == Some(block)
      requires pindexNew.pprev.hash == block.hashPrevBlock
      requires pindexNew.nChainTrust > nBestChainTrust
      modifies this, txdb, mapBlockIndex.Values
      ensures Base() && txdb.activeBatch.None? && mapBlockIndex == old(mapBlockIndex)
      ensures txdb.nWrites >= old(txdb.nWrites)
      ensures !ok ==> Valid() && pindexBest == old(pindexBest)
      ensures InTree(first) && IsAncestor(first, pindexNew) && first.nChainTrust > old(nBestChainTrust)
      ensures first.pprev != null ==> first.pprev.nChainTrust <= old(nBestChainTrust)
      ensures IsFork(pfork, old(pindexBest), first, mapBlockIndex.Values)
      ensures ok ==> ConnectsFrom(env, mempool, pfork, first, old(nBestHeight))
      ensures !ok && txdb.Failures() == old(txdb.Failures()) && IoFailures() == old(IoFailures()) ==>
        !ConnectsFrom(env, mempool, pfork, first, old(nBestHeight))
      ensures ok ==> pindexBest == pindexNew && pblockindexFBBHLast == null
      ensures ok ==> InTree(reached) && IsAncestor(first, reached) && IsAncestor(reached, pindexNew)
      ensures ok ==> Connected(reached) && Indexed(reached)
      ensures ok ==> (Valid() <==> reached == pindexNew)
      ensures ok && txdb.Failures() == old(txdb.Failures()) && IoFailures() == old(IoFailures()) ==>
        (Valid() <==> ConnectsFrom(env, mempool, first, pindexNew, old(nBestHeight)))
    {
      hide Refusals, Written, WrittenBest, Freshness.CollisionFree, SupplyOk, Replayable, IndexAt, ConnectsFrom,
        AllAccepted, Links, IsAncestor, Tree, CBlockIndex.Linked;
      ok, pfork, first, reached := SwitchChain(pindexNew, block);
      if !ok {
        return;
      }
      hashBestChain := pindexNew.hash;
      pindexBest := pindexNew;
      pblockindexFBBHLast := null;
      nBestHeight := pindexBest.nHeight;
      nBestChainTrust := pindexNew.nChainTrust;
    }

    // ----- new blocks

    /** A block that may enter the tree: it is on disk, its parent is in the tree, and AcceptBlock's tests of
        its shape have passed. */
    ghost predicate Admissible(block: Block, hash: uint256, nFile: nat, nBlockPos: nat)
      reads `mapBlockIndex
    {
      && env.blockHash(block) == hash && hash !in mapBlockIndex
      && block.hashPrevBlock in mapBlockIndex
      && mapBlockIndex[block.hashPrevBlock].Linked() && mapBlockIndex[block.hashPrevBlock].nHeight + 1 < 0x8000_0000
      && block.nBits == Targets.Required(env, mapBlockIndex[block.hashPrevBlock], block.IsProofOfStake())
      && env.blockAt(nFile, nBlockPos) == Some(block)
      && Freshness.OnDisk(env, Placed(nFile, nBlockPos, block.vtx))
      && ConnectBlock.CheckBlock(env, block)
      && Freshness.HasHeight(block.vtx[0], mapBlockIndex[block.hashPrevBlock].nHeight + 1)
    }

    /** Ancestors of a node of the tree are in the tree. */
    lemma {:induction false} AncestorInTree(a: CBlockIndex, n: CBlockIndex)
      requires Tree() && InTree(n) && IsAncestor(a, n)
      ensures InTree(a)
      decreases n.nHeight
    {
      if a != n { AncestorInTree(a, n.pprev); }
    }

    /** A node made for an admissible block belongs in the tree. */
    lemma NewNode(n: CBlockIndex, block: Block)
      requires n.pprev != null && InTree(n.pprev) && env.blockAt(n.nFile, n.nBlockPos) == Some(block)
      requires n.nHeight == n.pprev.nHeight + 1 < 0x8000_0000 && n.pprev.nChainTrust < n.nChainTrust
      requires env.blockHash(block) == n.hash && Freshness.OnDisk(env, Placed(n.nFile, n.nBlockPos, block.vtx))
      requires ConnectBlock.CheckBlock(env, block) && Freshness.HasHeight(block.vtx[0], n.nHeight)
      ensures n.Linked() && BlockOf(env, n) == Some(block) && AllAccepted(env, n) && IsAncestor(pindexGenesisBlock, n)
    {
      hide ConnectBlock.CheckBlock, Freshness.OnDisk, Freshness.HasHeight;
    }

    /** The node for an admissible block. */
    method MakeNode(block: Block, hash: uint256, nFile: nat, nBlockPos: nat) returns (pindexNew: CBlockIndex)
      requires Tree() && Admissible(block, hash, nFile, nBlockPos)
      ensures fresh(pindexNew) && pindexNew.hash == hash && pindexNew.pnext == null
      ensures pindexNew.pprev == mapBlockIndex[block.hashPrevBlock] && pindexNew.pprev.hash == block.hashPrevBlock
      ensures pindexNew.nChainTrust == pindexNew.pprev.nChainTrust + Difficulty.BlockTrust(block.nBits)
      ensures pindexNew.Linked() && BlockOf(env, pindexNew) == Some(block) && pindexNew.Describes(block)
      ensures AllAccepted(env, pindexNew) && IsAncestor(pindexGenesisBlock, pindexNew)
    {
      hide ConnectBlock.CheckBlock, Freshness.OnDisk, Freshness.HasHeight, AllAccepted, IsAncestor, Targets.Required,
        Difficulty.BlockTrust;
      var pprev := mapBlockIndex[block.hashPrevBlock];
      Targets.RequiredRaisesTrust(env, pprev, block.IsProofOfStake());
      pindexNew := new CBlockIndex(hash, pprev, nFile, nBlockPos, block);
      NewNode(pindexNew, block);
    }

    /** The map has grown by a node whose parent was in the tree. */
    twostate predicate Grown(new n: CBlockIndex)
      reads this, mapBlockIndex.Values
    {
      && n.hash !in old(mapBlockIndex) && mapBlockIndex == old(mapBlockIndex)[n.hash := n]
      && n.Linked() && AllAccepted(env, n) && IsAncestor(pindexGenesisBlock, n)
      && n.pprev != null && n.pprev.hash in old(mapBlockIndex) && old(mapBlockIndex)[n.pprev.hash] == n.pprev
      && (forall h :: h in old(mapBlockIndex) ==> mapBlockIndex[h] == old(mapBlockIndex)[h] && mapBlockIndex[h] != n)
      && (forall h :: h in old(mapBlockIndex) ==> unchanged(mapBlockIndex[h]))
    }

    twostate lemma TreeGrown(new n: CBlockIndex)
      requires old(Tree()) && Grown(n) && old(InTree(pindexBest)) && pindexBest == old(pindexBest)
      ensures Tree() && InTree(n) && InTree(pindexBest)
    {
      hide AllAccepted, IsAncestor, CBlockIndex.Linked;
    }

    twostate lemma LinksGrown(new n: CBlockIndex)
      requires pindexBest.Linked() && pindexBest == old(pindexBest) && old(Links(pindexBest)) && Grown(n)
      requires n.pnext == null && !IsAncestor(n, pindexBest)
      ensures Links(pindexBest)
    {
      hide AllAccepted, IsAncestor, CBlockIndex.Linked, ChildToward;
      ChildExists(pindexBest, n);
    }

    twostate lemma SupplyGrown(new n: CBlockIndex)
      requires old(Tree()) && Tree() && pindexBest.Linked() && pindexBest == old(pindexBest) && Grown(n)
      requires old(SupplyOk(pindexBest)) && !IsAncestor(n, pindexBest)
      ensures SupplyOk(pindexBest)
    {
      hide AllAccepted, IsAncestor, CBlockIndex.Linked, SupplyAt;
    }

    /** Entering a new leaf keeps everything. */
    method InsertNode(block: Block, hash: uint256, nFile: nat, nBlockPos: nat) returns (pindexNew: CBlockIndex)
      requires Valid() && Admissible(block, hash, nFile, nBlockPos)
      modifies this`mapBlockIndex
      ensures fresh(pindexNew) && mapBlockIndex == old(mapBlockIndex)[hash := pindexNew]
      ensures Valid() && InTree(pindexNew) && BlockOf(env, pindexNew) == Some(block) && pindexNew.Describes(block)
      ensures Base() && txdb.activeBatch.None?
      ensures block.hashPrevBlock in mapBlockIndex && pindexNew.pprev == mapBlockIndex[block.hashPrevBlock]
      ensures pindexNew.pprev != null && pindexNew.pprev.hash == block.hashPrevBlock && pindexNew.Linked()
      ensures pindexNew.nChainTrust == pindexNew.pprev.nChainTrust + Difficulty.BlockTrust(block.nBits)
    {
      hide CBlockIndex.Describes, Freshness.CollisionFree, Replayable, IndexAt, SupplyOk, Links, AllAccepted,
        IsAncestor, ChildToward, BestFigures, CBlockIndex.Linked, Tree, ConnectBlock.CheckBlock, Freshness.OnDisk,
        Freshness.HasHeight, Targets.Required;
      FiledNode(block.hashPrevBlock);
      pindexNew := MakeNode(block, hash, nFile, nBlockPos);
      NotOnBest(pindexNew);
      mapBlockIndex := mapBlockIndex[hash := pindexNew];
      TreeGrown(pindexNew);
      LinksGrown(pindexNew);
      SupplyGrown(pindexNew);
    }

    lemma NotOnBest(n: CBlockIndex)
      requires Tree() && InTree(pindexBest) && forall h :: h in mapBlockIndex ==> mapBlockIndex[h] != n
      ensures !IsAncestor(n, pindexBest)
    {
      hide AllAccepted, IsAncestor;
      NotOnPath(mapBlockIndex, n, pindexBest);
    }

    /** A node outside a tree is no ancestor of a node inside. */
    lemma {:induction false} NotOnPath(nodes: map<uint256, CBlockIndex>, n: CBlockIndex, p: CBlockIndex)
      requires p.Linked() && p.hash in nodes && nodes[p.hash] == p
      requires forall h :: h in nodes ==> nodes[h] != n
      requires forall h :: h in nodes && nodes[h].pprev != null ==>
        nodes[h].pprev.hash in nodes && nodes[nodes[h].pprev.hash] == nodes[h].pprev
      ensures !IsAncestor(n, p)
      decreases p.nHeight
    {
      if p.pprev != null {
        assert nodes[p.hash].pprev.hash in nodes;
        NotOnPath(nodes, n, p.pprev);
      }
    }

    /** The block's own record goes to disk first, in a database transaction of its own. */
    method WriteBlockIndex() returns (ok: bool)
      requires Valid()
      modifies txdb
      ensures Valid() && txdb.activeBatch.None? && txdb.nWrites == old(txdb.nWrites) + 1
        && ok == !txdb.refuses(old(txdb.nWrites))
      ensures txdb.Failures() == old(txdb.Failures()) + if ok then 0 else 1
    {
      hide Base, Connected, IndexAt;
      txdb.TxnBegin();
      ok := txdb.TxnCommit();
    }

    /** AddToBlockIndex enters the block into the tree and switches to it if its chain has more trust. When the
        database refuses the block's own record the block stays in the tree all the same. */
    method AddToBlockIndex(block: Block, hash: uint256, nFile: nat, nBlockPos: nat)
      returns (ok: bool, ghost pindexNew: CBlockIndex, ghost pfork: CBlockIndex, ghost first: CBlockIndex,
        ghost reached: CBlockIndex)
      requires Valid() && Admissible(block, hash, nFile, nBlockPos)
      modifies this, txdb, mapBlockIndex.Values
      ensures Base() && txdb.activeBatch.None? && txdb.nWrites > old(txdb.nWrites)
      ensures fresh(pindexNew) && mapBlockIndex == old(mapBlockIndex)[hash := pindexNew] && InTree(pindexNew)
      ensures block.hashPrevBlock in mapBlockIndex && pindexNew.pprev == mapBlockIndex[block.hashPrevBlock]
      ensures BlockOf(env, pindexNew) == Some(block) && pindexNew.Describes(block)
      ensures pindexNew.nChainTrust == pindexNew.pprev.nChainTrust + Difficulty.BlockTrust(block.nBits)
      ensures !ok ==> Valid() && pindexBest == old(pindexBest)
      ensures txdb.refuses(old(txdb.nWrites)) ==> !ok && txdb.nWrites == old(txdb.nWrites) + 1
      ensures pindexNew.nChainTrust <= old(nBestChainTrust) ==>
        ok == !txdb.refuses(old(txdb.nWrites)) && Valid() && pindexBest == old(pindexBest)
      ensures ok && pindexNew.nChainTrust > old(nBestChainTrust) ==>
        pindexBest == pindexNew && nBestChainTrust > old(nBestChainTrust)
      ensures InTree(first) && IsAncestor(first, pindexNew)
      ensures pindexNew.nChainTrust > old(nBestChainTrust) && !txdb.refuses(old(txdb.nWrites)) ==>
        && first.nChainTrust > old(nBestChainTrust)
        && (first.pprev != null ==> first.pprev.nChainTrust <= old(nBestChainTrust))
        && IsFork(pfork, old(pindexBest), first, mapBlockIndex.Values)
      ensures (pindexNew.nChainTrust > old(nBestChainTrust) && txdb.Failures() == old(txdb.Failures())
        && IoFailures() == old(IoFailures())) ==>
        !txdb.refuses(old(txdb.nWrites)) && ok == ConnectsFrom(env, mempool, pfork, first, old(nBestHeight))
      ensures (ok && pindexNew.nChainTrust > old(nBestChainTrust) && txdb.Failures() == old(txdb.Failures())
        && IoFailures() == old(IoFailures())) ==>
        (Valid() <==> ConnectsFrom(env, mempool, first, pindexNew, old(nBestHeight)))
      ensures ok && pindexNew.nChainTrust > old(nBestChainTrust) ==>
        && InTree(reached) && IsAncestor(first, reached) && IsAncestor(reached, pindexNew)
        && Connected(reached) && Indexed(reached) && (Valid() <==> reached == pindexNew)
      ensures ok && first == pindexNew ==> Valid()
    {
      hide CBlockIndex.Describes, Valid, Freshness.CollisionFree, Tree, ConnectsFrom, AllAccepted, IsAncestor,
        Admissible, Refusals;
      var node := InsertNode(block, hash, nFile, nBlockPos);
      pindexNew, pfork, first, reached := node, node, node, node;
      SelfAncestor(node);
      ok := WriteBlockIndex();
      if !ok {
        return;
      }
      if node.nChainTrust > nBestChainTrust {
        ok, pfork, first, reached := SetBestChain(node, block);
        if ok && first == node {
          Between(first, reached);
        }
      }
    }

    lemma Between(p: CBlockIndex, q: CBlockIndex)
      requires Base() && InTree(p) && InTree(q) && IsAncestor(p, q) && IsAncestor(q, p)
      ensures p == q
    {
      hide ConnectsFrom, AllAccepted, Freshness.CollisionFree;
      GenesisBelow(p);
      GenesisBelow(q);
      AncestorFacts(p, q);
      AncestorFacts(q, p);
    }

    lemma FiledNode(h: uint256)
      requires Tree() && h in mapBlockIndex
      ensures InTree(mapBlockIndex[h]) && mapBlockIndex[h].hash == h
    {
    }

    /** The tests that need the parent, among them that the block carries the required target and that its
        coinbase starts with the height. The remaining tests are the opaque contextChecks. */
    ghost predicate Acceptable(block: Block)
      requires Tree() && ConnectBlock.CheckBlock(env, block)
      reads `mapBlockIndex
    {
      CoinbaseHasInput(block);
      && env.blockHash(block) !in mapBlockIndex && block.hashPrevBlock in mapBlockIndex
      && env.contextChecks(block, block.hashPrevBlock)
      && block.nBits == Targets.Required(env, mapBlockIndex[block.hashPrevBlock], block.IsProofOfStake())
      && Script.IntBytes(mapBlockIndex[block.hashPrevBlock].nHeight + 1) <= block.vtx[0].vin[0].scriptSig
    }

    /** A checked block is acceptable exactly when it is new, its parent is in the tree, it has the target required
        there and passes the outside tests, and its coinbase starts with the push of its height. */
    lemma AcceptableMeans(block: Block)
      requires Tree() && ConnectBlock.CheckBlock(env, block)
      ensures |block.vtx| > 0 && |block.vtx[0].vin| > 0
      ensures Acceptable(block) <==>
        && env.blockHash(block) !in mapBlockIndex && block.hashPrevBlock in mapBlockIndex
        && env.contextChecks(block, block.hashPrevBlock)
        && var pindexPrev, scriptSig := mapBlockIndex[block.hashPrevBlock], block.vtx[0].vin[0].scriptSig;
           && pindexPrev.Linked() && block.nBits == Targets.Required(env, pindexPrev, block.IsProofOfStake())
           && var push := Script.IntBytes(pindexPrev.nHeight + 1);
              |push| <= |scriptSig| && scriptSig[..|push|] == push
    {
      hide Targets.Required, AllAccepted, IsAncestor, ConnectBlock.CheckBlock, Script.IntBytes;
      CoinbaseHasInput(block);
    }

    /** AcceptBlock enters exactly the acceptable blocks into the tree. Without failing reads and writes it then
        succeeds exactly when the block does not beat the best chain or the branch up to the first block that
        does can be connected; and the state stays valid exactly when the postponed blocks connect as well. Whatever
        fails, index and links stand at the last block that was connected, and the state is valid exactly when that
        is the new block. */
    method AcceptBlock(block: Block, nFile: nat, nBlockPos: nat)
      returns (ok: bool, ghost pindexNew: CBlockIndex?, ghost pfork: CBlockIndex?, ghost first: CBlockIndex?,
        ghost reached: CBlockIndex?)
      requires Valid() && ConnectBlock.CheckBlock(env, block)
      requires env.blockAt(nFile, nBlockPos) == Some(block)
        && Freshness.OnDisk(env, Placed(nFile, nBlockPos, block.vtx))
      requires forall h :: h in mapBlockIndex ==> mapBlockIndex[h].nHeight < 0x7fff_ffff
      modifies this, txdb, mapBlockIndex.Values
      ensures Base() && txdb.activeBatch.None? && txdb.nWrites >= old(txdb.nWrites)
      ensures pindexNew != null <==> old(Acceptable(block))
      ensures pindexNew == null ==> !ok && unchanged(this) && unchanged(txdb)
      ensures pindexNew != null ==>
        && fresh(pindexNew) && mapBlockIndex == old(mapBlockIndex)[env.blockHash(block) := pindexNew]
        && InTree(pindexNew)
        && block.hashPrevBlock in mapBlockIndex && pindexNew.pprev == mapBlockIndex[block.hashPrevBlock]
        && BlockOf(env, pindexNew) == Some(block) && pindexNew.Describes(block)
        && pindexNew.nChainTrust == pindexNew.pprev.nChainTrust + Difficulty.BlockTrust(block.nBits)
        && 0 < Difficulty.Decode(block.nBits) <= Targets.LimitsOf(env).For(block.IsProofOfStake())
      ensures !ok ==> Valid() && pindexBest == old(pindexBest)
      ensures pindexNew != null && txdb.refuses(old(txdb.nWrites)) ==> !ok && txdb.nWrites == old(txdb.nWrites) + 1
      ensures pindexNew != null && pindexNew.nChainTrust <= old(nBestChainTrust) ==>
        ok == !txdb.refuses(old(txdb.nWrites)) && Valid() && pindexBest == old(pindexBest)
      ensures ok && pindexNew.nChainTrust > old(nBestChainTrust) ==>
        pindexBest == pindexNew && nBestChainTrust > old(nBestChainTrust)
      ensures pindexNew != null ==> first != null && InTree(first) && IsAncestor(first, pindexNew)
      ensures pindexNew != null && pindexNew.nChainTrust > old(nBestChainTrust) && !txdb.refuses(old(txdb.nWrites)) ==>
        && pfork != null && IsFork(pfork, old(pindexBest), first, mapBlockIndex.Values)
        && first.nChainTrust > old(nBestChainTrust)
        && (first.pprev != null ==> first.pprev.nChainTrust <= old(nBestChainTrust))
      ensures (pindexNew != null && pindexNew.nChainTrust > old(nBestChainTrust)
        && txdb.Failures() == old(txdb.Failures()) && IoFailures() == old(IoFailures())) ==>
        !txdb.refuses(old(txdb.nWrites)) && ok == ConnectsFrom(env, mempool, pfork, first, old(nBestHeight))
      ensures (ok && pindexNew.nChainTrust > old(nBestChainTrust) && txdb.Failures() == old(txdb.Failures())
        && IoFailures() == old(IoFailures())) ==>
        (Valid() <==> ConnectsFrom(env, mempool, first, pindexNew, old(nBestHeight)))
      ensures ok && pindexNew.nChainTrust > old(nBestChainTrust) ==>
        && reached != null && InTree(reached) && IsAncestor(first, reached) && IsAncestor(reached, pindexNew)
        && Connected(reached) && Indexed(reached) && (Valid() <==> reached == pindexNew)
      ensures ok && first == pindexNew ==> Valid()
    {
      hide CBlockIndex.Describes, Freshness.CollisionFree, Freshness.OnDisk, ConnectBlock.CheckBlock, Tree, Connected,
        Indexed, ConnectsFrom, AllAccepted, IsAncestor, Refusals, Difficulty.BlockTrust, Difficulty.Decode,
        Targets.Required;
      pindexNew, pfork, first, reached := null, null, null, null;
      var hash := env.blockHash(block);
      if hash in mapBlockIndex {
        ok := false;
        return;
      }
      if block.hashPrevBlock !in mapBlockIndex {
        ok := false;
        return;
      }
      var pindexPrev := mapBlockIndex[block.hashPrevBlock];
      var nHeight := pindexPrev.nHeight + 1;
      FiledNode(block.hashPrevBlock);
      var nRequired := Targets.GetNextTargetRequired(env, pindexPrev, block.IsProofOfStake());
      if block.nBits != nRequired {
        ok := false;
        return;
      }
      if !env.contextChecks(block, block.hashPrevBlock) {
        ok := false;
        return;
      }
      CoinbaseHasInput(block);
      var expected := Script.IntBytes(nHeight);
      if !(expected <= block.vtx[0].vin[0].scriptSig) {
        ok := false;
        return;
      }
      Targets.RequiredRaisesTrust(env, pindexPrev, block.IsProofOfStake());
      ok, pindexNew, pfork, first, reached := AddToBlockIndex(block, hash, nFile, nBlockPos);
    }

    lemma CoinbaseHasInput(block: Block)
      requires ConnectBlock.CheckBlock(env, block)
      ensures |block.vtx| > 0 && |block.vtx[0].vin| > 0
    {
    }

    // ----- queries

    method IsInMainChain(pindex: CBlockIndex) returns (r: bool)
      requires Valid() && InTree(pindex)
      ensures r <==> IsAncestor(pindex, pindexBest)
    {
      hide AllAccepted, Freshness.CollisionFree, SupplyOk, IndexAt;
      r := pindex.pnext != null || pindex == pindexBest;
      ChildExists(pindexBest, pindex);
    }

    /** FindBlockByHeight walks from the nearer end, or from where the last search ended. */
    method FindBlockByHeight(nHeight: int) returns (pblockindex: CBlockIndex)
      requires Valid() && 0 <= nHeight <= nBestHeight
      modifies this`pblockindexFBBHLast
      ensures Valid() && IsAncestor(pblockindex, pindexBest) && pblockindex.nHeight == nHeight
    {
      hide AllAccepted, Freshness.CollisionFree, SupplyOk, IndexAt, Replayable;
      if nHeight < nBestHeight / 2 {
        pblockindex := pindexGenesisBlock;
      } else {
        pblockindex := pindexBest;
      }
      if pblockindexFBBHLast != null
        && Distance(nHeight, pblockindex.nHeight) > Distance(nHeight, pblockindexFBBHLast.nHeight) {
        pblockindex := pblockindexFBBHLast;
      }
      AncestorFacts(pblockindex, pindexBest);
      while pblockindex.nHeight > nHeight
        invariant pblockindex.Linked() && IsAncestor(pblockindex, pindexBest)
        decreases pblockindex.nHeight
      {
        AncestorTrans(pblockindex.pprev, pblockindex, pindexBest);
        pblockindex := pblockindex.pprev;
      }
      while pblockindex.nHeight < nHeight
        invariant pblockindex.Linked() && IsAncestor(pblockindex, pindexBest) && pblockindex.nHeight <= nHeight
        decreases nHeight - pblockindex.nHeight
      {
        AncestorInTree(pblockindex, pindexBest);
        ChildExists(pindexBest, pblockindex);
        AncestorFacts(pblockindex.pnext, pindexBest);
        pblockindex := pblockindex.pnext;
      }
      pblockindexFBBHLast := pblockindex;
    }

    function Distance(a: int, b: int): nat {
      if a < b then b - a else a - b
    }

    // ----- when postponed blocks do not connect

    /** A postponed block that pays too much never connects, whatever the branch below it. */
    lemma OverpaidTip(first: CBlockIndex, pindexNew: CBlockIndex, block: Block, nHeight: int)
      requires Base() && InTree(pindexNew) && IsAncestor(first, pindexNew) && first != pindexNew
      requires BlockOf(env, pindexNew) == Some(block) && ConnectBlock.Overpays(block)
      ensures !ConnectsFrom(env, mempool, first, pindexNew, nHeight)
    {
      hide ConnectBlock.BlockConnects, Freshness.CollisionFree, IndexAt, Tree, ConnectBlock.Overpays, Accepted,
        BestFigures;
      ConnectBlock.OverpayingNeverConnects(env, mempool, IndexAt(env, pindexNew.pprev), pindexNew, block, nHeight);
    }

    // ----- what a valid state means

    /** The stored index is the fold of ApplyBlock over the blocks of the best chain. */
    lemma StoredIsReplay()
      requires Valid()
      ensures txdb.stored == Replay(env, BlocksUpTo(env, pindexBest)) && txdb.storedBest == hashBestChain
    {
      hide Freshness.CollisionFree, SupplyOk, Replayable, Replay;
      IndexIsReplay(env, pindexBest);
    }

    /** The unspent outputs of the stored index add up to the money supply of the best block plus what has
        been burned along its chain, modulo 2^64. */
    lemma SupplyConserved()
      requires Valid()
      ensures pindexBest.nMoneySupply == ConnectInputs.Wrap(Supply.Total(env, txdb.stored) - BurnedUpTo(env,
        pindexBest))
    {
      hide Freshness.CollisionFree, Replayable, IndexAt, Supply.Total, ConnectInputs.Wrap, BurnedUpTo, AllAccepted,
        Links, IsAncestor;
      SelfAncestor(pindexBest);
      assert mapBlockIndex[pindexBest.hash] == pindexBest;
    }

    /** No transaction id occurs twice in the best chain: a block's ids are new to the index it connects to. */
    lemma IdsNeverReturn(p: CBlockIndex)
      requires Valid() && InTree(p) && IsAncestor(p, pindexBest) && p.pprev != null
      ensures FreshIds(env, IndexAt(env, p.pprev), PlacedOf(env, p).vtx)
      ensures NoDuplicates(Ids(env, PlacedOf(env, p).vtx))
    {
      hide Freshness.CollisionFree, SupplyOk, IndexAt, FreshIds, NoDuplicates, AllAccepted, Ids, SpendableTxs;
      ReplayableBelow(p, pindexBest);
      ChainWellIndexed(env, p);
    }
  }
}
