/** CBlockIndex: the nodes of the block tree. Everything but pnext and the supply figures is fixed when
    the node is made, so a node's ancestors never change. */
module BlockIndex {
  import opened Transactions
  import BigNum
  import Difficulty

  class CBlockIndex {
    const hash: uint256
    const pprev: CBlockIndex?
    const nHeight: nat
    const nChainTrust: nat
    const nFile: nat
    const nBlockPos: nat
    const fProofOfStake: bool
    const nTime: int
    const nBits: BigNum.uint32

    var pnext: CBlockIndex?
    var nMint: int
    var nMoneySupply: nat   // unsigned 64-bit

    constructor (hash: uint256, pprev: CBlockIndex?, nFile: nat, nBlockPos: nat, block: Block)
      ensures this.hash == hash && this.pprev == pprev && this.nFile == nFile && this.nBlockPos == nBlockPos
      ensures nHeight == if pprev == null then 0 else pprev.nHeight + 1
      ensures nChainTrust == (if pprev == null then 0 else pprev.nChainTrust) + Difficulty.BlockTrust(block.nBits)
      ensures Describes(block)
      ensures pnext == null && nMint == 0 && nMoneySupply == 0
    {
      this.hash, this.pprev, this.nFile, this.nBlockPos := hash, pprev, nFile, nBlockPos;
      nHeight := if pprev == null then 0 else pprev.nHeight + 1;
      nChainTrust := (if pprev == null then 0 else pprev.nChainTrust) + Difficulty.BlockTrust(block.nBits);
      fProofOfStake, nTime, nBits := block.IsProofOfStake(), block.nTime, block.nBits;
      pnext, nMint, nMoneySupply := null, 0, 0;
    }

    /** The figures copied from the block. */
    predicate Describes(block: Block) {
      fProofOfStake == block.IsProofOfStake() && nTime == block.nTime && nBits == block.nBits
    }

    /** Heights count up and trust rises along the ancestors. */
    ghost predicate Linked()
      decreases nHeight
    {
      if pprev == null then nHeight == 0
      else nHeight == pprev.nHeight + 1 && pprev.nChainTrust < nChainTrust && pprev.Linked()
    }

    /** The blocks from the root of the tree down to this one. */
    ghost function Path(): (path: seq<CBlockIndex>)
      requires Linked()
      ensures |path| == nHeight + 1 && path[nHeight] == this
      decreases nHeight
    {
      if pprev == null then [this] else pprev.Path() + [this]
    }
  }

  /** The node at each height of a path is linked, and its own path is the path up to it. */
  lemma {:induction false} PathPrefix(p: CBlockIndex, h: nat)
    requires p.Linked() && h <= p.nHeight
    ensures p.Path()[h].Linked() && p.Path()[h].nHeight == h
    ensures p.Path()[h].Path() == p.Path()[..h + 1]
    ensures p.Path()[h].nChainTrust <= p.nChainTrust && (h < p.nHeight ==> p.Path()[h].nChainTrust < p.nChainTrust)
    ensures h > 0 ==> p.Path()[h].pprev == p.Path()[h - 1]
    ensures h == 0 ==> p.Path()[h].pprev == null
    decreases p.nHeight
  {
    if h == p.nHeight {
      assert p.Path()[..h + 1] == p.Path();
    } else {
      PathPrefix(p.pprev, h);
      assert p.Path()[..h + 1] == p.pprev.Path()[..h + 1];
    }
  }

  predicate InBlockFile(pos: DiskTxPos, p: CBlockIndex) {
    pos.At? && pos.nBlockPos == p.nBlockPos && pos.nFile == p.nFile
  }

  /** Whether the record's block is among the n blocks up to p. */
  ghost predicate ConfirmedWithin(pos: DiskTxPos, p: CBlockIndex?, n: nat)
    decreases n
  {
    && p != null && n > 0
    && (InBlockFile(pos, p) || ConfirmedWithin(pos, p.pprev, n - 1))
  }

  /** The record's block is one of the last n on the path to p. */
  ghost predicate OnPath(pos: DiskTxPos, p: CBlockIndex, n: nat)
    requires p.Linked()
  {
    exists h :: 0 <= h <= p.nHeight && p.nHeight - h < n && pos.At?
      && pos.nFile == p.Path()[h].nFile && pos.nBlockPos == p.Path()[h].nBlockPos
  }

  lemma {:induction false} ConfirmedOnPath(pos: DiskTxPos, p: CBlockIndex, n: nat)
    requires p.Linked()
    ensures ConfirmedWithin(pos, p, n) <==> OnPath(pos, p, n)
    decreases p.nHeight
  {
    assert p.Path()[p.nHeight] == p;
    if p.pprev != null {
      assert forall h :: 0 <= h < p.nHeight ==> p.Path()[h] == p.pprev.Path()[h];
      if n > 0 {
        ConfirmedOnPath(pos, p.pprev, n - 1);
        assert OnPath(pos, p.pprev, n - 1) ==> OnPath(pos, p, n) by {
          if OnPath(pos, p.pprev, n - 1) {
            var h :| 0 <= h <= p.pprev.nHeight && p.pprev.nHeight - h < n - 1 && pos.At?
              && pos.nFile == p.pprev.Path()[h].nFile && pos.nBlockPos == p.pprev.Path()[h].nBlockPos;
            assert p.Path()[h] == p.pprev.Path()[h];
          }
        }
      }
    }
  }

  method IsConfirmedInNPrevBlocks(pos: DiskTxPos, pindexFrom: CBlockIndex, nMaxDepth: nat)
    returns (found: bool, nActualDepth: nat)
    requires pindexFrom.Linked()
    ensures found <==> ConfirmedWithin(pos, pindexFrom, nMaxDepth)
    ensures found ==> nActualDepth < nMaxDepth && nActualDepth <= pindexFrom.nHeight
    ensures found ==> InBlockFile(pos, pindexFrom.Path()[pindexFrom.nHeight - nActualDepth])
  {
    var pindex: CBlockIndex? := pindexFrom;
    while pindex != null && pindexFrom.nHeight - pindex.nHeight < nMaxDepth
      invariant pindex != null ==> pindex.Linked() && pindex.nHeight <= pindexFrom.nHeight
      invariant pindex != null ==> pindexFrom.Path()[pindex.nHeight] == pindex
      invariant pindex == null ==> !ConfirmedWithin(pos, pindexFrom, nMaxDepth)
      invariant pindex != null ==> pindexFrom.nHeight - pindex.nHeight <= nMaxDepth
      invariant pindex != null ==>
        ConfirmedWithin(pos, pindexFrom, nMaxDepth) == ConfirmedWithin(pos, pindex,
          nMaxDepth - (pindexFrom.nHeight - pindex.nHeight))
      decreases if pindex == null then 0 else pindex.nHeight + 1
    {
      if InBlockFile(pos, pindex) {
        return true, pindexFrom.nHeight - pindex.nHeight;
      }
      PathPrefix(pindexFrom, pindex.nHeight);
      pindex := pindex.pprev;
    }
    return false, 0;
  }
}
