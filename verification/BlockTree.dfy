/** Ancestors, forks and the main-chain links of the block tree. */
module BlockTree {
  import opened Basics
  import opened Transactions
  import opened BlockIndex

  /** a is p or one of the blocks before it. */
  ghost predicate IsAncestor(a: CBlockIndex, p: CBlockIndex)
    requires p.Linked()
    decreases p.nHeight
  {
    a == p || (p.pprev != null && IsAncestor(a, p.pprev))
  }

  lemma SelfAncestor(p: CBlockIndex)
    requires p.Linked()
    ensures IsAncestor(p, p)
  {
  }

  lemma {:induction false} AncestorFacts(a: CBlockIndex, p: CBlockIndex)
    requires p.Linked() && IsAncestor(a, p)
    ensures a.Linked() && a.nHeight <= p.nHeight && a.nChainTrust <= p.nChainTrust
      && (a != p ==> a.nChainTrust < p.nChainTrust)
    ensures a.nHeight == p.nHeight ==> a == p
    decreases p.nHeight
  {
    if a != p { AncestorFacts(a, p.pprev); }
  }

  /** The ancestors of a block are the blocks on the path to it. */
  lemma {:induction false} AncestorOnPath(a: CBlockIndex, p: CBlockIndex)
    requires p.Linked()
    ensures IsAncestor(a, p) <==> a.nHeight <= p.nHeight && p.Path()[a.nHeight] == a
    decreases p.nHeight
  {
    assert p.Path()[p.nHeight] == p;
    if p.pprev != null {
      AncestorOnPath(a, p.pprev);
      assert a.nHeight < p.nHeight ==> p.Path()[a.nHeight] == p.pprev.Path()[a.nHeight];
    }
  }

  lemma {:induction false} AncestorTrans(a: CBlockIndex, b: CBlockIndex, c: CBlockIndex)
    requires c.Linked() && b.Linked() && IsAncestor(a, b) && IsAncestor(b, c)
    ensures IsAncestor(a, c)
    decreases c.nHeight
  {
    if b != c { AncestorTrans(a, b, c.pprev); }
  }

  /** The ancestors of a block form a line. */
  lemma {:induction false} AncestorsInLine(a: CBlockIndex, b: CBlockIndex, p: CBlockIndex)
    requires p.Linked() && IsAncestor(a, p) && IsAncestor(b, p) && a.nHeight <= b.nHeight
    ensures b.Linked() && IsAncestor(a, b)
    decreases p.nHeight
  {
    AncestorFacts(b, p);
    if b != p {
      if a == p {
        assert false;
      }
      AncestorsInLine(a, b, p.pprev);
    }
  }

  // ----- links

  /** The child of n on the way to the tip, or null. */
  ghost function ChildToward(tip: CBlockIndex, n: CBlockIndex): CBlockIndex?
    requires tip.Linked()
    decreases tip.nHeight
  {
    if tip == n || tip.pprev == null then null
    else if tip.pprev == n then tip
    else ChildToward(tip.pprev, n)
  }

  lemma {:induction false} ChildExists(tip: CBlockIndex, n: CBlockIndex)
    requires tip.Linked()
    ensures ChildToward(tip, n) != null <==> IsAncestor(n, tip) && n != tip
    ensures ChildToward(tip, n) != null ==>
      ChildToward(tip, n).pprev == n && IsAncestor(ChildToward(tip, n), tip)
    decreases tip.nHeight
  {
    if tip != n && tip.pprev != null && tip.pprev != n {
      ChildExists(tip.pprev, n);
    }
    if IsAncestor(n, tip) { AncestorFacts(n, tip); }
  }

  /** Making a block the tip instead of its parent changes the link of the parent only. */
  lemma ExtendTip(tip: CBlockIndex, n: CBlockIndex)
    requires tip.Linked() && tip.pprev != null
    ensures ChildToward(tip, n) == if n == tip.pprev then tip else ChildToward(tip.pprev, n)
    ensures ChildToward(tip.pprev, tip.pprev) == null
  {
    if n == tip {
      ChildExists(tip.pprev, tip);
      if IsAncestor(tip, tip.pprev) {
        AncestorFacts(tip, tip.pprev);
        assert false;
      }
    }
  }

  /** Common ancestors of two blocks. */
  ghost predicate IsCommon(c: CBlockIndex, p: CBlockIndex, q: CBlockIndex)
    requires p.Linked() && q.Linked()
  {
    IsAncestor(c, p) && IsAncestor(c, q)
  }

  /** f is the highest common ancestor, among the given blocks. */
  ghost predicate IsFork(f: CBlockIndex, p: CBlockIndex, q: CBlockIndex, blocks: set<CBlockIndex>)
    requires p.Linked() && q.Linked()
  {
    IsCommon(f, p, q) && forall c :: c in blocks && IsCommon(c, p, q) ==> c.nHeight <= f.nHeight
  }

  // ----- branches

  /** The blocks of a branch from its tip down to just above the fork. */
  ghost function DownFrom(f: CBlockIndex, p: CBlockIndex): seq<CBlockIndex>
    requires p.Linked() && IsAncestor(f, p)
    decreases p.nHeight
  {
    if f == p then [] else [p] + DownFrom(f, p.pprev)
  }

  /** The same blocks in the order they are connected. */
  ghost function Segment(f: CBlockIndex, p: CBlockIndex): seq<CBlockIndex>
    requires p.Linked() && IsAncestor(f, p)
    decreases p.nHeight
  {
    if f == p then [] else Segment(f, p.pprev) + [p]
  }

  lemma {:induction false} ReversedDown(f: CBlockIndex, p: CBlockIndex)
    requires p.Linked() && IsAncestor(f, p)
    ensures Reversed(DownFrom(f, p)) == Segment(f, p)
    decreases p.nHeight
  {
    if f != p {
      ReversedDown(f, p.pprev);
      assert Reversed([p] + DownFrom(f, p.pprev)) == Reversed(DownFrom(f, p.pprev)) + [p];
    }
  }

  /** The i-th block of a segment, its parent, and the segments up to them. */
  lemma {:induction false} SegmentAt(f: CBlockIndex, p: CBlockIndex, i: nat)
    requires p.Linked() && IsAncestor(f, p) && i < |Segment(f, p)|
    ensures var q := Segment(f, p)[i];
      && q.Linked() && IsAncestor(q, p) && q != f && q.pprev != null && IsAncestor(f, q) && IsAncestor(f, q.pprev)
      && Segment(f, q) == Segment(f, p)[..i + 1]
      && q.pprev == (if i == 0 then f else Segment(f, p)[i - 1])
    decreases p.nHeight
  {
    var w := Segment(f, p);
    if i == |w| - 1 {
      assert w[..i + 1] == w;
      if i > 0 { SegmentAt(f, p.pprev, i - 1); }
    } else {
      SegmentAt(f, p.pprev, i);
      assert w[..i + 1] == Segment(f, p.pprev)[..i + 1];
    }
  }

  /** A block above the highest common ancestor, on one side, is not on the other. */
  lemma AboveFork(f: CBlockIndex, p: CBlockIndex, q: CBlockIndex, n: CBlockIndex, blocks: set<CBlockIndex>)
    requires p.Linked() && q.Linked() && IsFork(f, p, q, blocks)
    requires n in blocks && IsAncestor(n, q) && n.Linked() && n != f && IsAncestor(f, n)
    ensures !IsAncestor(n, p)
  {
    AncestorFacts(f, n);
  }

  /** Reorganize's search: step back the longer side, then the other, until they meet. */
  method FindFork(pindexBest: CBlockIndex, pindexNew: CBlockIndex, genesis: CBlockIndex, ghost blocks: set<CBlockIndex>)
    returns (pfork: CBlockIndex)
    requires pindexBest.Linked() && pindexNew.Linked()
    requires IsAncestor(genesis, pindexBest) && IsAncestor(genesis, pindexNew)
    ensures IsFork(pfork, pindexBest, pindexNew, blocks)
  {
    pfork := pindexBest;
    var plonger := pindexNew;
    while pfork != plonger
      invariant IsAncestor(pfork, pindexBest) && IsAncestor(plonger, pindexNew)
      invariant pfork.Linked() && plonger.Linked()
      invariant IsCommon(genesis, pfork, plonger)
      invariant forall c :: c in blocks && IsCommon(c, pindexBest, pindexNew) ==> IsCommon(c, pfork, plonger)
      decreases pfork.nHeight + plonger.nHeight
    {
      plonger := StepBackTo(pfork, plonger, pindexNew, genesis, blocks);
      if pfork == plonger {
        break;
      }
      ghost var was := pfork;
      CommonBelow(genesis, pfork, plonger);
      pfork := pfork.pprev;
      AncestorTrans(pfork, was, pindexBest);
      forall c | c in blocks && IsCommon(c, was, plonger)
        ensures IsAncestor(c, pfork)
      {
        CommonBelow(c, was, plonger);
      }
    }
    forall c | c in blocks && IsCommon(c, pindexBest, pindexNew)
      ensures c.nHeight <= pfork.nHeight
    {
      AncestorFacts(c, pfork);
    }
  }

  /** Two different blocks, the second not higher than the first: common ancestors lie below the first. */
  lemma CommonBelow(c: CBlockIndex, p: CBlockIndex, q: CBlockIndex)
    requires p.Linked() && q.Linked() && p != q && q.nHeight <= p.nHeight && IsCommon(c, p, q)
    ensures p.pprev != null && p.pprev.Linked() && IsAncestor(c, p.pprev)
  {
    AncestorFacts(c, p);
    AncestorFacts(c, q);
  }

  /** The inner loop: step the longer side back to the height of the other. */
  method StepBackTo(pfork: CBlockIndex, plonger0: CBlockIndex, pindexNew: CBlockIndex, genesis: CBlockIndex,
                    ghost blocks: set<CBlockIndex>)
    returns (plonger: CBlockIndex)
    requires pfork.Linked() && plonger0.Linked() && pindexNew.Linked()
    requires IsAncestor(plonger0, pindexNew) && IsCommon(genesis, pfork, plonger0)
    ensures plonger.Linked() && IsAncestor(plonger, pindexNew) && plonger.nHeight <= plonger0.nHeight
    ensures plonger.nHeight <= pfork.nHeight && IsCommon(genesis, pfork, plonger)
    ensures forall c :: c in blocks && IsCommon(c, pfork, plonger0) ==> IsCommon(c, pfork, plonger)
  {
    plonger := plonger0;
    while plonger.nHeight > pfork.nHeight
      invariant plonger.Linked() && IsAncestor(plonger, pindexNew) && plonger.nHeight <= plonger0.nHeight
      invariant IsCommon(genesis, pfork, plonger)
      invariant forall c :: c in blocks && IsCommon(c, pfork, plonger0) ==> IsCommon(c, pfork, plonger)
      decreases plonger.nHeight
    {
      ghost var was := plonger;
      CommonBelow(genesis, plonger, pfork);
      plonger := plonger.pprev;
      AncestorTrans(plonger, was, pindexNew);
      forall c | c in blocks && IsCommon(c, pfork, was)
        ensures IsAncestor(c, plonger)
      {
        CommonBelow(c, was, pfork);
      }
    }
  }
}
