/** The target that AcceptBlock requires, found by walking the block tree. */
module Targets {
  import opened Transactions
  import opened BigNum
  import opened BlockIndex
  import opened Difficulty

  function LimitsOf(env: Env): Limits { Limits(env.nWorkLimit, env.nStakeLimit) }

  /** What retargeting reads of the blocks up to a node. */
  ghost function ChainOf(p: CBlockIndex): (chain: seq<TargetBlock>)
    requires p.Linked()
    ensures |chain| == p.nHeight + 1 && chain[p.nHeight] == TargetBlock(p.fProofOfStake, p.nTime, p.nBits)
    decreases p.nHeight
  {
    (if p.pprev == null then [] else ChainOf(p.pprev)) + [TargetBlock(p.fProofOfStake, p.nTime, p.nBits)]
  }

  /** The target of a block on top of a node. */
  ghost function Required(env: Env, pindexLast: CBlockIndex, fProofOfStake: bool): nat
    requires pindexLast.Linked()
  {
    NextBits(ChainOf(pindexLast), fProofOfStake, LimitsOf(env).For(fProofOfStake))
  }

  lemma {:induction false} SameLast(a: seq<TargetBlock>, b: seq<TargetBlock>, n: nat, fProofOfStake: bool)
    requires n < |a| && a <= b
    ensures LastOf(a, n, fProofOfStake) == LastOf(b, n, fProofOfStake)
  {
    if n > 0 { SameLast(a, b, n - 1, fProofOfStake); }
  }

  /** The nearest block of the given kind, or the root. */
  method GetLastBlockIndex(start: CBlockIndex, fProofOfStake: bool) returns (pindex: CBlockIndex)
    requires start.Linked()
    ensures pindex.Linked() && ChainOf(pindex) <= ChainOf(start)
    ensures pindex.nHeight == LastOf(ChainOf(start), start.nHeight, fProofOfStake)
  {
    pindex := start;
    while pindex.pprev != null && pindex.fProofOfStake != fProofOfStake
      invariant pindex.Linked() && ChainOf(pindex) <= ChainOf(start)
      invariant LastOf(ChainOf(start), pindex.nHeight, fProofOfStake) == LastOf(ChainOf(start), start.nHeight,
        fProofOfStake)
      decreases pindex.nHeight
    {
      assert ChainOf(start)[pindex.nHeight] == ChainOf(pindex)[pindex.nHeight];
      pindex := pindex.pprev;
    }
    assert ChainOf(start)[pindex.nHeight] == ChainOf(pindex)[pindex.nHeight];
  }

  /** The target of a block on top of a node, in numbers: that of the last two blocks of its kind, or the limit. */
  ghost predicate Exact(env: Env, pindexLast: CBlockIndex, fProofOfStake: bool, nBits: nat)
    requires pindexLast.Linked()
  {
    var chain, nLimit := ChainOf(pindexLast), if fProofOfStake then env.nStakeLimit else env.nWorkLimit;
    && (forall p: nat, q: nat :: LastTwo(chain, fProofOfStake, p, q) ==>
        nBits == Encode(Moved(Decode(chain[p].nBits), chain[p].nTime - chain[q].nTime, nLimit)))
    && ((forall p: nat, q: nat :: !LastTwo(chain, fProofOfStake, p, q)) ==> nBits == Encode(nLimit))
  }

  lemma RequiredExact(env: Env, pindexLast: CBlockIndex, fProofOfStake: bool)
    requires pindexLast.Linked()
    ensures Exact(env, pindexLast, fProofOfStake, Required(env, pindexLast, fProofOfStake))
  {
    hide Decode, Encode, NextBits, Moved;
    var chain, nLimit := ChainOf(pindexLast), if fProofOfStake then env.nStakeLimit else env.nWorkLimit;
    forall p: nat, q: nat | LastTwo(chain, fProofOfStake, p, q)
      ensures NextBits(chain, fProofOfStake, nLimit) ==
        Encode(Moved(Decode(chain[p].nBits), chain[p].nTime - chain[q].nTime, nLimit))
    {
      MovedIs(Decode(chain[p].nBits), chain[p].nTime - chain[q].nTime, nLimit);
      NextTargetExact(chain, fProofOfStake, nLimit, p, q,
        Moved(Decode(chain[p].nBits), chain[p].nTime - chain[q].nTime, nLimit));
    }
    NextTargetEarly(chain, fProofOfStake, nLimit);
  }

  method GetNextTargetRequired(env: Env, pindexLast: CBlockIndex, fProofOfStake: bool) returns (nBits: nat)
    requires pindexLast.Linked()
    ensures nBits == Required(env, pindexLast, fProofOfStake)
    ensures Exact(env, pindexLast, fProofOfStake, nBits)
  {
    hide Exact, MpiEncode, Encode, NextBits, LastOf, ChainOf, Decode, Retarget, Limited, CappedSpacing;
    RequiredExact(env, pindexLast, fProofOfStake);
    var nLimit := if fProofOfStake then env.nStakeLimit else env.nWorkLimit;
    SmallBytes(nLimit);
    ghost var chain := ChainOf(pindexLast);
    NextBitsIs(chain, fProofOfStake, nLimit);
    var pindexPrev := GetLastBlockIndex(pindexLast, fProofOfStake);
    if pindexPrev.pprev == null {
      nBits := GetCompact(nLimit);
      return;
    }
    Below(pindexPrev, chain, fProofOfStake);
    var pindexPrevPrev := GetLastBlockIndex(pindexPrev.pprev, fProofOfStake);
    if pindexPrevPrev.pprev == null {
      nBits := GetCompact(nLimit);
      return;
    }
    Below(pindexPrevPrev, chain, fProofOfStake);
    nBits := RetargetBits(pindexPrev.nBits, pindexPrev.nTime - pindexPrevPrev.nTime, nLimit);
  }

  lemma NextBitsIs(chain: seq<TargetBlock>, fProofOfStake: bool, nLimit: Target)
    requires chain != []
    ensures var p := LastOf(chain, |chain| - 1, fProofOfStake);
      if p == 0 || LastOf(chain, p - 1, fProofOfStake) == 0
        then NextBits(chain, fProofOfStake, nLimit) == Encode(nLimit)
      else
        NextBits(chain, fProofOfStake, nLimit) == Encode(Limited(Retarget(Decode(chain[p].nBits),
          CappedSpacing(chain[p].nTime - chain[LastOf(chain, p - 1, fProofOfStake)].nTime)), nLimit))
  {
  }

  /** A node that is not the root, seen in a longer chain. */
  lemma Below(p: CBlockIndex, chain: seq<TargetBlock>, fProofOfStake: bool)
    requires p.Linked() && p.pprev != null && ChainOf(p) <= chain
    ensures ChainOf(p.pprev) <= chain && 0 < p.nHeight < |chain|
    ensures chain[p.nHeight] == TargetBlock(p.fProofOfStake, p.nTime, p.nBits)
    ensures LastOf(ChainOf(p.pprev), p.nHeight - 1, fProofOfStake) == LastOf(chain, p.nHeight - 1, fProofOfStake)
  {
    assert ChainOf(p)[p.nHeight] == chain[p.nHeight];
    SameLast(ChainOf(p.pprev), chain, p.nHeight - 1, fProofOfStake);
  }

  /** A block that carries the required target has more trust than its parent, and a target within the limit. */
  lemma RequiredRaisesTrust(env: Env, pindexLast: CBlockIndex, fProofOfStake: bool)
    requires pindexLast.Linked()
    ensures 0 < Decode(Required(env, pindexLast, fProofOfStake)) <= LimitsOf(env).For(fProofOfStake)
    ensures BlockTrust(Required(env, pindexLast, fProofOfStake)) > 0
  {
    hide NextBits, BlockTrust, Decode;
    NextTargetInRange(ChainOf(pindexLast), fProofOfStake, LimitsOf(env).For(fProofOfStake));
    RequiredAddsTrust(ChainOf(pindexLast), fProofOfStake, LimitsOf(env).For(fProofOfStake));
  }
}
