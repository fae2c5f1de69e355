/** Block locators: which ancestors a node names, and which of them a peer finds. */
module Locator {
  import opened Basics
  import opened Transactions
  import opened BlockIndex

  /** The step back after entry k: one block at first, then twice as many each time. */
  function StepAt(k: nat): nat { if k <= 10 then 1 else Pow2(k - 10) }

  /** How far entry k is below the tip. */
  function Distance(k: nat): nat { if k == 0 then 0 else Distance(k - 1) + StepAt(k - 1) }

  lemma {:induction false} DistanceIs(k: nat)
    ensures Distance(k) == if k <= 11 then k else 9 + Pow2(k - 10)
  {
    if k > 0 {
      DistanceIs(k - 1);
      if k == 12 { assert Pow2(1) == 2 && Pow2(2) == 4; }
    }
  }

  lemma {:induction false} DistanceGrows(j: nat, k: nat)
    requires j < k
    ensures Distance(j) < Distance(k)
    decreases k
  {
    if j < k - 1 { DistanceGrows(j, k - 1); }
  }

  lemma {:induction false} DistanceAtLeast(k: nat)
    ensures Distance(k) >= k
  {
    if k > 0 { DistanceAtLeast(k - 1); }
  }

  /** The number of entries for a tip at height h. */
  function Entries(h: nat, k: nat): nat
    decreases h + 1 - k
  {
    DistanceAtLeast(k);
    if Distance(k) > h then k else Entries(h, k + 1)
  }

  lemma {:induction false} EntriesFit(h: nat, k: nat)
    requires k == 0 || Distance(k - 1) <= h
    ensures k <= Entries(h, k) && Distance(Entries(h, k)) > h
    ensures forall j :: 0 <= j < Entries(h, k) ==> Distance(j) <= h
    decreases h + 1 - k
  {
    DistanceAtLeast(k);
    if Distance(k) > h {
      forall j | 0 <= j < k
        ensures Distance(j) <= h
      {
        if j < k - 1 { DistanceGrows(j, k - 1); }
      }
    } else {
      EntriesFit(h, k + 1);
    }
  }

  /** A locator is short: beyond a dozen entries, their number is logarithmic in the height. */
  lemma EntriesFew(h: nat)
    ensures Entries(h, 0) > 12 ==> 9 + Pow2(Entries(h, 0) - 11) <= h
    ensures Entries(h, 0) <= h + 1
  {
    EntriesFit(h, 0);
    var n := Entries(h, 0);
    if n > 0 {
      DistanceIs(n - 1);
      DistanceAtLeast(n - 1);
    }
  }

  /** The hashes at the distances from entry k on, down the path of the tip. */
  ghost function HashesFrom(tip: CBlockIndex, k: nat): seq<uint256>
    requires tip.Linked()
    decreases tip.nHeight + 1 - k
  {
    DistanceAtLeast(k);
    if Distance(k) > tip.nHeight then [] else [tip.Path()[tip.nHeight - Distance(k)].hash] + HashesFrom(tip, k + 1)
  }

  lemma {:induction false} HashesAre(tip: CBlockIndex, k: nat, i: nat)
    requires tip.Linked() && Distance(k + i) <= tip.nHeight
    ensures i < |HashesFrom(tip, k)| && HashesFrom(tip, k)[i] == tip.Path()[tip.nHeight - Distance(k + i)].hash
    decreases i
  {
    hide Distance, CBlockIndex.Path;
    if i > 0 {
      DistanceGrows(k, k + i);
      HashesAre(tip, k + 1, i - 1);
    }
  }

  lemma {:induction false} HashesCount(tip: CBlockIndex, k: nat)
    requires tip.Linked()
    ensures |HashesFrom(tip, k)| == Entries(tip.nHeight, k) - k
    decreases tip.nHeight + 1 - k
  {
    hide Distance, CBlockIndex.Path;
    DistanceAtLeast(k);
    if Distance(k) <= tip.nHeight { HashesCount(tip, k + 1); }
  }

  class CBlockLocator {
    var vHave: seq<uint256>

    constructor ()
      ensures vHave == []
    {
      vHave := [];
    }

    method Set(tip: CBlockIndex, hashGenesisBlock: uint256)
      requires tip.Linked()
      modifies this
      ensures vHave == HashesFrom(tip, 0) + [hashGenesisBlock]
    {
      hide Pow2, CBlockIndex.Path;
      vHave := [];
      var nStep := 1;
      var pindex: CBlockIndex? := tip;
      ghost var k := 0;
      TipIsLast(tip);
      while pindex != null
        invariant |vHave| == k && vHave + HashesFrom(tip, k) == HashesFrom(tip, 0)
        invariant nStep == StepAt(k)
        invariant if Distance(k) > tip.nHeight then pindex == null
                  else pindex != null && pindex == tip.Path()[tip.nHeight - Distance(k)]
        decreases tip.nHeight + 1 - Distance(k)
      {
        ghost var before := vHave;
        vHave := vHave + [pindex.hash];
        assert before + ([pindex.hash] + HashesFrom(tip, k + 1)) == vHave + HashesFrom(tip, k + 1);
        DistanceGrows(k, k + 1);
        pindex := StepBack(tip, pindex, nStep, Distance(k));
        NextStep(k);
        if |vHave| > 10 { nStep := 2 * nStep; }
        k := k + 1;
      }
      assert HashesFrom(tip, k) == [];
      vHave := vHave + [hashGenesisBlock];
    }

    static method StepBack(ghost tip: CBlockIndex, start: CBlockIndex, nStep: nat,
                           ghost d: nat) returns (pindex: CBlockIndex?)
      requires tip.Linked() && d <= tip.nHeight && start == tip.Path()[tip.nHeight - d]
      ensures if d + nStep > tip.nHeight then pindex == null else (pindex != null
        && pindex == tip.Path()[tip.nHeight - (d + nStep)])
    {
      pindex := start;
      var i := 0;
      while pindex != null && i < nStep
        invariant 0 <= i <= nStep
        invariant if d + i > tip.nHeight then pindex == null else (pindex != null
          && pindex == tip.Path()[tip.nHeight - (d + i)])
      {
        PathPrefix(tip, tip.nHeight - (d + i));
        pindex := pindex.pprev;
        i := i + 1;
      }
    }

    /** The first block named that is in the peer's main chain, or the genesis block. */
    method GetBlockIndex(mapBlockIndex: map<uint256, CBlockIndex>, pindexBest: CBlockIndex,
                         pindexGenesisBlock: CBlockIndex)
      returns (pindex: CBlockIndex)
      ensures pindex == FirstFound(vHave, mapBlockIndex, pindexBest, pindexGenesisBlock)
    {
      for n := 0 to |vHave|
        invariant FirstFound(vHave[n..], mapBlockIndex, pindexBest, pindexGenesisBlock) == FirstFound(vHave,
          mapBlockIndex, pindexBest, pindexGenesisBlock)
      {
        var hash := vHave[n];
        if hash in mapBlockIndex {
          var p := mapBlockIndex[hash];
          if p.pnext != null || p == pindexBest { return p; }
        }
        assert vHave[n..][1..] == vHave[n + 1..];
      }
      pindex := pindexGenesisBlock;
    }
  }

  lemma TipIsLast(tip: CBlockIndex)
    requires tip.Linked()
    ensures tip.Path()[tip.nHeight] == tip
  {
  }

  lemma NextStep(k: nat)
    ensures StepAt(k + 1) == if k + 1 > 10 then 2 * StepAt(k) else StepAt(k)
  {
    assert Pow2(1) == 2;
  }

  predicate Known(hash: uint256, mapBlockIndex: map<uint256, CBlockIndex>, pindexBest: CBlockIndex)
    reads mapBlockIndex.Values
  {
    hash in mapBlockIndex && (mapBlockIndex[hash].pnext != null || mapBlockIndex[hash] == pindexBest)
  }

  function FirstFound(vHave: seq<uint256>, mapBlockIndex: map<uint256, CBlockIndex>, pindexBest: CBlockIndex,
                      pindexGenesisBlock: CBlockIndex): CBlockIndex
    reads mapBlockIndex.Values
  {
    if vHave == [] then pindexGenesisBlock
    else if Known(vHave[0], mapBlockIndex, pindexBest) then mapBlockIndex[vHave[0]]
    else FirstFound(vHave[1..], mapBlockIndex, pindexBest, pindexGenesisBlock)
  }

  /** A peer answers from the first block named that it has and that has a next block or is its best one, whatever
      blocks without either it has before; and from the genesis block when there is none. */
  lemma {:induction false} FirstFoundIs(vHave: seq<uint256>, mapBlockIndex: map<uint256, CBlockIndex>,
                                        pindexBest: CBlockIndex, pindexGenesisBlock: CBlockIndex)
    returns (n: nat)
    ensures n <= |vHave|
    ensures forall m :: 0 <= m < n && vHave[m] in mapBlockIndex ==>
      mapBlockIndex[vHave[m]].pnext == null && mapBlockIndex[vHave[m]] != pindexBest
    ensures var p := FirstFound(vHave, mapBlockIndex, pindexBest, pindexGenesisBlock);
      if n == |vHave| then p == pindexGenesisBlock
      else vHave[n] in mapBlockIndex && p == mapBlockIndex[vHave[n]] && (p.pnext != null || p == pindexBest)
  {
    n := 0;
    if vHave != [] && !Known(vHave[0], mapBlockIndex, pindexBest) {
      n := FirstFoundIs(vHave[1..], mapBlockIndex, pindexBest, pindexGenesisBlock);
      n := n + 1;
      assert forall m :: 1 <= m < n ==> vHave[m] == vHave[1..][m - 1];
    }
  }

  // ----- what the peer finds

  /** The peer's main chain leaves the tip's chain after height c; up to there it knows the blocks at their heights. */
  ghost predicate ForksAt(tip: CBlockIndex, c: nat, mapBlockIndex: map<uint256, CBlockIndex>, pindexBest: CBlockIndex)
    requires tip.Linked()
    reads mapBlockIndex.Values
  {
    && c <= tip.nHeight
    && forall i :: 0 <= i <= tip.nHeight ==>
      && (Known(tip.Path()[i].hash, mapBlockIndex, pindexBest) <==> i <= c)
      && (i <= c ==>
        mapBlockIndex[tip.Path()[i].hash].hash == tip.Path()[i].hash && mapBlockIndex[tip.Path()[i].hash].nHeight == i)
  }

  /** The first entry from k on that is at least f below the tip. */
  function FirstFrom(f: nat, k: nat): (n: nat)
    ensures n >= k && Distance(n) >= f && (n > k ==> Distance(n - 1) < f)
    decreases if f > k then f - k else 0
  {
    DistanceAtLeast(k);
    if Distance(k) >= f then k else FirstFrom(f, k + 1)
  }

  /** The entry found is the fork itself when that is at most eleven blocks down, and never more than twice as far. */
  lemma NotFarBelow(f: nat)
    ensures f <= 11 ==> Distance(FirstFrom(f, 0)) == f
    ensures Distance(FirstFrom(f, 0)) <= 2 * f
  {
    var n := FirstFrom(f, 0);
    DistanceIs(n);
    if n > 0 { DistanceIs(n - 1); }
    if f <= 11 && n > f { DistanceGrows(f, n); DistanceIs(f); FirstIsLeast(f, 0, f); }
    if n == 12 { assert Pow2(2) == 4; }
  }

  lemma {:induction false} FirstIsLeast(f: nat, k: nat, j: nat)
    requires k <= j && Distance(j) >= f
    ensures FirstFrom(f, k) <= j
    decreases j - k
  {
    if Distance(k) < f { FirstIsLeast(f, k + 1, j); }
  }

  lemma {:induction false} FoundFrom(tip: CBlockIndex, c: nat, mapBlockIndex: map<uint256, CBlockIndex>,
                                     pindexBest: CBlockIndex,
                                     pindexGenesisBlock: CBlockIndex, k: nat)
    requires tip.Linked() && ForksAt(tip, c, mapBlockIndex, pindexBest)
    requires mapBlockIndex[tip.Path()[0].hash] == pindexGenesisBlock
    ensures var d := Distance(FirstFrom(tip.nHeight - c, k));
      FirstFound(HashesFrom(tip, k) + [tip.Path()[0].hash], mapBlockIndex, pindexBest, pindexGenesisBlock) ==
        mapBlockIndex[tip.Path()[if d <= tip.nHeight then tip.nHeight - d else 0].hash]
    decreases tip.nHeight + 1 - k
  {
    hide CBlockIndex.Path, Distance, Known;
    DistanceAtLeast(k);
    var f, h := tip.nHeight - c, tip.nHeight;
    var all := HashesFrom(tip, k) + [tip.Path()[0].hash];
    if Distance(k) > h {
      assert all == [tip.Path()[0].hash];
      LeastAlready(f, k);
    } else {
      assert all[0] == tip.Path()[h - Distance(k)].hash;
      assert all[1..] == HashesFrom(tip, k + 1) + [tip.Path()[0].hash];
      if Distance(k) < f { FoundFrom(tip, c, mapBlockIndex, pindexBest, pindexGenesisBlock, k + 1); }
    }
  }

  lemma LeastAlready(f: nat, k: nat)
    requires Distance(k) >= f
    ensures FirstFrom(f, k) == k
  {
  }

  /** A peer whose main chain forks f blocks below the tip finds a common ancestor: the fork itself when f is at most
      eleven, and otherwise one at most 2f below the tip. */
  lemma ForkFound(tip: CBlockIndex, c: nat, mapBlockIndex: map<uint256, CBlockIndex>, pindexBest: CBlockIndex,
                  pindexGenesisBlock: CBlockIndex)
    requires tip.Linked() && ForksAt(tip, c, mapBlockIndex, pindexBest)
    requires mapBlockIndex[tip.Path()[0].hash] == pindexGenesisBlock
    ensures var f := tip.nHeight - c;
      var r := FirstFound(HashesFrom(tip, 0) + [tip.Path()[0].hash], mapBlockIndex, pindexBest, pindexGenesisBlock);
      && r.nHeight <= c && tip.nHeight - r.nHeight <= 2 * f && r.hash == tip.Path()[r.nHeight].hash
      && (f <= 11 ==> r.nHeight == c)
  {
    hide CBlockIndex.Path, Distance, Known, FirstFound, HashesFrom;
    FoundFrom(tip, c, mapBlockIndex, pindexBest, pindexGenesisBlock, 0);
    NotFarBelow(tip.nHeight - c);
  }
}
