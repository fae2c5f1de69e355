/** The Merkle tree of a block in one flat vector: what is built, what a branch proves, and what the root
    commits to. */
module Merkle {
  import opened Basics

  /** The hash of a pair of nodes. */
  type PairHash = (nat, nat) -> nat

  ghost predicate CollisionFree(hash: PairHash) {
    forall a, b, c, d :: hash(a, b) == hash(c, d) ==> a == c && b == d
  }

  // ----- levels

  /** The parents of a level; the last node of an odd level is paired with itself. */
  function Parents(hash: PairHash, xs: seq<nat>): (r: seq<nat>)
    ensures |r| == (|xs| + 1) / 2
  {
    seq((|xs| + 1) / 2, i requires 0 <= i < (|xs| + 1) / 2 => hash(xs[2 * i], xs[Min(2 * i + 1, |xs| - 1)]))
  }

  function Root(hash: PairHash, xs: seq<nat>): nat
    decreases |xs|
  {
    if xs == [] then 0 else if |xs| == 1 then xs[0] else Root(hash, Parents(hash, xs))
  }

  /** All levels, leaves first. */
  function Tree(hash: PairHash, xs: seq<nat>): seq<nat>
    decreases |xs|
  {
    if |xs| <= 1 then xs else xs + Tree(hash, Parents(hash, xs))
  }

  function Height(n: nat): nat {
    if n <= 1 then 0 else 1 + Height((n + 1) / 2)
  }

  /** The height is the logarithm of the number of leaves, rounded up. */
  lemma {:induction false} HeightIsLog(n: nat)
    requires n >= 1
    ensures n <= Pow2(Height(n)) && (n > 1 ==> Pow2(Height(n)) < 2 * n)
  {
    if n > 1 { HeightIsLog((n + 1) / 2); }
  }

  /** The root of two halves, each a power of two, is the hash of the left root and the right root. */
  lemma {:induction false} RootOfHalves(hash: PairHash, xs: seq<nat>, h: nat)
    requires |xs| == 2 * Pow2(h)
    ensures Root(hash, xs) == hash(Root(hash, xs[..Pow2(h)]), Root(hash, xs[Pow2(h)..]))
    decreases h
  {
    hide Parents;
    var p := Pow2(h);
    if h == 0 {
      assert Pow2(0) == 1;
      TwoLeaves(hash, xs);
    } else {
      assert Pow2(h) == 2 * Pow2(h - 1);
      ParentsOfHalves(hash, xs, Pow2(h - 1));
      RootOfHalves(hash, Parents(hash, xs), h - 1);
    }
  }

  lemma TwoLeaves(hash: PairHash, xs: seq<nat>)
    requires |xs| == 2
    ensures Root(hash, xs) == hash(xs[0], xs[1])
    ensures Root(hash, xs[..1]) == xs[0] && Root(hash, xs[1..]) == xs[1]
  {
    assert Parents(hash, xs) == [hash(xs[0], xs[1])];
  }

  lemma ParentsOfHalves(hash: PairHash, xs: seq<nat>, q: nat)
    requires |xs| == 4 * q && q > 0
    ensures |Parents(hash, xs)| == 2 * q
    ensures Parents(hash, xs)[..q] == Parents(hash, xs[..2 * q])
    ensures Parents(hash, xs)[q..] == Parents(hash, xs[2 * q..])
  {
  }

  lemma {:induction false} RootIsLast(hash: PairHash, xs: seq<nat>)
    requires xs != []
    ensures Tree(hash, xs) != [] && Tree(hash, xs)[|Tree(hash, xs)| - 1] == Root(hash, xs)
    decreases |xs|
  {
    if |xs| > 1 { RootIsLast(hash, Parents(hash, xs)); }
  }

  // ----- branches

  /** The index of the other node of a pair. */
  function Sibling(i: int): int { if i % 2 == 0 then i + 1 else i - 1 }

  function Branch(hash: PairHash, xs: seq<nat>, nIndex: nat): seq<nat>
    decreases |xs|
  {
    if |xs| <= 1 then [] else [xs[Min(Sibling(nIndex), |xs| - 1)]] + Branch(hash, Parents(hash, xs), nIndex / 2)
  }

  /** One step up from a node and its sibling. */
  function Up(hash: PairHash, node: nat, otherside: nat, nIndex: int): nat {
    if nIndex % 2 == 1 then hash(otherside, node) else hash(node, otherside)
  }

  function Climb(hash: PairHash, node: nat, branch: seq<nat>, nIndex: int): nat
    decreases |branch|
  {
    if branch == [] then node else Climb(hash, Up(hash, node, branch[0], nIndex), branch[1..], nIndex / 2)
  }

  function Check(hash: PairHash, node: nat, branch: seq<nat>, nIndex: int): nat {
    if nIndex == -1 then 0 else Climb(hash, node, branch, nIndex)
  }

  lemma ParentOf(hash: PairHash, xs: seq<nat>, k: nat)
    requires |xs| > 1 && k < |xs|
    ensures k / 2 < |Parents(hash, xs)|
    ensures Parents(hash, xs)[k / 2] == Up(hash, xs[k], xs[Min(Sibling(k), |xs| - 1)], k)
  {
    if k % 2 == 1 {
      assert 2 * (k / 2) == k - 1;
    } else {
      assert 2 * (k / 2) == k;
    }
  }

  /** The branch of every leaf leads to the root, and is as long as the tree is high. */
  lemma {:induction false} BranchLeads(hash: PairHash, xs: seq<nat>, k: nat)
    requires k < |xs|
    ensures Check(hash, xs[k], Branch(hash, xs, k), k) == Root(hash, xs)
    ensures |Branch(hash, xs, k)| == Height(|xs|)
    decreases |xs|
  {
    hide Up, Parents;
    if |xs| > 1 {
      ParentOf(hash, xs, k);
      BranchLeads(hash, Parents(hash, xs), k / 2);
      var b := Branch(hash, xs, k);
      assert b[1..] == Branch(hash, Parents(hash, xs), k / 2);
    }
  }

  // ----- the leaves a root commits to

  /** The leaf below place i of the full tree of height h over n leaves. */
  function LeafAt(n: nat, h: nat, i: nat): (k: nat)
    requires n >= 1 && h == Height(n) && i < Pow2(h)
    ensures k < n
  {
    if n == 1 then 0 else Min(2 * LeafAt((n + 1) / 2, h - 1, i / 2) + i % 2, n - 1)
  }

  /** The leaves themselves sit at the first places. */
  lemma {:induction false} LeafAtItself(n: nat, h: nat, k: nat)
    requires n >= 1 && h == Height(n) && k < n
    ensures k < Pow2(h) && LeafAt(n, h, k) == k
  {
    HeightIsLog(n);
    if n > 1 { LeafAtItself((n + 1) / 2, h - 1, k / 2); }
  }

  predicate SameAt(xs: seq<nat>, ys: seq<nat>, h: nat, i: nat)
    requires |xs| >= 1 && |ys| >= 1 && h == Height(|xs|) == Height(|ys|) && i < Pow2(h)
  {
    xs[LeafAt(|xs|, h, i)] == ys[LeafAt(|ys|, h, i)]
  }

  ghost predicate SameLeaves(xs: seq<nat>, ys: seq<nat>, h: nat)
    requires |xs| >= 1 && |ys| >= 1 && h == Height(|xs|) == Height(|ys|)
  {
    forall i: nat :: i < Pow2(h) ==> SameAt(xs, ys, h, i)
  }

  lemma ParentsAt(hash: PairHash, xs: seq<nat>, h: nat, i: nat)
    requires |xs| > 1 && h == Height(|xs|) && i < Pow2(h - 1)
    ensures 2 * i + 1 < Pow2(h) && h - 1 == Height((|xs| + 1) / 2)
    ensures Parents(hash, xs)[LeafAt((|xs| + 1) / 2, h - 1, i)] ==
      hash(xs[LeafAt(|xs|, h, 2 * i)], xs[LeafAt(|xs|, h, 2 * i + 1)])
  {
    hide LeafAt, Height, Pow2;
    LeafAtUnder(|xs|, h, i);
    ParentIs(hash, xs, LeafAt((|xs| + 1) / 2, h - 1, i));
  }

  /** Places 2i and 2i + 1 are below place i of the next level. */
  lemma LeafAtUnder(n: nat, h: nat, i: nat)
    requires n > 1 && h == Height(n) && i < Pow2(h - 1)
    ensures h - 1 == Height((n + 1) / 2) && 2 * i + 1 < Pow2(h)
    ensures var p := LeafAt((n + 1) / 2, h - 1, i);
      LeafAt(n, h, 2 * i) == Min(2 * p, n - 1) && LeafAt(n, h, 2 * i + 1) == Min(2 * p + 1, n - 1) && p < (n + 1) / 2
  {
    Halves(i);
  }

  lemma Halves(i: nat)
    ensures 2 * i / 2 == i && (2 * i + 1) / 2 == i && 2 * i % 2 == 0 && (2 * i + 1) % 2 == 1
  {
  }

  lemma ParentIs(hash: PairHash, xs: seq<nat>, p: nat)
    requires p < (|xs| + 1) / 2
    ensures Parents(hash, xs)[p] == hash(xs[Min(2 * p, |xs| - 1)], xs[Min(2 * p + 1, |xs| - 1)])
  {
  }

  lemma Twice(h: nat, i: nat)
    requires h >= 1
    ensures i < Pow2(h - 1) <==> 2 * i < Pow2(h)
    ensures i < Pow2(h - 1) <==> 2 * i + 1 < Pow2(h)
  {
  }

  lemma SameParentsAt(hash: PairHash, xs: seq<nat>, ys: seq<nat>, h: nat, i: nat)
    requires CollisionFree(hash) && |xs| > 1 && |ys| > 1 && h == Height(|xs|) == Height(|ys|) && i < Pow2(h - 1)
    ensures 2 * i + 1 < Pow2(h)
    ensures SameAt(Parents(hash, xs), Parents(hash, ys), h - 1, i) <==>
      SameAt(xs, ys, h, 2 * i) && SameAt(xs, ys, h, 2 * i + 1)
  {
    hide LeafAt, Parents;
    ParentsAt(hash, xs, h, i);
    ParentsAt(hash, ys, h, i);
  }

  lemma SameParents(hash: PairHash, xs: seq<nat>, ys: seq<nat>, h: nat)
    requires CollisionFree(hash) && |xs| > 1 && |ys| > 1 && h == Height(|xs|) == Height(|ys|)
    ensures SameLeaves(Parents(hash, xs), Parents(hash, ys), h - 1) <==> SameLeaves(xs, ys, h)
  {
    hide SameAt, Parents, LeafAt, CollisionFree;
    var px, py, g := Parents(hash, xs), Parents(hash, ys), h - 1;
    if SameLeaves(px, py, g) {
      forall i: nat | i < Pow2(h)
        ensures SameAt(xs, ys, h, i)
      {
        var p := i / 2;
        Twice(h, p);
        assert SameAt(px, py, g, p);
        SameParentsAt(hash, xs, ys, h, p);
        assert i == 2 * p || i == 2 * p + 1;
      }
    }
    if SameLeaves(xs, ys, h) {
      forall i: nat | i < Pow2(g)
        ensures SameAt(px, py, g, i)
      {
        Twice(h, i);
        assert SameAt(xs, ys, h, 2 * i) && SameAt(xs, ys, h, 2 * i + 1);
        SameParentsAt(hash, xs, ys, h, i);
      }
    }
  }

  lemma OneLeaf(xs: seq<nat>, ys: seq<nat>, h: nat)
    requires |xs| == 1 && |ys| >= 1 && h == Height(|xs|) == Height(|ys|)
    ensures |ys| == 1 && (SameLeaves(xs, ys, h) <==> xs[0] == ys[0])
  {
    assert SameAt(xs, ys, h, 0) <==> xs[0] == ys[0];
  }

  /** What the root commits to: trees of one height have equal roots exactly when they have equal leaves at every
      place, counting those that odd levels repeat. */
  lemma {:induction false} RootCommits(hash: PairHash, xs: seq<nat>, ys: seq<nat>, h: nat)
    requires CollisionFree(hash) && |xs| >= 1 && |ys| >= 1 && h == Height(|xs|) == Height(|ys|)
    ensures Root(hash, xs) == Root(hash, ys) <==> SameLeaves(xs, ys, h)
    decreases |xs|
  {
    hide SameLeaves, Parents, LeafAt, CollisionFree;
    if |xs| == 1 {
      OneLeaf(xs, ys, h);
    } else {
      RootCommits(hash, Parents(hash, xs), Parents(hash, ys), h - 1);
      SameParents(hash, xs, ys, h);
    }
  }

  predicate Distinct(xs: seq<nat>) {
    forall i, j :: 0 <= i < j < |xs| ==> xs[i] != xs[j]
  }

  /** With different transactions the root commits to the list itself: the repeats of odd levels cannot hide
      a transaction. */
  lemma RootCommitsDistinct(hash: PairHash, xs: seq<nat>, ys: seq<nat>)
    requires CollisionFree(hash) && |xs| >= 1 && |ys| >= 1 && Height(|xs|) == Height(|ys|)
    requires Distinct(xs) && Distinct(ys) && Root(hash, xs) == Root(hash, ys)
    ensures xs == ys
  {
    hide CollisionFree, Root, SameLeaves, Distinct, Height;
    var h := Height(|xs|);
    RootCommits(hash, xs, ys, h);
    Swapped(xs, ys, h);
    if |xs| < |ys| {
      Shorter(xs, ys, h);
    } else if |ys| < |xs| {
      Shorter(ys, xs, h);
    } else {
      SameLength(xs, ys, h);
    }
  }

  lemma Swapped(xs: seq<nat>, ys: seq<nat>, h: nat)
    requires |xs| >= 1 && |ys| >= 1 && h == Height(|xs|) == Height(|ys|) && SameLeaves(xs, ys, h)
    ensures SameLeaves(ys, xs, h)
  {
    forall i: nat | i < Pow2(h)
      ensures SameAt(ys, xs, h, i)
    {
      assert SameAt(xs, ys, h, i);
    }
  }

  lemma SameLength(xs: seq<nat>, ys: seq<nat>, h: nat)
    requires 1 <= |xs| == |ys| && h == Height(|xs|) && SameLeaves(xs, ys, h)
    ensures xs == ys
  {
    forall k | 0 <= k < |xs|
      ensures xs[k] == ys[k]
    {
      LeafAtItself(|xs|, h, k);
      assert SameAt(xs, ys, h, k);
    }
  }

  lemma Shorter(xs: seq<nat>, ys: seq<nat>, h: nat)
    requires 1 <= |xs| < |ys| && h == Height(|xs|) == Height(|ys|) && SameLeaves(xs, ys, h)
    ensures !Distinct(ys)
  {
    var n := |xs|;
    LeafAtItself(|ys|, h, n);
    var k := LeafAt(n, h, n);
    assert SameAt(xs, ys, h, n) && ys[n] == xs[k];
    LeafAtItself(n, h, k);
    LeafAtItself(|ys|, h, k);
    assert SameAt(xs, ys, h, k) && ys[k] == xs[k];
  }

  lemma RootOfParents(hash: PairHash, xs: seq<nat>)
    requires |xs| > 1
    ensures Root(hash, xs) == Root(hash, Parents(hash, xs))
  {
    hide Parents;
  }

  /** Without that test the list is not determined: repeating the last transaction of an odd list keeps the root. */
  lemma RepeatKeepsRoot(hash: PairHash, xs: seq<nat>)
    requires |xs| > 1 && |xs| % 2 == 1
    ensures Root(hash, xs + [xs[|xs| - 1]]) == Root(hash, xs)
  {
    hide Root;
    var ys := xs + [xs[|xs| - 1]];
    RootOfParents(hash, xs);
    RootOfParents(hash, ys);
    var px, py := Parents(hash, xs), Parents(hash, ys);
    forall i | 0 <= i < |px|
      ensures px[i] == py[i]
    {
    }
    assert px == py;
  }

  /** Nor is it across heights: the parents of a list have the root of the list. */
  lemma ParentsKeepRoot(hash: PairHash, xs: seq<nat>)
    requires |xs| > 1
    ensures Root(hash, Parents(hash, xs)) == Root(hash, xs) && Height(|Parents(hash, xs)|) == Height(|xs|) - 1
  {
  }

  /** Only the leaf at its place has a branch that leads to the root. */
  lemma {:induction false} BranchProves(hash: PairHash, xs: seq<nat>, node: nat, branch: seq<nat>, k: nat)
    requires CollisionFree(hash) && xs != [] && |branch| == Height(|xs|) && k < Pow2(Height(|xs|))
    requires Check(hash, node, branch, k) == Root(hash, xs)
    ensures node == xs[LeafAt(|xs|, Height(|xs|), k)]
    decreases |branch|
  {
    hide LeafAt, Parents, CollisionFree;
    var h := Height(|xs|);
    if |xs| > 1 {
      Twice(h, k / 2);
      RootOfParents(hash, xs);
      BranchProves(hash, Parents(hash, xs), Up(hash, node, branch[0], k), branch[1..], k / 2);
      ParentsAt(hash, xs, h, k / 2);
      Unhash(hash);
    } else {
      OnlyLeaf(xs, k);
    }
  }

  lemma OnlyLeaf(xs: seq<nat>, k: nat)
    requires |xs| == 1 && k < Pow2(0)
    ensures LeafAt(1, 0, k) == 0
  {
  }

  lemma Unhash(hash: PairHash)
    requires CollisionFree(hash)
    ensures forall a, b, c, d :: hash(a, b) == hash(c, d) ==> a == c && b == d
  {
  }

  // ----- the block

  class CBlock {
    var hashes: seq<nat>          // the ids of vtx
    var vMerkleTree: seq<nat>

    constructor (ids: seq<nat>)
      ensures hashes == ids && vMerkleTree == []
    {
      hashes, vMerkleTree := ids, [];
    }

    /** The inner loop of BuildMerkleTree: the parents of the level at j. */
    method BuildLevel(hash: PairHash, j: nat, nSize: nat)
      requires nSize > 0 && j + nSize == |vMerkleTree|
      modifies this`vMerkleTree
      ensures vMerkleTree == old(vMerkleTree) + Parents(hash, old(vMerkleTree)[j..])
    {
      hide Parents;
      ghost var all, level := vMerkleTree, vMerkleTree[j..];
      ParentAt(hash, level, 0);
      var i := 0;
      while i < nSize
        invariant 0 <= i <= nSize + 1 && i % 2 == 0 && i / 2 <= |Parents(hash, level)|
        invariant vMerkleTree == all + Parents(hash, level)[..i / 2]
        decreases nSize - i
      {
        var i2 := Min(i + 1, nSize - 1);
        assert vMerkleTree[j + i] == level[i] && vMerkleTree[j + i2] == level[i2];
        ParentAt(hash, level, i);
        vMerkleTree := vMerkleTree + [hash(vMerkleTree[j + i], vMerkleTree[j + i2])];
        i := i + 2;
      }
      assert Parents(hash, level)[..i / 2] == Parents(hash, level);
    }

    method BuildMerkleTree(hash: PairHash) returns (root: nat)
      modifies this`vMerkleTree
      ensures vMerkleTree == Tree(hash, hashes) && root == Root(hash, hashes)
    {
      hide Parents, Root, Tree;
      vMerkleTree := hashes;
      assert vMerkleTree[..0] + Tree(hash, vMerkleTree[0..]) == Tree(hash, hashes) by {
        assert vMerkleTree[0..] == hashes;
      }
      var j := 0;
      var nSize := |hashes|;
      while nSize > 1
        invariant 0 <= j && 0 <= nSize && j + nSize == |vMerkleTree|
        invariant vMerkleTree[..j] + Tree(hash, vMerkleTree[j..]) == Tree(hash, hashes)
        decreases nSize
      {
        ghost var level, done := vMerkleTree[j..], vMerkleTree[..j];
        BuildLevel(hash, j, nSize);
        j := j + nSize;
        nSize := (nSize + 1) / 2;
        assert vMerkleTree[..j] == done + level && vMerkleTree[j..] == Parents(hash, level);
        TreeStep(hash, done, level);
      }
      TreeEnd(hash, vMerkleTree[j..]);
      assert vMerkleTree[..j] + vMerkleTree[j..] == vMerkleTree;
      if |hashes| > 0 { RootIsLast(hash, hashes); } else { NoRoot(hash); }
      root := if |vMerkleTree| == 0 then 0 else vMerkleTree[|vMerkleTree| - 1];
    }

    method GetMerkleBranch(hash: PairHash, nIndex: nat) returns (vMerkleBranch: seq<nat>)
      requires vMerkleTree == [] || vMerkleTree == Tree(hash, hashes)
      modifies this`vMerkleTree
      ensures vMerkleTree == Tree(hash, hashes)
      ensures vMerkleBranch == Branch(hash, hashes, nIndex)
    {
      hide Parents, Tree, Branch;
      if |vMerkleTree| == 0 {
        var root := BuildMerkleTree(hash);
      }
      assert vMerkleTree == Tree(hash, hashes);
      vMerkleBranch := [];
      var j, index := 0, nIndex;
      var nSize := |hashes|;
      ghost var level := hashes;
      assert vMerkleTree[0..] == vMerkleTree == Tree(hash, hashes);
      while nSize > 1
        invariant 0 <= j && nSize == |level| && j <= |vMerkleTree| && vMerkleTree == Tree(hash, hashes)
        invariant vMerkleTree[j..] == Tree(hash, level)
        invariant vMerkleBranch + Branch(hash, level, index) == Branch(hash, hashes, nIndex)
        decreases nSize
      {
        var i := Min(Sibling(index), nSize - 1);
        TreeOfParents(hash, level);
        assert vMerkleTree[j + i] == vMerkleTree[j..][i];
        ghost var before := vMerkleBranch;
        vMerkleBranch := vMerkleBranch + [vMerkleTree[j + i]];
        ghost var next := Parents(hash, level);
        TreeOfParents(hash, level);
        BranchOfParents(hash, level, index);
        Regroup(before, [level[i]], Branch(hash, next, index / 2));
        assert vMerkleTree[j + nSize..] == vMerkleTree[j..][nSize..];
        index := index / 2;
        j := j + nSize;
        level := next;
        nSize := (nSize + 1) / 2;
      }
      BranchEnd(hash, level, index);
    }

    static method CheckMerkleBranch(hash: PairHash, leaf: nat, vMerkleBranch: seq<nat>, nIndex: int) returns (r: nat)
      ensures r == Check(hash, leaf, vMerkleBranch, nIndex)
    {
      if nIndex == -1 { return 0; }
      r := leaf;
      var index := nIndex;
      for n := 0 to |vMerkleBranch|
        invariant Climb(hash, r, vMerkleBranch[n..], index) == Climb(hash, leaf, vMerkleBranch, nIndex)
      {
        var otherside := vMerkleBranch[n];
        if index % 2 == 1 {
          r := hash(otherside, r);
        } else {
          r := hash(r, otherside);
        }
        index := index / 2;
        assert vMerkleBranch[n..][1..] == vMerkleBranch[n + 1..];
      }
    }
  }

  lemma TreeStep(hash: PairHash, done: seq<nat>, level: seq<nat>)
    requires |level| > 1
    ensures done + Tree(hash, level) == (done + level) + Tree(hash, Parents(hash, level))
  {
    hide Parents, Tree;
    TreeOfParents(hash, level);
    Regroup(done, level, Tree(hash, Parents(hash, level)));
  }

  lemma TreeOfParents(hash: PairHash, level: seq<nat>)
    requires |level| > 1
    ensures Tree(hash, level) == level + Tree(hash, Parents(hash, level))
  {
    hide Parents;
  }

  lemma TreeEnd(hash: PairHash, level: seq<nat>)
    requires |level| <= 1
    ensures Tree(hash, level) == level
  {
  }

  lemma BranchOfParents(hash: PairHash, level: seq<nat>, k: nat)
    requires |level| > 1
    ensures Branch(hash, level, k) == [level[Min(Sibling(k), |level| - 1)]] + Branch(hash, Parents(hash, level), k / 2)
  {
    hide Parents;
  }

  lemma BranchEnd(hash: PairHash, level: seq<nat>, k: nat)
    requires |level| <= 1
    ensures Branch(hash, level, k) == []
  {
  }

  lemma NoRoot(hash: PairHash)
    ensures Root(hash, []) == 0
  {
  }

  lemma ParentAt(hash: PairHash, xs: seq<nat>, i: nat)
    requires i < |xs| && i % 2 == 0
    ensures i / 2 < |Parents(hash, xs)| && Parents(hash, xs)[i / 2] == hash(xs[i], xs[Min(i + 1, |xs| - 1)])
    ensures Parents(hash, xs)[..(i + 2) / 2] == Parents(hash, xs)[..i / 2] + [Parents(hash, xs)[i / 2]]
  {
  }
}
