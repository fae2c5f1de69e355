/** The pool of blocks that wait for their parents. */
module Orphans {
  import opened Basics
  import opened Transactions

  datatype COrphanBlock = COrphanBlock(hashBlock: uint256, hashPrev: uint256, nSize: nat)

  type Pool = map<uint256, COrphanBlock>
  type ByPrev = map<uint256, seq<COrphanBlock>>

  /** A block comes after its parent: hashes do not run in circles. */
  ghost predicate Grounded(m: Pool, depth: uint256 -> nat) {
    forall h :: h in m ==> depth(m[h].hashPrev) < depth(h)
  }

  // ----- the total size

  ghost function TotalSize(m: Pool): nat {
    if m == map[] then 0
    else
      var h := AnyKey(m);
      m[h].nSize + TotalSize(m - {h})
  }

  ghost function AnyKey(m: Pool): (h: uint256)
    requires m != map[]
    ensures h in m
  {
    var x := SomeMember(m.Keys);
    x
  }

  lemma {:induction false} TotalWithout(m: Pool, h: uint256)
    requires h in m
    ensures TotalSize(m) == m[h].nSize + TotalSize(m - {h})
    decreases |m|
  {
    var k := AnyKey(m);
    if k != h {
      TotalWithout(m - {k}, h);
      TotalWithout(m - {h}, k);
      assert m - {k} - {h} == m - {h} - {k};
    }
  }

  lemma TotalWith(m: Pool, o: COrphanBlock)
    requires o.hashBlock !in m
    ensures TotalSize(m[o.hashBlock := o]) == TotalSize(m) + o.nSize
  {
    TotalWithout(m[o.hashBlock := o], o.hashBlock);
    assert m[o.hashBlock := o] - {o.hashBlock} == m;
  }

  // ----- both indexes hold the same blocks

  /** The list under a parent names exactly the orphans with that parent, each once. */
  predicate ListGood(m: Pool, list: seq<COrphanBlock>, hashPrev: uint256) {
    && (forall i :: 0 <= i < |list| ==>
      list[i].hashPrev == hashPrev && list[i].hashBlock in m && m[list[i].hashBlock] == list[i])
    && (forall i, j :: 0 <= i < j < |list| ==> list[i] != list[j])
  }

  ghost predicate PoolGood(m: Pool, p: ByPrev, nSize: int) {
    && (forall h :: h in m ==> m[h].hashBlock == h && m[h].hashPrev in p && m[h] in p[m[h].hashPrev])
    && (forall k :: k in p ==> p[k] != [] && ListGood(m, p[k], k))
    && nSize == TotalSize(m)
  }

  function ListOf(p: ByPrev, k: uint256): seq<COrphanBlock> { if k in p then p[k] else [] }

  /** Whether some orphan waits for this one. */
  predicate HasDependents(m: Pool, hash: uint256) {
    exists h :: h in m && m[h].hashPrev == hash
  }

  lemma DependentsListed(m: Pool, p: ByPrev, nSize: int, hash: uint256)
    requires PoolGood(m, p, nSize)
    ensures HasDependents(m, hash) <==> hash in p
  {
    if hash in p {
      assert p[hash][0].hashBlock in m;
    }
  }

  function RemoveAt(list: seq<COrphanBlock>, i: nat): seq<COrphanBlock>
    requires i < |list|
  {
    list[..i] + list[i + 1..]
  }

  /** Erase one entry of the multimap. */
  function EraseEntry(p: ByPrev, k: uint256, i: nat): ByPrev
    requires k in p && i < |p[k]|
  {
    if |p[k]| == 1 then p - {k} else p[k := RemoveAt(p[k], i)]
  }

  lemma EraseGood(m: Pool, p: ByPrev, nSize: int, k: uint256, i: nat)
    requires PoolGood(m, p, nSize) && k in p && i < |p[k]|
    ensures p[k][i].hashBlock in m
    ensures PoolGood(m - {p[k][i].hashBlock}, EraseEntry(p, k, i), nSize - p[k][i].nSize)
  {
    var o := p[k][i];
    assert o.hashBlock in m && m[o.hashBlock] == o && o.hashPrev == k;
    hide TotalSize, ListGood, RemoveAt;
    TotalWithout(m, o.hashBlock);
    var m', p' := m - {o.hashBlock}, EraseEntry(p, k, i);
    RemoveList(m, p[k], k, i);
    forall h | h in m'
      ensures m'[h].hashPrev in p' && m'[h] in p'[m'[h].hashPrev]
    {
      assert m[h] in p[m[h].hashPrev];
      if m[h].hashPrev == k { StillIn(p[k], i, m[h]); }
    }
    forall q | q in p'
      ensures p'[q] != [] && ListGood(m', p'[q], q)
    {
      if q != k { OtherList(m, p[q], q, o); } else { StillMore(p[k], i); }
    }
  }

  lemma OtherList(m: Pool, list: seq<COrphanBlock>, q: uint256, o: COrphanBlock)
    requires ListGood(m, list, q) && o.hashBlock in m && m[o.hashBlock] == o && o.hashPrev != q
    ensures ListGood(m - {o.hashBlock}, list, q)
  {
  }

  lemma StillMore(list: seq<COrphanBlock>, i: nat)
    requires i < |list|
    ensures |RemoveAt(list, i)| == |list| - 1
  {
  }

  lemma RemoveList(m: Pool, list: seq<COrphanBlock>, k: uint256, i: nat)
    requires ListGood(m, list, k) && i < |list|
    ensures ListGood(m - {list[i].hashBlock}, RemoveAt(list, i), k)
  {
    var r := RemoveAt(list, i);
    forall a | 0 <= a < |r|
      ensures r[a] == list[if a < i then a else a + 1]
    {
    }
  }

  lemma StillIn(list: seq<COrphanBlock>, i: nat, o: COrphanBlock)
    requires i < |list| && o in list && o != list[i]
    ensures |list| > 1 && o in RemoveAt(list, i)
  {
    var j :| 0 <= j < |list| && list[j] == o;
    assert RemoveAt(list, i)[if j < i then j else j - 1] == o;
  }

  lemma AddGood(m: Pool, p: ByPrev, nSize: int, o: COrphanBlock)
    requires PoolGood(m, p, nSize) && o.hashBlock !in m
    ensures PoolGood(m[o.hashBlock := o], p[o.hashPrev := ListOf(p, o.hashPrev) + [o]], nSize + o.nSize)
  {
    hide TotalSize;
    TotalWith(m, o);
    var m', list := m[o.hashBlock := o], ListOf(p, o.hashPrev);
    var p' := p[o.hashPrev := list + [o]];
    forall i | 0 <= i < |list|
      ensures list[i] != o
    {
      assert list[i].hashBlock in m;
    }
    assert (list + [o])[|list|] == o;
    forall h | h in m'
      ensures m'[h].hashBlock == h && m'[h].hashPrev in p' && m'[h] in p'[m'[h].hashPrev]
    {
      if h != o.hashBlock { assert m[h] in p[m[h].hashPrev]; }
    }
    forall k | k in p'
      ensures p'[k] != [] && ListGood(m', p'[k], k)
    {
      if k != o.hashPrev { assert ListGood(m, p[k], k); }
    }
  }

  // ----- ancestors among the orphans

  ghost predicate Named(m: Pool) {
    forall h :: h in m ==> m[h].hashBlock == h
  }

  /** The first block of the orphan chain that ends with the given orphan. */
  ghost function RootOf(m: Pool, hash: uint256, depth: uint256 -> nat): (r: uint256)
    requires Grounded(m, depth) && hash in m
    ensures r in m && m[r].hashPrev !in m
    decreases depth(hash)
  {
    if m[hash].hashPrev in m then RootOf(m, m[hash].hashPrev, depth) else hash
  }

  class COrphanPool {
    var mapOrphanBlocks: Pool
    var mapOrphanBlocksByPrev: ByPrev
    var nOrphanBlocksSize: int

    ghost predicate Valid()
      reads this
    {
      PoolGood(mapOrphanBlocks, mapOrphanBlocksByPrev, nOrphanBlocksSize)
    }

    constructor ()
      ensures Valid() && mapOrphanBlocks == map[]
    {
      mapOrphanBlocks, mapOrphanBlocksByPrev, nOrphanBlocksSize := map[], map[], 0;
    }

    method GetOrphanRoot(hash: uint256, ghost depth: uint256 -> nat) returns (root: uint256)
      requires Grounded(mapOrphanBlocks, depth)
      ensures root == if hash in mapOrphanBlocks then RootOf(mapOrphanBlocks, hash, depth) else hash
    {
      if hash !in mapOrphanBlocks { return hash; }
      root := hash;
      while mapOrphanBlocks[root].hashPrev in mapOrphanBlocks
        invariant root in mapOrphanBlocks
          && RootOf(mapOrphanBlocks, root, depth) == RootOf(mapOrphanBlocks, hash, depth)
        decreases depth(root)
      {
        root := mapOrphanBlocks[root].hashPrev;
      }
    }

    /** The block to ask for is the parent of the root. */
    method WantedByOrphan(pblockOrphan: COrphanBlock, ghost depth: uint256 -> nat) returns (wanted: uint256)
      requires Valid() && Grounded(mapOrphanBlocks, depth)
      requires pblockOrphan.hashBlock in mapOrphanBlocks && mapOrphanBlocks[pblockOrphan.hashBlock] == pblockOrphan
      ensures wanted == mapOrphanBlocks[RootOf(mapOrphanBlocks, pblockOrphan.hashBlock, depth)].hashPrev
      ensures wanted !in mapOrphanBlocks
    {
      var p := pblockOrphan;
      while p.hashPrev in mapOrphanBlocks
        invariant p.hashBlock in mapOrphanBlocks && mapOrphanBlocks[p.hashBlock] == p
        invariant RootOf(mapOrphanBlocks, p.hashBlock, depth) == RootOf(mapOrphanBlocks, pblockOrphan.hashBlock, depth)
        decreases depth(p.hashBlock)
      {
        p := mapOrphanBlocks[p.hashPrev];
      }
      wanted := p.hashPrev;
    }

    /** Put an orphan into the pool. */
    method AddOrphan(o: COrphanBlock)
      requires Valid() && o.hashBlock !in mapOrphanBlocks
      modifies this
      ensures Valid() && mapOrphanBlocks == old(mapOrphanBlocks)[o.hashBlock := o]
    {
      AddGood(mapOrphanBlocks, mapOrphanBlocksByPrev, nOrphanBlocksSize, o);
      nOrphanBlocksSize := nOrphanBlocksSize + o.nSize;
      mapOrphanBlocks := mapOrphanBlocks[o.hashBlock := o];
      mapOrphanBlocksByPrev := mapOrphanBlocksByPrev[o.hashPrev := ListOf(mapOrphanBlocksByPrev, o.hashPrev) + [o]];
    }

    /** The orphans under one parent: each is tried once and leaves the pool either way. */
    method HandleChildren(hashPrev: uint256, queue0: seq<uint256>, accept: uint256 -> bool, ghost start: Pool,
                          ghost i: nat)
      returns (queue: seq<uint256>)
      requires Valid() && i < |queue0| && queue0[i] == hashPrev && Drained(start, mapOrphanBlocks, queue0, i, accept)
      modifies this
      ensures Valid() && queue0 <= queue && Drained(start, mapOrphanBlocks, queue, i + 1, accept)
      ensures mapOrphanBlocks.Keys < old(mapOrphanBlocks.Keys)
        || (mapOrphanBlocks == old(mapOrphanBlocks) && queue == queue0)
    {
      hide PoolGood, Drained, Draining;
      queue := queue0;
      ghost var m0, p0, n0 := mapOrphanBlocks, mapOrphanBlocksByPrev, nOrphanBlocksSize;
      var list := ListOf(mapOrphanBlocksByPrev, hashPrev);
      DrainingStart(start, m0, queue0, i, accept, list);
      if hashPrev in mapOrphanBlocksByPrev {
        ListedNonempty(m0, p0, n0, hashPrev);
        var j := 0;
        while j < |list|
          invariant 0 <= j <= |list| && mapOrphanBlocksByPrev == p0 && queue0 <= queue
          invariant Handling(mapOrphanBlocks, p0, nOrphanBlocksSize, hashPrev, list, j)
          invariant Draining(start, mapOrphanBlocks, queue, i, accept, list, j)
          invariant if j == 0 then mapOrphanBlocks == m0 else mapOrphanBlocks.Keys < m0.Keys
        {
          HandleNext(mapOrphanBlocks, p0, nOrphanBlocksSize, hashPrev, list, j);
          DrainingStep(start, mapOrphanBlocks, queue, i, accept, list, j);
          var o := list[j];
          if accept(o.hashBlock) { queue := queue + [o.hashBlock]; }
          assert o.hashBlock in mapOrphanBlocks.Keys;
          mapOrphanBlocks := mapOrphanBlocks - {o.hashBlock};
          nOrphanBlocksSize := nOrphanBlocksSize - o.nSize;
          j := j + 1;
        }
        mapOrphanBlocksByPrev := mapOrphanBlocksByPrev - {hashPrev};
      }
      DrainingEnd(start, m0, p0, n0, mapOrphanBlocks, queue0, queue, i, accept, list);
    }

    /** After a block has been accepted: the queue ends, and holds that block and exactly the orphans accepted whose
        parent is in it. Exactly the orphans with a parent in it have left the pool, accepted or not. */
    method ProcessDependents(hash: uint256, accept: uint256 -> bool) returns (vWorkQueue: seq<uint256>)
      requires Valid()
      modifies this
      ensures Valid() && vWorkQueue != [] && vWorkQueue[0] == hash
      ensures Drained(old(mapOrphanBlocks), mapOrphanBlocks, vWorkQueue, |vWorkQueue|, accept)
    {
      hide PoolGood;
      ghost var start := mapOrphanBlocks;
      vWorkQueue := [hash];
      var i := 0;
      while i < |vWorkQueue|
        invariant 0 <= i <= |vWorkQueue| && vWorkQueue != [] && vWorkQueue[0] == hash && Valid()
        invariant Drained(start, mapOrphanBlocks, vWorkQueue, i, accept)
        decreases mapOrphanBlocks.Keys, |vWorkQueue| - i
      {
        vWorkQueue := HandleChildren(vWorkQueue[i], vWorkQueue, accept, start, i);
        i := i + 1;
      }
    }

    /** From an entry to one that nothing waits for. */
    method FindLeaf(k0: uint256, i0: nat, ghost top: nat, ghost depth: uint256 -> nat) returns (k: uint256, i: nat)
      requires Valid() && Grounded(mapOrphanBlocks, depth)
      requires k0 in mapOrphanBlocksByPrev && i0 < |mapOrphanBlocksByPrev[k0]|
      requires forall h :: h in mapOrphanBlocks ==> depth(h) <= top
      ensures k in mapOrphanBlocksByPrev && i < |mapOrphanBlocksByPrev[k]|
      ensures !HasDependents(mapOrphanBlocks, mapOrphanBlocksByPrev[k][i].hashBlock)
    {
      k, i := k0, i0;
      while mapOrphanBlocksByPrev[k][i].hashBlock in mapOrphanBlocksByPrev
        invariant k in mapOrphanBlocksByPrev && i < |mapOrphanBlocksByPrev[k]|
        invariant depth(mapOrphanBlocksByPrev[k][i].hashBlock) <= top
        decreases top - depth(mapOrphanBlocksByPrev[k][i].hashBlock)
      {
        var next := mapOrphanBlocksByPrev[k][i].hashBlock;
        assert ListGood(mapOrphanBlocks, mapOrphanBlocksByPrev[next], next);
        assert mapOrphanBlocksByPrev[next][0].hashBlock in mapOrphanBlocks;
        k, i := next, 0;
      }
      DependentsListed(mapOrphanBlocks, mapOrphanBlocksByPrev, nOrphanBlocksSize,
        mapOrphanBlocksByPrev[k][i].hashBlock);
    }

    /** Remove one orphan that no other waits for, starting from the entry picked. */
    method PruneOne(k0: uint256, i0: nat, ghost top: nat, ghost depth: uint256 -> nat) returns (ghost gone: uint256)
      requires Valid() && Grounded(mapOrphanBlocks, depth)
      requires k0 in mapOrphanBlocksByPrev && i0 < |mapOrphanBlocksByPrev[k0]|
      requires forall h :: h in mapOrphanBlocks ==> depth(h) <= top
      modifies this
      ensures Valid() && gone in old(mapOrphanBlocks) && !HasDependents(old(mapOrphanBlocks), gone)
      ensures mapOrphanBlocks == old(mapOrphanBlocks) - {gone}
    {
      var k, i := FindLeaf(k0, i0, top, depth);
      var o := mapOrphanBlocksByPrev[k][i];
      EraseGood(mapOrphanBlocks, mapOrphanBlocksByPrev, nOrphanBlocksSize, k, i);
      nOrphanBlocksSize := nOrphanBlocksSize - o.nSize;
      mapOrphanBlocksByPrev := EraseEntry(mapOrphanBlocksByPrev, k, i);
      mapOrphanBlocks := mapOrphanBlocks - {o.hashBlock};
      gone := o.hashBlock;
    }

    /** Whatever is picked, pruning stops at or below the limit, and what is left is closed under the parents that
        were in the pool: an orphan goes only after everything that waits for it. */
    method PruneOrphanBlocks(nMaxOrphanBlocksSize: nat, pick: nat -> nat, ghost top: nat, ghost depth: uint256 -> nat)
      requires Valid() && Grounded(mapOrphanBlocks, depth) && forall h :: h in mapOrphanBlocks ==> depth(h) <= top
      modifies this
      ensures Valid() && nOrphanBlocksSize <= nMaxOrphanBlocksSize
      ensures Pruned(old(mapOrphanBlocks), mapOrphanBlocks)
      ensures old(nOrphanBlocksSize) <= nMaxOrphanBlocksSize ==> mapOrphanBlocks == old(mapOrphanBlocks)
    {
      hide PoolGood, TotalSize, HasDependents;
      ghost var start := mapOrphanBlocks;
      var round := 0;
      while nOrphanBlocksSize > nMaxOrphanBlocksSize
        invariant Valid() && Pruned(start, mapOrphanBlocks)
        invariant old(nOrphanBlocksSize) <= nMaxOrphanBlocksSize ==>
          mapOrphanBlocks == start && nOrphanBlocksSize == old(nOrphanBlocksSize)
        decreases mapOrphanBlocks.Keys
      {
        SomeEntry(mapOrphanBlocks, mapOrphanBlocksByPrev, nOrphanBlocksSize);
        PrunedKeeps(start, mapOrphanBlocks, depth, top);
        var k := PickKey(mapOrphanBlocksByPrev, pick(round));
        ghost var before := mapOrphanBlocks;
        ghost var gone := PruneOne(k, pick(round + 1) % |mapOrphanBlocksByPrev[k]|, top, depth);
        PrunedMore(start, before, gone);
        assert gone in before.Keys && mapOrphanBlocks.Keys == before.Keys - {gone};
        round := round + 2;
      }
    }
  }

  // ----- the work queue

  /** While the orphans under one parent are handled: the first j are gone, the multimap still lists them all. */
  ghost predicate Handling(m: Pool, p: ByPrev, nSize: int, k: uint256, list: seq<COrphanBlock>, j: nat)
    requires j <= |list|
  {
    && k in p && p[k] == list
    && PoolGood(m, if j == |list| then p - {k} else p[k := list[j..]], nSize)
  }

  lemma HandleNext(m: Pool, p: ByPrev, nSize: int, k: uint256, list: seq<COrphanBlock>, j: nat)
    requires j < |list| && Handling(m, p, nSize, k, list, j)
    ensures list[j].hashBlock in m && m[list[j].hashBlock] == list[j] && list[j].hashPrev == k
    ensures Handling(m - {list[j].hashBlock}, p, nSize - list[j].nSize, k, list, j + 1)
  {
    hide PoolGood;
    var q := p[k := list[j..]];
    FirstListed(m, q, nSize, k);
    EraseGood(m, q, nSize, k, 0);
    assert RemoveAt(list[j..], 0) == list[j + 1..];
    if j + 1 < |list| {
      assert EraseEntry(q, k, 0) == p[k := list[j + 1..]];
    } else {
      assert EraseEntry(q, k, 0) == p - {k};
    }
  }

  lemma ListedNonempty(m: Pool, p: ByPrev, nSize: int, k: uint256)
    requires PoolGood(m, p, nSize) && k in p
    ensures Handling(m, p, nSize, k, p[k], 0) && p[k] != []
  {
    assert p[k][0..] == p[k] && p[k := p[k]] == p;
  }

  lemma FirstListed(m: Pool, p: ByPrev, nSize: int, k: uint256)
    requires PoolGood(m, p, nSize) && k in p && p[k] != []
    ensures p[k][0].hashBlock in m && m[p[k][0].hashBlock] == p[k][0] && p[k][0].hashPrev == k
  {
  }

  /** What the work queue has done so far: its blocks are the one accepted first and the accepted orphans among
      those whose parent it has handled, and those are gone. */
  ghost predicate Drained(start: Pool, m: Pool, queue: seq<uint256>, i: nat, accept: uint256 -> bool)
    requires i <= |queue|
  {
    && queue != []
    && (forall h :: h in m <==> h in start && start[h].hashPrev !in queue[..i])
    && (forall h :: h in m ==> m[h] == start[h])
    && (forall h :: h in queue[1..] <==> h in start && start[h].hashPrev in queue[..i] && accept(h))
  }

  /** While the orphans under queue[i] are handled. */
  ghost predicate Draining(start: Pool, m: Pool, queue: seq<uint256>, i: nat, accept: uint256 -> bool,
                           list: seq<COrphanBlock>, j: nat)
    requires i < |queue| && j <= |list|
  {
    && (forall h :: h in m <==> h in start && start[h].hashPrev !in queue[..i] && !Handled(list, j, h))
    && (forall h :: h in m ==> m[h] == start[h])
    && (forall h :: h in queue[1..] <==>
      h in start && (start[h].hashPrev in queue[..i] || Handled(list, j, h)) && accept(h))
  }

  predicate Handled(list: seq<COrphanBlock>, j: nat, h: uint256)
    requires j <= |list|
  {
    exists x :: 0 <= x < j && list[x].hashBlock == h
  }

  lemma HandledMore(list: seq<COrphanBlock>, j: nat, h: uint256)
    requires j < |list|
    ensures Handled(list, j + 1, h) <==> Handled(list, j, h) || h == list[j].hashBlock
  {
    if h == list[j].hashBlock { assert Handled(list, j + 1, h); }
  }

  lemma DrainingStart(start: Pool, m: Pool, queue: seq<uint256>, i: nat, accept: uint256 -> bool,
                      list: seq<COrphanBlock>)
    requires i < |queue| && Drained(start, m, queue, i, accept)
    ensures Draining(start, m, queue, i, accept, list, 0)
  {
  }

  lemma DrainingStep(start: Pool, m: Pool, queue: seq<uint256>, i: nat, accept: uint256 -> bool,
                     list: seq<COrphanBlock>, j: nat)
    requires i < |queue| && j < |list| && Draining(start, m, queue, i, accept, list, j)
    requires list[j].hashBlock in m && m[list[j].hashBlock] == list[j]
    ensures var h := list[j].hashBlock;
      Draining(start, m - {h}, if accept(h) then queue + [h] else queue, i, accept, list, j + 1)
  {
    hide Handled;
    var h := list[j].hashBlock;
    var q := if accept(h) then queue + [h] else queue;
    assert q[..i] == queue[..i];
    forall x
      ensures Handled(list, j + 1, x) <==> Handled(list, j, x) || x == h
    {
      HandledMore(list, j, x);
    }
    assert accept(h) ==> q[1..] == queue[1..] + [h];
  }

  /** The whole list handled means that all orphans with this parent are. */
  lemma DrainingEnd(start: Pool, m0: Pool, p: ByPrev, nSize: int, m: Pool, queue0: seq<uint256>, queue: seq<uint256>,
                    i: nat,
                    accept: uint256 -> bool, list: seq<COrphanBlock>)
    requires i < |queue0| && queue0 <= queue && Drained(start, m0, queue0, i, accept)
    requires PoolGood(m0, p, nSize) && list == ListOf(p, queue0[i])
    requires Draining(start, m, queue, i, accept, list, |list|)
    ensures Drained(start, m, queue, i + 1, accept)
  {
    assert queue[..i] == queue0[..i] && queue[..i + 1] == queue[..i] + [queue0[i]];
    forall h | h in start
      ensures start[h].hashPrev in queue[..i + 1] <==> start[h].hashPrev in queue[..i] || Handled(list, |list|, h)
    {
      if start[h].hashPrev !in queue[..i] {
        assert h in m0;
        if start[h].hashPrev == queue0[i] {
          assert m0[h] in list;
          var x :| 0 <= x < |list| && list[x] == m0[h];
          assert list[x].hashBlock == h;
        }
      }
    }
  }

  /** What is left of the pool: fewer orphans, and with each the parent it had in the pool. */
  predicate Pruned(start: Pool, m: Pool) {
    && m.Keys <= start.Keys
    && forall h :: h in m ==> m[h] == start[h] && (start[h].hashPrev in start ==> start[h].hashPrev in m)
  }

  lemma PrunedMore(start: Pool, m: Pool, gone: uint256)
    requires Pruned(start, m) && !HasDependents(m, gone)
    ensures Pruned(start, m - {gone})
  {
  }

  lemma PrunedKeeps(start: Pool, m: Pool, depth: uint256 -> nat, top: nat)
    requires Pruned(start, m) && Grounded(start, depth) && forall h :: h in start ==> depth(h) <= top
    ensures Grounded(m, depth) && forall h :: h in m ==> depth(h) <= top
  {
  }

  lemma SomeEntry(m: Pool, p: ByPrev, nSize: int)
    requires PoolGood(m, p, nSize) && nSize > 0
    ensures p != map[] && forall k :: k in p ==> |p[k]| > 0
  {
    if m != map[] {
      var h := AnyKey(m);
      assert m[h].hashPrev in p;
    }
  }

  /** Some key of the map, depending on the number drawn. */
  method PickKey(p: ByPrev, n: nat) returns (k: uint256)
    requires p != map[]
    ensures k in p
  {
    var keys, skip := p.Keys, n % |p|;
    assert |p.Keys| == |p|;
    while skip > 0
      invariant keys <= p.Keys && 0 <= skip < |keys|
    {
      ghost var y := SomeMember(keys);
      assert y in keys;
      var x :| x in keys;
      keys := keys - {x};
      skip := skip - 1;
    }
    assert |keys| > 0;
    ghost var z := SomeMember(keys);
    assert z in keys;
    k :| k in keys;
  }
}
