/** The stake modifier: which blocks contribute a bit to it, round by round. */
module Kernel {
  import opened Basics
  import opened Transactions

  const MODIFIER_INTERVAL: nat := 600
  const MODIFIER_INTERVAL_RATIO: nat := 3
  const ROUNDS: nat := 64

  /** What the computation reads of a block. */
  datatype StakeBlock = StakeBlock(
    hash: uint256, nTime: nat, fProofOfStake: bool, hashProof: uint256, fEntropyBit: bool, nStakeModifier: uint256,
    fGenerated: bool)

  type BlockMap = map<uint256, StakeBlock>

  datatype Stamp = Stamp(nTime: nat, hash: uint256)

  // ----- sections

  function Section(nSection: nat): nat
    requires nSection < ROUNDS
  {
    MODIFIER_INTERVAL * 63 / (63 + (63 - nSection) * (MODIFIER_INTERVAL_RATIO - 1))
  }

  function Sections(k: nat): nat
    requires k <= ROUNDS
  {
    if k == 0 then 0 else Sections(k - 1) + Section(k - 1)
  }

  method GetStakeModifierSelectionInterval() returns (nSelectionInterval: nat)
    ensures nSelectionInterval == Sections(ROUNDS)
  {
    hide Section;
    nSelectionInterval := 0;
    for nSection := 0 to ROUNDS
      invariant nSelectionInterval == Sections(nSection)
    {
      nSelectionInterval := nSelectionInterval + Section(nSection);
    }
  }

  lemma MulMono(m: nat, n: nat, a: nat)
    requires m <= n
    ensures m * a <= n * a
  {
  }

  lemma MulOrder(m: nat, n: nat, a: nat)
    requires m * a < n * a
    ensures m < n
  {
    if n <= m { MulMono(n, m, a); }
  }

  lemma QuotientAtLeast(x: nat, a: nat, q: nat)
    requires a > 0 && q * a <= x
    ensures q <= x / a
  {
    assert x < (x / a + 1) * a;
    MulOrder(q, x / a + 1, a);
  }

  lemma QuotientFalls(x: nat, a: nat, b: nat)
    requires 0 < a <= b
    ensures x / b <= x / a
  {
    var q := x / b;
    assert q * b <= x;
    assert q * a <= q * b;
    QuotientAtLeast(x, a, q);
  }

  /** Later sections are not shorter, from a third of the interval up to the interval. */
  lemma SectionsGrow(m: nat, n: nat)
    requires m <= n < ROUNDS
    ensures MODIFIER_INTERVAL / 3 <= Section(m) <= Section(n) <= MODIFIER_INTERVAL
  {
    var x := MODIFIER_INTERVAL * 63;
    QuotientFalls(x, 63 + (63 - n) * 2, 63 + (63 - m) * 2);
    QuotientFalls(x, 63 + (63 - m) * 2, 189);
    QuotientFalls(x, 63, 63 + (63 - n) * 2);
  }

  /** Section n in numbers: 37800 / (189 - 2n), rounded down. */
  lemma SectionExact(n: nat)
    requires n < ROUNDS
    ensures Section(n) * (189 - 2 * n) <= 37_800 < (Section(n) + 1) * (189 - 2 * n)
  {
    var d := 189 - 2 * n;
    assert Section(n) == 37_800 / d;
    assert 37_800 == 37_800 / d * d + 37_800 % d;
  }

  // ----- choosing a block

  /** The selection hash; that of a stake block is divided by 2^32. */
  function SelectionHash(b: StakeBlock, nStakeModifierPrev: uint256, hash: (uint256, uint256) -> uint256): nat {
    var h := hash(b.hashProof, nStakeModifierPrev);
    if b.fProofOfStake then h / 0x1_0000_0000 else h
  }

  /** The candidates of a round: all blocks in order of time, those selected before, and the time up to which
      this round looks. */
  datatype Round = Round(v: seq<Stamp>, blocks: BlockMap, selected: set<uint256>, nStop: int, nModifier: uint256,
                         hash: (uint256, uint256) -> uint256) {

    predicate Good() {
      && (forall i :: 0 <= i < |v| ==>
        v[i].hash in blocks && blocks[v[i].hash].hash == v[i].hash && blocks[v[i].hash].nTime == v[i].nTime)
      && (forall i, j :: 0 <= i < j < |v| ==> v[i].nTime <= v[j].nTime && v[i].hash != v[j].hash)
    }

    predicate Free(i: nat)
      requires i < |v|
    {
      v[i].hash !in selected
    }

    function HashAt(i: nat): nat
      requires Good() && i < |v|
    {
      SelectionHash(blocks[v[i].hash], nModifier, hash)
    }

    /** k is the first free candidate with the least hash among those up to the stop, or the first free one when
        none is that early. */
    predicate Chosen(k: nat)
      requires Good()
    {
      && k < |v| && Free(k)
      && (forall i :: 0 <= i < |v| && Free(i) && v[i].nTime <= nStop ==>
          HashAt(k) <= HashAt(i) && (i < k ==> HashAt(k) < HashAt(i)))
      && (v[k].nTime > nStop ==> forall i :: 0 <= i < k ==> !Free(i))
    }
  }

  /** On the hashes themselves: a stake block counts as 2^32 times smaller than its hash, rounded down, so a work block
      is only chosen over stake blocks with hashes 2^32 times its own or more. */
  predicate NotBeaten(b: StakeBlock, c: StakeBlock, nModifier: uint256, hash: (uint256, uint256) -> uint256) {
    var x, y := hash(b.hashProof, nModifier), hash(c.hashProof, nModifier);
    if b.fProofOfStake then
      if c.fProofOfStake then x / 0x1_0000_0000 <= y / 0x1_0000_0000 else x < 0x1_0000_0000 * (y + 1)
    else
      if c.fProofOfStake then 0x1_0000_0000 * x <= y else x <= y
  }

  lemma ChosenNotBeaten(r: Round, k: nat, i: nat)
    requires r.Good() && r.Chosen(k) && i < |r.v| && r.v[i].hash !in r.selected && r.v[i].nTime <= r.nStop
    ensures NotBeaten(r.blocks[r.v[k].hash], r.blocks[r.v[i].hash], r.nModifier, r.hash)
  {
    assert r.Free(i);
    assert r.HashAt(k) <= r.HashAt(i);
  }

  /** No two blocks can be chosen in a round. */
  lemma ChosenUnique(r: Round, j: nat, k: nat)
    requires r.Good() && r.Chosen(j) && r.Chosen(k)
    ensures j == k
  {
  }

  method SelectBlockFromCandidates(r: Round) returns (fSelected: bool, ghost k: nat, pindexSelected: Option<StakeBlock>)
    requires r.Good()
    ensures fSelected <==> exists i :: 0 <= i < |r.v| && r.Free(i)
    ensures fSelected ==> r.Chosen(k) && pindexSelected == Some(r.blocks[r.v[k].hash])
    ensures fSelected ==> forall i :: 0 <= i < |r.v| && r.v[i].hash !in r.selected && r.v[i].nTime <= r.nStop ==>
      NotBeaten(pindexSelected.value, r.blocks[r.v[i].hash], r.nModifier, r.hash)
  {
    fSelected, k, pindexSelected := false, 0, None;
    var hashBest := 0;
    for i := 0 to |r.v|
      invariant !fSelected ==> forall j :: 0 <= j < i ==> !r.Free(j)
      invariant fSelected ==>
        k < i && r.Free(k) && pindexSelected == Some(r.blocks[r.v[k].hash]) && hashBest == r.HashAt(k)
      invariant fSelected ==>
        forall j :: 0 <= j < i && r.Free(j) ==> hashBest <= r.HashAt(j) && (j < k ==> hashBest < r.HashAt(j))
      invariant fSelected && r.v[k].nTime > r.nStop ==> forall j :: 0 <= j < k ==> !r.Free(j)
    {
      var item := r.v[i];
      var pindex := r.blocks[item.hash];
      if fSelected && pindex.nTime > r.nStop { break; }
      if pindex.hash in r.selected { continue; }
      var hashSelection := SelectionHash(pindex, r.nModifier, r.hash);
      if fSelected && hashSelection < hashBest {
        hashBest := hashSelection;
        k, pindexSelected := i, Some(pindex);
      } else if !fSelected {
        fSelected := true;
        hashBest := hashSelection;
        k, pindexSelected := i, Some(pindex);
      }
    }
    if fSelected {
      forall i | 0 <= i < |r.v| && r.v[i].hash !in r.selected && r.v[i].nTime <= r.nStop
        ensures NotBeaten(pindexSelected.value, r.blocks[r.v[i].hash], r.nModifier, r.hash)
      {
        ChosenNotBeaten(r, k, i);
      }
    }
  }

  // ----- the rounds

  /** The blocks picked in the first n rounds. */
  function Selected(v: seq<Stamp>, picks: seq<nat>, n: nat): (r: set<uint256>)
    requires n <= |picks| && forall i :: 0 <= i < n ==> picks[i] < |v|
    ensures forall i :: 0 <= i < n ==> v[picks[i]].hash in r
    ensures forall h :: h in r ==> exists i :: 0 <= i < n && h == v[picks[i]].hash
  {
    if n == 0 then {} else Selected(v, picks, n - 1) + {v[picks[n - 1]].hash}
  }

  lemma {:induction false} SelectedPrefix(v: seq<Stamp>, picks: seq<nat>, k: nat, n: nat)
    requires n <= |picks| && k < |v| && forall i :: 0 <= i < |picks| ==> picks[i] < |v|
    ensures Selected(v, picks + [k], n) == Selected(v, picks, n)
    decreases n
  {
    if n > 0 { SelectedPrefix(v, picks, k, n - 1); }
  }

  /** Before round n: the time up to which it looks, and what has been selected. */
  function RoundOf(v: seq<Stamp>, blocks: BlockMap, picks: seq<nat>, n: nat, nStart: int, nModifier: uint256,
                   hash: (uint256, uint256) -> uint256): Round
    requires n < ROUNDS && n <= |picks| && forall i :: 0 <= i < n ==> picks[i] < |v|
  {
    Round(v, blocks, Selected(v, picks, n), nStart + Sections(n + 1), nModifier, hash)
  }

  /** The n-th pick is the choice of its round. */
  predicate PickOk(v: seq<Stamp>, blocks: BlockMap, picks: seq<nat>, n: nat, nStart: int, nModifier: uint256,
                   hash: (uint256, uint256) -> uint256)
    requires n < |picks| <= ROUNDS && forall i :: 0 <= i < |picks| ==> picks[i] < |v|
  {
    var r := RoundOf(v, blocks, picks, n, nStart, nModifier, hash);
    r.Good() && r.Chosen(picks[n])
  }

  predicate Picks(v: seq<Stamp>, blocks: BlockMap, picks: seq<nat>, nStart: int, nModifier: uint256,
                  hash: (uint256, uint256) -> uint256) {
    && |picks| <= ROUNDS && (forall i :: 0 <= i < |picks| ==> picks[i] < |v|)
    && forall n :: 0 <= n < |picks| ==> PickOk(v, blocks, picks, n, nStart, nModifier, hash)
  }

  lemma PicksDistinct(v: seq<Stamp>, blocks: BlockMap, picks: seq<nat>, nStart: int, nModifier: uint256,
                      hash: (uint256, uint256) -> uint256)
    requires Picks(v, blocks, picks, nStart, nModifier, hash)
    ensures forall i, j :: 0 <= i < j < |picks| ==> picks[i] != picks[j]
  {
    forall i, j | 0 <= i < j < |picks|
      ensures picks[i] != picks[j]
    {
      var r := RoundOf(v, blocks, picks, j, nStart, nModifier, hash);
      assert PickOk(v, blocks, picks, j, nStart, nModifier, hash);
      assert v[picks[i]].hash in r.selected && r.Free(picks[j]);
    }
  }

  /** In its round no pick is beaten by a candidate up to the stop that was not picked before, and a pick from after
      the stop is the first candidate left. */
  ghost predicate Unbeaten(v: seq<Stamp>, blocks: BlockMap, picks: seq<nat>, nStart: int, nModifier: uint256,
                           hash: (uint256, uint256) -> uint256) {
    forall n, i :: 0 <= n < |picks| <= ROUNDS && 0 <= i < |v| && v[i].hash !in Picked(v, picks, n) ==>
      && picks[n] < |v| && v[i].hash in blocks && v[picks[n]].hash in blocks
      && (v[i].nTime <= nStart + Sections(n + 1) ==>
          NotBeaten(blocks[v[picks[n]].hash], blocks[v[i].hash], nModifier, hash))
      && (v[picks[n]].nTime > nStart + Sections(n + 1) ==> picks[n] <= i)
  }

  function Picked(v: seq<Stamp>, picks: seq<nat>, n: nat): set<uint256> {
    set m | 0 <= m < n && m < |picks| && picks[m] < |v| :: v[picks[m]].hash
  }

  lemma PicksUnbeaten(v: seq<Stamp>, blocks: BlockMap, picks: seq<nat>, nStart: int, nModifier: uint256,
                      hash: (uint256, uint256) -> uint256)
    requires Picks(v, blocks, picks, nStart, nModifier, hash)
    ensures Unbeaten(v, blocks, picks, nStart, nModifier, hash)
  {
    hide Sections, Round.Good, Round.Chosen, NotBeaten, Picks;
    forall n, i | 0 <= n < |picks| <= ROUNDS && 0 <= i < |v| && v[i].hash !in Picked(v, picks, n)
      ensures && picks[n] < |v| && v[i].hash in blocks && v[picks[n]].hash in blocks
        && (v[i].nTime <= nStart + Sections(n + 1) ==>
            NotBeaten(blocks[v[picks[n]].hash], blocks[v[i].hash], nModifier, hash))
        && (v[picks[n]].nTime > nStart + Sections(n + 1) ==> picks[n] <= i)
    {
      PickUnbeaten(v, blocks, picks, nStart, nModifier, hash, n, i);
    }
  }

  lemma PickUnbeaten(v: seq<Stamp>, blocks: BlockMap, picks: seq<nat>, nStart: int, nModifier: uint256,
                     hash: (uint256, uint256) -> uint256, n: nat, i: nat)
    requires Picks(v, blocks, picks, nStart, nModifier, hash) && n < |picks| && i < |v|
    requires v[i].hash !in Picked(v, picks, n)
    ensures picks[n] < |v| && v[i].hash in blocks && v[picks[n]].hash in blocks
    ensures v[i].nTime <= nStart + Sections(n + 1) ==>
      NotBeaten(blocks[v[picks[n]].hash], blocks[v[i].hash], nModifier, hash)
    ensures v[picks[n]].nTime > nStart + Sections(n + 1) ==> picks[n] <= i
  {
    hide Sections, NotBeaten;
    assert PickOk(v, blocks, picks, n, nStart, nModifier, hash);
    var r := RoundOf(v, blocks, picks, n, nStart, nModifier, hash);
    assert forall h :: h in r.selected ==> h in Picked(v, picks, n);
    assert r.Free(i);
    if v[i].nTime <= r.nStop { ChosenNotBeaten(r, picks[n], i); }
  }

  predicate PicksInRange(v: seq<Stamp>, blocks: BlockMap, picks: seq<nat>) {
    forall i :: 0 <= i < |picks| ==> picks[i] < |v| && v[picks[i]].hash in blocks
  }

  /** The number whose bit n is the entropy bit of the block picked in round n. */
  function BitsOf(v: seq<Stamp>, blocks: BlockMap, picks: seq<nat>): nat
    requires PicksInRange(v, blocks, picks)
  {
    if picks == [] then 0
    else
      var n := |picks| - 1;
      BitsOf(v, blocks, picks[..n]) + if blocks[v[picks[n]].hash].fEntropyBit then Pow2(n) else 0
  }

  lemma {:induction false} BitsBelow(v: seq<Stamp>, blocks: BlockMap, picks: seq<nat>)
    requires PicksInRange(v, blocks, picks)
    ensures BitsOf(v, blocks, picks) < Pow2(|picks|)
  {
    if picks != [] { BitsBelow(v, blocks, picks[..|picks| - 1]); }
  }

  function BitAt(x: nat, n: nat): bool { x / Pow2(n) % 2 == 1 }

  lemma SetBitAbove(x: nat, n: nat, m: nat, b: bool)
    requires x < Pow2(m) && n <= m
    ensures BitAt(x + if b then Pow2(m) else 0, n) == if n == m then b else BitAt(x, n)
  {
    if n == m {
      SmallDiv(x, Pow2(m));
      DivShift(x, 1, Pow2(m));
    } else {
      HigherBit(x, n, m);
    }
  }

  lemma HigherBit(x: nat, n: nat, m: nat)
    requires n < m
    ensures BitAt(x + Pow2(m), n) == BitAt(x, n)
  {
    hide Pow2;
    PowSplit(n, m);
    BitKept(x, Pow2(m - n - 1), Pow2(n));
  }

  lemma BitKept(x: nat, half: nat, p: nat)
    requires p > 0
    ensures (x + 2 * half * p) / p % 2 == x / p % 2
  {
    DivShift(x, 2 * half, p);
    EvenShift(x / p, half);
  }

  lemma EvenShift(d: nat, half: nat)
    ensures (d + 2 * half) % 2 == d % 2
  {
  }

  lemma SmallDiv(x: nat, p: nat)
    requires x < p
    ensures x / p == 0
  {
  }

  lemma DivShift(x: nat, q: nat, p: nat)
    requires p > 0
    ensures (x + q * p) / p == x / p + q
  {
    var d, y := x / p + q, x + q * p;
    assert x == x / p * p + x % p;
    assert d * p == x / p * p + q * p;
    QuotientAtLeast(y, p, d);
    assert y / p * p <= y < d * p + p == (d + 1) * p;
    MulOrder(y / p, d + 1, p);
  }

  lemma {:induction false} PowSplit(n: nat, m: nat)
    requires n < m
    ensures Pow2(m) == 2 * Pow2(m - n - 1) * Pow2(n)
    decreases m
  {
    if m == n + 1 {
      assert Pow2(0) == 1;
    } else {
      PowSplit(n, m - 1);
      Doubled(Pow2(m - 1), Pow2(m - n - 2), Pow2(n));
      assert Pow2(m) == 2 * Pow2(m - 1) && Pow2(m - n - 1) == 2 * Pow2(m - n - 2);
    }
  }

  lemma Doubled(p: nat, a: nat, b: nat)
    requires p == 2 * a * b
    ensures 2 * p == 2 * (2 * a) * b
  {
  }

  /** Bit n of the modifier is the entropy bit of the block picked in round n. */
  lemma {:induction false} BitsAt(v: seq<Stamp>, blocks: BlockMap, picks: seq<nat>, n: nat)
    requires n < |picks| && PicksInRange(v, blocks, picks)
    ensures BitAt(BitsOf(v, blocks, picks), n) == blocks[v[picks[n]].hash].fEntropyBit
    decreases |picks|
  {
    var m := |picks| - 1;
    BitsBelow(v, blocks, picks[..m]);
    SetBitAbove(BitsOf(v, blocks, picks[..m]), n, m, blocks[v[picks[m]].hash].fEntropyBit);
    if n < m { BitsAt(v, blocks, picks[..m], n); }
  }

  // ----- every round finds a block

  function Members(s: seq<nat>): (r: set<nat>)
    ensures |r| <= |s|
    ensures forall x :: x in s ==> x in r
  {
    if s == [] then {} else {s[0]} + Members(s[1..])
  }

  function Below(m: nat): (r: set<nat>)
    ensures |r| == m
    ensures forall i: nat :: i in r <==> i < m
  {
    if m == 0 then {} else Below(m - 1) + {m - 1}
  }

  lemma Pigeons(s: seq<nat>, m: nat)
    requires forall i: nat :: i < m ==> i in s
    ensures m <= |s|
  {
    SubsetSize(Below(m), Members(s));
  }

  /** While fewer blocks are picked than there are candidates, one is free. */
  lemma SomeFree(v: seq<Stamp>, blocks: BlockMap, picks: seq<nat>, nStart: int, nModifier: uint256,
                 hash: (uint256, uint256) -> uint256)
    requires |picks| < |v| && |picks| < ROUNDS && forall i :: 0 <= i < |picks| ==> picks[i] < |v|
    requires RoundOf(v, blocks, picks, |picks|, nStart, nModifier, hash).Good()
    ensures exists i :: 0 <= i < |v| && RoundOf(v, blocks, picks, |picks|, nStart, nModifier, hash).Free(i)
  {
    var r := RoundOf(v, blocks, picks, |picks|, nStart, nModifier, hash);
    if forall i :: 0 <= i < |v| ==> !r.Free(i) {
      forall i: nat | i < |v|
        ensures i in picks
      {
        assert !r.Free(i);
      }
      Pigeons(picks, |v|);
    }
  }

  // ----- the candidates

  predicate Earlier(a: Stamp, b: Stamp) {
    a.nTime < b.nTime || (a.nTime == b.nTime && a.hash <= b.hash)
  }

  function Insert(a: Stamp, v: seq<Stamp>): seq<Stamp> {
    if v == [] || Earlier(a, v[0]) then [a] + v else [v[0]] + Insert(a, v[1..])
  }

  function Sort(v: seq<Stamp>): seq<Stamp> {
    if v == [] then [] else Insert(v[0], Sort(v[1..]))
  }

  predicate Ordered(v: seq<Stamp>) {
    forall i, j :: 0 <= i < j < |v| ==> Earlier(v[i], v[j])
  }

  lemma {:induction false} InsertGood(a: Stamp, v: seq<Stamp>)
    requires Ordered(v)
    ensures Ordered(Insert(a, v)) && multiset(Insert(a, v)) == multiset(v) + multiset{a}
  {
    if v != [] {
      assert v == [v[0]] + v[1..];
      if !Earlier(a, v[0]) {
        InsertGood(a, v[1..]);
        OrderedFront(v[0], Insert(a, v[1..]), multiset(v[1..]) + multiset{a});
      }
    }
  }

  lemma OrderedFront(x: Stamp, w: seq<Stamp>, m: multiset<Stamp>)
    requires Ordered(w) && multiset(w) == m && forall y :: y in m ==> Earlier(x, y)
    ensures Ordered([x] + w)
  {
    forall i | 0 <= i < |w|
      ensures Earlier(x, w[i])
    {
      assert w[i] in multiset(w);
    }
  }

  lemma {:induction false} SortGood(v: seq<Stamp>)
    ensures Ordered(Sort(v)) && multiset(Sort(v)) == multiset(v)
  {
    if v != [] {
      SortGood(v[1..]);
      InsertGood(v[0], Sort(v[1..]));
      assert v == [v[0]] + v[1..];
    }
  }

  function StampOf(b: StakeBlock): Stamp { Stamp(b.nTime, b.hash) }

  function Stamps(chain: seq<StakeBlock>): (v: seq<Stamp>)
    ensures |v| == |chain|
  {
    seq(|chain|, i requires 0 <= i < |chain| => StampOf(chain[i]))
  }

  /** The blocks down to the genesis block, each under its own hash in the block map. */
  ghost predicate ChainGood(chain: seq<StakeBlock>, blocks: BlockMap) {
    && (forall i :: 0 <= i < |chain| ==> chain[i].hash in blocks && blocks[chain[i].hash] == chain[i])
    && (forall i, j :: 0 <= i < j < |chain| ==> chain[i].hash != chain[j].hash)
  }

  lemma DistinctBySort(v: seq<Stamp>)
    requires forall i, j :: 0 <= i < j < |v| ==> v[i].hash != v[j].hash
    ensures forall i, j :: 0 <= i < j < |Sort(v)| ==> Sort(v)[i].hash != Sort(v)[j].hash
  {
    SortGood(v);
    var w := Sort(v);
    forall i, j | 0 <= i < j < |w|
      ensures w[i].hash != w[j].hash
    {
      if w[i].hash == w[j].hash {
        TwiceInSeq(w, i, j);
        assert w[i] in multiset(v) && w[j] in multiset(v);
        var a :| 0 <= a < |v| && v[a] == w[i];
        var b :| 0 <= b < |v| && v[b] == w[j];
        assert a == b;
        OnceInSeq(v, a);
      }
    }
  }

  lemma TwiceInSeq(w: seq<Stamp>, i: nat, j: nat)
    requires i < j < |w|
    ensures w[i] == w[j] ==> multiset(w)[w[i]] >= 2
  {
    assert w == w[..j] + [w[j]] + w[j + 1..];
    assert w[..j][i] == w[i];
    assert multiset(w) == multiset(w[..j]) + multiset{w[j]} + multiset(w[j + 1..]);
  }

  lemma {:induction false} OnceInSeq(v: seq<Stamp>, a: nat)
    requires a < |v| && forall i, j :: 0 <= i < j < |v| ==> v[i].hash != v[j].hash
    ensures multiset(v)[v[a]] == 1
  {
    assert v == v[..a] + [v[a]] + v[a + 1..];
    assert v[a] !in v[..a] && v[a] !in v[a + 1..];
    assert multiset(v) == multiset(v[..a]) + multiset{v[a]} + multiset(v[a + 1..]);
  }

  /** The candidates in order are fit for the rounds. */
  lemma CandidatesGood(chain: seq<StakeBlock>, blocks: BlockMap, from: nat, r: Round)
    requires from <= |chain| && ChainGood(chain, blocks) && r.v == Sort(Stamps(chain[from..])) && r.blocks == blocks
    ensures r.Good()
  {
    var v := Stamps(chain[from..]);
    SortGood(v);
    forall i, j | 0 <= i < j < |v|
      ensures v[i].hash != v[j].hash
    {
      assert chain[from..][i] == chain[from + i] && chain[from..][j] == chain[from + j];
    }
    DistinctBySort(v);
    forall i | 0 <= i < |r.v|
      ensures r.v[i].hash in blocks && blocks[r.v[i].hash].hash == r.v[i].hash
        && blocks[r.v[i].hash].nTime == r.v[i].nTime
    {
      assert r.v[i] in multiset(v);
      var a :| 0 <= a < |v| && v[a] == r.v[i];
      assert chain[from..][a] == chain[from + a];
    }
    forall i, j | 0 <= i < j < |r.v|
      ensures r.v[i].nTime <= r.v[j].nTime
    {
      assert Earlier(r.v[i], r.v[j]);
    }
  }

  /** They are in order of time, and of the hashes as numbers where the times are equal. */
  lemma CandidatesInOrder(chain: seq<StakeBlock>, blocks: BlockMap, from: nat, i: nat, j: nat)
    requires from <= |chain| && ChainGood(chain, blocks)
    requires i < j < |Sort(Stamps(chain[from..]))|
    ensures var a, b := Sort(Stamps(chain[from..]))[i], Sort(Stamps(chain[from..]))[j];
      a.nTime < b.nTime || (a.nTime == b.nTime && a.hash < b.hash)
  {
    SortGood(Stamps(chain[from..]));
    var r := Round(Sort(Stamps(chain[from..])), blocks, {}, 0, 0, (x, y) => 0);
    CandidatesGood(chain, blocks, from, r);
    assert Earlier(r.v[i], r.v[j]) && r.v[i].hash != r.v[j].hash;
  }

  // ----- the whole computation

  /** The last block of the first n that generated a modifier. */
  function LastGenerated(chain: seq<StakeBlock>, n: nat): Option<StakeBlock>
    requires n <= |chain|
  {
    if n == 0 then None
    else if chain[n - 1].fGenerated then Some(chain[n - 1])
    else LastGenerated(chain, n - 1)
  }

  method GetLastStakeModifier(chain: seq<StakeBlock>) returns (ok: bool, nStakeModifier: uint256, nModifierTime: nat)
    ensures ok == LastGenerated(chain, |chain|).Some?
    ensures ok ==>
      var b := LastGenerated(chain, |chain|).value; nStakeModifier == b.nStakeModifier && nModifierTime == b.nTime
  {
    if |chain| == 0 { return false, 0, 0; }
    var n := |chain| - 1;
    while n > 0 && !chain[n].fGenerated
      invariant 0 <= n < |chain| && LastGenerated(chain, |chain|) == LastGenerated(chain, n + 1)
    {
      n := n - 1;
    }
    if !chain[n].fGenerated {
      assert LastGenerated(chain, 0) == None;
      return false, 0, 0;
    }
    ok, nStakeModifier, nModifierTime := true, chain[n].nStakeModifier, chain[n].nTime;
  }

  /** The first of the blocks at the end of the chain that are not before the start. */
  function FirstCandidate(chain: seq<StakeBlock>, n: nat, nStart: int): (k: nat)
    requires n <= |chain|
    ensures k <= n
  {
    if n == 0 || chain[n - 1].nTime < nStart then n else FirstCandidate(chain, n - 1, nStart)
  }

  /** The candidates reach back to the last block that is too early, whatever the times before that one. */
  lemma {:induction false} FirstCandidateIs(chain: seq<StakeBlock>, n: nat, nStart: int)
    requires n <= |chain|
    ensures var k := FirstCandidate(chain, n, nStart);
      (forall i :: k <= i < n ==> chain[i].nTime >= nStart) && (k > 0 ==> chain[k - 1].nTime < nStart)
  {
    if n > 0 && chain[n - 1].nTime >= nStart { FirstCandidateIs(chain, n - 1, nStart); }
  }

  /** The last modifier is that of the last block that generated one. */
  lemma {:induction false} LastGeneratedIs(chain: seq<StakeBlock>, n: nat)
    requires n <= |chain|
    ensures LastGenerated(chain, n).None? <==> forall i :: 0 <= i < n ==> !chain[i].fGenerated
    ensures LastGenerated(chain, n).Some? ==>
      exists k :: 0 <= k < n && chain[k].fGenerated && LastGenerated(chain, n) == Some(chain[k])
        && forall i :: k < i < n ==> !chain[i].fGenerated
  {
    if n > 0 && !chain[n - 1].fGenerated { LastGeneratedIs(chain, n - 1); }
  }

  /** The start of the selection interval, which ends where the interval of the last block began. */
  function SelectionStart(nTime: nat): int {
    nTime / MODIFIER_INTERVAL * MODIFIER_INTERVAL - Sections(ROUNDS)
  }

  function Candidates(chain: seq<StakeBlock>): seq<Stamp>
    requires chain != []
  {
    Sort(Stamps(chain[FirstCandidate(chain, |chain|, SelectionStart(chain[|chain| - 1].nTime))..]))
  }

  lemma StampsMore(chain: seq<StakeBlock>, n: nat)
    requires 0 < n <= |chain|
    ensures Stamps(chain[n - 1..]) == [StampOf(chain[n - 1])] + Stamps(chain[n..])
  {
    assert chain[n - 1..] == [chain[n - 1]] + chain[n..];
  }

  lemma NoStamps(chain: seq<StakeBlock>)
    ensures Stamps(chain[|chain|..]) == []
  {
  }

  method CollectCandidates(chain: seq<StakeBlock>, nSelectionIntervalStart: int) returns (v: seq<Stamp>)
    ensures v == Sort(Stamps(chain[FirstCandidate(chain, |chain|, nSelectionIntervalStart)..]))
  {
    hide Stamps, Sort;
    var stamps: seq<Stamp> := [];
    var n := |chain|;
    NoStamps(chain);
    while n > 0 && chain[n - 1].nTime >= nSelectionIntervalStart
      invariant 0 <= n <= |chain| && stamps == Stamps(chain[n..])
      invariant FirstCandidate(chain, n, nSelectionIntervalStart) == FirstCandidate(chain, |chain|,
        nSelectionIntervalStart)
    {
      StampsMore(chain, n);
      stamps := [StampOf(chain[n - 1])] + stamps;
      n := n - 1;
    }
    v := Sort(stamps);
  }

  /** The rounds: min(64, n) of them, and none fails. */
  method SelectRounds(v: seq<Stamp>, blocks: BlockMap, nStart: int, nStakeModifier: uint256,
                      hash: (uint256, uint256) -> uint256)
    returns (ok: bool, nStakeModifierNew: nat, ghost picks: seq<nat>)
    requires Round(v, blocks, {}, 0, nStakeModifier, hash).Good()
    ensures ok && Picks(v, blocks, picks, nStart, nStakeModifier, hash) && PicksInRange(v, blocks, picks)
    ensures |picks| == if |v| < ROUNDS then |v| else ROUNDS
    ensures nStakeModifierNew == BitsOf(v, blocks, picks)
    ensures Unbeaten(v, blocks, picks, nStart, nStakeModifier, hash)
  {
    hide Unbeaten, Section, Sections, Picks, Round.Good, Round.Chosen, BitsOf, Pow2, Selected;
    ok, nStakeModifierNew, picks := true, 0, [];
    var nStop, nPower := nStart, 1;
    var selected: set<uint256> := {};
    var nRound := 0;
    NoPicks(v, blocks, nStart, nStakeModifier, hash);
    while nRound < ROUNDS && nRound < |v|
      invariant 0 <= nRound == |picks| <= ROUNDS && nRound <= |v|
      invariant Picks(v, blocks, picks, nStart, nStakeModifier, hash) && PicksInRange(v, blocks, picks)
      invariant nStop == nStart + Sections(nRound) && nPower == Pow2(nRound)
      invariant selected == Selected(v, picks, nRound)
      invariant nStakeModifierNew == BitsOf(v, blocks, picks)
    {
      NextSection(nRound);
      nStop := nStop + Section(nRound);
      var r := Round(v, blocks, selected, nStop, nStakeModifier, hash);
      SameGood(r, Round(v, blocks, {}, 0, nStakeModifier, hash));
      assert r == RoundOf(v, blocks, picks, nRound, nStart, nStakeModifier, hash);
      SomeFree(v, blocks, picks, nStart, nStakeModifier, hash);
      var fSelected, pindexSelected;
      ghost var k;
      fSelected, k, pindexSelected := SelectBlockFromCandidates(r);
      if !fSelected {
        assert false;   // the error "unable to select block"
      }
      ChosenInRange(r, k);
      var pindex := pindexSelected.value;
      PicksMore(v, blocks, picks, nStart, nStakeModifier, hash, k);
      OnePick(v, blocks, picks, k);
      picks := picks + [k];
      if pindex.fEntropyBit { nStakeModifierNew := nStakeModifierNew + nPower; }
      selected := selected + {pindex.hash};
      nPower := 2 * nPower;
      nRound := nRound + 1;
    }
    PicksUnbeaten(v, blocks, picks, nStart, nStakeModifier, hash);
  }

  lemma NoPicks(v: seq<Stamp>, blocks: BlockMap, nStart: int, nModifier: uint256, hash: (uint256, uint256) -> uint256)
    ensures Picks(v, blocks, [], nStart, nModifier, hash) && BitsOf(v, blocks, []) == 0 && Selected(v, [], 0) == {}
    ensures Sections(0) == 0 && Pow2(0) == 1
  {
  }

  lemma NextSection(n: nat)
    requires n < ROUNDS
    ensures Sections(n + 1) == Sections(n) + Section(n) && Pow2(n + 1) == 2 * Pow2(n)
  {
    hide Section;
  }

  /** One more pick: its bit, and its block among those selected. */
  lemma OnePick(v: seq<Stamp>, blocks: BlockMap, picks: seq<nat>, k: nat)
    requires k < |v| && v[k].hash in blocks && PicksInRange(v, blocks, picks)
    ensures PicksInRange(v, blocks, picks + [k])
    ensures BitsOf(v, blocks, picks + [k]) == BitsOf(v, blocks, picks) + if blocks[v[k].hash].fEntropyBit
      then Pow2(|picks|) else 0
    ensures Selected(v, picks + [k], |picks| + 1) == Selected(v, picks, |picks|) + {v[k].hash}
  {
    SelectedPrefix(v, picks, k, |picks|);
    assert (picks + [k])[..|picks|] == picks;
  }

  lemma SameGood(r: Round, q: Round)
    requires q.Good() && r.v == q.v && r.blocks == q.blocks
    ensures r.Good()
  {
  }

  lemma PicksMore(v: seq<Stamp>, blocks: BlockMap, picks: seq<nat>, nStart: int, nModifier: uint256,
                  hash: (uint256, uint256) -> uint256, k: nat)
    requires Picks(v, blocks, picks, nStart, nModifier, hash) && |picks| < ROUNDS
    requires RoundOf(v, blocks, picks, |picks|, nStart, nModifier, hash).Good()
    requires RoundOf(v, blocks, picks, |picks|, nStart, nModifier, hash).Chosen(k)
    ensures Picks(v, blocks, picks + [k], nStart, nModifier, hash)
  {
    hide Round.Good, Round.Chosen, Sections, Selected;
    var more := picks + [k];
    ChosenInRange(RoundOf(v, blocks, picks, |picks|, nStart, nModifier, hash), k);
    forall n | 0 <= n < |more|
      ensures PickOk(v, blocks, more, n, nStart, nModifier, hash)
    {
      SelectedPrefix(v, picks, k, n);
      if n < |picks| { assert PickOk(v, blocks, picks, n, nStart, nModifier, hash); }
    }
  }

  lemma ChosenInRange(r: Round, k: nat)
    requires r.Good() && r.Chosen(k)
    ensures k < |r.v| && r.v[k].hash in r.blocks && r.blocks[r.v[k].hash].hash == r.v[k].hash
  {
  }

  method GetSelectionStart(nTime: nat) returns (nSelectionIntervalStart: int)
    ensures nSelectionIntervalStart == SelectionStart(nTime)
  {
    var nSelectionInterval := GetStakeModifierSelectionInterval();
    nSelectionIntervalStart := nTime / MODIFIER_INTERVAL * MODIFIER_INTERVAL - nSelectionInterval;
  }

  /** Up to where the last of all rounds looks for its candidate. */
  function LastStop(v: seq<Stamp>, blocks: BlockMap, picks: seq<nat>, nTime: nat, nModifier: uint256,
                    hash: (uint256, uint256) -> uint256): int
    requires |picks| == ROUNDS && forall i :: 0 <= i < |picks| ==> picks[i] < |v|
  {
    RoundOf(v, blocks, picks, ROUNDS - 1, SelectionStart(nTime), nModifier, hash).nStop
  }

  /** ComputeNextStakeModifier fails only when no ancestor has generated a modifier. Within the interval of the last
      modifier it keeps that one; after it,
        it makes a new one from the candidates of the selection interval; the last of all
      rounds looks up to the start of the interval of the last block. */
  method ComputeNextStakeModifier(chain: seq<StakeBlock>, blocks: BlockMap, hash: (uint256, uint256) -> uint256)
    returns (ok: bool, nStakeModifier: uint256, fGenerated: bool, ghost picks: seq<nat>)
    requires ChainGood(chain, blocks)
    ensures chain == [] ==> ok && nStakeModifier == 0 && fGenerated
    ensures chain != [] ==> (ok <==> LastGenerated(chain, |chain|).Some?)
    ensures chain != [] && ok ==>
      var b, last := LastGenerated(chain, |chain|).value, chain[|chain| - 1];
      if b.nTime / MODIFIER_INTERVAL >= last.nTime / MODIFIER_INTERVAL then !fGenerated
        && nStakeModifier == b.nStakeModifier
      else
        var v := Candidates(chain);
        && fGenerated && Picks(v, blocks, picks, SelectionStart(last.nTime), b.nStakeModifier, hash)
        && |picks| == (if |v| < ROUNDS then |v| else ROUNDS) && PicksInRange(v, blocks, picks)
        && nStakeModifier == BitsOf(v, blocks, picks)
        && Unbeaten(v, blocks, picks, SelectionStart(last.nTime), b.nStakeModifier, hash)
        && (|picks| == ROUNDS ==>
          LastStop(v, blocks, picks, last.nTime, b.nStakeModifier,
          hash) == last.nTime / MODIFIER_INTERVAL * MODIFIER_INTERVAL)
  {
    hide Unbeaten, Picks, PickOk, Sections, Sort, Stamps, FirstCandidate, LastGenerated, Round.Good, SelectionStart,
      ChainGood, BitsOf, PicksInRange;
    nStakeModifier, fGenerated, picks := 0, false, [];
    if |chain| == 0 {
      return true, 0, true, [];
    }
    var nModifierTime;
    ok, nStakeModifier, nModifierTime := GetLastStakeModifier(chain);
    if !ok { return; }
    var nTime := chain[|chain| - 1].nTime;
    if nModifierTime / MODIFIER_INTERVAL >= nTime / MODIFIER_INTERVAL { return; }
    var nSelectionIntervalStart := GetSelectionStart(nTime);
    var v := CollectCandidates(chain, nSelectionIntervalStart);
    CandidatesGood(chain, blocks, FirstCandidate(chain, |chain|, nSelectionIntervalStart),
      Round(v, blocks, {}, 0, nStakeModifier, hash));
    ok, nStakeModifier, picks := SelectRounds(v, blocks, nSelectionIntervalStart, nStakeModifier, hash);
    fGenerated := true;
    WholeInterval(nTime);
  }

  lemma WholeInterval(nTime: nat)
    ensures SelectionStart(nTime) + Sections(ROUNDS) == nTime / MODIFIER_INTERVAL * MODIFIER_INTERVAL
  {
  }
}
