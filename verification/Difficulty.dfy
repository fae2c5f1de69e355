/** Difficulty: the compact form of targets, the target of the next block, and the trust a block adds. */
module Difficulty {
  import opened Basics
  import opened BigNum

  // ----- powers of 256

  lemma {:induction false} FromBEBound(s: seq<byte>)
    ensures FromBE(s) < Pow256(|s|)
  {
    if s != [] { FromBEBound(s[..|s| - 1]); }
  }

  lemma {:induction false} FromBEAppend(a: seq<byte>, b: seq<byte>)
    ensures FromBE(a + b) == FromBE(a) * Pow256(|b|) + FromBE(b)
  {
    if b == [] {
      assert a + b == a;
    } else {
      var front, last := b[..|b| - 1], b[|b| - 1];
      assert (a + b)[..|a + b| - 1] == a + front;
      FromBEAppend(a, front);
      Distribute(FromBE(a), Pow256(|front|), FromBE(front));
    }
  }

  lemma Distribute(x: nat, p: nat, y: nat)
    ensures (x * p + y) * 256 == x * (256 * p) + y * 256
  {
  }

  // ----- the compact form

  /** The bytes of the number, high byte first: the three bytes of the mantissa and zeros, or fewer. */
  function CompactBytes(nCompact: nat): seq<byte> {
    Shaped(nCompact / 0x100_0000, [nCompact / 0x1_0000 % 256, nCompact / 0x100 % 256, nCompact % 256])
  }

  function Shaped(nSize: nat, mantissa: seq<byte>): seq<byte>
    requires |mantissa| == 3
  {
    if nSize <= 3 then mantissa[..nSize] else mantissa + Zeros(nSize - 3)
  }

  function Decode(nCompact: nat): int { MpiDecode(CompactBytes(nCompact)) }

  function ByteAt(b: seq<byte>, i: nat): nat {
    if i < |b| then b[i] else 0
  }

  /** The size is shifted out of the 32 bits when it has more than 8. */
  function Encode(n: int): nat { Packed(MpiEncode(n)) }

  function Packed(b: seq<byte>): nat {
    |b| % 256 * 0x100_0000 + ByteAt(b, 0) * 0x1_0000 + ByteAt(b, 1) * 0x100 + ByteAt(b, 2)
  }

  method SetCompact(nCompact: nat) returns (n: int)
    requires nCompact < 0x1_0000_0000
    ensures n == Decode(nCompact)
  {
    var nSize := nCompact / 0x100_0000;
    var vch := Zeros(nSize);
    if nSize >= 1 { vch := vch[0 := nCompact / 0x1_0000 % 256]; }
    if nSize >= 2 { vch := vch[1 := nCompact / 0x100 % 256]; }
    if nSize >= 3 { vch := vch[2 := nCompact % 256]; }
    assert vch == CompactBytes(nCompact);
    n := MpiDecode(vch);
  }

  method GetCompact(n: int) returns (nCompact: nat)
    requires |MpiEncode(n)| < 256
    ensures nCompact == Encode(n)
  {
    var vch := MpiEncode(n);
    var nSize := |vch|;
    nCompact := nSize * 0x100_0000;
    if nSize >= 1 { nCompact := nCompact + ByteAt(vch, 0) * 0x1_0000; }
    if nSize >= 2 { nCompact := nCompact + ByteAt(vch, 1) * 0x100; }
    if nSize >= 3 { nCompact := nCompact + ByteAt(vch, 2); }
  }

  /** The number of bytes the compact form cuts off. */
  function CutOff(n: nat): nat {
    if |MpiEncode(n)| <= 3 then 0 else |MpiEncode(n)| - 3
  }

  lemma PackedParts(b: seq<byte>)
    requires |b| < 256
    ensures Packed(b) / 0x100_0000 == |b| && Packed(b) / 0x1_0000 % 256 == ByteAt(b, 0)
    ensures Packed(b) / 0x100 % 256 == ByteAt(b, 1) && Packed(b) % 256 == ByteAt(b, 2)
  {
    hide ByteAt;
    ByteSmall(b, 0);
    ByteSmall(b, 1);
    ByteSmall(b, 2);
    FourBytes(|b|, ByteAt(b, 0), ByteAt(b, 1), ByteAt(b, 2));
  }

  lemma ByteSmall(b: seq<byte>, i: nat)
    ensures ByteAt(b, i) < 256
  {
  }

  lemma PackedBytes(b: seq<byte>)
    requires |b| < 256
    ensures CompactBytes(Packed(b)) == if |b| <= 3 then b else b[..3] + Zeros(|b| - 3)
  {
    hide Packed, Shaped, ByteAt;
    PackedParts(b);
    ByteSmall(b, 0);
    ByteSmall(b, 1);
    ByteSmall(b, 2);
    ShapedBytes(b);
  }

  lemma ShapedBytes(b: seq<byte>)
    requires ByteAt(b, 0) < 256 && ByteAt(b, 1) < 256 && ByteAt(b, 2) < 256
    ensures Shaped(|b|, [ByteAt(b, 0), ByteAt(b, 1), ByteAt(b, 2)]) == if |b| <= 3 then b else b[..3] + Zeros(|b| - 3)
  {
    hide Zeros;
    var x: byte, y: byte, z: byte := ByteAt(b, 0), ByteAt(b, 1), ByteAt(b, 2);
    SameFront(b, [x, y, z]);
  }

  lemma SameFront(b: seq<byte>, m: seq<byte>)
    requires |m| == 3 && m[0] == ByteAt(b, 0) && m[1] == ByteAt(b, 1) && m[2] == ByteAt(b, 2)
    ensures if |b| <= 3 then m[..|b|] == b else m == b[..3]
  {
  }

  lemma FourBytes(n: nat, a: nat, b: nat, c: nat)
    requires n < 256 && a < 256 && b < 256 && c < 256
    ensures var x := n * 0x100_0000 + a * 0x1_0000 + b * 0x100 + c;
      x / 0x100_0000 == n && x / 0x1_0000 % 256 == a && x / 0x100 % 256 == b && x % 256 == c
  {
    var x := n * 0x100_0000 + a * 0x1_0000 + b * 0x100 + c;
    assert x / 0x1_0000 == n * 256 + a;
    assert x / 0x100 == (n * 256 + a) * 256 + b;
  }

  /** The bytes of a number that is not negative are its digits, perhaps behind a zero. */
  lemma MpiOfNat(n: nat)
    ensures FromBE(MpiEncode(n)) == n
    ensures n > 0 ==>
      MpiEncode(n) != [] && MpiEncode(n)[0] < 0x80
      && (MpiEncode(n)[0] > 0 || (|MpiEncode(n)| > 1 && MpiEncode(n)[1] >= 0x80))
    ensures n == 0 ==> MpiEncode(n) == []
  {
    FromBEOfToBE(n);
    var m := ToBE(n);
    if m != [] && m[0] >= 0x80 {
      FromBELeadingZero(m);
    } else if m != [] {
      assert [m[0] + Sign(n)] + m[1..] == m;
    }
  }

  lemma DecodePlain(s: seq<byte>)
    requires s == [] || s[0] < 0x80
    ensures MpiDecode(s) == FromBE(s)
  {
    if s != [] {
      SmallByte(s[0]);
      assert s == [s[0]] + s[1..];
    }
  }

  lemma SmallByte(b: byte)
    requires b < 0x80
    ensures b % 0x80 == b
  {
  }

  // ----- what rounding does

  /** Decoding what was encoded gives the number with the bytes after its third set to zero. */
  lemma RoundTrip(n: nat)
    requires |MpiEncode(n)| < 256
    ensures var p := Pow256(CutOff(n)); Decode(Encode(n)) == n / p * p
    ensures 0 <= Decode(Encode(n)) <= n && (n > 0 ==> Decode(Encode(n)) > 0)
  {
    hide MpiEncode, MpiDecode, CompactBytes, Packed, Pow256;
    PackedBytes(MpiEncode(n));
    MpiOfNat(n);
    if |MpiEncode(n)| <= 3 {
      DecodePlain(MpiEncode(n));
      NothingCut(n);
    } else {
      CutBytes(n, MpiEncode(n), CutOff(n));
    }
  }

  lemma ZerosValue(k: nat)
    ensures FromBE(Zeros(k)) == 0
  {
    FromBEZeros(k, []);
    assert Zeros(k) + [] == Zeros(k);
  }

  lemma CutBytes(n: nat, b: seq<byte>, k: nat)
    requires |b| == k + 3 && FromBE(b) == n && b[0] < 0x80
    requires n > 0 ==> b[0] > 0 || b[1] > 0
    ensures var p := Pow256(k); MpiDecode(b[..3] + Zeros(k)) == n / p * p
    ensures 0 <= MpiDecode(b[..3] + Zeros(k)) <= n && (n > 0 ==> MpiDecode(b[..3] + Zeros(k)) > 0)
  {
    hide MpiDecode, Pow256, FromBE;
    var front, back := b[..3], b[3..];
    DecodePlain(front + Zeros(k));
    FromBEAppend(front, Zeros(k));
    ZerosValue(k);
    assert b == front + back;
    FromBEAppend(front, back);
    FromBEBound(back);
    CutQuotient(n, FromBE(front), FromBE(back), Pow256(k));
    if n > 0 { FrontPositive(front); }
  }

  lemma NothingCut(n: nat)
    ensures n / Pow256(0) * Pow256(0) == n
  {
  }

  lemma CutQuotient(n: nat, q: nat, r: nat, p: nat)
    requires p > 0 && n == q * p + r && r < p
    ensures n / p == q && q * p <= n && (q > 0 ==> q * p > 0)
  {
    var e := n / p;
    assert n == e * p + n % p;
    SameQuotient(q, r, e, n % p, p);
    if q > 0 { Times(q, p); }
  }

  lemma Times(q: nat, p: nat)
    requires q > 0 && p > 0
    ensures q * p > 0
  {
  }

  lemma SameQuotient(q: nat, r: nat, e: nat, s: nat, p: nat)
    requires q * p + r == e * p + s && r < p && s < p
    ensures q == e
  {
    LessQuotient(q, r, e, s, p);
    LessQuotient(e, s, q, r, p);
  }

  lemma LessQuotient(q: nat, r: nat, e: nat, s: nat, p: nat)
    requires q * p + r == e * p + s && r < p && s < p
    ensures q <= e
  {
    if q > e { Widen(q, e, p); }
  }

  lemma Widen(q: nat, e: nat, p: nat)
    requires q > e
    ensures q * p >= e * p + p
  {
    ProductGrows(e + 1, q, p);
    assert (e + 1) * p == e * p + p;
  }

  lemma ProductGrows(m: nat, n: nat, a: nat)
    requires m <= n
    ensures m * a <= n * a
  {
  }

  lemma FrontPositive(front: seq<byte>)
    requires |front| == 3 && (front[0] > 0 || front[1] > 0)
    ensures FromBE(front) > 0
  {
    var a: int, b: int, c: int := front[0], front[1], front[2];
    assert front[..2][..1] == front[..1] == [front[0]];
    assert FromBE(front[..1][..0]) == 0;
    assert FromBE(front[..1]) == a;
    assert FromBE(front[..2]) == a * 256 + b;
    assert FromBE(front) == (a * 256 + b) * 256 + c;
  }

  /** A compact value is canonical when encoding what it decodes to gives it back. */
  predicate Canonical(nCompact: nat) {
    Decode(nCompact) > 0 && |MpiEncode(Decode(nCompact))| < 256 && Encode(Decode(nCompact)) == nCompact
  }

  /** What encoding gives is canonical. */
  lemma EncodeCanonical(n: nat)
    requires 0 < n && |MpiEncode(n)| < 256
    ensures Canonical(Encode(n))
  {
    hide MpiEncode, MpiDecode, Packed, CompactBytes, FromBE, Zeros, CutOff, Pow256;
    RoundTrip(n);
    PackedBytes(MpiEncode(n));
    MpiOfNat(n);
    var b := MpiEncode(n);
    var c := if |b| <= 3 then b else b[..3] + Zeros(|b| - 3);
    DecodePlain(c);
    MpiOfDigits(c);
    SamePacked(b);
  }

  /** Packing looks at the length and the first three bytes only. */
  lemma SamePacked(b: seq<byte>)
    ensures Packed(if |b| <= 3 then b else b[..3] + Zeros(|b| - 3)) == Packed(b)
  {
    hide Zeros;
  }

  /** Bytes without needless leading zeros are those of their number. */
  lemma MpiOfDigits(c: seq<byte>)
    requires c != [] && c[0] < 0x80 && (c[0] > 0 || (|c| > 1 && c[1] >= 0x80))
    ensures MpiEncode(FromBE(c)) == c
  {
    if c[0] > 0 {
      ToBEOfFromBE(c);
    } else {
      assert c == [0] + c[1..];
      FromBELeadingZero(c[1..]);
      ToBEOfFromBE(c[1..]);
    }
  }

  /** The compact form in numbers: a size in the high byte, and a mantissa in the other three whose highest bit is the
      sign. */
  lemma DecodeExact(nSize: nat, a: byte, b: byte, c: byte)
    requires nSize < 256
    ensures var k := a % 0x80 * 0x1_0000 + b as int * 0x100 + c;
      var magnitude := if nSize >= 3 then k * Pow256(nSize - 3) else k / Pow256(3 - nSize);
      Decode(nSize * 0x100_0000 + a as int * 0x1_0000 + b as int * 0x100 + c) ==
        if a < 0x80 then magnitude else -magnitude
  {
    hide Shaped, MpiDecode, Pow256;
    FourBytes(nSize, a, b, c);
    if nSize >= 3 { LongValue(nSize, a, b, c); } else { ShortValue(nSize, a, b, c); }
  }

  lemma LongValue(nSize: nat, a: byte, b: byte, c: byte)
    requires nSize >= 3
    ensures var magnitude := (a % 0x80 * 0x1_0000 + b as int * 0x100 + c) * Pow256(nSize - 3);
      MpiDecode(Shaped(nSize, [a, b, c])) == if a < 0x80 then magnitude else -magnitude
  {
    hide FromBE, Pow256, Zeros;
    var s := Shaped(nSize, [a, b, c]);
    assert s[0] == a && s[1..] == [b, c] + Zeros(nSize - 3);
    assert [a % 0x80] + s[1..] == [a % 0x80, b, c] + Zeros(nSize - 3);
    FromBEAppend([a % 0x80, b, c], Zeros(nSize - 3));
    SizeOfZeros(nSize - 3);
    ThreeBytes(a % 0x80, b, c);
  }

  lemma ShortValue(nSize: nat, a: byte, b: byte, c: byte)
    requires nSize < 3
    ensures var magnitude := (a % 0x80 * 0x1_0000 + b as int * 0x100 + c) / Pow256(3 - nSize);
      MpiDecode(Shaped(nSize, [a, b, c])) == if a < 0x80 then magnitude else -magnitude
  {
    hide FromBE, Zeros, Pow256;
    Pow256Small();
    ThreeBytes(a % 0x80, b, c);
    var s := Shaped(nSize, [a, b, c]);
    if nSize > 0 {
      assert s[0] == a && [a % 0x80] + s[1..] == [a % 0x80, b, c][..nSize];
    }
    assert (a % 0x80 * 0x1_0000 + b as int * 0x100 + c) / 256 == a % 0x80 * 0x100 + b;
  }

  lemma SizeOfZeros(k: nat)
    ensures FromBE(Zeros(k)) == 0 && |Zeros(k)| == k
  {
    ZerosValue(k);
  }

  lemma Pow256Small()
    ensures Pow256(1) == 256 && Pow256(2) == 65_536 && Pow256(3) == 16_777_216
  {
    assert Pow256(0) == 1;
  }

  lemma ThreeBytes(a: byte, b: byte, c: byte)
    ensures FromBE([a, b, c]) == a as int * 0x1_0000 + b as int * 0x100 + c
    ensures FromBE([a, b, c][..2]) == a as int * 0x100 + b && FromBE([a, b, c][..1]) == a
  {
    var s := [a, b, c];
    assert s[..2] == [a, b] && [a, b][..1] == [a] && [a][..0] == [];
    assert FromBE([a]) == a && FromBE([a, b]) == a as int * 0x100 + b;
    assert s[..1] == [a];
  }

  // ----- the next target

  const TARGET_SPACING: int := 120
  const TARGET_TIMESPAN: int := 16 * 60

  /** What retargeting reads of a block. */
  datatype TargetBlock = TargetBlock(fProofOfStake: bool, nTime: int, nBits: uint32)

  /** The last block of the given kind up to block n, or the genesis block. */
  function LastOf(chain: seq<TargetBlock>, n: nat, fProofOfStake: bool): (k: nat)
    requires n < |chain|
    ensures k <= n && (k > 0 ==> chain[k].fProofOfStake == fProofOfStake)
    ensures forall i :: k < i <= n ==> chain[i].fProofOfStake != fProofOfStake
  {
    if n == 0 || chain[n].fProofOfStake == fProofOfStake then n else LastOf(chain, n - 1, fProofOfStake)
  }

  /** The new target before it is limited: an exponential move toward the target spacing. */
  function Retarget(nTarget: int, nActualSpacing: int): int {
    var nInterval := TARGET_TIMESPAN / TARGET_SPACING;
    DivTrunc(nTarget * ((nInterval - 1) * TARGET_SPACING + nActualSpacing + nActualSpacing),
      (nInterval + 1) * TARGET_SPACING)
  }

  function Limited(n: int, nLimit: Target): int { if n <= 0 || n > nLimit then nLimit else n }

  function CappedSpacing(nSpacing: int): int { if nSpacing > TARGET_SPACING * 10 then TARGET_SPACING * 10
                         else nSpacing }

  /** The compact target of the block after the chain. */
  function NextBits(chain: seq<TargetBlock>, fProofOfStake: bool, nLimit: Target): nat {
    if chain == [] then Encode(nLimit)
    else
      var p := LastOf(chain, |chain| - 1, fProofOfStake);
      if p == 0 then Encode(nLimit)
      else
        var q := LastOf(chain, p - 1, fProofOfStake);
        if q == 0 then Encode(nLimit)
        else Encode(Limited(Retarget(Decode(chain[p].nBits), CappedSpacing(chain[p].nTime - chain[q].nTime)), nLimit))
  }

  /** The compact target that follows a block whose spacing was as given. */
  method RetargetBits(nPrevBits: uint32, nSpacing: int, nLimit: Target) returns (nBits: nat)
    ensures nBits == Encode(Limited(Retarget(Decode(nPrevBits), CappedSpacing(nSpacing)), nLimit))
  {
    hide MpiEncode, Decode, Packed, Retarget;
    var nActualSpacing := nSpacing;
    if nActualSpacing > TARGET_SPACING * 10 { nActualSpacing := TARGET_SPACING * 10; }
    var bnNew := SetCompact(nPrevBits);
    bnNew := RetargetNumber(bnNew, nActualSpacing);
    if bnNew <= 0 || bnNew > nLimit { bnNew := nLimit; }
    SmallBytes(bnNew);
    nBits := GetCompact(bnNew);
  }

  method RetargetNumber(bn: int, nActualSpacing: int) returns (bnNew: int)
    ensures bnNew == Retarget(bn, nActualSpacing)
  {
    var nInterval := TARGET_TIMESPAN / TARGET_SPACING;
    bnNew := bn * ((nInterval - 1) * TARGET_SPACING + nActualSpacing + nActualSpacing);
    bnNew := DivTrunc(bnNew, (nInterval + 1) * TARGET_SPACING);
  }

  // ----- what the next target is

  lemma {:induction false} DigitsFew(n: nat, k: nat)
    requires n < Pow256(k)
    ensures |ToBE(n)| <= k
    decreases k
  {
    if n > 0 { DigitsFew(n / 256, k - 1); }
  }

  lemma Pow256Of32()
    ensures Pow256(32) == TWO_256
  {
    PowersOf256();
    PowAdd(8, 8);
    PowAdd(16, 16);
  }

  lemma SmallBytes(n: nat)
    requires n < TWO_256
    ensures |MpiEncode(n)| < 256
  {
    Pow256Of32();
    DigitsFew(n, 32);
  }

  /** Whatever the chain, the next target decodes to a positive number that is at most the limit, and is canonical. */
  lemma NextTargetInRange(chain: seq<TargetBlock>, fProofOfStake: bool, nLimit: Target)
    ensures 0 < Decode(NextBits(chain, fProofOfStake, nLimit)) <= nLimit
      && Canonical(NextBits(chain, fProofOfStake, nLimit))
  {
    hide Decode, Encode, Retarget, Canonical;
    EncodeInRange(nLimit, nLimit);
    if chain != [] {
      var p := LastOf(chain, |chain| - 1, fProofOfStake);
      if p != 0 {
        var q := LastOf(chain, p - 1, fProofOfStake);
        EncodeInRange(Limited(Retarget(Decode(chain[p].nBits), CappedSpacing(chain[p].nTime - chain[q].nTime)), nLimit),
          nLimit);
      }
    }
  }

  lemma EncodeInRange(n: nat, nLimit: Target)
    requires 0 < n <= nLimit
    ensures 0 < Decode(Encode(n)) <= nLimit && Canonical(Encode(n))
  {
    hide Decode, Encode, Canonical;
    SmallBytes(n);
    RoundTrip(n);
    EncodeCanonical(n);
  }

  /** The last two blocks of a kind before the end of the chain, neither of them the first block. */
  predicate LastTwo(chain: seq<TargetBlock>, fProofOfStake: bool, p: nat, q: nat) {
    && 0 < q < p < |chain| && chain[p].fProofOfStake == fProofOfStake && chain[q].fProofOfStake == fProofOfStake
    && forall i :: q < i < |chain| && i != p ==> chain[i].fProofOfStake != fProofOfStake
  }

  /** The new target in numbers. With old target t, decoded, and the spacing a of the last two blocks of the kind,
      capped at twenty minutes, it is t * (840 + 2a) / 1080 rounded down, or the limit when that is below one or above
      the limit. */
  lemma NextTargetExact(chain: seq<TargetBlock>, fProofOfStake: bool, nLimit: Target, p: nat, q: nat, n: int)
    requires LastTwo(chain, fProofOfStake, p, q)
    ensures var x := Decode(chain[p].nBits) * (840 + 2 * Min(chain[p].nTime - chain[q].nTime, 1200));
      && (0 < n <= nLimit && 1080 * n <= x < 1080 * (n + 1) ==> NextBits(chain, fProofOfStake, nLimit) == Encode(n))
      && (x < 1080 || 1080 * (nLimit + 1) <= x ==> NextBits(chain, fProofOfStake, nLimit) == Encode(nLimit))
  {
    hide Decode, Encode, Retarget, CappedSpacing;
    LastTwoFound(chain, fProofOfStake, p, q);
    Capped(chain[p].nTime - chain[q].nTime);
    LimitedExact(Decode(chain[p].nBits), Min(chain[p].nTime - chain[q].nTime, 1200), n, nLimit);
  }

  /** The target t * (840 + 2a) / 1080, rounded down, or the limit when that is out of range. */
  function Moved(t: int, nSpacing: int, nLimit: Target): (n: Target) {
    var x := t * (840 + 2 * Min(nSpacing, 1200));
    if 1080 <= x && x / 1080 <= nLimit then x / 1080 else nLimit
  }

  lemma MovedIs(t: int, nSpacing: int, nLimit: Target)
    ensures var x, n := t * (840 + 2 * Min(nSpacing, 1200)), Moved(t, nSpacing, nLimit);
      if x < 1080 || 1080 * (nLimit + 1) <= x then n == nLimit else 1080 * n <= x < 1080 * (n + 1)
  {
  }

  /** It is the limit, too, when there are no two such blocks. */
  lemma NextTargetEarly(chain: seq<TargetBlock>, fProofOfStake: bool, nLimit: Target)
    ensures NextBits(chain, fProofOfStake, nLimit) == Encode(nLimit)
      || exists p: nat, q: nat :: LastTwo(chain, fProofOfStake, p, q)
  {
    hide Decode, Encode, Retarget, CappedSpacing;
    if chain != [] {
      var p := LastOf(chain, |chain| - 1, fProofOfStake);
      if p != 0 {
        var q := LastOf(chain, p - 1, fProofOfStake);
        assert q != 0 ==> LastTwo(chain, fProofOfStake, p, q);
      }
    }
  }

  lemma Capped(a: int)
    ensures CappedSpacing(a) == Min(a, 1200)
  {
  }

  lemma LastTwoFound(chain: seq<TargetBlock>, fProofOfStake: bool, p: nat, q: nat)
    requires LastTwo(chain, fProofOfStake, p, q)
    ensures LastOf(chain, |chain| - 1, fProofOfStake) == p && LastOf(chain, p - 1, fProofOfStake) == q
  {
  }

  lemma LimitedExact(t: int, a: int, n: int, nLimit: Target)
    ensures 0 < n <= nLimit && 1080 * n <= t * (840 + 2 * a) < 1080 * (n + 1) ==> Limited(Retarget(t, a), nLimit) == n
    ensures t * (840 + 2 * a) < 1080 || 1080 * (nLimit + 1) <= t * (840 + 2 * a) ==>
      Limited(Retarget(t, a), nLimit) == nLimit
  {
    var x := t * (840 + 2 * a);
    assert t * ((8 - 1) * 120 + a + a) == x;
    assert Retarget(t, a) == DivTrunc(x, 1080);
    if x >= 0 {
      assert 1080 * (x / 1080) <= x < 1080 * (x / 1080 + 1);
    }
  }

  /** Blocks that come faster than the target spacing make the target harder: strictly, in the compact form too. */
  lemma RetargetHardens(chain: seq<TargetBlock>, fProofOfStake: bool, nLimit: Target, p: nat, q: nat)
    requires LastTwo(chain, fProofOfStake, p, q) && chain[p].nTime - chain[q].nTime < TARGET_SPACING
    requires Decode(chain[p].nBits) <= nLimit
    requires Decode(chain[p].nBits) * (840 + 2 * (chain[p].nTime - chain[q].nTime)) >= 1080
    requires Decode(chain[p].nBits) > 0
    ensures Decode(NextBits(chain, fProofOfStake, nLimit)) < Decode(chain[p].nBits)
  {
    hide Decode, Encode, NextBits;
    var t, a := Decode(chain[p].nBits), chain[p].nTime - chain[q].nTime;
    var n := t * (840 + 2 * a) / 1080;
    Faster(t, a);
    NextTargetExact(chain, fProofOfStake, nLimit, p, q, n);
    assert 0 < n <= nLimit && Min(a, 1200) == a;
    assert NextBits(chain, fProofOfStake, nLimit) == Encode(n);
    SmallBytes(n);
    RoundTrip(n);
  }

  lemma Faster(t: int, a: int)
    requires t > 0 && a < 120 && t * (840 + 2 * a) >= 1080
    ensures var n := t * (840 + 2 * a) / 1080; 0 < n < t && 1080 * n <= t * (840 + 2 * a) < 1080 * (n + 1)
  {
    var x, y := t * (840 + 2 * a), 2 * (119 - a);
    NotNegative(t, y);
    assert x == t * 1078 - t * y;
    var n := x / 1080;
    assert 1080 * n <= x < 1080 * (n + 1);
  }

  /** And slower ones easier, up to the limit. */
  lemma RetargetEases(t: int, a: int, nLimit: Target, n: int)
    requires 0 < t <= nLimit && 120 < a <= 1200 && 1080 * n <= t * (840 + 2 * a) < 1080 * (n + 1)
    ensures n >= t && (t >= 540 ==> n > t)
  {
    NotNegative(t, 2 * (a - 121));
    assert t * (840 + 2 * a) == t * 1082 + t * (2 * (a - 121));
  }

  /** A slower block never makes the target harder. */
  lemma RetargetGrows(t: int, a: int, b: int)
    requires t > 0 && 0 <= a <= b
    ensures Retarget(t, a) <= Retarget(t, b)
  {
    var x, y := t * (840 + 2 * a), t * (840 + 2 * b);
    assert y == x + t * (2 * (b - a));
    NotNegative(t, 2 * (b - a));
    NotNegative(t, 840 + 2 * a);
    assert Retarget(t, a) == x / 1080 && Retarget(t, b) == y / 1080;
  }

  lemma NotNegative(x: int, y: int)
    requires x >= 0 && y >= 0
    ensures x * y >= 0
  {
  }

  /** One step makes the target at most three times as large, and never less than seven ninths of it, rounded down. */
  lemma RetargetBounded(t: int, a: int)
    requires t > 0 && 0 <= a
    ensures t * 7 / 9 <= Retarget(t, CappedSpacing(a)) <= 3 * t
  {
    RetargetGrows(t, 0, CappedSpacing(a));
    RetargetGrows(t, CappedSpacing(a), 1200);
    assert Retarget(t, 0) == t * 840 / 1080 == t * 7 / 9;
    assert Retarget(t, 1200) == t * 3240 / 1080 == 3 * t;
  }

  /** At the target spacing a canonical target stays what it is. */
  lemma RetargetSteady(chain: seq<TargetBlock>, fProofOfStake: bool, nLimit: Target)
    requires chain != []
    requires var p := LastOf(chain, |chain| - 1, fProofOfStake);
      && p > 0 && Canonical(chain[p].nBits) && Decode(chain[p].nBits) <= nLimit
      && var q := LastOf(chain, p - 1, fProofOfStake);
         q > 0 && chain[p].nTime - chain[q].nTime == TARGET_SPACING
    ensures NextBits(chain, fProofOfStake, nLimit) == chain[LastOf(chain, |chain| - 1, fProofOfStake)].nBits
  {
    hide Decode, Encode, MpiEncode;
    var t := Decode(chain[LastOf(chain, |chain| - 1, fProofOfStake)].nBits);
    assert Retarget(t, 120) == t * 1080 / 1080 == t;
  }

  // ----- trust

  /** What a block adds to the trust of its chain. */
  function BlockTrust(nBits: nat): nat { TrustOf(Decode(nBits)) }

  function TrustOf(bnTarget: int): nat { if bnTarget <= 0 then 0 else TWO_256 / (bnTarget + 1) }

  lemma TrustPositive(nBits: nat)
    requires 0 < Decode(nBits) < TWO_256
    ensures BlockTrust(nBits) > 0
  {
    hide Decode;
    var d := Decode(nBits) + 1;
    if TWO_256 / d == 0 { assert false; }
  }

  /** The trust in numbers: 2^256 / (t + 1), rounded down, for a positive target t, and nothing for any other. */
  lemma TrustExact(nBits: nat)
    ensures var t, w := Decode(nBits), BlockTrust(nBits);
      if t > 0 then w * (t + 1) <= TWO_256 < (w + 1) * (t + 1) else w == 0
  {
    hide Decode;
    var d := Decode(nBits) + 1;
    if d > 1 {
      assert TWO_256 == TWO_256 / d * d + TWO_256 % d;
    }
  }

  /** A harder target counts for no less. */
  lemma TrustFalls(a: nat, b: nat)
    requires 0 < Decode(a) <= Decode(b)
    ensures BlockTrust(b) <= BlockTrust(a)
  {
    hide Decode;
    var x, y := Decode(a) + 1, Decode(b) + 1;
    var q := TWO_256 / y;
    assert q * y <= TWO_256;
    ProductGrows(x, y, q);
    AtLeast(TWO_256, x, q);
  }

  lemma AtLeast(n: nat, x: nat, q: nat)
    requires x > 0 && q * x <= n
    ensures q <= n / x
  {
    var e := n / x;
    assert n == e * x + n % x;
    if q > e { Widen(q, e, x); }
  }

  function ChainTrust(chain: seq<TargetBlock>): nat {
    if chain == [] then 0 else ChainTrust(chain[..|chain| - 1]) + BlockTrust(chain[|chain| - 1].nBits)
  }

  /** The limits of the two kinds of block. */
  datatype Limits = Limits(nWork: Target, nStake: Target) {
    function For(fProofOfStake: bool): Target { if fProofOfStake then nStake else nWork }
  }

  /** Every block but the first carries the target required after its predecessors, as AcceptBlock demands. */
  predicate Accepted(chain: seq<TargetBlock>, limits: Limits) {
    forall i :: 0 < i < |chain| ==>
      chain[i].nBits == NextBits(chain[..i], chain[i].fProofOfStake, limits.For(chain[i].fProofOfStake))
  }

  /** Along an accepted chain the trust grows with every block. */
  lemma {:induction false} TrustGrows(chain: seq<TargetBlock>, limits: Limits, i: nat, j: nat)
    requires Accepted(chain, limits) && 0 < i < j <= |chain|
    ensures ChainTrust(chain[..i]) < ChainTrust(chain[..j])
    decreases j
  {
    hide NextBits, BlockTrust, Decode;
    var b := chain[j - 1];
    assert chain[..j][..j - 1] == chain[..j - 1];
    RequiredAddsTrust(chain[..j - 1], b.fProofOfStake, limits.For(b.fProofOfStake));
    if i < j - 1 { TrustGrows(chain, limits, i, j - 1); }
  }

  lemma RequiredAddsTrust(chain: seq<TargetBlock>, fProofOfStake: bool, nLimit: Target)
    ensures BlockTrust(NextBits(chain, fProofOfStake, nLimit)) > 0
  {
    hide NextBits, BlockTrust, Decode;
    NextTargetInRange(chain, fProofOfStake, nLimit);
    TrustPositive(NextBits(chain, fProofOfStake, nLimit));
  }
}
