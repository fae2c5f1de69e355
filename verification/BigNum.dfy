/** CBigNum's byte formats: the big-endian, sign-in-the-top-bit payload of OpenSSL's MPI form, the
    conversions from machine integers that write it byte by byte, and the little-endian vectors. */
module BigNum {
  import opened Basics

  type byte = b: int | 0 <= b < 256

  // ----- unsigned big-endian numbers

  function FromBE(s: seq<byte>): nat {
    if s == [] then 0 else FromBE(s[..|s| - 1]) * 256 + s[|s| - 1]
  }

  /** The digits of n without leading zeros; zero has none. */
  function ToBE(n: nat): seq<byte> {
    if n == 0 then [] else ToBE(n / 256) + [n % 256]
  }

  lemma {:induction false} FromBEOfToBE(n: nat)
    ensures FromBE(ToBE(n)) == n
    ensures n > 0 ==> |ToBE(n)| > 0 && ToBE(n)[0] != 0
  {
    if n > 0 {
      FromBEOfToBE(n / 256);
      assert ToBE(n)[..|ToBE(n)| - 1] == ToBE(n / 256);
    }
  }

  lemma {:induction false} ToBEOfFromBE(s: seq<byte>)
    requires s == [] || s[0] != 0
    ensures ToBE(FromBE(s)) == s
    ensures s != [] ==> FromBE(s) > 0
  {
    if s != [] {
      var front := s[..|s| - 1];
      ToBEOfFromBE(front);
      assert s == front + [s[|s| - 1]];
      assert FromBE(s) / 256 == FromBE(front) && FromBE(s) % 256 == s[|s| - 1];
    }
  }

  lemma {:induction false} FromBELeadingZero(s: seq<byte>)
    ensures FromBE([0] + s) == FromBE(s)
  {
    if s != [] {
      FromBELeadingZero(s[..|s| - 1]);
      assert ([0] + s)[..|s|] == [0] + s[..|s| - 1];
    }
  }

  // ----- the MPI payload: magnitude with the sign in the top bit of the first byte

  function Sign(n: int): byte { if n < 0 then 0x80 else 0 }

  function Abs(n: int): nat { if n < 0 then -n else n }

  /** What BN_bn2mpi writes after its length field. */
  function MpiEncode(n: int): seq<byte> {
    SignedDigits(ToBE(Abs(n)), n)
  }

  /** Digits with the sign bit of n, behind an extra byte when the top bit is taken. */
  function SignedDigits(m: seq<byte>, n: int): seq<byte> {
    if m == [] then []
    else if m[0] >= 0x80 then [Sign(n)] + m
    else [m[0] + Sign(n)] + m[1..]
  }

  /** What BN_mpi2bn reads. */
  function MpiDecode(s: seq<byte>): int {
    if s == [] then 0
    else
      var magnitude: int := FromBE([s[0] % 0x80] + s[1..]);
      if s[0] >= 0x80 then -magnitude else magnitude
  }

  lemma MpiRoundTrip(n: int)
    ensures MpiDecode(MpiEncode(n)) == n
  {
    var m := ToBE(Abs(n));
    FromBEOfToBE(Abs(n));
    if m != [] {
      if m[0] >= 0x80 {
        FromBELeadingZero(m);
        assert MpiEncode(n)[1..] == m;
        assert [0] + m == [MpiEncode(n)[0] % 0x80] + MpiEncode(n)[1..];
      } else {
        assert [m[0]] + m[1..] == m;
        assert MpiEncode(n)[1..] == m[1..];
      }
    }
  }

  // ----- machine integers

  function Pow256(k: nat): (r: nat)
    ensures r > 0
  {
    if k == 0 then 1 else 256 * Pow256(k - 1)
  }

  function Zeros(k: nat): (r: seq<byte>)
    ensures |r| == k && forall i :: 0 <= i < k ==> r[i] == 0
  {
    if k == 0 then [] else Zeros(k - 1) + [0]
  }

  lemma {:induction false} FromBEZeros(k: nat, s: seq<byte>)
    ensures FromBE(Zeros(k) + s) == FromBE(s)
  {
    if s != [] {
      var front := s[..|s| - 1];
      FromBEZeros(k, front);
      assert (Zeros(k) + s)[..k + |s| - 1] == Zeros(k) + front;
    } else if k > 0 {
      FromBEZeros(k - 1, []);
      assert (Zeros(k) + [])[..k - 1] == Zeros(k - 1) + [];
    }
  }

  const TWO_256: nat := 0x1_0000_0000_0000_0000_0000_0000_0000_0000_0000_0000_0000_0000_0000_0000_0000_0000

  type uint32 = n: nat | n < 0x1_0000_0000

  /** A target of hashes: positive and of 256 bits. */
  type Target = n: nat | 0 < n < TWO_256 witness 1

  lemma {:induction false} PowAdd(a: nat, b: nat)
    ensures Pow256(a) * Pow256(b) == Pow256(a + b)
  {
    if a > 0 {
      PowAdd(a - 1, b);
      assert Pow256(a) * Pow256(b) == 256 * (Pow256(a - 1) * Pow256(b));
    }
  }

  /** The top byte of a register holding low, shifted up by k bytes, and the register after one shift. */
  lemma TopByte(low: nat, k: nat)
    requires k < 8 && low < Pow256(8 - k)
    ensures low * Pow256(k) < TWO_64
    ensures low * Pow256(k) / 0x100_0000_0000_0000 == low / Pow256(7 - k) < 256
    ensures low * Pow256(k) * 256 % TWO_64 == low % Pow256(7 - k) * Pow256(k + 1)
  {
    var p, q := Pow256(7 - k), Pow256(k);
    PowersOf256();
    PowAdd(7 - k, k);
    ByteQuotient(low, p);
    TopOfProduct(low, low / p, low % p, p, q);
  }

  lemma TopOfProduct(low: nat, c: nat, r: nat, p: nat, q: nat)
    requires p > 0 && q > 0 && p * q == 0x100_0000_0000_0000
    requires low == c * p + r && r < p && c < 256
    ensures low * q < TWO_64
    ensures low * q / 0x100_0000_0000_0000 == c
    ensures low * q * 256 % TWO_64 == r * (256 * q)
  {
    assert low * q == c * (p * q) + r * q;
    assert r * q < p * q;
    SplitWord(low * q, c, r * q);
    assert r * q * 256 == r * (256 * q);
  }

  lemma SplitWord(n: nat, c: nat, m: nat)
    requires n == c * 0x100_0000_0000_0000 + m && m < 0x100_0000_0000_0000 && c < 256
    ensures n < TWO_64 && n / 0x100_0000_0000_0000 == c && n * 256 % TWO_64 == m * 256
  {
    assert n * 256 == c * TWO_64 + m * 256;
  }

  lemma ByteQuotient(low: nat, p: nat)
    requires p > 0 && low < 256 * p
    ensures low == low / p * p + low % p && low / p < 256
  {
  }

  lemma PowersOf256()
    ensures Pow256(0) == 1 && Pow256(1) == 0x100 && Pow256(2) == 0x1_0000 && Pow256(3) == 0x100_0000
    ensures Pow256(4) == 0x1_0000_0000 && Pow256(5) == 0x100_0000_0000
    ensures Pow256(6) == 0x1_0000_0000_0000 && Pow256(7) == 0x100_0000_0000_0000
    ensures Pow256(8) == TWO_64
  {
    assert Pow256(4) == 0x1_0000_0000;
  }

  /** Moving one byte from the low part of a number to its high part. */
  lemma NextByte(high: nat, low: nat, k: nat)
    requires k < 8 && low < Pow256(8 - k)
    ensures high * Pow256(8 - k) + low == (high * 256 + low / Pow256(7 - k)) * Pow256(7 - k) + low % Pow256(7 - k)
    ensures low % Pow256(7 - k) < Pow256(7 - k)
  {
    var p := Pow256(7 - k);
    assert Pow256(8 - k) == 256 * p;
    assert low == (low / p) * p + low % p;
    assert (high * 256 + low / p) * p == high * 256 * p + (low / p) * p;
    assert high * 256 * p == high * (256 * p);
  }

  lemma ToBEAppend(high: nat, c: byte)
    requires high > 0 || c > 0
    ensures ToBE(high * 256 + c) == ToBE(high) + [c]
  {
    var v := high * 256 + c;
    assert v / 256 == high && v % 256 == c;
  }

  /** Appending one digit: only the first digit carries the sign. */
  lemma AppendDigit(high: nat, c: byte, n: int)
    ensures high == 0 && c == 0 ==> SignedDigits(ToBE(high * 256 + c), n) == []
    ensures high == 0 && 0 < c < 0x80 ==> SignedDigits(ToBE(high * 256 + c), n) == [c + Sign(n)]
    ensures high == 0 && c >= 0x80 ==> SignedDigits(ToBE(high * 256 + c), n) == [Sign(n), c]
    ensures high > 0 ==> SignedDigits(ToBE(high * 256 + c), n) == SignedDigits(ToBE(high), n) + [c]
  {
    if high > 0 || c > 0 {
      ToBEAppend(high, c);
    }
    if high > 0 {
      var m := ToBE(high);
      FromBEOfToBE(high);
      assert (m + [c])[1..] == m[1..] + [c];
    }
  }

  /** The 64-bit register after i bytes have been shifted out at the top. */
  function Shifted(n: nat, i: nat): (r: nat)
    requires n < TWO_64
    ensures r < TWO_64
  {
    if i == 0 then n else Shifted(n, i - 1) * 256 % TWO_64
  }

  function TopOf(n: nat): byte
    requires n < TWO_64
  {
    n / 0x100_0000_0000_0000
  }

  /** The number made of those i bytes. */
  function Consumed(n: nat, i: nat): nat
    requires n < TWO_64
  {
    if i == 0 then 0 else Consumed(n, i - 1) * 256 + TopOf(Shifted(n, i - 1))
  }

  lemma {:induction false} ShiftInvariant(n: nat, i: nat) returns (low: nat)
    requires n < TWO_64 && i <= 8
    ensures n == Consumed(n, i) * Pow256(8 - i) + low && low < Pow256(8 - i)
    ensures Shifted(n, i) == low * Pow256(i)
  {
    PowersOf256();
    if i == 0 {
      low := n;
    } else {
      var before := ShiftInvariant(n, i - 1);
      TopByte(before, i - 1);
      NextByte(Consumed(n, i - 1), before, i - 1);
      low := before % Pow256(8 - i);
    }
  }

  lemma AllConsumed(n: nat)
    requires n < TWO_64
    ensures Consumed(n, 8) == n
  {
    var low := ShiftInvariant(n, 8);
  }

  lemma NextTop(n: nat, i: nat)
    requires n < TWO_64
    ensures 0 <= Shifted(n, i) / 0x100_0000_0000_0000 < 256
    ensures Shifted(n, i + 1) == Shifted(n, i) * 256 % TWO_64
    ensures Consumed(n, i + 1) == Consumed(n, i) * 256 + Shifted(n, i) / 0x100_0000_0000_0000
  {
  }

  /** setint64: the payload it hands to BN_mpi2bn, most significant byte first. */
  method SetInt64(sn: int) returns (payload: seq<byte>)
    requires -0x8000_0000_0000_0000 <= sn < 0x8000_0000_0000_0000
    ensures payload == MpiEncode(sn)
  {
    var fNegative := sn < 0;
    var n: nat := if sn < 0 then -(sn + 1) + 1 else sn;
    payload := [];
    var fLeadingZeroes := true;
    assert SignedDigits(ToBE(Consumed(Abs(sn), 0)), sn) == [];
    assert n == Shifted(Abs(sn), 0) && Consumed(Abs(sn), 0) == 0;
    hide ToBE, SignedDigits, Shifted, Consumed;
    for i := 0 to 8
      invariant n == Shifted(Abs(sn), i)
      invariant fLeadingZeroes <==> Consumed(Abs(sn), i) == 0
      invariant payload == SignedDigits(ToBE(Consumed(Abs(sn), i)), sn)
    {
      NextTop(Abs(sn), i);
      var c: byte := n / 0x100_0000_0000_0000;
      n := n * 256 % TWO_64;
      AppendDigit(Consumed(Abs(sn), i), c, sn);
      if fLeadingZeroes {
        if c == 0 {
          continue;
        }
        if c >= 0x80 {
          payload := payload + [if fNegative then 0x80 else 0];
        } else if fNegative {
          c := c + 0x80;
        }
        fLeadingZeroes := false;
      }
      payload := payload + [c];
    }
    AllConsumed(Abs(sn));
  }
}
