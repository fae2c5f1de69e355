/** Base58: byte vectors as strings, with and without a checksum. */
module Base58 {
  import opened Basics
  import opened BigNum
  import opened Transactions

  /** Digits and letters without the ones that look alike: 0, O, I and l. */
  const DIGITS := "123456789"
  const UPPER_A := "ABCDEFGH"
  const UPPER_J := "JKLMN"
  const UPPER_P := "PQRSTUVWXYZ"
  const LOWER_A := "abcdefghijk"
  const LOWER_M := "mnopqrstuvwxyz"
  const ALPHABET: string := DIGITS + UPPER_A + UPPER_J + UPPER_P + LOWER_A + LOWER_M

  type Digit = d: int | 0 <= d < 58

  predicate IsSpace(c: char) {
    c == ' ' || '\t' <= c <= '\r'
  }

  // ----- numbers in base 58

  function FromDigits(s: seq<Digit>): nat {
    if s == [] then 0 else FromDigits(s[..|s| - 1]) * 58 + s[|s| - 1]
  }

  /** The digits of n without leading zeros. */
  function ToDigits(n: nat): seq<Digit> {
    if n == 0 then [] else ToDigits(n / 58) + [n % 58]
  }

  lemma {:induction false} FromToDigits(n: nat)
    ensures FromDigits(ToDigits(n)) == n
    ensures n > 0 ==> ToDigits(n) != [] && ToDigits(n)[0] != 0
  {
    if n > 0 {
      FromToDigits(n / 58);
      assert ToDigits(n)[..|ToDigits(n)| - 1] == ToDigits(n / 58);
    }
  }

  lemma {:induction false} ToFromDigits(s: seq<Digit>)
    requires s == [] || s[0] != 0
    ensures ToDigits(FromDigits(s)) == s
    ensures s != [] ==> FromDigits(s) > 0
  {
    if s != [] {
      var front := s[..|s| - 1];
      ToFromDigits(front);
      assert s == front + [s[|s| - 1]];
      assert FromDigits(s) / 58 == FromDigits(front) && FromDigits(s) % 58 == s[|s| - 1];
    }
  }

  lemma {:induction false} FromDigitsZeros(k: nat, s: seq<Digit>)
    ensures FromDigits(ZeroDigits(k) + s) == FromDigits(s)
  {
    if s != [] {
      var front := s[..|s| - 1];
      FromDigitsZeros(k, front);
      assert (ZeroDigits(k) + s)[..k + |s| - 1] == ZeroDigits(k) + front;
    } else if k > 0 {
      FromDigitsZeros(k - 1, []);
      assert (ZeroDigits(k) + [])[..k - 1] == ZeroDigits(k - 1) + [];
    }
  }

  function ZeroDigits(k: nat): (r: seq<Digit>)
    ensures |r| == k && forall i :: 0 <= i < k ==> r[i] == 0
  {
    if k == 0 then [] else ZeroDigits(k - 1) + [0]
  }

  // ----- leading zeros

  function LeadingZeros(s: seq<int>): (k: nat)
    ensures k <= |s| && (k < |s| ==> s[k] != 0) && forall i :: 0 <= i < k ==> s[i] == 0
  {
    if s == [] || s[0] != 0 then 0 else 1 + LeadingZeros(s[1..])
  }

  lemma ZerosFirst(v: seq<byte>)
    ensures var k := LeadingZeros(v); v == Zeros(k) + v[k..] && FromBE(v) == FromBE(v[k..]) && ToBE(FromBE(v)) == v[k..]
  {
    var k := LeadingZeros(v);
    assert v == Zeros(k) + v[k..];
    FromBEZeros(k, v[k..]);
    ToBEOfFromBE(v[k..]);
  }

  lemma ZerosFirstDigits(s: seq<Digit>)
    ensures var k := LeadingZeros(s);
      s == ZeroDigits(k) + s[k..] && FromDigits(s) == FromDigits(s[k..]) && ToDigits(FromDigits(s)) == s[k..]
  {
    var k := LeadingZeros(s);
    assert s == ZeroDigits(k) + s[k..];
    FromDigitsZeros(k, s[k..]);
    ToFromDigits(s[k..]);
  }

  /** The digits that stand for a byte vector, and the other way round: leading zeros one for one, and the number. */
  function DigitsOf(v: seq<byte>): seq<Digit> {
    ZeroDigits(LeadingZeros(v)) + ToDigits(FromBE(v))
  }

  function BytesOf(s: seq<Digit>): seq<byte> {
    Zeros(LeadingZeros(s)) + ToBE(FromDigits(s))
  }

  lemma BytesOfDigits(v: seq<byte>)
    ensures BytesOf(DigitsOf(v)) == v
  {
    var k, n := LeadingZeros(v), FromBE(v);
    ZerosFirst(v);
    FromDigitsZeros(k, ToDigits(n));
    FromToDigits(n);
    CountZeros(ZeroDigits(k), ToDigits(n), k);
  }

  lemma DigitsOfBytes(s: seq<Digit>)
    ensures DigitsOf(BytesOf(s)) == s
  {
    var k, n := LeadingZeros(s), FromDigits(s);
    ZerosFirstDigits(s);
    FromBEZeros(k, ToBE(n));
    FromBEOfToBE(n);
    CountZeros(Zeros(k), ToBE(n), k);
  }

  lemma {:induction false} CountZeros(zeros: seq<int>, rest: seq<int>, k: nat)
    requires |zeros| == k && (forall i :: 0 <= i < k ==> zeros[i] == 0) && (rest == [] || rest[0] != 0)
    ensures LeadingZeros(zeros + rest) == k
  {
    if k > 0 {
      assert (zeros + rest)[1..] == zeros[1..] + rest;
      CountZeros(zeros[1..], rest, k - 1);
    }
  }

  // ----- characters

  function CharsOf(s: seq<Digit>): (r: string)
    ensures |r| == |s| && forall i :: 0 <= i < |s| ==> r[i] == ALPHABET[s[i]]
  {
    seq(|s|, i requires 0 <= i < |s| => ALPHABET[s[i]])
  }

  predicate InAlphabet(c: char) { c in ALPHABET }

  /** The place of a character in the alphabet; a character not in it has none. */
  function IndexFrom(c: char, i: nat): (r: int)
    requires i <= 58
    ensures r == -1 || (i <= r < 58 && ALPHABET[r] == c && forall j :: i <= j < r ==> ALPHABET[j] != c)
    ensures r == -1 ==> forall j :: i <= j < 58 ==> ALPHABET[j] != c
    decreases 58 - i
  {
    if i == 58 then -1 else if ALPHABET[i] == c then i else IndexFrom(c, i + 1)
  }

  predicate Consecutive(s: string) {
    forall i :: 0 <= i < |s| ==> s[i] as int == s[0] as int + i
  }

  function Code(i: nat): int {
    if i < 9 then '1' as int + i
    else if i < 17 then 'A' as int + (i - 9)
    else if i < 22 then 'J' as int + (i - 17)
    else if i < 33 then 'P' as int + (i - 22)
    else if i < 44 then 'a' as int + (i - 33)
    else 'm' as int + (i - 44)
  }

  lemma DigitRun()
    ensures Consecutive(DIGITS)
  {
  }

  lemma UpperRuns()
    ensures Consecutive(UPPER_A) && Consecutive(UPPER_J) && Consecutive(UPPER_P)
  {
  }

  lemma LowerRuns()
    ensures Consecutive(LOWER_A) && Consecutive(LOWER_M)
  {
  }

  lemma CodeAt(i: nat)
    requires i < 58
    ensures |ALPHABET| == 58 && ALPHABET[i] as int == Code(i)
  {
    DigitRun();
    UpperRuns();
    LowerRuns();
  }

  /** The characters of the alphabet are in increasing order, and none is a space. */
  lemma AlphabetOrdered(i: nat, j: nat)
    requires i < j < 58
    ensures ALPHABET[i] < ALPHABET[j]
  {
    CodeAt(i);
    CodeAt(j);
  }

  /** They are the digits and letters but 0, O, I and l. Spaces are the characters with the numbers 9 to 13 and 32. */
  lemma AlphabetIs(c: char)
    ensures c in ALPHABET <==> ('1' <= c <= '9' || 'A' <= c <= 'Z' || 'a' <= c <= 'z') && c !in ['I', 'O', 'l']
    ensures IsSpace(c) <==> c as int in {9, 10, 11, 12, 13, 32}
  {
    assert IsSpace(c) <==> c as int in {9, 10, 11, 12, 13, 32};
    hide *;
    var n := c as int;
    if c in ALPHABET {
      var i :| 0 <= i < |ALPHABET| && ALPHABET[i] == c;
      CodeAt(0);
      CodeIs(i);
      CodeAt(i);
    } else if '1' <= c <= '9' {
      CodeIs(n - 49);
      CodeAt(n - 49);
    } else if 'A' <= c <= 'Z' && c !in ['I', 'O'] {
      var i := if n < 73 then n - 56 else if n < 79 then n - 57 else n - 58;
      CodeIs(i);
      CodeAt(i);
    } else if 'a' <= c <= 'z' && c != 'l' {
      var i := if n < 108 then n - 64 else n - 65;
      CodeIs(i);
      CodeAt(i);
    }
  }

  lemma CodeIs(i: nat)
    requires i < 58
    ensures Code(i) == if i < 9 then 49 + i else if i < 17 then 56 + i else if i < 22 then 57 + i
      else if i < 33 then 58 + i else if i < 44 then 64 + i else 65 + i
  {
  }

  lemma NoSpaceInAlphabet(d: Digit)
    ensures !IsSpace(ALPHABET[d])
  {
    CodeAt(d);
  }

  lemma IndexOfDigit(d: Digit)
    ensures IndexFrom(ALPHABET[d], 0) == d
  {
    hide IndexFrom;
    var r := IndexFrom(ALPHABET[d], 0);
    if 0 <= r < d { AlphabetOrdered(r, d); }
  }

  // ----- encoding

  function EncodeSpec(v: seq<byte>): string { CharsOf(DigitsOf(v)) }

  method EncodeBase58(v: seq<byte>) returns (str: string)
    ensures str == EncodeSpec(v)
  {
    hide CharsOf, Reversed, ToDigits;
    var bn := FromBE(v);
    str := WriteDigits(bn);
    str := WriteZeros(v, str, ToDigits(bn));
    str := Reversed(str);
  }

  /** The digits of a number, last one first. */
  method WriteDigits(n: nat) returns (str: string)
    ensures Reversed(str) == CharsOf(ToDigits(n))
  {
    hide CharsOf, Reversed;
    var bn := n;
    str := "";
    NoChars();
    assert CharsOf(ToDigits(n)) + [] == CharsOf(ToDigits(n));
    while bn > 0
      invariant bn >= 0 && CharsOf(ToDigits(n)) == CharsOf(ToDigits(bn)) + Reversed(str)
    {
      var c := bn % 58;
      ReversedMore(str, ALPHABET[c]);
      CharsMore(ToDigits(bn / 58), c);
      assert CharsOf(ToDigits(bn / 58)) + ([ALPHABET[c]] + Reversed(str))
        == (CharsOf(ToDigits(bn / 58)) + [ALPHABET[c]]) + Reversed(str);
      bn := bn / 58;
      str := str + [ALPHABET[c]];
    }
    assert [] + Reversed(str) == Reversed(str);
  }

  /** One character for each leading zero byte. */
  method WriteZeros(v: seq<byte>, str0: string, ghost rest: seq<Digit>) returns (str: string)
    requires Reversed(str0) == CharsOf(rest)
    ensures Reversed(str) == CharsOf(ZeroDigits(LeadingZeros(v)) + rest)
  {
    hide CharsOf, Reversed, ZeroDigits, LeadingZeros;
    str := str0;
    var p := 0;
    NoZeros(rest);
    assert v[0..] == v;
    while p < |v| && v[p] == 0
      invariant 0 <= p <= |v| && LeadingZeros(v) == p + LeadingZeros(v[p..])
      invariant Reversed(str) == CharsOf(ZeroDigits(p) + rest)
    {
      CountAt(v, p);
      OneMoreZero(str, p, rest);
      str := str + [ALPHABET[0]];
      p := p + 1;
    }
    CountAt(v, p);
  }

  lemma CountAt(v: seq<byte>, p: nat)
    requires p <= |v|
    ensures LeadingZeros(v[p..]) == if p < |v| && v[p] == 0 then 1 + LeadingZeros(v[p + 1..]) else 0
  {
    if p < |v| { assert v[p..][1..] == v[p + 1..]; }
  }

  lemma NoZeros(rest: seq<Digit>)
    ensures ZeroDigits(0) + rest == rest
  {
  }

  lemma OneMoreZero(str: string, p: nat, rest: seq<Digit>)
    requires Reversed(str) == CharsOf(ZeroDigits(p) + rest)
    ensures Reversed(str + [ALPHABET[0]]) == CharsOf(ZeroDigits(p + 1) + rest)
  {
    hide CharsOf, Reversed, ZeroDigits;
    ReversedMore(str, ALPHABET[0]);
    OneChar(0, ZeroDigits(p) + rest);
    ZeroBefore(p);
    assert [0] + (ZeroDigits(p) + rest) == ([0] + ZeroDigits(p)) + rest;
  }

  lemma NoChars()
    ensures CharsOf([]) == "" && Reversed("") == ""
  {
  }

  lemma CharsMore(digits: seq<Digit>, c: Digit)
    ensures CharsOf(digits + [c]) == CharsOf(digits) + [ALPHABET[c]]
  {
  }

  lemma ReversedMore<T>(s: seq<T>, x: T)
    ensures Reversed(s + [x]) == [x] + Reversed(s)
  {
  }

  lemma ReversedTwice<T>(s: seq<T>)
    ensures Reversed(Reversed(s)) == s
  {
  }

  lemma ZeroBefore(k: nat)
    ensures [0] + ZeroDigits(k) == ZeroDigits(k + 1)
  {
  }

  // ----- decoding

  /** The string behind its leading spaces. */
  function SkipSpaces(s: string): string {
    if s != "" && IsSpace(s[0]) then SkipSpaces(s[1..]) else s
  }

  /** The digits up to the first character outside the alphabet; after it only spaces may follow. */
  function DigitsFrom(s: string): Option<seq<Digit>> {
    if s == "" then Some([])
    else if IndexFrom(s[0], 0) == -1 then (if SkipSpaces(s) == "" then Some([]) else None)
    else
      match DigitsFrom(s[1..])
      case None => None
      case Some(r) => Some([IndexFrom(s[0], 0)] + r)
  }

  function DecodeSpec(s: string): Option<seq<byte>> {
    match DigitsFrom(SkipSpaces(s))
    case None => None
    case Some(digits) => Some(BytesOf(digits))
  }

  method SkipSpacesIn(s: string) returns (rest: string)
    ensures rest == SkipSpaces(s)
  {
    rest := s;
    while |rest| > 0 && IsSpace(rest[0])
      invariant SkipSpaces(rest) == SkipSpaces(s)
    {
      rest := rest[1..];
    }
  }

  /** The sign byte is there exactly when the top bit is set. */
  lemma SignByte(bn: nat)
    ensures var m, r := ToBE(bn), Reversed(MpiEncode(bn));
      if m != [] && m[0] >= 0x80 then
        r == Reversed(m) + [0] && |r| >= 2 && r[|r| - 2] >= 0x80 && r[..|r| - 1] == Reversed(m)
      else
        r == Reversed(m) && (|r| >= 2 ==> r[|r| - 1] != 0)
  {
    hide ToBE, Reversed;
    FromBEOfToBE(bn);
    ZeroHasNoDigits();
    var m := ToBE(bn);
    if m != [] {
      FrontBytes(m, bn);
      if m[0] >= 0x80 { SignLast(m); } else { assert Reversed(m)[|m| - 1] == m[0]; }
    }
  }

  lemma ZeroHasNoDigits()
    ensures ToBE(0) == []
  {
  }

  lemma FrontBytes(m: seq<byte>, n: nat)
    requires m != []
    ensures SignedDigits(m, n) == if m[0] >= 0x80 then [0] + m else m
  {
  }

  lemma SignLast(m: seq<byte>)
    requires m != []
    ensures var r := Reversed([0] + m);
      r == Reversed(m) + [0] && |r| >= 2 && r[|r| - 2] == m[0] && r[..|r| - 1] == Reversed(m)
  {
  }

  /** The bytes of a number as they come out of the bignum: little-endian, without a sign byte. */
  method TrimmedBytes(bn: nat) returns (vchTmp: seq<byte>)
    ensures vchTmp == Reversed(ToBE(bn))
  {
    vchTmp := Reversed(MpiEncode(bn));
    SignByte(bn);
    if |vchTmp| >= 2 && vchTmp[|vchTmp| - 1] == 0 && vchTmp[|vchTmp| - 2] >= 0x80 {
      vchTmp := vchTmp[..|vchTmp| - 1];
    }
  }

  /** psz reads as the digits so far and then as p does. */
  ghost predicate ReadsOn(psz: string, digits: seq<Digit>, p: string) {
    DigitsFrom(psz).Some? == DigitsFrom(p).Some?
      && (DigitsFrom(p).Some? ==> DigitsFrom(psz).value == digits + DigitsFrom(p).value)
  }

  lemma ReadsOnMore(psz: string, digits: seq<Digit>, p: string)
    requires ReadsOn(psz, digits, p) && p != "" && IndexFrom(p[0], 0) != -1
    ensures ReadsOn(psz, digits + [IndexFrom(p[0], 0)], p[1..])
  {
    hide IndexFrom;
    var d := IndexFrom(p[0], 0);
    OneDigit(p);
    if DigitsFrom(p).Some? { Join(digits, d, DigitsFrom(p[1..]).value); }
  }

  lemma OneDigit(p: string)
    requires p != "" && IndexFrom(p[0], 0) != -1
    ensures DigitsFrom(p).Some? == DigitsFrom(p[1..]).Some?
    ensures DigitsFrom(p).Some? ==> DigitsFrom(p).value == [IndexFrom(p[0], 0)] + DigitsFrom(p[1..]).value
  {
    hide IndexFrom;
  }

  lemma Join(a: seq<Digit>, d: Digit, b: seq<Digit>)
    ensures a + ([d] + b) == (a + [d]) + b
  {
  }

  lemma ReadsAll(psz: string)
    ensures ReadsOn(psz, [], psz)
  {
    hide DigitsFrom;
    if DigitsFrom(psz).Some? { assert [] + DigitsFrom(psz).value == DigitsFrom(psz).value; }
  }

  /** At the end, or at a character outside the alphabet. */
  lemma ReadsEnd(psz: string, digits: seq<Digit>, p: string)
    requires ReadsOn(psz, digits, p) && (p != "" ==> IndexFrom(p[0], 0) == -1)
    ensures DigitsFrom(psz).Some? <==> p == "" || SkipSpaces(p) == ""
    ensures DigitsFrom(psz).Some? ==> DigitsFrom(psz).value == digits
  {
    hide IndexFrom;
    assert digits + [] == digits;
  }

  method ReadDigits(psz: string) returns (ok: bool, bn: nat, ghost digits: seq<Digit>)
    ensures ok == DigitsFrom(psz).Some? && (ok ==> digits == DigitsFrom(psz).value && bn == FromDigits(digits))
  {
    hide IndexFrom, DigitsFrom, ReadsOn;
    var p := psz;
    bn, digits := 0, [];
    ReadsAll(psz);
    while |p| > 0
      invariant bn == FromDigits(digits) && ReadsOn(psz, digits, p)
      decreases |p|
    {
      var d := IndexFrom(p[0], 0);
      if d == -1 {
        ReadsEnd(psz, digits, p);
        var rest := SkipSpacesIn(p);
        if |rest| > 0 { return false, 0, []; }
        return true, bn, digits;
      }
      ReadsOnMore(psz, digits, p);
      assert (digits + [d])[..|digits|] == digits;
      digits := digits + [d];
      bn := bn * 58 + d;
      p := p[1..];
    }
    ReadsEnd(psz, digits, p);
    ok := true;
  }

  /** Each digit stands at the place of its character, and behind the last there is none. */
  lemma {:induction false} DigitPlaces(s: string)
    requires DigitsFrom(s).Some?
    ensures var r := DigitsFrom(s).value;
      && |r| <= |s| && (forall i :: 0 <= i < |r| ==> IndexFrom(s[i], 0) == r[i])
      && (|r| < |s| ==> IndexFrom(s[|r|], 0) == -1)
    decreases |s|
  {
    hide IndexFrom;
    if s != "" && IndexFrom(s[0], 0) != -1 { DigitPlaces(s[1..]); }
  }

  function LeadingOnes(s: string): (k: nat)
    ensures k <= |s| && (k < |s| ==> s[k] != ALPHABET[0]) && forall i :: 0 <= i < k ==> s[i] == ALPHABET[0]
  {
    if s == "" || s[0] != ALPHABET[0] then 0 else 1 + LeadingOnes(s[1..])
  }

  method CountOnes(psz: string) returns (n: nat)
    ensures n == LeadingOnes(psz)
  {
    n := 0;
    while n < |psz| && psz[n] == ALPHABET[0]
      invariant n <= |psz| && LeadingOnes(psz) == n + LeadingOnes(psz[n..])
    {
      assert psz[n..][1..] == psz[n + 1..];
      n := n + 1;
    }
  }

  lemma OnesAreZeros(s: string)
    requires DigitsFrom(s).Some?
    ensures LeadingOnes(s) == LeadingZeros(DigitsFrom(s).value)
  {
    hide IndexFrom, DigitsFrom;
    var digits := DigitsFrom(s).value;
    DigitPlaces(s);
    IndexOfDigit(0);
    ZeroIsOne();
    var k, z := LeadingOnes(s), LeadingZeros(digits);
    SameCount(s, digits, k, z);
  }

  lemma SameCount(s: string, digits: seq<Digit>, k: nat, z: nat)
    requires |digits| <= |s| && (forall i :: 0 <= i < |digits| ==> (digits[i] == 0 <==> s[i] == ALPHABET[0]))
    requires |digits| < |s| ==> s[|digits|] != ALPHABET[0]
    requires k <= |s| && (k < |s| ==> s[k] != ALPHABET[0]) && forall i :: 0 <= i < k ==> s[i] == ALPHABET[0]
    requires z <= |digits| && (z < |digits| ==> digits[z] != 0) && forall i :: 0 <= i < z ==> digits[i] == 0
    ensures k == z
  {
  }

  lemma ZeroIsOne()
    ensures forall c :: IndexFrom(c, 0) == 0 ==> c == ALPHABET[0]
  {
  }

  method DecodeBase58(s: string) returns (ok: bool, vchRet: seq<byte>)
    ensures ok == DecodeSpec(s).Some? && (ok ==> vchRet == DecodeSpec(s).value)
  {
    hide DigitsFrom, FromDigits, ToBE;
    vchRet := [];
    var psz := SkipSpacesIn(s);
    var bn;
    ghost var digits;
    ok, bn, digits := ReadDigits(psz);
    if !ok { return; }
    var vchTmp := TrimmedBytes(bn);
    var nLeadingZeros := CountOnes(psz);
    OnesAreZeros(psz);
    ReversedTwice(ToBE(bn));
    vchRet := Zeros(nLeadingZeros) + Reversed(vchTmp);
  }

  // ----- round trips

  lemma {:induction false} DigitsOfChars(digits: seq<Digit>)
    ensures DigitsFrom(CharsOf(digits)) == Some(digits)
    decreases |digits|
  {
    hide IndexFrom;
    if digits != [] {
      IndexOfDigit(digits[0]);
      var c := CharsOf(digits);
      assert c[1..] == CharsOf(digits[1..]) && c[0] == ALPHABET[digits[0]];
      DigitsOfChars(digits[1..]);
      OneDigit(c);
      assert digits == [digits[0]] + digits[1..];
    }
  }

  lemma NothingToSkip(digits: seq<Digit>)
    ensures SkipSpaces(CharsOf(digits)) == CharsOf(digits)
  {
    if digits != [] { NoSpaceInAlphabet(digits[0]); }
  }

  /** Decoding what was encoded gives the bytes back, leading zeros and high bits included. */
  lemma DecodeEncoded(v: seq<byte>)
    ensures DecodeSpec(EncodeSpec(v)) == Some(v)
  {
    hide SkipSpaces, DigitsFrom, CharsOf, DigitsOf, BytesOf;
    NothingToSkip(DigitsOf(v));
    DigitsOfChars(DigitsOf(v));
    BytesOfDigits(v);
  }

  /** The characters of the digits read are the string itself, when all of it is in the alphabet. */
  lemma {:induction false} CharsOfDigits(s: string)
    requires forall i :: 0 <= i < |s| ==> InAlphabet(s[i])
    ensures DigitsFrom(s).Some? && CharsOf(DigitsFrom(s).value) == s && SkipSpaces(s) == s
    decreases |s|
  {
    hide IndexFrom, IsSpace;
    if s != "" {
      var d := DigitOf(s[0]);
      CharsOfDigits(s[1..]);
      OneDigit(s);
      var r := DigitsFrom(s).value;
      assert r[1..] == DigitsFrom(s[1..]).value;
      assert s == [s[0]] + s[1..];
      OneChar(d, r[1..]);
    }
  }

  lemma DigitOf(c: char) returns (d: Digit)
    requires InAlphabet(c)
    ensures IndexFrom(c, 0) == d && ALPHABET[d] == c && !IsSpace(c)
  {
    hide IndexFrom, IsSpace;
    CodeAt(0);
    d :| 0 <= d < |ALPHABET| && ALPHABET[d] == c;
    IndexOfDigit(d);
    NoSpaceInAlphabet(d);
  }

  lemma OneChar(d: Digit, r: seq<Digit>)
    ensures CharsOf([d] + r) == [ALPHABET[d]] + CharsOf(r)
  {
  }

  /** Encoding what was decoded gives the string back, when all of it is in the alphabet. */
  lemma EncodeDecoded(s: string)
    requires forall i :: 0 <= i < |s| ==> InAlphabet(s[i])
    ensures DecodeSpec(s).Some? && EncodeSpec(DecodeSpec(s).value) == s
  {
    hide SkipSpaces, DigitsFrom, CharsOf, DigitsOf, BytesOf, InAlphabet;
    CharsOfDigits(s);
    DigitsOfBytes(DigitsFrom(s).value);
  }

  /** The weight of the digit with k digits behind it. */
  function Power(base: nat, k: nat): nat { if k == 0 then 1 else base * Power(base, k - 1) }

  /** The number with these digits, each weighted by its place: the last one counts once. */
  function Weighted(base: nat, s: seq<nat>): nat {
    if s == [] then 0 else s[0] * Power(base, |s| - 1) + Weighted(base, s[1..])
  }

  lemma {:induction false} WeightedLast(base: nat, s: seq<nat>, d: nat)
    ensures Weighted(base, s + [d]) == Weighted(base, s) * base + d
  {
    if s == [] {
      assert Weighted(base, [d]) == d * Power(base, 0) + Weighted(base, []);
      assert s + [d] == [d];
    } else {
      var t := s + [d];
      WeightedLast(base, s[1..], d);
      assert t[1..] == s[1..] + [d];
      assert Weighted(base, t) == s[0] * Power(base, |s|) + Weighted(base, t[1..]);
      assert s[0] * (base * Power(base, |s| - 1)) == s[0] * Power(base, |s| - 1) * base;
      assert Weighted(base, s) == s[0] * Power(base, |s| - 1) + Weighted(base, s[1..]);
    }
  }

  lemma {:induction false} DigitsWeighted(s: seq<Digit>)
    ensures FromDigits(s) == Weighted(58, s)
  {
    if s != [] {
      DigitsWeighted(s[..|s| - 1]);
      WeightedLast(58, s[..|s| - 1], s[|s| - 1]);
      assert s == s[..|s| - 1] + [s[|s| - 1]];
    }
  }

  lemma {:induction false} BytesWeighted(v: seq<byte>)
    ensures FromBE(v) == Weighted(256, v)
  {
    if v != [] {
      BytesWeighted(v[..|v| - 1]);
      WeightedLast(256, v[..|v| - 1], v[|v| - 1]);
      assert v == v[..|v| - 1] + [v[|v| - 1]];
    }
  }

  /** The string and the bytes are the same number, to the base 58 with the characters of the alphabet for digits and to
      the base 256, most significant first. */
  lemma SameNumber(v: seq<byte>, digits: seq<Digit>)
    requires |digits| == |EncodeSpec(v)|
    requires forall i :: 0 <= i < |digits| ==> ALPHABET[digits[i]] == EncodeSpec(v)[i]
    ensures Weighted(58, digits) == Weighted(256, v)
  {
    hide DigitsOf, Weighted, FromDigits, ToDigits, FromBE, LeadingZeros;
    SameDigits(DigitsOf(v), digits);
    DigitsNumber(v);
    DigitsWeighted(digits);
    BytesWeighted(v);
  }

  lemma SameDigits(a: seq<Digit>, b: seq<Digit>)
    requires |a| == |b| && forall i :: 0 <= i < |b| ==> ALPHABET[b[i]] == CharsOf(a)[i]
    ensures a == b
  {
    hide *;
    CodeAt(0);
    forall i | 0 <= i < |a|
      ensures a[i] == b[i]
    {
      assert ALPHABET[b[i]] == CharsOf(a)[i];
      if b[i] < a[i] { AlphabetOrdered(b[i], a[i]); }
      if a[i] < b[i] { AlphabetOrdered(a[i], b[i]); }
    }
  }

  lemma DigitsNumber(v: seq<byte>)
    ensures FromDigits(DigitsOf(v)) == FromBE(v)
  {
    hide FromDigits, ToDigits, FromBE, LeadingZeros;
    FromDigitsZeros(LeadingZeros(v), ToDigits(FromBE(v)));
    FromToDigits(FromBE(v));
  }

  /** As many characters 1 lead the string as zero bytes the bytes. */
  lemma LeadingAlike(v: seq<byte>, k: nat)
    requires k <= |v| && (forall i :: 0 <= i < k ==> v[i] == 0) && (k < |v| ==> v[k] != 0)
    ensures var s := EncodeSpec(v);
      k <= |s| && (forall i :: 0 <= i < k ==> s[i] == '1') && (k < |s| ==> s[k] != '1')
  {
    hide FromDigits, FromBE, CharsOf;
    FromToDigits(FromBE(v));
    assert LeadingZeros(v) == k;
    var digits := DigitsOf(v);
    CodeAt(0);
    if k < |digits| { AlphabetOrdered(0, digits[k]); }
  }

  // ----- with a checksum

  type Word = s: seq<byte> | |s| == 4 witness [0, 0, 0, 0]

  method EncodeBase58Check(vchIn: seq<byte>, hash: seq<byte> -> Word) returns (str: string)
    ensures str == EncodeSpec(vchIn + hash(vchIn))
  {
    str := EncodeBase58(vchIn + hash(vchIn));
  }

  /** Accepts exactly the strings that decode to bytes followed by their checksum. */
  method DecodeBase58Check(psz: string, hash: seq<byte> -> Word) returns (ok: bool, vchRet: seq<byte>)
    ensures ok <==> exists v :: DecodeSpec(psz) == Some(v + hash(v))
    ensures if ok then DecodeSpec(psz) == Some(vchRet + hash(vchRet)) else vchRet == []
  {
    hide DecodeSpec;
    ok, vchRet := DecodeBase58(psz);
    if !ok { vchRet := []; return; }
    if |vchRet| < 4 {
      return false, [];
    }
    var body, check := vchRet[..|vchRet| - 4], vchRet[|vchRet| - 4..];
    assert vchRet == body + check;
    if hash(body) != check {
      forall v
        ensures DecodeSpec(psz) != Some(v + hash(v))
      {
        if vchRet == v + hash(v) { SplitsOnce(v, hash(v), body, check); }
      }
      return false, [];
    }
    vchRet := body;
  }

  lemma SplitsOnce(a: seq<byte>, b: seq<byte>, c: seq<byte>, d: seq<byte>)
    requires a + b == c + d && |b| == |d|
    ensures a == c && b == d
  {
    assert |a| == |c|;
    assert a == (a + b)[..|a|] && c == (c + d)[..|c|];
    assert b == (a + b)[|a|..] && d == (c + d)[|c|..];
  }

  /** The checked form decodes to what was encoded, and to nothing else. */
  lemma CheckRoundTrip(v: seq<byte>, w: seq<byte>, hash: seq<byte> -> Word)
    ensures DecodeSpec(EncodeSpec(v + hash(v))) == Some(v + hash(v))
    ensures DecodeSpec(EncodeSpec(v + hash(v))) == Some(w + hash(w)) ==> w == v
  {
    hide DecodeSpec, EncodeSpec;
    DecodeEncoded(v + hash(v));
    if w + hash(w) == v + hash(v) { SplitsOnce(w, hash(w), v, hash(v)); }
  }
}
