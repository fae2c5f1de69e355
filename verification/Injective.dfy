/** Transactions and blocks numbered without collisions: what is proved of collision-free hashes is not
    proved of nothing. */
module Injective {
  import opened Transactions

  /** b written after a trailing zeros: 2^a (2b + 1). */
  function Pair(a: nat, b: nat): (r: nat)
    ensures r > 0
  {
    if a == 0 then 2 * b + 1 else 2 * Pair(a - 1, b)
  }

  lemma {:induction false} PairInjective(a: nat, b: nat, c: nat, d: nat)
    requires Pair(a, b) == Pair(c, d)
    ensures a == c && b == d
  {
    if a > 0 && c > 0 { PairInjective(a - 1, b, c - 1, d); }
  }

  function OfInt(i: int): nat { if i >= 0 then 2 * i else -2 * i - 1 }

  function OfSeq<T>(s: seq<T>, f: T -> nat): nat {
    if s == [] then 0 else Pair(f(s[0]), OfSeq(s[1..], f))
  }

  lemma {:induction false} OfSeqInjective<T(!new)>(s: seq<T>, t: seq<T>, f: T -> nat)
    requires forall x: T, y: T :: f(x) == f(y) ==> x == y
    requires OfSeq(s, f) == OfSeq(t, f)
    ensures s == t
  {
    if s != [] && t != [] {
      PairInjective(f(s[0]), OfSeq(s[1..], f), f(t[0]), OfSeq(t[1..], f));
      OfSeqInjective(s[1..], t[1..], f);
      assert s == [s[0]] + s[1..] && t == [t[0]] + t[1..];
    }
  }

  function OfBytes(s: seq<byte>): nat { OfSeq(s, (b: byte) => b) }

  function OfIn(i: TxIn): nat { Pair(i.prevout.hash, Pair(i.prevout.n, OfBytes(i.scriptSig))) }

  function OfOut(o: TxOut): nat { Pair(OfInt(o.nValue), OfBytes(o.scriptPubKey)) }

  function OfTx(tx: Tx): nat { Pair(OfInt(tx.nTime), Pair(OfSeq(tx.vin, OfIn), OfSeq(tx.vout, OfOut))) }

  function OfTail(b: Block): nat { Pair(OfInt(b.nTime), Pair(b.nBits, OfSeq(b.vtx, OfTx))) }

  function OfRest(b: Block): nat { Pair(b.hashPrevBlock, OfTail(b)) }

  function OfBlock(b: Block): nat { Pair(OfInt(b.nVersion), OfRest(b)) }

  lemma BytesInjective(s: seq<byte>, t: seq<byte>)
    requires OfBytes(s) == OfBytes(t)
    ensures s == t
  {
    OfSeqInjective(s, t, (b: byte) => b);
  }

  lemma InInjective(a: TxIn, b: TxIn)
    requires OfIn(a) == OfIn(b)
    ensures a == b
  {
    PairInjective(a.prevout.hash, Pair(a.prevout.n, OfBytes(a.scriptSig)), b.prevout.hash,
      Pair(b.prevout.n, OfBytes(b.scriptSig)));
    PairInjective(a.prevout.n, OfBytes(a.scriptSig), b.prevout.n, OfBytes(b.scriptSig));
    BytesInjective(a.scriptSig, b.scriptSig);
  }

  lemma OutInjective(a: TxOut, b: TxOut)
    requires OfOut(a) == OfOut(b)
    ensures a == b
  {
    PairInjective(OfInt(a.nValue), OfBytes(a.scriptPubKey), OfInt(b.nValue), OfBytes(b.scriptPubKey));
    BytesInjective(a.scriptPubKey, b.scriptPubKey);
  }

  lemma TxInjective(a: Tx, b: Tx)
    requires OfTx(a) == OfTx(b)
    ensures a == b
  {
    PairInjective(OfInt(a.nTime), Pair(OfSeq(a.vin, OfIn), OfSeq(a.vout, OfOut)), OfInt(b.nTime),
      Pair(OfSeq(b.vin, OfIn), OfSeq(b.vout, OfOut)));
    PairInjective(OfSeq(a.vin, OfIn), OfSeq(a.vout, OfOut), OfSeq(b.vin, OfIn), OfSeq(b.vout, OfOut));
    forall x, y | OfIn(x) == OfIn(y)
      ensures x == y
    {
      InInjective(x, y);
    }
    forall x, y | OfOut(x) == OfOut(y)
      ensures x == y
    {
      OutInjective(x, y);
    }
    OfSeqInjective(a.vin, b.vin, OfIn);
    OfSeqInjective(a.vout, b.vout, OfOut);
  }

  lemma BlockInjective(a: Block, b: Block)
    requires OfBlock(a) == OfBlock(b)
    ensures a == b
  {
    PairInjective(OfInt(a.nVersion), OfRest(a), OfInt(b.nVersion), OfRest(b));
    PairInjective(a.hashPrevBlock, OfTail(a), b.hashPrevBlock, OfTail(b));
    PairInjective(OfInt(a.nTime), Pair(a.nBits, OfSeq(a.vtx, OfTx)), OfInt(b.nTime), Pair(b.nBits, OfSeq(b.vtx, OfTx)));
    PairInjective(a.nBits, OfSeq(a.vtx, OfTx), b.nBits, OfSeq(b.vtx, OfTx));
    forall x, y | OfTx(x) == OfTx(y)
      ensures x == y
    {
      TxInjective(x, y);
    }
    OfSeqInjective(a.vtx, b.vtx, OfTx);
  }
}
