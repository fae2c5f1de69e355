/** CTransaction::GetCoinAge: the coin-days a coinstake consumes, counting only inputs of the main chain
    that are old enough and deep enough. */
module CoinAge {
  import opened Basics
  import opened Transactions
  import opened TxDb
  import opened BlockIndex

  const CENT: int := 1_000_000
  const STAKE_MIN_AGE: int := 6 * 60 * 60
  const STAKE_MIN_CONFIRMATIONS: nat := 10

  /** The coin age one input adds, in cent-seconds; nothing when the transaction must be refused. */
  ghost function InputAge(env: Env, ix: Index, tx: Tx, o: OutPoint, pindexPrev: CBlockIndex?): Option<int> {
    if o.hash !in ix then Some(0)
    else
      var pos := ix[o.hash].pos;
      match env.txAt(pos)
      case None => Some(0)
      case Some(txPrev) =>
        if o.n >= |txPrev.vout| then Some(0)
        else if tx.nTime < txPrev.nTime then None
        else if pos.NullPos? || env.blockTimeAt(pos.nFile, pos.nBlockPos).None? then None
        else if env.blockTimeAt(pos.nFile, pos.nBlockPos).value + STAKE_MIN_AGE > tx.nTime then Some(0)
        else if ConfirmedWithin(pos, pindexPrev, STAKE_MIN_CONFIRMATIONS - 1) then Some(0)
        else Some(DivTrunc(txPrev.vout[o.n].nValue * (tx.nTime - txPrev.nTime), CENT))
  }

  ghost function CentSeconds(env: Env, ix: Index, tx: Tx, os: seq<OutPoint>, pindexPrev: CBlockIndex?): Option<int> {
    if os == [] then Some(0)
    else
      var before := CentSeconds(env, ix, tx, os[..|os| - 1], pindexPrev);
      var last := InputAge(env, ix, tx, os[|os| - 1], pindexPrev);
      if before.None? || last.None? then None else Some(before.value + last.value)
  }

  function CoinDays(nCentSeconds: int): int {
    DivTrunc(DivTrunc(nCentSeconds * CENT, COIN), 24 * 60 * 60)
  }

  /** getuint64 keeps the low 64 bits of the magnitude. */
  function LowBits(n: int): nat {
    (if n < 0 then -n else n) % TWO_64
  }

  ghost function CoinAgeOf(env: Env, ix: Index, tx: Tx, pindexPrev: CBlockIndex?): Option<nat> {
    var age := CentSeconds(env, ix, tx, tx.Spends(), pindexPrev);
    if age.None? then None else Some(LowBits(CoinDays(age.value)))
  }

  method InputCoinAge(env: Env, txdb: CTxDB, tx: Tx, o: OutPoint, pindexPrev: CBlockIndex?) returns (age: Option<int>)
    requires pindexPrev != null ==> pindexPrev.Linked()
    ensures age == InputAge(env, txdb.View(), tx, o, pindexPrev)
  {
    var found, txindex := txdb.ReadTxIndex(o.hash);
    if !found {
      return Some(0);
    }
    var pos := txindex.pos;
    var read := env.txAt(pos);
    if read.None? || o.n >= |read.value.vout| {
      return Some(0);
    }
    var txPrev := read.value;
    if tx.nTime < txPrev.nTime {
      return None;
    }
    if pos.NullPos? {
      return None;
    }
    var nBlockTime := env.blockTimeAt(pos.nFile, pos.nBlockPos);
    if nBlockTime.None? {
      return None;
    }
    if nBlockTime.value + STAKE_MIN_AGE > tx.nTime {
      return Some(0);
    }
    if pindexPrev != null {
      var confirmed, nSpendDepth := IsConfirmedInNPrevBlocks(pos, pindexPrev, STAKE_MIN_CONFIRMATIONS - 1);
      if confirmed {
        return Some(0);
      }
    }
    return Some(DivTrunc(txPrev.vout[o.n].nValue * (tx.nTime - txPrev.nTime), CENT));
  }

  method GetCoinAge(env: Env, txdb: CTxDB, tx: Tx, pindexPrev: CBlockIndex?) returns (nCoinAge: Option<nat>)
    requires pindexPrev != null ==> pindexPrev.Linked()
    ensures nCoinAge == CoinAgeOf(env, txdb.View(), tx, pindexPrev)
  {
    var bnCentSecond := 0;
    var os := tx.Spends();
    for i := 0 to |os|
      invariant CentSeconds(env, txdb.View(), tx, os[..i], pindexPrev) == Some(bnCentSecond)
    {
      assert os[..i + 1][..i] == os[..i];
      var age := InputCoinAge(env, txdb, tx, os[i], pindexPrev);
      if age.None? {
        NoAge(env, txdb.View(), tx, os, pindexPrev, i);
        return None;
      }
      bnCentSecond := bnCentSecond + age.value;
    }
    assert os[..|os|] == os;
    nCoinAge := Some(LowBits(CoinDays(bnCentSecond)));
  }

  lemma {:induction false} NoAge(env: Env, ix: Index, tx: Tx, os: seq<OutPoint>, pindexPrev: CBlockIndex?, i: nat)
    requires i < |os| && InputAge(env, ix, tx, os[i], pindexPrev).None?
    ensures CentSeconds(env, ix, tx, os, pindexPrev).None?
    decreases |os|
  {
    if i < |os| - 1 {
      NoAge(env, ix, tx, os[..|os| - 1], pindexPrev, i);
    }
  }

  // ----- what the coin age amounts to

  /** One coin held for one day, in the smallest unit and seconds. */
  const COIN_DAY: int := 8_640_000_000_000

  /** The input names an output of a stored transaction. */
  predicate Stored(env: Env, ix: Index, o: OutPoint) {
    o.hash in ix && env.txAt(ix[o.hash].pos).Some? && o.n < |env.txAt(ix[o.hash].pos).value.vout|
  }

  /** The block time of the record is known. */
  predicate Dated(env: Env, pos: DiskTxPos) { pos.At? && env.blockTimeAt(pos.nFile, pos.nBlockPos).Some? }

  /** Its block is at least six hours older than the transaction, and not one of the last nine. */
  ghost predicate Counted(env: Env, ix: Index, tx: Tx, o: OutPoint, p: CBlockIndex?)
    requires p != null ==> p.Linked()
  {
    && Stored(env, ix, o) && Dated(env, ix[o.hash].pos)
    && env.blockTimeAt(ix[o.hash].pos.nFile, ix[o.hash].pos.nBlockPos).value + 21_600 <= tx.nTime
    && (p != null ==> !OnPath(ix[o.hash].pos, p, 9))
  }

  /** Value times time held, over the inputs that are counted. */
  ghost function Held(env: Env, ix: Index, tx: Tx, os: seq<OutPoint>, p: CBlockIndex?): int
    requires p != null ==> p.Linked()
  {
    if os == [] then 0
    else
      var o := os[|os| - 1];
      Held(env, ix, tx, os[..|os| - 1], p) + if !Counted(env, ix, tx, o, p) then 0
        else
          var txPrev := env.txAt(ix[o.hash].pos).value;
          txPrev.vout[o.n].nValue * (tx.nTime - txPrev.nTime)
  }

  ghost function CountedInputs(env: Env, ix: Index, tx: Tx, os: seq<OutPoint>, p: CBlockIndex?): nat
    requires p != null ==> p.Linked()
  {
    if os == [] then 0
    else
      CountedInputs(env, ix, tx, os[..|os| - 1], p) + if Counted(env, ix, tx, os[|os| - 1], p) then 1 else 0
  }

  /** The transaction is later than what it takes, and the block times of that can be read. */
  predicate InOrder(env: Env, ix: Index, tx: Tx, o: OutPoint) {
    Stored(env, ix, o) ==> env.txAt(ix[o.hash].pos).value.nTime <= tx.nTime && Dated(env, ix[o.hash].pos)
  }

  predicate ValuesGood(env: Env, ix: Index, os: seq<OutPoint>) {
    forall o :: o in os && Stored(env, ix, o) ==> env.txAt(ix[o.hash].pos).value.vout[o.n].nValue >= 0
  }

  lemma InputAgeMeans(env: Env, ix: Index, tx: Tx, o: OutPoint, p: CBlockIndex?)
    requires p != null ==> p.Linked()
    ensures InputAge(env, ix, tx, o, p).Some? <==> InOrder(env, ix, tx, o)
    ensures InOrder(env, ix, tx, o) ==>
      if Counted(env, ix, tx, o, p) then
        var txPrev := env.txAt(ix[o.hash].pos).value;
        InputAge(env, ix, tx, o, p) == Some(DivTrunc(txPrev.vout[o.n].nValue * (tx.nTime - txPrev.nTime), CENT))
      else InputAge(env, ix, tx, o, p) == Some(0)
  {
    hide ConfirmedWithin;
    if o.hash in ix { NothingConfirmed(ix[o.hash].pos); }
    if p != null && o.hash in ix { ConfirmedOnPath(ix[o.hash].pos, p, 9); }
  }

  lemma NothingConfirmed(pos: DiskTxPos)
    ensures !ConfirmedWithin(pos, null, 9)
  {
  }

  /** Truncation loses less than a cent-second at each input that counts. */
  lemma {:induction false} CentSecondsHeld(env: Env, ix: Index, tx: Tx, os: seq<OutPoint>, p: CBlockIndex?)
    requires (p != null ==> p.Linked()) && ValuesGood(env, ix, os)
    ensures CentSeconds(env, ix, tx, os, p).Some? <==> forall o :: o in os ==> InOrder(env, ix, tx, o)
    ensures CentSeconds(env, ix, tx, os, p).Some? ==>
      var c, k := CentSeconds(env, ix, tx, os, p).value, CountedInputs(env, ix, tx, os, p);
      && 0 <= c * CENT <= Held(env, ix, tx, os, p)
      && (if k == 0 then Held(env, ix, tx, os, p) == 0 else Held(env, ix, tx, os, p) < (c + k) * CENT)
  {
    hide InputAge, InOrder, Counted;
    if os != [] {
      var front, o := os[..|os| - 1], os[|os| - 1];
      assert os == front + [o];
      CentSecondsHeld(env, ix, tx, front, p);
      InputAgeMeans(env, ix, tx, o, p);
      if Counted(env, ix, tx, o, p) && InOrder(env, ix, tx, o) {
        CountedStored(env, ix, tx, o, p);
        var txPrev := env.txAt(ix[o.hash].pos).value;
        NotNegative(txPrev.vout[o.n].nValue, tx.nTime - txPrev.nTime);
      }
    }
  }

  lemma CountedStored(env: Env, ix: Index, tx: Tx, o: OutPoint, p: CBlockIndex?)
    requires (p != null ==> p.Linked()) && Counted(env, ix, tx, o, p)
    ensures Stored(env, ix, o)
    ensures InOrder(env, ix, tx, o) <==> env.txAt(ix[o.hash].pos).value.nTime <= tx.nTime
  {
  }

  lemma NotNegative(x: int, y: int)
    requires x >= 0 && y >= 0
    ensures x * y >= 0
  {
  }

  lemma DaysOf(c: int)
    requires c >= 0
    ensures var n := CoinDays(c); n >= 0 && n * COIN_DAY <= c * CENT <= (n + 1) * COIN_DAY - CENT
  {
    var coins := c * CENT / COIN;
    assert coins * COIN <= c * CENT < coins * COIN + COIN;
    assert CoinDays(c) == coins / 86400;
    assert c / 100 == coins;
  }

  /** The coin age exists exactly when no input is out of order, and is then the coin-days held, rounded down, but for
      less than a cent-second at each counted input after the first; within 64 bits. */
  lemma CoinAgeHeld(env: Env, ix: Index, tx: Tx, p: CBlockIndex?)
    requires (p != null ==> p.Linked()) && ValuesGood(env, ix, tx.Spends())
    ensures CoinAgeOf(env, ix, tx, p).Some? <==> forall o :: o in tx.Spends() ==> InOrder(env, ix, tx, o)
    ensures CoinAgeOf(env, ix, tx, p).Some? && Held(env, ix, tx, tx.Spends(), p) < TWO_64 * COIN_DAY ==>
      var n, w := CoinAgeOf(env, ix, tx, p).value, Held(env, ix, tx, tx.Spends(), p);
      var k := CountedInputs(env, ix, tx, tx.Spends(), p);
      && n * COIN_DAY <= w
      && (if k == 0 then n == 0 else w < (n + 1) * COIN_DAY + (k - 1) * CENT)
  {
    hide CentSeconds, Held, CountedInputs, CoinDays, InOrder, ValuesGood;
    var os := tx.Spends();
    CentSecondsHeld(env, ix, tx, os, p);
    var age := CentSeconds(env, ix, tx, os, p);
    if age.Some? && Held(env, ix, tx, os, p) < TWO_64 * COIN_DAY {
      DaysOf(age.value);
      var n := CoinDays(age.value);
      assert n < TWO_64;
      assert LowBits(n) == n;
    }
  }

  function Magnitude(x: int): nat { if x < 0 then -x else x }

  /** A coinstake with one counted input has the coin-days of its value and time, rounded down, and of these the low 64
      bits; a negative value counts by its magnitude. */
  lemma OneInputHeld(env: Env, ix: Index, tx: Tx, o: OutPoint, p: CBlockIndex?)
    requires (p != null ==> p.Linked()) && tx.Spends() == [o] && Counted(env, ix, tx, o, p)
    requires env.txAt(ix[o.hash].pos).value.nTime <= tx.nTime
    ensures var txPrev, n := env.txAt(ix[o.hash].pos).value, CoinAgeOf(env, ix, tx, p);
      var w := Magnitude(txPrev.vout[o.n].nValue * (tx.nTime - txPrev.nTime));
      n == Some(w / COIN_DAY % TWO_64) && w / COIN_DAY * COIN_DAY <= w < (w / COIN_DAY + 1) * COIN_DAY
  {
    hide Counted, ConfirmedWithin, Magnitude, LowBits, CoinDays;
    CountedStored(env, ix, tx, o, p);
    var txPrev := env.txAt(ix[o.hash].pos).value;
    InputAgeMeans(env, ix, tx, o, p);
    OneInput(env, ix, tx, o, p);
    DaysOfAny(txPrev.vout[o.n].nValue * (tx.nTime - txPrev.nTime));
  }

  lemma OneInput(env: Env, ix: Index, tx: Tx, o: OutPoint, p: CBlockIndex?)
    ensures CentSeconds(env, ix, tx, [o], p) == InputAge(env, ix, tx, o, p)
  {
    hide InputAge;
    assert [o][..0] == [];
    assert CentSeconds(env, ix, tx, [], p) == Some(0);
  }

  lemma DaysOfAny(x: int)
    ensures var w := Magnitude(x);
      LowBits(CoinDays(DivTrunc(x, CENT))) == w / COIN_DAY % TWO_64
        && w / COIN_DAY * COIN_DAY <= w < (w / COIN_DAY + 1) * COIN_DAY
  {
    var w := Magnitude(x);
    var c, q := w / CENT, w / COIN_DAY;
    assert w == c * CENT + w % CENT && w == q * COIN_DAY + w % COIN_DAY;
    assert DivTrunc(x, CENT) == if x < 0 then -(c as int) else c;
    DaysOf(c);
    OddDays(c);
    SameDays(CoinDays(c), q, c, w);
  }

  lemma SameDays(n: int, q: int, c: int, w: int)
    requires n * COIN_DAY <= c * CENT <= (n + 1) * COIN_DAY - CENT && c * CENT <= w < c * CENT + CENT
    requires q * COIN_DAY <= w < q * COIN_DAY + COIN_DAY
    ensures n == q
  {
  }

  lemma OddDays(c: int)
    requires c >= 0
    ensures CoinDays(-c) == -CoinDays(c) && CoinDays(c) >= 0
  {
    assert DivTrunc(-c * CENT, COIN) == -(c * CENT / COIN);
  }
}
