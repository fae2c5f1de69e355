/** Why a transaction id never comes back along a connected chain: a coinbase starts with its height,
    and any other transaction would have to spend outputs that it has already spent. */
module Freshness {
  import opened Transactions
  import opened Ledger
  import Script

  ghost predicate CollisionFree(env: Env) {
    forall a: Tx, b: Tx :: env.txid(a) == env.txid(b) ==> a == b
  }

  /** The transaction a record of the index stands for. */
  ghost predicate Records(env: Env, ix: Index, h: uint256, tx: Tx)
    requires h in ix
  {
    && ix[h].pos != MEMPOOL_POS
    && env.txAt(ix[h].pos) == Some(tx)
    && env.txid(tx) == h
    && |ix[h].vSpent| == |tx.vout|
  }

  predicate HasHeight(tx: Tx, nHeight: int) {
    |tx.vin| > 0 && Script.IntBytes(nHeight) <= tx.vin[0].scriptSig
  }

  predicate HeightBelow(tx: Tx, nHeight: int) {
    exists h :: 0 <= h < nHeight && HasHeight(tx, h)
  }

  ghost predicate GoodRecord(env: Env, ix: Index, h: uint256, nHeight: int)
    requires h in ix
  {
    exists tx ::
      && Records(env, ix, h, tx)
      && (tx.IsCoinBase() ==> HeightBelow(tx, nHeight))
      && forall o :: o in tx.Spends() ==> InRange(ix, o) && !IsUnspent(ix, o)
  }

  /** Every record is that of a transaction on disk whose inputs are all marked as spent, and every
      coinbase among them starts with a height below the given one. */
  ghost predicate WellIndexed(env: Env, ix: Index, nHeight: int) {
    forall h :: h in ix ==> GoodRecord(env, ix, h, nHeight)
  }

  /** The block is in the block files at the positions its transactions are given. */
  ghost predicate OnDisk(env: Env, b: Placed) {
    forall i :: 0 <= i < |b.vtx| ==>
      TxPos(env, b, i) != MEMPOOL_POS && env.txAt(TxPos(env, b, i)) == Some(b.vtx[i])
  }

  /** What CheckBlock and AcceptBlock demand of the shape of a block at a height. */
  predicate Shaped(b: Placed, nHeight: int) {
    && |b.vtx| > 0
    && b.vtx[0].IsCoinBase()
    && HasHeight(b.vtx[0], nHeight)
    && forall i :: 0 < i < |b.vtx| ==> !b.vtx[i].IsCoinBase() && |b.vtx[i].vin| > 0
  }

  lemma RecordOf(env: Env, ix: Index, tx: Tx, nHeight: int)
    requires CollisionFree(env) && WellIndexed(env, ix, nHeight)
    requires env.txid(tx) in ix
    ensures Records(env, ix, env.txid(tx), tx)
    ensures tx.IsCoinBase() ==> HeightBelow(tx, nHeight)
    ensures forall o :: o in tx.Spends() ==> !IsUnspent(ix, o)
  {
    assert GoodRecord(env, ix, env.txid(tx), nHeight);
  }

  lemma CoinbaseIsFresh(env: Env, ix: Index, tx: Tx, nHeight: int)
    requires CollisionFree(env) && WellIndexed(env, ix, nHeight)
    requires tx.IsCoinBase() && HasHeight(tx, nHeight) && 0 <= nHeight < 0x8000_0000
    ensures env.txid(tx) !in ix
  {
    if env.txid(tx) in ix {
      RecordOf(env, ix, tx, nHeight);
      var h :| 0 <= h < nHeight && HasHeight(tx, h);
      Script.IntPushPrefixFree(tx.vin[0].scriptSig, h, nHeight);
      assert false;
    }
  }

  lemma SpenderIsFresh(env: Env, ix: Index, tx: Tx, nHeight: int)
    requires CollisionFree(env) && WellIndexed(env, ix, nHeight)
    requires !tx.IsCoinBase() && |tx.vin| > 0 && Spendable(ix, tx)
    ensures env.txid(tx) !in ix
  {
    assert tx.Spends()[0] in tx.Spends();
    if env.txid(tx) in ix {
      RecordOf(env, ix, tx, nHeight);
      assert false;
    }
  }

  /** Spent outputs stay spent when a fresh transaction is connected. */
  lemma StaysSpent(ix: Index, id: uint256, tx: Tx, pos: DiskTxPos, o: OutPoint)
    requires id !in ix && pos.At?
    requires InRange(ix, o) && (!IsUnspent(ix, o) || o in tx.Spends())
    ensures InRange(ApplyTx(ix, id, tx, pos), o) && !IsUnspent(ApplyTx(ix, id, tx, pos), o)
  {
    MarkAllAt(ix, tx.Spends(), pos);
    assert o == OutPoint(o.hash, o.n);
  }

  lemma ApplyTxWellIndexed(env: Env, ix: Index, tx: Tx, pos: DiskTxPos, nHeight: int)
    requires WellIndexed(env, ix, nHeight)
    requires env.txid(tx) !in ix && Spendable(ix, tx)
    requires pos.At? && pos != MEMPOOL_POS && env.txAt(pos) == Some(tx)
    requires tx.IsCoinBase() ==> HeightBelow(tx, nHeight)
    ensures WellIndexed(env, ApplyTx(ix, env.txid(tx), tx, pos), nHeight)
  {
    var id := env.txid(tx);
    var after := ApplyTx(ix, id, tx, pos);
    MarkAllAt(ix, tx.Spends(), pos);
    forall h | h in after
      ensures GoodRecord(env, after, h, nHeight)
    {
      if h == id {
        assert Records(env, after, h, tx);
        forall o | o in tx.Spends()
          ensures InRange(after, o) && !IsUnspent(after, o)
        {
          StaysSpent(ix, id, tx, pos, o);
        }
      } else {
        assert GoodRecord(env, ix, h, nHeight);
        var prior :| Records(env, ix, h, prior)
          && (prior.IsCoinBase() ==> HeightBelow(prior, nHeight))
          && forall o :: o in prior.Spends() ==> InRange(ix, o) && !IsUnspent(ix, o);
        assert Records(env, after, h, prior);
        forall o | o in prior.Spends()
          ensures InRange(after, o) && !IsUnspent(after, o)
        {
          StaysSpent(ix, id, tx, pos, o);
        }
      }
    }
  }

  lemma RaiseHeight(env: Env, ix: Index, nHeight: int)
    requires WellIndexed(env, ix, nHeight)
    ensures WellIndexed(env, ix, nHeight + 1)
  {
    forall h | h in ix
      ensures GoodRecord(env, ix, h, nHeight + 1)
    {
      assert GoodRecord(env, ix, h, nHeight);
    }
  }

  /** The coinbase of a block. */
  lemma CoinbaseStep(env: Env, ix: Index, b: Placed, nHeight: int)
    requires CollisionFree(env) && WellIndexed(env, ix, nHeight) && 0 <= nHeight < 0x8000_0000
    requires Shaped(b, nHeight) && OnDisk(env, b) && Spendable(ix, b.vtx[0])
    ensures env.txid(b.vtx[0]) !in ix
    ensures WellIndexed(env, ApplyTx(ix, env.txid(b.vtx[0]), b.vtx[0], TxPos(env, b, 0)), nHeight + 1)
  {
    hide ApplyTx, Spendable, WellIndexed, CollisionFree;
    CoinbaseIsFresh(env, ix, b.vtx[0], nHeight);
    RaiseHeight(env, ix, nHeight);
    assert HeightBelow(b.vtx[0], nHeight + 1);
    ApplyTxWellIndexed(env, ix, b.vtx[0], TxPos(env, b, 0), nHeight + 1);
  }

  /** Any later transaction of a block. */
  lemma SpenderStep(env: Env, before: Index, b: Placed, nHeight: int, i: nat)
    requires CollisionFree(env) && WellIndexed(env, before, nHeight + 1)
    requires Shaped(b, nHeight) && OnDisk(env, b) && 0 < i < |b.vtx| && Spendable(before, b.vtx[i])
    ensures env.txid(b.vtx[i]) !in before
    ensures WellIndexed(env, ApplyTx(before, env.txid(b.vtx[i]), b.vtx[i], TxPos(env, b, i)), nHeight + 1)
  {
    hide ApplyTx, Spendable, WellIndexed, CollisionFree;
    SpenderIsFresh(env, before, b.vtx[i], nHeight + 1);
    ApplyTxWellIndexed(env, before, b.vtx[i], TxPos(env, b, i), nHeight + 1);
  }

  /** While the transactions are applied, each finds its own id unused. */
  ghost predicate RunningFresh(env: Env, ix: Index, b: Placed, k: nat)
    requires k <= |b.vtx|
  {
    k == 0 || (RunningFresh(env, ix, b, k - 1) && env.txid(b.vtx[k - 1]) !in ApplyTxs(env, ix, b, k - 1))
  }

  lemma {:induction false} TxsStayWellIndexed(env: Env, ix: Index, b: Placed, nHeight: int, k: nat)
    requires CollisionFree(env) && WellIndexed(env, ix, nHeight) && 0 <= nHeight < 0x8000_0000
    requires Shaped(b, nHeight) && OnDisk(env, b)
    requires 0 < k <= |b.vtx| && SpendableTxs(env, ix, b, k)
    ensures WellIndexed(env, ApplyTxs(env, ix, b, k), nHeight + 1) && RunningFresh(env, ix, b, k)
  {
    hide ApplyTx, Spendable, WellIndexed, CollisionFree, Shaped, OnDisk, TxPos;
    assert ApplyTxs(env, ix, b, 0) == ix;
    if k == 1 {
      CoinbaseStep(env, ix, b, nHeight);
    } else {
      TxsStayWellIndexed(env, ix, b, nHeight, k - 1);
      SpenderStep(env, ApplyTxs(env, ix, b, k - 1), b, nHeight, k - 1);
    }
  }

  lemma {:induction false} RunningFreshAt(env: Env, ix: Index, b: Placed, k: nat, i: nat)
    requires i < k <= |b.vtx| && RunningFresh(env, ix, b, k)
    ensures env.txid(b.vtx[i]) !in ApplyTxs(env, ix, b, i)
  {
    if i < k - 1 { RunningFreshAt(env, ix, b, k - 1, i); }
  }

  lemma FreshFromRunning(env: Env, ix: Index, b: Placed)
    requires RunningFresh(env, ix, b, |b.vtx|)
    ensures FreshIds(env, ix, b.vtx) && NoDuplicates(Ids(env, b.vtx))
  {
    hide RunningFresh, ApplyTxs, IdsBelow;
    var ids := Ids(env, b.vtx);
    forall i | 0 <= i < |b.vtx|
      ensures env.txid(b.vtx[i]) !in ix
    {
      RunningFreshAt(env, ix, b, |b.vtx|, i);
      ApplyTxsKeys(env, ix, b, i);
    }
    forall i, j | 0 <= i < j < |ids|
      ensures ids[i] != ids[j]
    {
      RunningFreshAt(env, ix, b, |b.vtx|, j);
      ApplyTxsKeys(env, ix, b, j);
      InIdsBelow(env, b.vtx, j, ids[i]);
    }
  }

  /** A well-shaped block that connects brings only ids that are new to the index and distinct from
      each other, and keeps the index well formed one height further; disconnecting it undoes it. */
  lemma BlockIsFresh(env: Env, ix: Index, b: Placed, nHeight: int)
    requires CollisionFree(env) && WellIndexed(env, ix, nHeight) && 0 <= nHeight < 0x8000_0000
    requires Shaped(b, nHeight) && OnDisk(env, b)
    requires SpendableTxs(env, ix, b, |b.vtx|)
    ensures FreshIds(env, ix, b.vtx) && SpendableBlock(env, ix, b)
    ensures WellIndexed(env, ApplyBlock(env, ix, b), nHeight + 1)
    ensures UndoBlock(env, ApplyBlock(env, ix, b), b) == ix
  {
    hide CollisionFree, WellIndexed, OnDisk, SpendableTxs, ApplyTxs, UndoTxs, FreshIds, RunningFresh;
    TxsStayWellIndexed(env, ix, b, nHeight, |b.vtx|);
    FreshFromRunning(env, ix, b);
    UndoInvertsApplyBlock(env, ix, b);
  }
}
