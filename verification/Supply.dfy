/** Conservation: connecting a block changes the total of the unspent outputs in the index by exactly what
    the block puts out minus what it takes in, which is what the money supply follows. */
module Supply {
  import opened Basics
  import opened Transactions
  import opened Ledger
  import opened BlockIndex
  import opened ConnectInputs
  import opened ConnectBlock
  import Freshness
  import CoinAge

  /** Records belong to transactions on disk that have as many outputs. */
  predicate Stored(env: Env, ix: Index) {
    forall h :: h in ix ==> StoredRecord(env, ix[h])
  }

  predicate StoredRecord(env: Env, t: TxIndex) {
    t.pos != MEMPOOL_POS && env.txAt(t.pos).Some? && |t.vSpent| == |env.txAt(t.pos).value.vout|
  }

  /** The value of the first k outputs that are unspent. */
  function UnspentValue(vSpent: seq<DiskTxPos>, vout: seq<TxOut>, k: nat): int
    requires k <= |vSpent| == |vout|
  {
    if k == 0 then 0
    else UnspentValue(vSpent, vout, k - 1) + (if vSpent[k - 1] == NullPos then vout[k - 1].nValue else 0)
  }

  function RecordValue(env: Env, t: TxIndex): int {
    if StoredRecord(env, t) then UnspentValue(t.vSpent, env.txAt(t.pos).value.vout, |t.vSpent|) else 0
  }

  /** The total of all unspent outputs. */
  ghost function Total(env: Env, ix: Index): int
    decreases |ix|
  {
    if ix == map[] then 0
    else
      var h :| h in ix;
      RecordValue(env, ix[h]) + Total(env, ix - {h})
  }

  /** The total does not depend on the order of summation. */
  lemma {:induction false} TotalWithout(env: Env, ix: Index, h: uint256)
    requires h in ix
    ensures Total(env, ix) == RecordValue(env, ix[h]) + Total(env, ix - {h})
    decreases |ix|
  {
    var g :| g in ix && Total(env, ix) == RecordValue(env, ix[g]) + Total(env, ix - {g});
    if g != h {
      TotalWithout(env, ix - {g}, h);
      TotalWithout(env, ix - {h}, g);
      assert ix - {g} - {h} == ix - {h} - {g};
    }
  }

  lemma TotalWith(env: Env, ix: Index, h: uint256, t: TxIndex)
    ensures Total(env, ix[h := t])
         == Total(env, ix) - (if h in ix then RecordValue(env, ix[h]) else 0) + RecordValue(env, t)
  {
    TotalWithout(env, ix[h := t], h);
    if h in ix {
      TotalWithout(env, ix, h);
      assert ix[h := t] - {h} == ix - {h};
    } else {
      assert ix[h := t] - {h} == ix;
    }
  }

  // ----- one record

  lemma {:induction false} SpendingOne(vSpent: seq<DiskTxPos>, vout: seq<TxOut>, n: nat, p: DiskTxPos, k: nat)
    requires k <= |vSpent| == |vout| && n < |vSpent| && vSpent[n] == NullPos && p != NullPos
    ensures UnspentValue(vSpent[n := p], vout, k) == UnspentValue(vSpent, vout, k) - if n < k then vout[n].nValue else 0
  {
    if k > 0 { SpendingOne(vSpent, vout, n, p, k - 1); }
  }

  lemma {:induction false} AllUnspent(vout: seq<TxOut>, k: nat)
    requires k <= |vout|
    ensures UnspentValue(Unspent(|vout|), vout, k) == SumOut(vout[..k])
  {
    if k > 0 {
      AllUnspent(vout, k - 1);
      assert vout[..k][..k - 1] == vout[..k - 1];
    }
  }

  lemma {:induction false} NoneUnspent(vSpent: seq<DiskTxPos>, vout: seq<TxOut>, k: nat)
    requires k <= |vSpent| == |vout| && forall p :: p in vSpent ==> p != NullPos
    ensures UnspentValue(vSpent, vout, k) == 0
  {
    if k > 0 {
      NoneUnspent(vSpent, vout, k - 1);
      assert vSpent[k - 1] in vSpent;
    }
  }

  // ----- one transaction

  /** The value of an output, looked up through its record. */
  function OutValue(env: Env, ix: Index, o: OutPoint): int {
    if o.hash in ix && StoredRecord(env, ix[o.hash]) && o.n < |ix[o.hash].vSpent|
    then env.txAt(ix[o.hash].pos).value.vout[o.n].nValue else 0
  }

  function OutValues(env: Env, ix: Index, os: seq<OutPoint>): int {
    if os == [] then 0 else OutValues(env, ix, os[..|os| - 1]) + OutValue(env, ix, os[|os| - 1])
  }

  lemma MarkTotal(env: Env, ix: Index, o: OutPoint, p: DiskTxPos)
    requires Stored(env, ix) && IsUnspent(ix, o) && p != NullPos
    ensures Stored(env, Mark(ix, o, p))
    ensures Total(env, Mark(ix, o, p)) == Total(env, ix) - OutValue(env, ix, o)
  {
    var t := ix[o.hash];
    assert StoredRecord(env, t);
    SpendingOne(t.vSpent, env.txAt(t.pos).value.vout, o.n, p, |t.vSpent|);
    TotalWith(env, ix, o.hash, t.(vSpent := t.vSpent[o.n := p]));
  }

  lemma {:induction false} MarkAllTotal(env: Env, ix: Index, os: seq<OutPoint>, p: DiskTxPos)
    requires Stored(env, ix) && TakenInTurn(ix, os) && p.At?
    ensures Stored(env, MarkAll(ix, os, p))
    ensures Total(env, MarkAll(ix, os, p)) == Total(env, ix) - OutValues(env, ix, os)
  {
    if os != [] {
      var front, o := os[..|os| - 1], os[|os| - 1];
      MarkAllTotal(env, ix, front, p);
      NextSpend(ix, os, |os| - 1, p);
      assert os[..|os|] == os;
      MarkAllAt(ix, front, p);
      MarkTotal(env, MarkAll(ix, front, p), o, p);
    }
  }

  lemma ApplyTxTotal(env: Env, ix: Index, tx: Tx, pos: DiskTxPos)
    requires Stored(env, ix) && Spendable(ix, tx)
    requires env.txid(tx) in ix ==> CompletelySpent(ix[env.txid(tx)])
    requires pos.At? && pos != MEMPOOL_POS && env.txAt(pos) == Some(tx)
    ensures Stored(env, ApplyTx(ix, env.txid(tx), tx, pos))
    ensures Total(env, ApplyTx(ix, env.txid(tx), tx, pos)) == Total(env, ix) - OutValues(env, ix,
      tx.Spends()) + tx.ValueOut()
  {
    var id, marked := env.txid(tx), MarkAll(ix, tx.Spends(), pos);
    TakenIsSpendable(ix, tx);
    MarkAllTotal(env, ix, tx.Spends(), pos);
    var t := TxIndex(pos, Unspent(|tx.vout|));
    AllUnspent(tx.vout, |tx.vout|);
    assert tx.vout[..|tx.vout|] == tx.vout;
    if id in marked {
      StillSpent(ix, tx.Spends(), pos, id);
      NoneUnspent(marked[id].vSpent, env.txAt(marked[id].pos).value.vout, |marked[id].vSpent|);
    }
    TotalWith(env, marked, id, t);
  }

  lemma StillSpent(ix: Index, os: seq<OutPoint>, p: DiskTxPos, h: uint256)
    requires h in MarkAll(ix, os, p) && p.At?
    requires h in ix ==> CompletelySpent(ix[h])
    ensures h in ix && CompletelySpent(MarkAll(ix, os, p)[h])
  {
    MarkAllAt(ix, os, p);
    var after := MarkAll(ix, os, p)[h].vSpent;
    forall q | q in after
      ensures q != NullPos
    {
      var n :| 0 <= n < |after| && after[n] == q;
      assert ix[h].vSpent[n] in ix[h].vSpent;
    }
  }

  // ----- one block

  /** The fetched previous transactions are those of the index. */
  lemma FetchedValue(env: Env, mempool: map<uint256, Tx>, ix: Index, o: OutPoint)
    requires Stored(env, ix) && o.hash in ix
    ensures View(env, mempool, ix).FindPrev(o.hash) == Some(Prev(ix[o.hash], env.txAt(ix[o.hash].pos).value))
  {
    assert StoredRecord(env, ix[o.hash]);
  }

  lemma {:induction false} FetchedValues(env: Env, mempool: map<uint256, Tx>, ix: Index, all: seq<OutPoint>,
                                         os: seq<OutPoint>)
    requires Stored(env, ix) && View(env, mempool, ix).Fetchable(all)
    requires forall o :: o in os ==> o in all
    requires forall o :: o in os ==>
      o.hash in View(env, mempool, ix).FetchAll(all).txs
        && o.n < |View(env, mempool, ix).FetchAll(all).txs[o.hash].vout|
    ensures ValueIn(View(env, mempool, ix).FetchAll(all), os) == OutValues(env, ix, os)
  {
    if os != [] {
      var o := os[|os| - 1];
      assert o in os;
      FetchedValues(env, mempool, ix, all, os[..|os| - 1]);
      assert View(env, mempool, ix).FindPrev(o.hash).Some?;
      FetchedValue(env, mempool, ix, o);
    }
  }

  /** A spending transaction that connects spends unspent outputs of the index. */
  lemma ConnectsIsSpendable(env: Env, mempool: map<uint256, Tx>, ix: Index, tx: Tx, pindex: CBlockIndex,
                            nBestHeight: int)
    requires tx.IsCoinBase() || SpenderConnects(env, View(env, mempool, ix), tx, pindex, nBestHeight)
    ensures Spendable(ix, tx)
  {
    if !tx.IsCoinBase() {
      var src := View(env, mempool, ix);
      var records := src.FetchAll(tx.Spends()).records;
      forall o | o in tx.Spends()
        ensures IsUnspent(ix, o)
      {
        assert IsUnspent(records, o);
        assert src.FindPrev(o.hash).Some? && records[o.hash] == src.FindPrev(o.hash).value.txindex;
      }
    }
  }

  lemma ConnectsTotal(env: Env, mempool: map<uint256, Tx>, ix: Index, t: Totals, tx: Tx, pindex: CBlockIndex,
                      nBestHeight: int)
    requires Stored(env, ix)
    requires tx.IsCoinBase() || SpenderConnects(env, View(env, mempool, ix), tx, pindex, nBestHeight)
    ensures var t' := AddTx(env, View(env, mempool, ix), t, tx);
      t'.nValueOut - t'.nValueIn == t.nValueOut - t.nValueIn + tx.ValueOut() - OutValues(env, ix, tx.Spends())
    ensures AddTx(env, View(env, mempool, ix), t, tx).nBurnCoins == if tx.IsCoinBase() then t.nBurnCoins
      else Wrap(t.nBurnCoins + tx.Burned())
  {
    if !tx.IsCoinBase() {
      var src := View(env, mempool, ix);
      forall o | o in tx.Spends()
        ensures o.hash in src.FetchAll(tx.Spends()).txs && o.n < |src.FetchAll(tx.Spends()).txs[o.hash].vout|
      {
        assert src.FindPrev(o.hash).Some?;
      }
      FetchedValues(env, mempool, ix, tx.Spends(), tx.Spends());
    }
  }

  function BurnedIn(vtx: seq<Tx>): int {
    if vtx == [] then 0 else BurnedIn(vtx[..|vtx| - 1]) + vtx[|vtx| - 1].Burned()
  }

  lemma WrapAdd(a: int, b: int)
    ensures Wrap(Wrap(a) + b) == Wrap(a + b)
  {
  }

  /** An id that the block has not reached yet is as completely spent as it was before the block. */
  lemma {:induction false} OldStaysSpent(env: Env, ix: Index, b: Placed, k: nat, id: uint256)
    requires k <= |b.vtx| && id !in IdsBelow(env, b.vtx, k)
    requires id in ix ==> CompletelySpent(ix[id])
    ensures id in ApplyTxs(env, ix, b, k) ==> CompletelySpent(ApplyTxs(env, ix, b, k)[id])
  {
    if k > 0 {
      OldStaysSpent(env, ix, b, k - 1, id);
      var before, pos := ApplyTxs(env, ix, b, k - 1), TxPos(env, b, k - 1);
      MarkAllAt(before, b.vtx[k - 1].Spends(), pos);
      if id in before {
        StillSpent(before, b.vtx[k - 1].Spends(), pos, id);
      }
    }
  }

  /** One transaction of a block. */
  lemma OneTotal(env: Env, mempool: map<uint256, Tx>, ix: Index, b: Placed, k: nat, pindex: CBlockIndex,
                 nBestHeight: int)
    requires k < |b.vtx| && Freshness.OnDisk(env, b) && NoDuplicates(Ids(env, b.vtx))
    requires Stored(env, ApplyTxs(env, ix, b, k))
    requires TxConnects(env, mempool, ix, b, k, pindex, nBestHeight)
    ensures Stored(env, ApplyTxs(env, ix, b, k + 1)) && Spendable(ApplyTxs(env, ix, b, k), b.vtx[k])
    ensures var t, t' := TotalsOf(env, mempool, ix, b, k), TotalsOf(env, mempool, ix, b, k + 1);
      Total(env, ApplyTxs(env, ix, b, k + 1)) - (t'.nValueOut - t'.nValueIn)
      == Total(env, ApplyTxs(env, ix, b, k)) - (t.nValueOut - t.nValueIn)
    ensures TotalsOf(env, mempool, ix, b, k + 1).nBurnCoins ==
      if b.vtx[k].IsCoinBase() then TotalsOf(env, mempool, ix, b, k).nBurnCoins
      else Wrap(TotalsOf(env, mempool, ix, b, k).nBurnCoins + b.vtx[k].Burned())
  {
    hide *;
    StepUnfolds(env, mempool, ix, b, k, pindex, nBestHeight);
    var before, tx := ApplyTxs(env, ix, b, k), b.vtx[k];
    NotBelow(env, b.vtx, k);
    OldStaysSpent(env, ix, b, k, env.txid(tx));
    ConnectsIsSpendable(env, mempool, before, tx, pindex, nBestHeight);
    ConnectsTotal(env, mempool, before, TotalsOf(env, mempool, ix, b, k), tx, pindex, nBestHeight);
    ApplyTxTotal(env, before, tx, TxPos(env, b, k));
  }

  /** The definitions behind one step. */
  lemma StepUnfolds(env: Env, mempool: map<uint256, Tx>, ix: Index, b: Placed, k: nat, pindex: CBlockIndex,
                    nBestHeight: int)
    requires k < |b.vtx| && Freshness.OnDisk(env, b) && TxConnects(env, mempool, ix, b, k, pindex, nBestHeight)
    ensures var before, tx := ApplyTxs(env, ix, b, k), b.vtx[k];
      && ApplyTxs(env, ix, b, k + 1) == ApplyTx(before, env.txid(tx), tx, TxPos(env, b, k))
      && TotalsOf(env, mempool, ix, b, k + 1) == AddTx(env, View(env, mempool, before),
        TotalsOf(env, mempool, ix, b, k), tx)
      && (env.txid(tx) in ix ==> CompletelySpent(ix[env.txid(tx)]))
      && (tx.IsCoinBase() || SpenderConnects(env, View(env, mempool, before), tx, pindex, nBestHeight))
    ensures TxPos(env, b, k).At? && TxPos(env, b, k) != MEMPOOL_POS && env.txAt(TxPos(env, b, k)) == Some(b.vtx[k])
  {
    hide SpenderConnects, AddTx, ApplyTx, CompletelySpent;
  }

  lemma {:induction false} TxsTotal(env: Env, mempool: map<uint256, Tx>, ix: Index, b: Placed, k: nat,
                                    pindex: CBlockIndex, nBestHeight: int)
    requires k <= |b.vtx| && Stored(env, ix) && Freshness.OnDisk(env, b) && NoDuplicates(Ids(env, b.vtx))
    requires TxsConnect(env, mempool, ix, b, k, pindex, nBestHeight)
    ensures Stored(env, ApplyTxs(env, ix, b, k))
    ensures var t := TotalsOf(env, mempool, ix, b, k);
      Total(env, ApplyTxs(env, ix, b, k)) == Total(env, ix) + t.nValueOut - t.nValueIn
    ensures TotalsOf(env, mempool, ix, b, k).nBurnCoins == Wrap(BurnedIn(b.vtx[..k]))
    ensures SpendableTxs(env, ix, b, k)
  {
    hide TxConnects, ApplyTx, AddTx, Stored, Spendable, NoDuplicates, Freshness.OnDisk, Total, SumBurn;
    if k > 0 {
      TxsTotal(env, mempool, ix, b, k - 1, pindex, nBestHeight);
      OneTotal(env, mempool, ix, b, k - 1, pindex, nBestHeight);
      assert b.vtx[..k][..k - 1] == b.vtx[..k - 1];
      WrapAdd(BurnedIn(b.vtx[..k - 1]), b.vtx[k - 1].Burned());
    }
  }

  lemma NotBelow(env: Env, vtx: seq<Tx>, k: nat)
    requires k < |vtx| && NoDuplicates(Ids(env, vtx))
    ensures env.txid(vtx[k]) !in IdsBelow(env, vtx, k)
  {
    InIdsBelow(env, vtx, k, env.txid(vtx[k]));
    var ids := Ids(env, vtx);
    assert forall i :: 0 <= i < k ==> ids[i] != ids[k];
  }

  // ----- what a stake block adds

  /** Up to its k-th transaction a stake block has put out its stake reward and taken in its fees. */
  lemma {:induction false} StakeTotals(env: Env, mempool: map<uint256, Tx>, ix: Index, b: Placed, block: Block, k: nat,
                                       pindex: CBlockIndex, nBestHeight: int)
    requires b.vtx == block.vtx && k <= |b.vtx| && CheckBlock(env, block) && block.IsProofOfStake()
    requires TxsConnect(env, mempool, ix, b, k, pindex, nBestHeight)
    ensures var t := TotalsOf(env, mempool, ix, b, k);
      t.nValueOut - t.nValueIn == t.nStakeReward - t.nFees && t.nFees >= 0
  {
    hide Connectable, Source.Fetchable, Source.FetchAll, Source.FindPrev, ApplyTxs, CheckTransaction, SumOut,
      CheckBlock, CompletelySpent, AddSpender, ValueOfInputs, Tx.IsCoinStake, Tx.ValueOut;
    if k > 0 {
      StakeKinds(env, block);
      StakeTotals(env, mempool, ix, b, block, k - 1, pindex, nBestHeight);
      var src, tx := View(env, mempool, ApplyTxs(env, ix, b, k - 1)), b.vtx[k - 1];
      assert TxConnects(env, mempool, ix, b, k - 1, pindex, nBestHeight);
      if k == 1 {
        EmptyPaysNothing(tx);
        assert TotalsOf(env, mempool, ix, b, 0) == Totals(0, 0, 0, 0, 0, 0);
      } else {
        if k == 2 {
          FirstHasNoStake(env, mempool, ix, b);
        } else {
          FeeNotNegative(env, src, tx, pindex, nBestHeight);
        }
        SpenderAdds(env, src, TotalsOf(env, mempool, ix, b, k - 1), tx);
      }
    }
  }

  /** A spending transaction takes in its fee, or, the first coinstake, puts out the stake reward. */
  lemma SpenderAdds(env: Env, src: Source, t: Totals, tx: Tx)
    requires !tx.IsCoinBase() && src.Fetchable(tx.Spends())
    requires tx.IsCoinStake() ==> t.nStakeReward == 0
    ensures var t' := AddTx(env, src, t, tx);
      && t'.nValueOut - t'.nValueIn - (t.nValueOut - t.nValueIn)
         == t'.nStakeReward - t'.nFees - (t.nStakeReward - t.nFees)
      && t'.nFees == t.nFees + if tx.IsCoinStake() then 0 else ValueOfInputs(src, tx) - tx.ValueOut()
  {
    hide Source.Fetchable, Source.FetchAll, SumOut;
  }

  /** A stake block is a coinbase that pays nothing, a coinstake, and ordinary transactions. */
  lemma StakeKinds(env: Env, block: Block)
    requires CheckBlock(env, block) && block.IsProofOfStake()
    ensures block.vtx[0].IsCoinBase() && |block.vtx[0].vout| == 1 && block.vtx[0].vout[0].IsEmpty()
    ensures block.vtx[1].IsCoinStake()
    ensures forall i :: 0 < i < |block.vtx| ==> !block.vtx[i].IsCoinBase() && (i > 1 ==> !block.vtx[i].IsCoinStake())
  {
    hide CheckTransaction, LegacySigOps, NoDuplicates;
  }

  lemma EmptyPaysNothing(tx: Tx)
    requires |tx.vout| == 1 && tx.vout[0].IsEmpty()
    ensures tx.ValueOut() == 0
  {
    assert SumOut(tx.vout[..0]) == 0;
  }

  lemma FirstHasNoStake(env: Env, mempool: map<uint256, Tx>, ix: Index, b: Placed)
    requires |b.vtx| > 0 && b.vtx[0].IsCoinBase()
    ensures TotalsOf(env, mempool, ix, b, 1).nStakeReward == 0
  {
    assert TotalsOf(env, mempool, ix, b, 0) == Totals(0, 0, 0, 0, 0, 0);
  }

  lemma FeeNotNegative(env: Env, src: Source, tx: Tx, pindex: CBlockIndex, nBestHeight: int)
    requires !tx.IsCoinBase() && !tx.IsCoinStake() && SpenderConnects(env, src, tx, pindex, nBestHeight)
    ensures src.Fetchable(tx.Spends()) && ValueOfInputs(src, tx) - tx.ValueOut() >= 0
  {
    hide SumOut;
  }

  /** A connected stake block changes the supply by its stake reward less its fees and what it burns. While
      the amounts stay within 64 bits the reward is not negative and the rise is at most the coin-age
      subsidy: the fees cancel. */
  lemma StakeBlockMints(env: Env, mempool: map<uint256, Tx>, ix: Index, pindex: CBlockIndex, block: Block,
                        nBestHeight: int)
    requires BlockConnects(env, mempool, ix, pindex, block, nBestHeight) && block.IsProofOfStake()
    ensures var t := TotalsOf(env, mempool, ix, PlacedAt(pindex, block), |block.vtx|);
      var age := CoinAge.CoinAgeOf(env, ix, block.vtx[1], pindex.pprev);
      && t.nValueOut - t.nValueIn == t.nStakeReward - t.nFees
      && age.Some?
      && ((-0x8000_0000_0000_0000 <= t.nStakeReward < 0x8000_0000_0000_0000
        && StakeSubsidy(age.value) + t.nFees < 0x8000_0000_0000_0000) ==>
          0 <= t.nStakeReward <= StakeSubsidy(age.value) + t.nFees
            && t.nValueOut - t.nValueIn <= StakeSubsidy(age.value))
  {
    hide CheckBlock, TxsConnect, TotalsOf, CoinAge.CoinAgeOf, StakeSubsidy, FundPaid;
    StakeTotals(env, mempool, ix, PlacedAt(pindex, block), block, |block.vtx|, pindex, nBestHeight);
  }

  /** The burned coins add up along a block whose transactions connect. */
  lemma {:induction false} BurnTotals(env: Env, mempool: map<uint256, Tx>, ix: Index, b: Placed, k: nat,
                                      pindex: CBlockIndex,
                                      nBestHeight: int)
    requires k <= |b.vtx| && TxsConnect(env, mempool, ix, b, k, pindex, nBestHeight)
    ensures TotalsOf(env, mempool, ix, b, k).nBurnCoins == Wrap(BurnedIn(b.vtx[..k]))
  {
    hide ApplyTxs, AddTx, Wrap, TxConnects, TotalsOf, BurnedIn;
    if k == 0 {
      assert b.vtx[..0] == [];
      NothingBurned(env, mempool, ix, b);
    } else {
      BurnTotals(env, mempool, ix, b, k - 1, pindex, nBestHeight);
      assert b.vtx[..k][..k - 1] == b.vtx[..k - 1];
      BurnStep(env, mempool, ix, b, k, pindex, nBestHeight);
      WrapAdd(BurnedIn(b.vtx[..k - 1]), b.vtx[k - 1].Burned());
    }
  }

  lemma BurnStep(env: Env, mempool: map<uint256, Tx>, ix: Index, b: Placed, k: nat, pindex: CBlockIndex,
                 nBestHeight: int)
    requires 0 < k <= |b.vtx| && TxConnects(env, mempool, ix, b, k - 1, pindex, nBestHeight)
    ensures TotalsOf(env, mempool, ix, b, k).nBurnCoins ==
      if b.vtx[k - 1].IsCoinBase() then TotalsOf(env, mempool, ix, b, k - 1).nBurnCoins
      else Wrap(TotalsOf(env, mempool, ix, b, k - 1).nBurnCoins + b.vtx[k - 1].Burned())
    ensures BurnedIn(b.vtx[..k]) == BurnedIn(b.vtx[..k][..k - 1]) + b.vtx[k - 1].Burned()
    ensures b.vtx[k - 1].IsCoinBase() ==> b.vtx[k - 1].Burned() == 0
  {
    hide Connectable, Source.Fetchable, Source.FetchAll, ApplyTxs, SumBurn, ValueOfInputs, CompletelySpent, Wrap;
  }

  lemma NothingBurned(env: Env, mempool: map<uint256, Tx>, ix: Index, b: Placed)
    ensures Wrap(BurnedIn([])) == 0 && TotalsOf(env, mempool, ix, b, 0).nBurnCoins == 0
  {
  }

  /** The amounts of a stake block on top of a supply stay within 64 bits. */
  predicate Within64(t: Totals, nSubsidy: nat, nSupply: nat, nBurned: int) {
    && -0x8000_0000_0000_0000 <= t.nStakeReward < 0x8000_0000_0000_0000 && nSubsidy + t.nFees < 0x8000_0000_0000_0000
    && 0 <= nSupply + t.nValueOut - t.nValueIn - nBurned < TWO_64
  }

  /** Within 64 bits, a connected stake block raises the money supply by at most its coin-age subsidy less what it
      burns. */
  lemma StakeRaisesSupply(env: Env, mempool: map<uint256, Tx>, ix: Index, p: CBlockIndex, block: Block, nCoinAge: nat,
                          nBestHeight: int)
    requires BlockConnects(env, mempool, ix, p, block, nBestHeight) && block.IsProofOfStake()
    requires p.pprev != null && Minted(env, mempool, ix, p, block)
    requires CoinAge.CoinAgeOf(env, ix, block.vtx[1], p.pprev) == Some(nCoinAge)
    requires Within64(TotalsOf(env, mempool, ix, PlacedAt(p, block), |block.vtx|), StakeSubsidy(nCoinAge),
                      p.pprev.nMoneySupply, BurnedIn(block.vtx))
    ensures p.nMoneySupply <= p.pprev.nMoneySupply + StakeSubsidy(nCoinAge) - BurnedIn(block.vtx)
  {
    hide CheckBlock, RewardOk, TxsConnect, TotalsOf, CoinAge.CoinAgeOf, StakeSubsidy, BurnedIn, Wrap;
    StakeBlockMints(env, mempool, ix, p, block, nBestHeight);
    BurnTotals(env, mempool, ix, PlacedAt(p, block), |block.vtx|, p, nBestHeight);
    assert block.vtx[..|block.vtx|] == block.vtx;
    var t := TotalsOf(env, mempool, ix, PlacedAt(p, block), |block.vtx|);
    WrapSub(p.pprev.nMoneySupply + t.nValueOut - t.nValueIn, BurnedIn(block.vtx));
  }

  /** Taking away a wrapped amount. */
  lemma WrapSub(a: int, b: int)
    ensures Wrap(a - Wrap(b)) == Wrap(a - b)
    ensures 0 <= a - b < TWO_64 ==> Wrap(a - b) == a - b
  {
  }
}
