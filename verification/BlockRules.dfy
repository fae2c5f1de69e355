/** The rules of a block, said of its bytes, outputs and sums instead of the tests that the node makes: what kind a
    transaction is, what CheckBlock and ConnectBlock demand, and what the totals of a block are. */
module BlockRules {
  import opened Transactions
  import opened Ledger
  import opened BlockIndex
  import opened ConnectInputs
  import opened ConnectBlock
  import CoinAge
  import Supply

  // ----- kinds of transactions

  /** No transaction is both coinbase and coinstake: the single input of the one names no output, and the first output
      of the other is empty, with nothing of value before its second. */
  lemma Kinds(tx: Tx)
    ensures !(tx.IsCoinBase() && tx.IsCoinStake())
    ensures tx.IsCoinBase() <==>
      |tx.vin| == 1 && |tx.vout| > 0 && tx.vin[0].prevout == OutPoint(0, 4_294_967_295)
    ensures tx.IsCoinStake() <==>
      && tx.vin != [] && tx.vin[0].prevout != OutPoint(0, 4_294_967_295)
      && |tx.vout| > 1 && tx.vout[0] == TxOut(0, [])
    ensures tx.Spends() == if |tx.vin| == 1 && |tx.vout| > 0 && tx.vin[0].prevout == OutPoint(0, 4_294_967_295) then []
      else Prevouts(tx.vin)
  {
  }

  /** The value of the outputs whose script has the burn opcode as its second byte. */
  function BurnedBy(vout: seq<TxOut>): int {
    if vout == [] then 0
    else
      var script := vout[0].scriptPubKey;
      (if |script| > 1 && script[1] == 208 then vout[0].nValue else 0) + BurnedBy(vout[1..])
  }

  lemma {:induction false} SumBurnFront(o: TxOut, vout: seq<TxOut>)
    ensures SumBurn([o] + vout) == (if o.IsBurn() then o.nValue else 0) + SumBurn(vout)
  {
    if vout == [] {
      assert [o][..0] == [] && [o] + vout == [o];
      assert SumBurn([]) == 0;
    } else {
      assert ([o] + vout)[..|vout|] == [o] + vout[..|vout| - 1];
      SumBurnFront(o, vout[..|vout| - 1]);
    }
  }

  lemma {:induction false} SumBurnIs(vout: seq<TxOut>)
    ensures SumBurn(vout) == BurnedBy(vout)
  {
    if vout != [] {
      assert vout == [vout[0]] + vout[1..];
      SumBurnFront(vout[0], vout[1..]);
      SumBurnIs(vout[1..]);
    }
  }

  /** An ordinary transaction burns exactly those, and no other one burns anything. */
  lemma BurnedIs(tx: Tx)
    ensures tx.Burned() == if tx.IsCoinBase() || tx.IsCoinStake() then 0 else BurnedBy(tx.vout)
  {
    SumBurnIs(tx.vout);
  }

  // ----- CheckBlock

  predicate GoodOutput(o: TxOut, fMarker: bool) {
    0 <= o.nValue <= 9_000_000_000_000_000 && (o == TxOut(0, []) ==> fMarker)
  }

  /** A transaction by itself: something in and out, at most a megabyte, outputs in range and empty ones only in
      coinbase and coinstake, no output taken twice; a coinbase script of 2 to 100 bytes, and no null input elsewhere.
      */
  lemma CheckTransactionMeans(env: Env, tx: Tx)
    ensures CheckTransaction(env, tx) <==>
      && |tx.vin| > 0 && |tx.vout| > 0 && env.txSize(tx) <= 1_000_000
      && (forall i :: 0 <= i < |tx.vout| ==> GoodOutput(tx.vout[i], tx.IsCoinBase() || tx.IsCoinStake()))
      && 0 <= tx.ValueOut() <= 9_000_000_000_000_000
      && (forall i, j :: 0 <= i < j < |tx.vin| ==> tx.vin[i].prevout != tx.vin[j].prevout)
      && (if tx.IsCoinBase() then 2 <= |tx.vin[0].scriptSig| <= 100
          else forall i :: 0 <= i < |tx.vin| ==> tx.vin[i].prevout != OutPoint(0, 4_294_967_295))
  {
    hide SumOut;
    var os := Prevouts(tx.vin);
    assert forall i, j :: 0 <= i < j < |os| ==> (os[i] != os[j] <==> tx.vin[i].prevout != tx.vin[j].prevout);
    assert forall i :: 0 <= i < |tx.vout| ==> tx.vout[i] in tx.vout;
    assert forall i :: 0 <= i < |tx.vin| ==> tx.vin[i] in tx.vin;
  }

  /** A block by itself: a coinbase first and nowhere else; in a stake block the coinbase pays nothing and only the
      second transaction is a coinstake; good transactions none of which is later than the block; different ids; and
      at most 20,000 signature operations. */
  lemma CheckBlockMeans(env: Env, block: Block)
    ensures CheckBlock(env, block) <==>
      && |block.vtx| > 0 && env.headerChecks(block)
      && (forall i :: 0 <= i < |block.vtx| ==> (block.vtx[i].IsCoinBase() <==> i == 0))
      && (|block.vtx| > 1 && block.vtx[1].IsCoinStake() ==>
          && block.vtx[0].vout == [TxOut(0, [])]
          && forall i :: 2 <= i < |block.vtx| ==> !block.vtx[i].IsCoinStake())
      && (forall i :: 0 <= i < |block.vtx| ==>
          CheckTransaction(env, block.vtx[i]) && block.vtx[i].nTime <= block.nTime)
      && (forall i, j :: 0 <= i < j < |block.vtx| ==> env.txid(block.vtx[i]) != env.txid(block.vtx[j]))
      && LegacySigOps(env, block.vtx) <= 20_000
  {
    hide CheckTransaction, LegacySigOps, Tx.IsCoinBase, Tx.IsCoinStake;
    var ids := Ids(env, block.vtx);
    assert forall i, j :: 0 <= i < j < |ids| ==>
      (ids[i] != ids[j] <==> env.txid(block.vtx[i]) != env.txid(block.vtx[j]));
    assert forall i :: 0 <= i < |block.vtx| ==> block.vtx[i] in block.vtx;
  }

  // ----- the totals of a block

  /** What a transaction of a block leaves as fee: nothing for coinbase and coinstake. */
  function FeeAt(env: Env, mempool: map<uint256, Tx>, ix: Index, b: Placed, i: nat): int
    requires i < |b.vtx|
  {
    var src, tx := View(env, mempool, ApplyTxs(env, ix, b, i)), b.vtx[i];
    if tx.IsCoinBase() || tx.IsCoinStake() || !src.Fetchable(tx.Spends()) then 0
    else ValueOfInputs(src, tx) - tx.ValueOut()
  }

  function FeesTo(env: Env, mempool: map<uint256, Tx>, ix: Index, b: Placed, k: nat): int
    requires k <= |b.vtx|
  {
    if k == 0 then 0 else FeesTo(env, mempool, ix, b, k - 1) + FeeAt(env, mempool, ix, b, k - 1)
  }

  /** Its signature operations: those in its own scripts and, but for a coinbase, those of the scripts it pays to. */
  function SigOpsAt(env: Env, mempool: map<uint256, Tx>, ix: Index, b: Placed, i: nat): nat
    requires i < |b.vtx|
  {
    var src, tx := View(env, mempool, ApplyTxs(env, ix, b, i)), b.vtx[i];
    env.legacySigOps(tx) + if tx.IsCoinBase() || !src.Fetchable(tx.Spends()) then 0
      else env.p2shSigOps(tx, src.FetchAll(tx.Spends()).txs)
  }

  function SigOpsTo(env: Env, mempool: map<uint256, Tx>, ix: Index, b: Placed, k: nat): nat
    requires k <= |b.vtx|
  {
    if k == 0 then 0 else SigOpsTo(env, mempool, ix, b, k - 1) + SigOpsAt(env, mempool, ix, b, k - 1)
  }

  lemma {:induction false} TotalsAddUp(env: Env, mempool: map<uint256, Tx>, ix: Index, b: Placed, k: nat)
    requires k <= |b.vtx|
    ensures TotalsOf(env, mempool, ix, b, k).nFees == FeesTo(env, mempool, ix, b, k)
    ensures TotalsOf(env, mempool, ix, b, k).nSigOps == SigOpsTo(env, mempool, ix, b, k)
  {
    hide ApplyTxs, Source.Fetchable, Source.FetchAll, ValueOfInputs, Tx.IsCoinBase, Tx.IsCoinStake, Tx.ValueOut;
    if k > 0 { TotalsAddUp(env, mempool, ix, b, k - 1); }
  }

  // ----- ConnectBlock

  /** What ConnectBlock demands of one transaction: the record it overwrites is fully spent, the signature operations up
      to it are at most 20,000, and, but for a coinbase, it finds its inputs and connects to them. */
  ghost predicate TxRules(env: Env, mempool: map<uint256, Tx>, ix: Index, b: Placed, i: nat, pindex: CBlockIndex,
                          nBestHeight: int)
    requires i < |b.vtx|
  {
    var src, tx := View(env, mempool, ApplyTxs(env, ix, b, i)), b.vtx[i];
    && (env.txid(tx) in ix ==>
        forall n :: 0 <= n < |ix[env.txid(tx)].vSpent| ==> ix[env.txid(tx)].vSpent[n] != NullPos)
    && SigOpsTo(env, mempool, ix, b, i + 1) <= 20_000
    && (tx.IsCoinBase() ||
        (src.Fetchable(tx.Spends())
         && Connectable(env, tx, src.FetchAll(tx.Spends()), pindex, Mode(true, false), nBestHeight)))
  }

  lemma TxRulesAre(env: Env, mempool: map<uint256, Tx>, ix: Index, b: Placed, i: nat, pindex: CBlockIndex,
                   nBestHeight: int)
    requires i < |b.vtx|
    ensures TxConnects(env, mempool, ix, b, i, pindex, nBestHeight) <==>
      TxRules(env, mempool, ix, b, i, pindex, nBestHeight)
  {
    hide ApplyTxs, Source.Fetchable, Source.FetchAll, Connectable, SigOpsTo, AddTx;
    TotalsAddUp(env, mempool, ix, b, i + 1);
    if env.txid(b.vtx[i]) in ix {
      var vSpent := ix[env.txid(b.vtx[i])].vSpent;
      assert forall n :: 0 <= n < |vSpent| ==> vSpent[n] in vSpent;
    }
  }

  lemma {:induction false} TxsRules(env: Env, mempool: map<uint256, Tx>, ix: Index, b: Placed, k: nat,
                                    pindex: CBlockIndex, nBestHeight: int)
    requires k <= |b.vtx|
    ensures TxsConnect(env, mempool, ix, b, k, pindex, nBestHeight) <==>
      forall i :: 0 <= i < k ==> TxRules(env, mempool, ix, b, i, pindex, nBestHeight)
  {
    hide TxConnects, TxRules;
    if k > 0 {
      TxsRules(env, mempool, ix, b, k - 1, pindex, nBestHeight);
      TxRulesAre(env, mempool, ix, b, k - 1, pindex, nBestHeight);
    }
  }

  /** A block connects exactly when it is good by itself, every transaction meets the rules in its turn, and its
      reward is right: a proof-of-work coinbase pays no more than the subsidy after the best height and all fees. */
  lemma BlockConnectsMeans(env: Env, mempool: map<uint256, Tx>, ix: Index, pindex: CBlockIndex, block: Block,
                           nBestHeight: int)
    ensures var b := PlacedAt(pindex, block);
      BlockConnects(env, mempool, ix, pindex, block, nBestHeight) <==>
        && CheckBlock(env, block)
        && (forall i :: 0 <= i < |b.vtx| ==> TxRules(env, mempool, ix, b, i, pindex, nBestHeight))
        && (if |block.vtx| > 1 && block.vtx[1].IsCoinStake()
            then RewardOk(env, ix, block, pindex, TotalsOf(env, mempool, ix, b, |b.vtx|), nBestHeight)
            else block.vtx[0].ValueOut() <= PowSubsidy(nBestHeight + 1) + FeesTo(env, mempool, ix, b, |b.vtx|))
  {
    hide TxsConnect, TxRules, TotalsOf, FeesTo, CheckTransaction, LegacySigOps, PowSubsidy, CoinAge.CoinAgeOf, FundPaid,
      ProofOfStakeReward, Tx.ValueOut, Tx.IsCoinBase, Tx.IsCoinStake;
    var b := PlacedAt(pindex, block);
    TxsRules(env, mempool, ix, b, |b.vtx|, pindex, nBestHeight);
    TotalsAddUp(env, mempool, ix, b, |b.vtx|);
  }

  /** The stake reward of a stake block that connects is what its second transaction pays out beyond what it takes. */
  lemma {:induction false} StakeRewardIs(env: Env, mempool: map<uint256, Tx>, ix: Index, b: Placed, k: nat)
    requires 2 <= k <= |b.vtx| && b.vtx[0].IsCoinBase() && b.vtx[1].IsCoinStake()
    requires forall i :: 2 <= i < |b.vtx| ==> !b.vtx[i].IsCoinStake()
    requires View(env, mempool, ApplyTxs(env, ix, b, 1)).Fetchable(b.vtx[1].Spends())
    ensures TotalsOf(env, mempool, ix, b, k).nStakeReward ==
      b.vtx[1].ValueOut() - ValueOfInputs(View(env, mempool, ApplyTxs(env, ix, b, 1)), b.vtx[1])
  {
    hide ApplyTxs, Source.Fetchable, Source.FetchAll, ValueOfInputs, Tx.ValueOut;
    if k > 2 { StakeRewardIs(env, mempool, ix, b, k - 1); }
  }

  /** What the transaction at i pays out without taking it in and without paying a fee: all of a coinbase, and of a
      coinstake what it pays beyond its inputs. */
  function MadeAt(env: Env, mempool: map<uint256, Tx>, ix: Index, b: Placed, i: nat): int
    requires i < |b.vtx|
  {
    var src, tx := View(env, mempool, ApplyTxs(env, ix, b, i)), b.vtx[i];
    if tx.IsCoinBase() then tx.ValueOut()
    else if tx.IsCoinStake() && src.Fetchable(tx.Spends()) then tx.ValueOut() - ValueOfInputs(src, tx)
    else 0
  }

  function MadeTo(env: Env, mempool: map<uint256, Tx>, ix: Index, b: Placed, k: nat): int
    requires k <= |b.vtx|
  {
    if k == 0 then 0 else MadeTo(env, mempool, ix, b, k - 1) + MadeAt(env, mempool, ix, b, k - 1)
  }

  lemma {:induction false} MadeAddsUp(env: Env, mempool: map<uint256, Tx>, ix: Index, b: Placed, k: nat)
    requires k <= |b.vtx|
    ensures var t := TotalsOf(env, mempool, ix, b, k);
      t.nValueOut - t.nValueIn + t.nFees == MadeTo(env, mempool, ix, b, k)
  {
    hide ApplyTxs, Source.Fetchable, Source.FetchAll, ValueOfInputs, Tx.IsCoinBase, Tx.IsCoinStake, Tx.ValueOut;
    if k > 0 { MadeAddsUp(env, mempool, ix, b, k - 1); }
  }

  /** The figure nMint of a connected block is what its coinbase pays and what its coinstakes pay beyond their inputs:
      for a stake block, whose coinbase pays nothing, the stake reward alone. */
  lemma MintIs(env: Env, mempool: map<uint256, Tx>, ix: Index, pindex: CBlockIndex, block: Block, nBestHeight: int)
    requires BlockConnects(env, mempool, ix, pindex, block, nBestHeight) && Minted(env, mempool, ix, pindex, block)
    ensures var b := PlacedAt(pindex, block);
      && pindex.nMint == MadeTo(env, mempool, ix, b, |b.vtx|)
      && (block.IsProofOfStake() ==>
            var src := View(env, mempool, ApplyTxs(env, ix, b, 1));
            src.Fetchable(b.vtx[1].Spends()) && pindex.nMint == b.vtx[1].ValueOut() - ValueOfInputs(src, b.vtx[1]))
  {
    hide TxsConnect, Connectable, SigOpsTo, TotalsOf, ApplyTxs, MadeTo, ValueOfInputs, CheckBlock, RewardOk,
      Source.Fetchable, Tx.ValueOut, Tx.IsCoinBase, Tx.IsCoinStake, Wrap;
    var b := PlacedAt(pindex, block);
    MadeAddsUp(env, mempool, ix, b, |b.vtx|);
    if block.IsProofOfStake() {
      Supply.StakeTotals(env, mempool, ix, b, block, |b.vtx|, pindex, nBestHeight);
      Supply.StakeKinds(env, block);
      TxsRules(env, mempool, ix, b, |b.vtx|, pindex, nBestHeight);
      assert TxRules(env, mempool, ix, b, 1, pindex, nBestHeight);
      StakeRewardIs(env, mempool, ix, b, |b.vtx|);
    }
  }
}
