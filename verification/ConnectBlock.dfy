/** CBlock::ConnectBlock and DisconnectBlock. */
module ConnectBlock {
  import opened Transactions
  import opened Ledger
  import opened TxDb
  import opened BlockIndex
  import opened ConnectInputs
  import CoinAge

  const COIN_YEAR_REWARD: int := 6_000_000
  const FUND_HEIGHT: nat := 25

  // ----- tests that need no context

  predicate CheckTransaction(env: Env, tx: Tx) {
    && tx.vin != [] && tx.vout != []
    && env.txSize(tx) <= MAX_BLOCK_SIZE
    && (forall o :: o in tx.vout ==>
        MoneyRange(o.nValue) && (o.IsEmpty() ==> tx.IsCoinBase() || tx.IsCoinStake()))
    && MoneyRange(tx.ValueOut())
    && NoDuplicates(Prevouts(tx.vin))
    && if tx.IsCoinBase() then 2 <= |tx.vin[0].scriptSig| <= 100
       else forall i :: i in tx.vin ==> !i.prevout.IsNull()
  }

  function LegacySigOps(env: Env, vtx: seq<Tx>): nat {
    if vtx == [] then 0 else LegacySigOps(env, vtx[..|vtx| - 1]) + env.legacySigOps(vtx[|vtx| - 1])
  }

  /** Size, clock, proof of work, signature and merkle root are the opaque headerChecks. */
  predicate CheckBlock(env: Env, block: Block) {
    var vtx := block.vtx;
    && vtx != [] && env.headerChecks(block)
    && vtx[0].IsCoinBase()
    && (forall i :: 0 < i < |vtx| ==> !vtx[i].IsCoinBase())
    && (block.IsProofOfStake() ==>
        |vtx[0].vout| == 1 && vtx[0].vout[0].IsEmpty() && forall i :: 2 <= i < |vtx| ==> !vtx[i].IsCoinStake())
    && (forall tx :: tx in vtx ==> CheckTransaction(env, tx) && tx.nTime <= block.nTime)
    && NoDuplicates(Ids(env, vtx))
    && LegacySigOps(env, vtx) <= MAX_BLOCK_SIGOPS
  }

  // ----- one transaction of a block

  const CONNECTING := Mode(true, false)

  /** The previous transactions of a transaction, looked up in the index as it stands before it. */
  function View(env: Env, mempool: map<uint256, Tx>, ix: Index): Source {
    Source(env, mempool, ix, map[], CONNECTING)
  }

  /** What ConnectBlock adds up over the transactions. */
  datatype Totals = Totals(nSigOps: nat, nFees: int, nValueIn: int, nValueOut: int, nBurnCoins: nat, nStakeReward: int)

  function AddTx(env: Env, src: Source, t: Totals, tx: Tx): Totals {
    var t' := t.(nSigOps := t.nSigOps + env.legacySigOps(tx));
    if tx.IsCoinBase() then t'.(nValueOut := t.nValueOut + tx.ValueOut())
    else if src.Fetchable(tx.Spends()) then AddSpender(env, src, t', tx)
    else t'
  }

  function AddSpender(env: Env, src: Source, t: Totals, tx: Tx): Totals
    requires src.Fetchable(tx.Spends())
  {
    var nTxValueIn := ValueOfInputs(src, tx);
    Totals(t.nSigOps + env.p2shSigOps(tx, src.FetchAll(tx.Spends()).txs),
           if tx.IsCoinStake() then t.nFees else t.nFees + nTxValueIn - tx.ValueOut(),
           t.nValueIn + nTxValueIn,
           t.nValueOut + tx.ValueOut(),
           Wrap(t.nBurnCoins + tx.Burned()),
           if tx.IsCoinStake() then tx.ValueOut() - nTxValueIn else t.nStakeReward)
  }

  function ValueOfInputs(src: Source, tx: Tx): int
    requires src.Fetchable(tx.Spends())
  {
    assert forall o :: o in tx.Spends() ==> o.hash in src.FetchAll(tx.Spends()).txs;
    ValueIn(src.FetchAll(tx.Spends()), tx.Spends())
  }

  function TotalsOf(env: Env, mempool: map<uint256, Tx>, ix: Index, b: Placed, k: nat): Totals
    requires k <= |b.vtx|
  {
    if k == 0 then Totals(0, 0, 0, 0, 0, 0)
    else AddTx(env, View(env, mempool, ApplyTxs(env, ix, b, k - 1)), TotalsOf(env, mempool, ix, b, k - 1), b.vtx[k - 1])
  }

  predicate CompletelySpent(t: TxIndex) {
    forall p :: p in t.vSpent ==> p != NullPos
  }

  /** A spending transaction finds its inputs and connects to them. */
  ghost predicate SpenderConnects(env: Env, src: Source, tx: Tx, pindex: CBlockIndex, nBestHeight: int) {
    src.Fetchable(tx.Spends()) && Connectable(env, tx, src.FetchAll(tx.Spends()), pindex, CONNECTING, nBestHeight)
  }

  /** What ConnectBlock asks of one transaction, given the index before the block and just before it. */
  ghost predicate OneConnects(env: Env, ix: Index, src: Source, t: Totals, tx: Tx, pindex: CBlockIndex,
                              nBestHeight: int) {
    && (env.txid(tx) in ix ==> CompletelySpent(ix[env.txid(tx)]))
    && AddTx(env, src, t, tx).nSigOps <= MAX_BLOCK_SIGOPS
    && (tx.IsCoinBase() || SpenderConnects(env, src, tx, pindex, nBestHeight))
  }

  ghost predicate TxConnects(env: Env, mempool: map<uint256, Tx>, ix: Index, b: Placed, i: nat, pindex: CBlockIndex,
                             nBestHeight: int)
    requires i < |b.vtx|
  {
    OneConnects(env, ix, View(env, mempool, ApplyTxs(env, ix, b, i)), TotalsOf(env, mempool, ix, b, i), b.vtx[i],
      pindex, nBestHeight)
  }

  ghost predicate TxsConnect(env: Env, mempool: map<uint256, Tx>, ix: Index, b: Placed, k: nat, pindex: CBlockIndex,
                             nBestHeight: int)
    requires k <= |b.vtx|
  {
    k == 0 || (TxsConnect(env, mempool, ix, b, k - 1, pindex, nBestHeight)
      && TxConnects(env, mempool, ix, b, k - 1, pindex, nBestHeight))
  }

  // ----- rewards

  function PowSubsidy(nHeight: int): int {
    if nHeight == 1 then 57_000_000 * COIN
    else if 1 < nHeight <= 10 then 10 * COIN
    else if 10 < nHeight <= 50 then 20 * COIN
    else if 50 < nHeight <= 100 then 25 * COIN
    else COIN
  }

  /** The coin-age subsidy, in unsigned 64-bit arithmetic. */
  function StakeSubsidy(nCoinAge: nat): nat {
    Wrap(Wrap(nCoinAge * COIN_YEAR_REWARD) * 33) / (365 * 33 + 8)
  }

  /** The reward of a stake block: the addition of the fees wraps as well. */
  function ProofOfStakeReward(nCoinAge: nat, nFees: int): nat {
    Wrap(StakeSubsidy(nCoinAge) + nFees)
  }

  predicate FundPaid(env: Env, coinstake: Tx, nReward: nat) {
    exists o :: o in coinstake.vout && env.isFund(o.scriptPubKey) && Wrap(o.nValue) == nReward / 5
  }

  /** The height asked for is that of the best block plus one, whatever height this block has. The stake
      reward is compared as an unsigned number, so a negative one is too large. */
  ghost predicate RewardOk(env: Env, ix: Index, block: Block, pindex: CBlockIndex, t: Totals, nBestHeight: int) {
    if block.IsProofOfStake() then
      var nCoinAge := CoinAge.CoinAgeOf(env, ix, block.vtx[1], pindex.pprev);
      && nCoinAge.Some?
      && Wrap(t.nStakeReward) <= ProofOfStakeReward(nCoinAge.value, t.nFees)
      && (pindex.nHeight > FUND_HEIGHT ==> FundPaid(env, block.vtx[1], ProofOfStakeReward(nCoinAge.value, t.nFees)))
    else
      block.vtx != [] && block.vtx[0].ValueOut() <= PowSubsidy(nBestHeight + 1) + t.nFees
  }

  // ----- the whole block

  function PlacedAt(pindex: CBlockIndex, block: Block): Placed {
    Placed(pindex.nFile, pindex.nBlockPos, block.vtx)
  }

  ghost predicate BlockConnects(env: Env, mempool: map<uint256, Tx>, ix: Index, pindex: CBlockIndex, block: Block,
                                nBestHeight: int) {
    var b := PlacedAt(pindex, block);
    && CheckBlock(env, block)
    && TxsConnect(env, mempool, ix, b, |b.vtx|, pindex, nBestHeight)
    && RewardOk(env, ix, block, pindex, TotalsOf(env, mempool, ix, b, |b.vtx|), nBestHeight)
  }

  /** A block of one coinbase that pays out more than any reward. */
  predicate Overpays(block: Block) {
    |block.vtx| == 1 && block.vtx[0].IsCoinBase() && block.vtx[0].ValueOut() == MAX_MONEY
  }

  lemma OverpayingNeverConnects(env: Env, mempool: map<uint256, Tx>, ix: Index, pindex: CBlockIndex, block: Block,
                                nBestHeight: int)
    requires Overpays(block)
    ensures !BlockConnects(env, mempool, ix, pindex, block, nBestHeight)
  {
    hide CheckBlock, TxsConnect, CoinAge.CoinAgeOf, Tx.ValueOut;
    var b := PlacedAt(pindex, block);
    assert TotalsOf(env, mempool, ix, b, 0) == Totals(0, 0, 0, 0, 0, 0);
    assert TotalsOf(env, mempool, ix, b, 1).nFees == 0;
  }

  // ----- signatures

  /** From the checkpoint on, every input of every transaction of a block that connects is signed. */
  lemma ConnectedIsSigned(env: Env, mempool: map<uint256, Tx>, ix: Index, pindex: CBlockIndex, block: Block,
                          nBestHeight: int)
    requires BlockConnects(env, mempool, ix, pindex, block, nBestHeight) && nBestHeight >= env.nCheckpointHeight
    ensures forall k, i :: 0 <= k < |block.vtx| && !block.vtx[k].IsCoinBase() && 0 <= i < |block.vtx[k].vin| ==>
      var prev := View(env, mempool, ApplyTxs(env, ix, PlacedAt(pindex, block), k)).FindPrev(
        block.vtx[k].vin[i].prevout.hash);
      prev.Some? && env.verifySignature(prev.value.tx, block.vtx[k], i)
  {
    hide CheckBlock, RewardOk, TxConnects, Source.FindPrev, ApplyTxs, TotalsOf;
    var b := PlacedAt(pindex, block);
    forall k, i | 0 <= k < |block.vtx| && !block.vtx[k].IsCoinBase() && 0 <= i < |block.vtx[k].vin|
      ensures var prev := View(env, mempool, ApplyTxs(env, ix, b, k)).FindPrev(block.vtx[k].vin[i].prevout.hash);
        prev.Some? && env.verifySignature(prev.value.tx, block.vtx[k], i)
    {
      EachConnects(env, mempool, ix, b, |b.vtx|, k, pindex, nBestHeight);
      SpenderSigned(env, View(env, mempool, ApplyTxs(env, ix, b, k)), block.vtx[k], i, pindex, nBestHeight);
    }
  }

  lemma {:induction false} EachConnects(env: Env, mempool: map<uint256, Tx>, ix: Index, b: Placed, k: nat, i: nat,
                                        pindex: CBlockIndex, nBestHeight: int)
    requires i < k <= |b.vtx| && TxsConnect(env, mempool, ix, b, k, pindex, nBestHeight)
    ensures TxConnects(env, mempool, ix, b, i, pindex, nBestHeight)
    ensures b.vtx[i].IsCoinBase() ||
      SpenderConnects(env, View(env, mempool, ApplyTxs(env, ix, b, i)), b.vtx[i], pindex, nBestHeight)
  {
    hide SpenderConnects, AddTx, ApplyTxs;
    if i < k - 1 { EachConnects(env, mempool, ix, b, k - 1, i, pindex, nBestHeight); }
  }

  lemma SpenderSigned(env: Env, src: Source, tx: Tx, i: nat, pindex: CBlockIndex, nBestHeight: int)
    requires SpenderConnects(env, src, tx, pindex, nBestHeight) && nBestHeight >= env.nCheckpointHeight
    requires !tx.IsCoinBase() && i < |tx.vin|
    ensures var prev := src.FindPrev(tx.vin[i].prevout.hash);
      prev.Some? && env.verifySignature(prev.value.tx, tx, i)
  {
    hide Source.FindPrev, InputsOk, FeeOk;
    var o := tx.Spends()[i];
    assert o in tx.Spends();
    assert src.FetchAll(tx.Spends()).Has(o.hash);
  }

  /** Below the checkpoint, connecting a block does not depend on signatures: two nodes that differ in nothing else give
      the same answer. */
  lemma UnsignedBelow(env: Env, f: (Tx, Tx, nat) -> bool, mempool: map<uint256, Tx>, ix: Index, pindex: CBlockIndex,
                      block: Block, nBestHeight: int)
    requires nBestHeight < env.nCheckpointHeight
    ensures BlockConnects(env, mempool, ix, pindex, block, nBestHeight) ==
      BlockConnects(env.(verifySignature := f), mempool, ix, pindex, block, nBestHeight)
  {
    hide TxsConnect, TotalsOf, CheckBlock, RewardOk;
    var b := PlacedAt(pindex, block);
    SameCheck(env, f, block);
    SameTxsConnect(env, f, mempool, ix, b, |b.vtx|, pindex, nBestHeight);
    SameReward(env, f, ix, block, pindex, TotalsOf(env, mempool, ix, b, |b.vtx|), nBestHeight);
  }

  lemma {:induction false} SameSigOps(env: Env, f: (Tx, Tx, nat) -> bool, vtx: seq<Tx>)
    ensures LegacySigOps(env.(verifySignature := f), vtx) == LegacySigOps(env, vtx)
    ensures TotalSize(env.(verifySignature := f), vtx) == TotalSize(env, vtx)
  {
    if vtx != [] { SameSigOps(env, f, vtx[..|vtx| - 1]); }
  }

  lemma SameCheck(env: Env, f: (Tx, Tx, nat) -> bool, block: Block)
    ensures CheckBlock(env.(verifySignature := f), block) == CheckBlock(env, block)
  {
    hide LegacySigOps;
    SameSigOps(env, f, block.vtx);
    assert Ids(env.(verifySignature := f), block.vtx) == Ids(env, block.vtx);
    assert forall tx :: CheckTransaction(env.(verifySignature := f), tx) == CheckTransaction(env, tx);
  }

  lemma SamePlaceOf(env: Env, f: (Tx, Tx, nat) -> bool, b: Placed, i: nat)
    requires i <= |b.vtx|
    ensures TxPos(env.(verifySignature := f), b, i) == TxPos(env, b, i)
  {
    SameSigOps(env, f, b.vtx[..i]);
  }

  lemma {:induction false} SameApplied(env: Env, f: (Tx, Tx, nat) -> bool, ix: Index, b: Placed, k: nat)
    requires k <= |b.vtx|
    ensures ApplyTxs(env.(verifySignature := f), ix, b, k) == ApplyTxs(env, ix, b, k)
  {
    hide ApplyTx, TxPos;
    if k > 0 {
      SameApplied(env, f, ix, b, k - 1);
      SamePlaceOf(env, f, b, k - 1);
    }
  }

  lemma SameFetched(env: Env, f: (Tx, Tx, nat) -> bool, mempool: map<uint256, Tx>, ix: Index, os: seq<OutPoint>)
    ensures var src, src' := View(env, mempool, ix), View(env.(verifySignature := f), mempool, ix);
      && src'.Fetchable(os) == src.Fetchable(os)
      && (src.Fetchable(os) ==> src'.FetchAll(os) == src.FetchAll(os))
  {
    forall h
      ensures View(env.(verifySignature := f), mempool, ix).FindPrev(h) == View(env, mempool, ix).FindPrev(h)
    {
    }
  }

  lemma SameAdded(env: Env, f: (Tx, Tx, nat) -> bool, mempool: map<uint256, Tx>, ix: Index, t: Totals, tx: Tx)
    ensures AddTx(env.(verifySignature := f), View(env.(verifySignature := f), mempool, ix), t, tx) ==
      AddTx(env, View(env, mempool, ix), t, tx)
  {
    hide Source.Fetchable, Source.FetchAll, ValueIn, Tx.ValueOut, Wrap;
    SameFetched(env, f, mempool, ix, tx.Spends());
  }

  lemma SameSpender(env: Env, f: (Tx, Tx, nat) -> bool, mempool: map<uint256, Tx>, ix: Index, tx: Tx,
                    pindex: CBlockIndex, nBestHeight: int)
    requires nBestHeight < env.nCheckpointHeight
    ensures SpenderConnects(env.(verifySignature := f), View(env.(verifySignature := f), mempool, ix), tx, pindex,
      nBestHeight) == SpenderConnects(env, View(env, mempool, ix), tx, pindex, nBestHeight)
  {
    hide Source.Fetchable, Source.FetchAll, ValueIn, Spendable, FeeOk, ConfirmedWithin, OutputExists;
    SameFetched(env, f, mempool, ix, tx.Spends());
  }

  lemma {:induction false} SameTxsConnect(env: Env, f: (Tx, Tx, nat) -> bool, mempool: map<uint256, Tx>, ix: Index,
                                          b: Placed, k: nat, pindex: CBlockIndex, nBestHeight: int)
    requires k <= |b.vtx| && nBestHeight < env.nCheckpointHeight
    ensures TxsConnect(env.(verifySignature := f), mempool, ix, b, k, pindex, nBestHeight) ==
      TxsConnect(env, mempool, ix, b, k, pindex, nBestHeight)
    ensures TotalsOf(env.(verifySignature := f), mempool, ix, b, k) == TotalsOf(env, mempool, ix, b, k)
  {
    hide AddTx, SpenderConnects, ApplyTxs, CompletelySpent;
    if k > 0 {
      SameTxsConnect(env, f, mempool, ix, b, k - 1, pindex, nBestHeight);
      SameApplied(env, f, ix, b, k - 1);
      var before := ApplyTxs(env, ix, b, k - 1);
      SameAdded(env, f, mempool, before, TotalsOf(env, mempool, ix, b, k - 1), b.vtx[k - 1]);
      SameSpender(env, f, mempool, before, b.vtx[k - 1], pindex, nBestHeight);
    }
  }

  lemma {:induction false} SameAges(env: Env, f: (Tx, Tx, nat) -> bool, ix: Index, tx: Tx, os: seq<OutPoint>,
                                    p: CBlockIndex?)
    ensures CoinAge.CentSeconds(env.(verifySignature := f), ix, tx, os, p) == CoinAge.CentSeconds(env, ix, tx, os, p)
  {
    hide ConfirmedWithin;
    if os != [] { SameAges(env, f, ix, tx, os[..|os| - 1], p); }
  }

  lemma SameReward(env: Env, f: (Tx, Tx, nat) -> bool, ix: Index, block: Block, pindex: CBlockIndex, t: Totals,
                   nBestHeight: int)
    ensures RewardOk(env.(verifySignature := f), ix, block, pindex, t, nBestHeight) ==
      RewardOk(env, ix, block, pindex, t, nBestHeight)
  {
    hide CoinAge.CentSeconds, PowSubsidy, ProofOfStakeReward, Wrap;
    if block.IsProofOfStake() { SameAges(env, f, ix, block.vtx[1], block.vtx[1].Spends(), pindex.pprev); }
  }

  // ----- the queued form and the plain form look up the same things

  lemma SamePrev(env: Env, mempool: map<uint256, Tx>, ix: Index, queue: Index, h: uint256)
    ensures Source(env, mempool, ix, queue, CONNECTING).FindPrev(h) == View(env, mempool, ix + queue).FindPrev(h)
  {
  }

  lemma SameInputs(env: Env, mempool: map<uint256, Tx>, ix: Index, queue: Index, os: seq<OutPoint>)
    ensures var queued, plain := Source(env, mempool, ix, queue, CONNECTING), View(env, mempool, ix + queue);
      && queued.AllFound(os) == plain.AllFound(os)
      && queued.Fetchable(os) == plain.Fetchable(os)
      && (plain.AllFound(os) ==> queued.FetchAll(os) == plain.FetchAll(os))
  {
    forall h
      ensures Source(env, mempool, ix, queue, CONNECTING).FindPrev(h) == View(env, mempool, ix + queue).FindPrev(h)
    {
      SamePrev(env, mempool, ix, queue, h);
    }
  }

  /** The fetched records are those of the index, so writing them back marks the index. */
  lemma QueueApplies(env: Env, mempool: map<uint256, Tx>, ix: Index, queue: Index, tx: Tx, pos: DiskTxPos)
    requires View(env, mempool, ix + queue).Fetchable(tx.Spends())
    ensures forall o :: o in tx.Spends() ==> o.hash in View(env, mempool, ix + queue).FetchAll(tx.Spends()).records
    ensures ix + WriteBack(queue, View(env, mempool, ix + queue).FetchAll(tx.Spends()).records, tx.Spends(), pos)
         == MarkAll(ix + queue, tx.Spends(), pos)
  {
    var records := View(env, mempool, ix + queue).FetchAll(tx.Spends()).records;
    forall h | h in records
      ensures h in ix + queue && (ix + queue)[h] == records[h]
    {
      assert View(env, mempool, ix + queue).FindPrev(h).Some?;
    }
    WriteBackIsMarkAll(ix, queue, records, tx.Spends(), pos);
  }

  /** A spending transaction: its inputs, the totals, and the spends. */
  method ConnectSpender(env: Env, mempool: map<uint256, Tx>, txdb: CTxDB, tx: Tx, queue0: Index, t0: Totals,
                        posThisTx: DiskTxPos, pindex: CBlockIndex, nBestHeight: int)
    returns (ok: bool, queue: Index, t: Totals)
    requires posThisTx.At? && pindex.Linked() && t0.nBurnCoins == Wrap(t0.nBurnCoins) && !tx.IsCoinBase()
    ensures var src := View(env, mempool, txdb.View() + queue0);
      ok == (SpenderConnects(env, src, tx, pindex, nBestHeight)
             && AddSpender(env, src, t0, tx).nSigOps <= MAX_BLOCK_SIGOPS)
    ensures ok ==> txdb.View() + queue == MarkAll(txdb.View() + queue0, tx.Spends(), posThisTx)
    ensures ok ==>
      t == AddSpender(env, View(env, mempool, txdb.View() + queue0), t0, tx) && t.nBurnCoins == Wrap(t.nBurnCoins)
  {
    hide InputsOk, SignaturesOk, MarkAll, Source.FindPrev, WriteBack;
    queue, t := queue0, t0;
    SameInputs(env, mempool, txdb.View(), queue0, tx.Spends());
    var fetched, mapInputs, fInvalid := FetchInputs(env, mempool, txdb, tx, queue, CONNECTING);
    if !fetched {
      return false, queue, t;
    }
    t := t.(nSigOps := t.nSigOps + env.p2shSigOps(tx, mapInputs.txs));
    if t.nSigOps > MAX_BLOCK_SIGOPS {
      return false, queue, t;
    }
    var nTxValueIn, nTxValueOut := ValueIn(mapInputs, tx.Spends()), tx.ValueOut();
    t := t.(nValueIn := t.nValueIn + nTxValueIn, nValueOut := t.nValueOut + nTxValueOut);
    if !tx.IsCoinStake() {
      t := t.(nFees := t.nFees + nTxValueIn - nTxValueOut);
    }
    if tx.IsCoinStake() {
      t := t.(nStakeReward := nTxValueOut - nTxValueIn);
    }
    QueueApplies(env, mempool, txdb.View(), queue0, tx, posThisTx);
    var nBurnCoins;
    ok, queue,
      nBurnCoins := ConnectInputs.ConnectInputs(env, tx, mapInputs, queue, posThisTx, pindex, t.nBurnCoins, CONNECTING,
      nBestHeight);
    t := t.(nBurnCoins := nBurnCoins);
  }

  /** One transaction: the overwrite rule, sigops, inputs, totals and its own record. */
  method ConnectOne(env: Env, mempool: map<uint256, Tx>, txdb: CTxDB, tx: Tx, queue0: Index, t0: Totals,
                    posThisTx: DiskTxPos, pindex: CBlockIndex, nBestHeight: int)
    returns (ok: bool, queue: Index, t: Totals)
    requires posThisTx.At? && pindex.Linked() && t0.nBurnCoins == Wrap(t0.nBurnCoins)
    ensures ok == OneConnects(env, txdb.View(), View(env, mempool, txdb.View() + queue0), t0, tx, pindex, nBestHeight)
    ensures ok ==> txdb.View() + queue == ApplyTx(txdb.View() + queue0, env.txid(tx), tx, posThisTx)
    ensures ok ==>
      t == AddTx(env, View(env, mempool, txdb.View() + queue0), t0, tx) && t.nBurnCoins == Wrap(t.nBurnCoins)
  {
    hide Connectable, Source.Fetchable, Source.FetchAll, MarkAll;
    queue, t := queue0, t0;
    var hashTx := env.txid(tx);
    var found, txindexOld := txdb.ReadTxIndex(hashTx);
    if found && !CompletelySpent(txindexOld) {
      return false, queue, t;
    }
    t := t.(nSigOps := t.nSigOps + env.legacySigOps(tx));
    if t.nSigOps > MAX_BLOCK_SIGOPS {
      return false, queue, t;
    }
    if tx.IsCoinBase() {
      SpendsNothing(txdb.View() + queue, tx, posThisTx);
      t := t.(nValueOut := t.nValueOut + tx.ValueOut());
    } else {
      ok, queue, t := ConnectSpender(env, mempool, txdb, tx, queue, t, posThisTx, pindex, nBestHeight);
      if !ok {
        return;
      }
    }
    OverlayPut(txdb.View(), queue, hashTx, TxIndex(posThisTx, Unspent(|tx.vout|)));
    queue := queue[hashTx := TxIndex(posThisTx, Unspent(|tx.vout|))];
    ok := true;
  }

  lemma SpendsNothing(ix: Index, tx: Tx, pos: DiskTxPos)
    requires tx.IsCoinBase()
    ensures MarkAll(ix, tx.Spends(), pos) == ix
  {
  }

  lemma OverlayPut(ix: Index, queue: Index, h: uint256, t: TxIndex)
    ensures ix + queue[h := t] == (ix + queue)[h := t]
  {
  }

  /** Write the queued records to the database. */
  method WriteQueue(txdb: CTxDB, queue: Index) returns (ok: bool)
    requires txdb.activeBatch.Some?
    modifies txdb
    ensures ok && txdb.activeBatch.Some? && txdb.stored == old(txdb.stored) && txdb.storedBest == old(txdb.storedBest)
    ensures txdb.BestView() == old(txdb.BestView()) && txdb.nWrites == old(txdb.nWrites)
    ensures txdb.View() == old(txdb.View()) + queue
  {
    var rest := queue.Keys;
    while rest != {}
      invariant rest <= queue.Keys
      invariant txdb.activeBatch.Some? && txdb.stored == old(txdb.stored) && txdb.storedBest == old(txdb.storedBest)
      invariant txdb.BestView() == old(txdb.BestView()) && txdb.nWrites == old(txdb.nWrites)
      invariant txdb.View() == old(txdb.View()) + (queue - rest)
    {
      var h :| h in rest;
      ok := txdb.UpdateTxIndex(h, queue[h]);
      if !ok {
        return;
      }
      rest := rest - {h};
      assert queue - rest == (queue - (rest + {h}))[h := queue[h]];
    }
    assert queue - rest == queue;
    ok := true;
  }

  /** The proof-of-work limit, or the coin-age limit and the fund output. */
  method CheckReward(env: Env, txdb: CTxDB, block: Block, pindex: CBlockIndex, t: Totals,
                     nBestHeight: int) returns (ok: bool)
    requires block.vtx != [] && pindex.Linked()
    ensures ok == RewardOk(env, txdb.View(), block, pindex, t, nBestHeight)
  {
    if !block.IsProofOfStake() {
      var nReward := PowSubsidy(nBestHeight + 1) + t.nFees;
      return block.vtx[0].ValueOut() <= nReward;
    }
    var nCoinAge := CoinAge.GetCoinAge(env, txdb, block.vtx[1], pindex.pprev);
    if nCoinAge.None? {
      return false;
    }
    var nCalculatedStakeReward := ProofOfStakeReward(nCoinAge.value, t.nFees);
    if Wrap(t.nStakeReward) > nCalculatedStakeReward {
      return false;
    }
    if pindex.nHeight > FUND_HEIGHT {
      var found, vout := false, block.vtx[1].vout;
      for i := 0 to |vout|
        invariant !found
        invariant forall o :: o in vout[..i] ==>
          !(env.isFund(o.scriptPubKey) && Wrap(o.nValue) == nCalculatedStakeReward / 5)
      {
        assert vout[..i + 1] == vout[..i] + [vout[i]];
        if env.isFund(vout[i].scriptPubKey) {
          if Wrap(vout[i].nValue) == nCalculatedStakeReward / 5 {
            found := true;
            break;
          }
        }
      }
      assert !found ==> vout[..|vout|] == vout;
      return found;
    }
    ok := true;
  }

  lemma {:induction false} FailsFrom(env: Env, mempool: map<uint256, Tx>, ix: Index, b: Placed, i: nat, k: nat,
                                     pindex: CBlockIndex, nBestHeight: int)
    requires i < k <= |b.vtx| && !TxConnects(env, mempool, ix, b, i, pindex, nBestHeight)
    ensures !TxsConnect(env, mempool, ix, b, k, pindex, nBestHeight)
  {
    hide TxConnects;
    if i < k - 1 { FailsFrom(env, mempool, ix, b, i, k - 1, pindex, nBestHeight); }
  }

  /** The first loop of ConnectBlock: the transactions in order, into a queue of changed records. */
  method ConnectTxs(env: Env, mempool: map<uint256, Tx>, txdb: CTxDB, b: Placed, pindex: CBlockIndex, nBestHeight: int)
    returns (ok: bool, mapQueuedChanges: Index, t: Totals)
    requires pindex.Linked()
    ensures ok == TxsConnect(env, mempool, txdb.View(), b, |b.vtx|, pindex, nBestHeight)
    ensures ok ==> txdb.View() + mapQueuedChanges == ApplyBlock(env, txdb.View(), b)
    ensures ok ==> t == TotalsOf(env, mempool, txdb.View(), b, |b.vtx|)
  {
    hide OneConnects, AddTx, ApplyTx;
    mapQueuedChanges, t := map[], Totals(0, 0, 0, 0, 0, 0);
    ghost var ix := txdb.View();
    var nTxPos := b.nBlockPos + 80 + CompactSize(|b.vtx|);
    assert b.vtx[..0] == [];
    for i := 0 to |b.vtx|
      invariant ix + mapQueuedChanges == ApplyTxs(env, ix, b, i)
      invariant t == TotalsOf(env, mempool, ix, b, i) && t.nBurnCoins == Wrap(t.nBurnCoins)
      invariant nTxPos == b.nBlockPos + 80 + CompactSize(|b.vtx|) + TotalSize(env, b.vtx[..i])
      invariant TxsConnect(env, mempool, ix, b, i, pindex, nBestHeight)
    {
      var posThisTx := At(b.nFile, b.nBlockPos, nTxPos);
      nTxPos := nTxPos + env.txSize(b.vtx[i]);
      assert b.vtx[..i + 1][..i] == b.vtx[..i];
      ok, mapQueuedChanges,
        t := ConnectOne(env, mempool, txdb, b.vtx[i], mapQueuedChanges, t, posThisTx, pindex, nBestHeight);
      if !ok {
        FailsFrom(env, mempool, ix, b, i, |b.vtx|, pindex, nBestHeight);
        return;
      }
    }
    ok := true;
  }

  /** ConnectBlock succeeds exactly on the blocks that connect. The database then holds the block applied to
      what it held, and the block's node the coins it made and the money supply; a refused block changes
      nothing. */
  method ConnectBlock(env: Env, mempool: map<uint256, Tx>, txdb: CTxDB, block: Block, pindex: CBlockIndex,
                      nBestHeight: int)
    returns (ok: bool)
    requires pindex.Linked() && txdb.activeBatch.Some?
    modifies txdb, pindex`nMint, pindex`nMoneySupply
    ensures txdb.activeBatch.Some? && txdb.stored == old(txdb.stored) && txdb.storedBest == old(txdb.storedBest)
    ensures txdb.BestView() == old(txdb.BestView()) && txdb.nWrites == old(txdb.nWrites)
    ensures ok == BlockConnects(env, mempool, old(txdb.View()), pindex, block, nBestHeight)
    ensures txdb.View() == if ok then ApplyBlock(env, old(txdb.View()), PlacedAt(pindex, block)) else old(txdb.View())
    ensures ok ==> Minted(env, mempool, old(txdb.View()), pindex, block)
    ensures !ok ==> unchanged(pindex)
    ensures ok && nBestHeight >= env.nCheckpointHeight ==>
      forall k, i :: 0 <= k < |block.vtx| && !block.vtx[k].IsCoinBase() && 0 <= i < |block.vtx[k].vin| ==>
        var prev := View(env, mempool, ApplyTxs(env, old(txdb.View()), PlacedAt(pindex, block), k)).FindPrev(
          block.vtx[k].vin[i].prevout.hash);
        prev.Some? && env.verifySignature(prev.value.tx, block.vtx[k], i)
  {
    hide TxsConnect, RewardOk, ApplyBlock, TotalsOf, Source.FindPrev, ApplyTxs, CheckTransaction, Wrap, SumOut;
    if !CheckBlock(env, block) {
      return false;
    }
    hide CheckBlock;
    var b := PlacedAt(pindex, block);
    var queue, t;
    ok, queue, t := ConnectTxs(env, mempool, txdb, b, pindex, nBestHeight);
    if !ok {
      return;
    }
    ok := CheckReward(env, txdb, block, pindex, t, nBestHeight);
    if !ok {
      return;
    }
    pindex.nMint := t.nValueOut - t.nValueIn + t.nFees;
    var prevSupply := if pindex.pprev == null then 0 else pindex.pprev.nMoneySupply;
    pindex.nMoneySupply := Wrap(prevSupply + t.nValueOut - t.nValueIn - t.nBurnCoins);
    if nBestHeight >= env.nCheckpointHeight {
      ConnectedIsSigned(env, mempool, txdb.View(), pindex, block, nBestHeight);
    }
    ok := WriteQueue(txdb, queue);
  }

  /** The supply figures of a connected block. */
  ghost predicate Minted(env: Env, mempool: map<uint256, Tx>, ix: Index, pindex: CBlockIndex, block: Block)
    reads pindex, pindex.pprev
  {
    var t := TotalsOf(env, mempool, ix, PlacedAt(pindex, block), |block.vtx|);
    && pindex.nMint == t.nValueOut - t.nValueIn + t.nFees
    && pindex.nMoneySupply == Wrap((if pindex.pprev == null then 0 else pindex.pprev.nMoneySupply)
                                   + t.nValueOut - t.nValueIn - t.nBurnCoins)
  }

  // ----- disconnecting

  /** Every transaction, last one first, finds the records of its inputs. */
  ghost predicate UndoableTxs(env: Env, ix: Index, vtx: seq<Tx>, k: nat)
    requires k <= |vtx|
    decreases k
  {
    k == 0 ||
    ((forall o :: o in vtx[k - 1].Spends() ==> InRange(ix, o))
     && UndoableTxs(env, UndoTx(ix, env.txid(vtx[k - 1]), vtx[k - 1]), vtx, k - 1))
  }

  method DisconnectBlock(env: Env, txdb: CTxDB, block: Block) returns (ok: bool)
    requires txdb.activeBatch.Some?
    modifies txdb
    ensures txdb.activeBatch.Some? && txdb.stored == old(txdb.stored) && txdb.storedBest == old(txdb.storedBest)
    ensures txdb.BestView() == old(txdb.BestView()) && txdb.nWrites == old(txdb.nWrites)
    ensures ok == UndoableTxs(env, old(txdb.View()), block.vtx, |block.vtx|)
    ensures ok ==> txdb.View() == UndoTxs(env, old(txdb.View()), block.vtx, |block.vtx|)
  {
    hide Written, WrittenBest, InRange, MarkAll;
    var vtx, i := block.vtx, |block.vtx|;
    while i > 0
      invariant 0 <= i <= |vtx|
      invariant txdb.activeBatch.Some? && txdb.stored == old(txdb.stored) && txdb.storedBest == old(txdb.storedBest)
      invariant txdb.BestView() == old(txdb.BestView()) && txdb.nWrites == old(txdb.nWrites)
      invariant UndoTxs(env, txdb.View(), vtx, i) == UndoTxs(env, old(txdb.View()), vtx, |vtx|)
      invariant UndoableTxs(env, txdb.View(), vtx, i) == UndoableTxs(env, old(txdb.View()), vtx, |vtx|)
    {
      i := i - 1;
      ok := DisconnectInputs(env, txdb, vtx[i]);
      if !ok {
        return;
      }
    }
    ok := true;
  }

  /** A block that has just been connected with new ids can be disconnected. */
  lemma {:induction false} ConnectedIsUndoable(env: Env, ix: Index, b: Placed, k: nat)
    requires k <= |b.vtx|
    requires SpendableTxs(env, ix, b, k) && NoDuplicates(Ids(env, b.vtx)) && FreshIds(env, ix, b.vtx)
    ensures UndoableTxs(env, ApplyTxs(env, ix, b, k), b.vtx, k)
  {
    hide ApplyTx, Spendable, UndoTx, MarkAll, NoDuplicates, FreshIds;
    if k > 0 {
      StillFresh(env, ix, b, k - 1);
      JustApplied(ApplyTxs(env, ix, b, k - 1), env.txid(b.vtx[k - 1]), b.vtx[k - 1], TxPos(env, b, k - 1));
      ConnectedIsUndoable(env, ix, b, k - 1);
    }
  }

  lemma JustApplied(ix: Index, id: uint256, tx: Tx, pos: DiskTxPos)
    requires Spendable(ix, tx) && id !in ix
    ensures UndoTx(ApplyTx(ix, id, tx, pos), id, tx) == ix
    ensures forall o :: o in tx.Spends() ==> InRange(ApplyTx(ix, id, tx, pos), o)
  {
    UndoInvertsApply(ix, id, tx, pos);
    MarkAllAt(ix, tx.Spends(), pos);
    forall o | o in tx.Spends()
      ensures InRange(ApplyTx(ix, id, tx, pos), o)
    {
      assert IsUnspent(ix, o);
    }
  }
}
