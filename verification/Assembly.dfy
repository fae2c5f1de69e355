/** What the block assembler promises about the transactions it picks, and why the block then connects. */
module Assembly {
  import opened Transactions
  import opened Ledger
  import opened BlockIndex
  import opened ConnectInputs
  import opened ConnectBlock

  const MINING := Mode(false, true)

  /** The limits and outside facts the assembler goes by. */
  datatype Policy = Policy(
    nBlockMaxSize: nat,
    nBlockMinSize: nat,
    nMinTxFee: int,
    minFee: (Tx, nat) -> int,      // the fee a transaction needs at a block size
    nAdjustedTime: int,
    fProofOfStake: bool,
    nCoinbaseTime: int)

  /** Size, sigops and fees so far; the first two start with a reserve. */
  datatype Tally = Tally(nBlockSize: nat, nBlockSigOps: nat, nFees: int)

  /** The index as the assembler sees it after k transactions: their positions are not known yet. */
  function Mined(env: Env, db: Index, vtx: seq<Tx>, k: nat): Index
    requires k <= |vtx|
  {
    if k == 0 then db else ApplyTx(Mined(env, db, vtx, k - 1), env.txid(vtx[k - 1]), vtx[k - 1], MEMPOOL_POS)
  }

  function AddToTally(env: Env, src: Source, t: Tally, tx: Tx): Tally
    requires src.Fetchable(tx.Spends())
  {
    Tally(t.nBlockSize + env.txSize(tx),
          t.nBlockSigOps + env.legacySigOps(tx) + env.p2shSigOps(tx, src.FetchAll(tx.Spends()).txs),
          t.nFees + ValueOfInputs(src, tx) - tx.ValueOut())
  }

  /** The conditions on which a transaction is put into the block. */
  ghost predicate Accepts(env: Env, p: Policy, src: Source, t: Tally, tx: Tx, pindexPrev: CBlockIndex,
                          nBestHeight: int) {
    && t.nBlockSize + env.txSize(tx) < p.nBlockMaxSize
    && tx.nTime <= p.nAdjustedTime && (p.fProofOfStake ==> tx.nTime <= p.nCoinbaseTime)
    && src.Fetchable(tx.Spends())
    && AddToTally(env, src, t, tx).nBlockSigOps < MAX_BLOCK_SIGOPS
    && ValueOfInputs(src, tx) - tx.ValueOut() >= p.minFee(tx, t.nBlockSize)
    && Connectable(env, tx, src.FetchAll(tx.Spends()), pindexPrev, MINING, nBestHeight)
  }

  /** An ordinary transaction of the memory pool, under its own id. */
  predicate Pooled(env: Env, mempool: map<uint256, Tx>, tx: Tx) {
    env.txid(tx) in mempool && mempool[env.txid(tx)] == tx && !tx.IsCoinBase() && !tx.IsCoinStake()
  }

  function TallyOf(env: Env, mempool: map<uint256, Tx>, db: Index, vtx: seq<Tx>, k: nat): Tally
    requires k <= |vtx|
  {
    if k == 0 then Tally(1000, 100, 0)
    else
      var src, t := View(env, mempool, Mined(env, db, vtx, k - 1)), TallyOf(env, mempool, db, vtx, k - 1);
      if src.Fetchable(vtx[k - 1].Spends()) then AddToTally(env, src, t, vtx[k - 1]) else t
  }

  /** The first k transactions were accepted one after the other. */
  ghost predicate Assembled(env: Env, mempool: map<uint256, Tx>, db: Index, p: Policy, vtx: seq<Tx>, k: nat,
                            pindexPrev: CBlockIndex, nBestHeight: int)
    requires k <= |vtx|
  {
    k == 0 ||
    (Assembled(env, mempool, db, p, vtx, k - 1, pindexPrev, nBestHeight)
     && Pooled(env, mempool, vtx[k - 1])
     && Accepts(env, p, View(env, mempool, Mined(env, db, vtx, k - 1)), TallyOf(env, mempool, db, vtx, k - 1),
       vtx[k - 1], pindexPrev, nBestHeight))
  }

  // ----- positions do not matter

  /** What the leading transactions of a block spend, which the assembler knows nothing of. */
  function SpentBy(lead: seq<Tx>): seq<OutPoint> {
    if lead == [] then [] else SpentBy(lead[..|lead| - 1]) + lead[|lead| - 1].Spends()
  }

  /** The assembler's index m and the index c of the block being connected agree but for the positions of the
      block's own transactions, which c finds on disk, and for the outputs taken by the leading ones. */
  ghost predicate Alike(env: Env, mempool: map<uint256, Tx>, m: Index, c: Index, taken: seq<OutPoint>,
                        pindex: CBlockIndex) {
    forall h :: h in m ==>
      && h in c && SameOutputs(h, m[h], c[h], taken)
      && (SamePlace(m[h].pos, c[h].pos, pindex) || FoundOnDisk(env, mempool, h, m[h].pos, c[h].pos))
  }

  ghost predicate SameOutputs(h: uint256, m: TxIndex, c: TxIndex, taken: seq<OutPoint>) {
    && |m.vSpent| == |c.vSpent|
    && forall n :: 0 <= n < |m.vSpent| && OutPoint(h, n) !in taken ==>
      (m.vSpent[n] == NullPos <==> c.vSpent[n] == NullPos)
  }

  predicate SamePlace(m: DiskTxPos, c: DiskTxPos, pindex: CBlockIndex) {
    c == m && !InBlockFile(c, pindex)
  }

  predicate FoundOnDisk(env: Env, mempool: map<uint256, Tx>, h: uint256, m: DiskTxPos, c: DiskTxPos) {
    && m == MEMPOOL_POS && h in mempool && env.txAt(c) == Some(mempool[h])
    && !mempool[h].IsCoinBase() && !mempool[h].IsCoinStake()
  }

  /** The same previous transaction, with outputs spent or unspent alike. */
  ghost predicate SamePrevious(h: uint256, m: Prev, c: Prev, taken: seq<OutPoint>, pindex: CBlockIndex) {
    && c.tx == m.tx && SameOutputs(h, m.txindex, c.txindex, taken)
    && (SamePlace(m.txindex.pos, c.txindex.pos, pindex) || !(m.tx.IsCoinBase() || m.tx.IsCoinStake()))
  }

  lemma AlikePrev(env: Env, mempool: map<uint256, Tx>, m: Index, c: Index, taken: seq<OutPoint>, pindex: CBlockIndex,
                  h: uint256)
    requires Alike(env, mempool, m, c, taken, pindex) && View(env, mempool, m).FindPrev(h).Some?
    ensures h in m && View(env, mempool, c).FindPrev(h).Some?
    ensures View(env, mempool, m).FindPrev(h).value.txindex == m[h]
      && View(env, mempool, c).FindPrev(h).value.txindex == c[h]
    ensures SamePrevious(h, View(env, mempool, m).FindPrev(h).value, View(env, mempool, c).FindPrev(h).value, taken,
      pindex)
  {
    hide SameOutputs;
  }

  lemma AlikeFetch(env: Env, mempool: map<uint256, Tx>, m: Index, c: Index, taken: seq<OutPoint>, pindex: CBlockIndex,
                   os: seq<OutPoint>)
    requires Alike(env, mempool, m, c, taken, pindex) && View(env, mempool, m).Fetchable(os)
    ensures View(env, mempool, c).Fetchable(os)
    ensures var a, b := View(env, mempool, m).FetchAll(os), View(env, mempool, c).FetchAll(os);
      && a.txs == b.txs && a.records.Keys == b.records.Keys == a.txs.Keys
      && forall h :: h in a.txs ==> SamePrevious(h, a.Get(h), b.Get(h), taken, pindex)
  {
    hide Alike, Source.FindPrev;
    var v, w := View(env, mempool, m), View(env, mempool, c);
    forall h | h in HashesOf(os)
      ensures w.FindPrev(h).Some? && SamePrevious(h, v.FindPrev(h).value, w.FindPrev(h).value, taken, pindex)
    {
      AlikePrev(env, mempool, m, c, taken, pindex, h);
    }
    assert v.FetchAll(os).txs == w.FetchAll(os).txs;
  }

  /** One more block to look back over. */
  lemma {:induction false} ConfirmedFewer(pos: DiskTxPos, p: CBlockIndex?, n: nat)
    requires ConfirmedWithin(pos, p, n)
    ensures ConfirmedWithin(pos, p, n + 1)
    decreases n
  {
    if !InBlockFile(pos, p) { ConfirmedFewer(pos, p.pprev, n - 1); }
  }

  lemma AlikeInput(env: Env, tx: Tx, h: uint256, m: Prev, c: Prev, n: nat, taken: seq<OutPoint>, pindex: CBlockIndex)
    requires SamePrevious(h, m, c, taken, pindex) && pindex.pprev != null && InputOk(env, tx, m, n, pindex.pprev)
    ensures InputOk(env, tx, c, n, pindex)
  {
    if (c.tx.IsCoinBase() || c.tx.IsCoinStake()) && ConfirmedWithin(c.txindex.pos, pindex, env.nCoinbaseMaturity) {
      ConfirmedFewer(c.txindex.pos, pindex.pprev, env.nCoinbaseMaturity - 1);
    }
  }

  lemma {:induction false} SameValueIn(a: MapPrevTx, b: MapPrevTx, os: seq<OutPoint>)
    requires a.txs == b.txs && forall o :: o in os ==> o.hash in a.txs && o.n < |a.txs[o.hash].vout|
    ensures ValueIn(a, os) == ValueIn(b, os)
  {
    if os != [] {
      assert os[|os| - 1] in os;
      SameValueIn(a, b, os[..|os| - 1]);
    }
  }

  predicate Avoids(tx: Tx, taken: seq<OutPoint>) {
    forall o :: o in tx.Spends() ==> o !in taken
  }

  /** What connects for the assembler connects when the block is connected on top of the same block. */
  lemma AlikeConnects(env: Env, mempool: map<uint256, Tx>, m: Index, c: Index, taken: seq<OutPoint>,
                      pindex: CBlockIndex, tx: Tx, nBestHeight: int)
    requires Alike(env, mempool, m, c, taken, pindex) && Avoids(tx, taken) && pindex.pprev != null
    requires View(env, mempool, m).Fetchable(tx.Spends())
    requires Connectable(env, tx, View(env, mempool, m).FetchAll(tx.Spends()), pindex.pprev, MINING, nBestHeight)
    ensures View(env, mempool, c).Fetchable(tx.Spends())
    ensures Connectable(env, tx, View(env, mempool, c).FetchAll(tx.Spends()), pindex, CONNECTING, nBestHeight)
    ensures ValueOfInputs(View(env, mempool, c), tx) == ValueOfInputs(View(env, mempool, m), tx)
    ensures View(env, mempool, c).FetchAll(tx.Spends()).txs == View(env, mempool, m).FetchAll(tx.Spends()).txs
  {
    hide Alike, Source.FindPrev, Source.AllFound, Source.FetchAll, SamePrevious, InputOk, ConfirmedWithin, ValueIn,
      Avoids;
    var os := tx.Spends();
    AlikeFetch(env, mempool, m, c, taken, pindex, os);
    var a, b := View(env, mempool, m).FetchAll(os), View(env, mempool, c).FetchAll(os);
    FetchedAll(View(env, mempool, m), os);
    FetchedAll(View(env, mempool, c), os);
    forall o | o in os
      ensures b.Has(o.hash) && InputOk(env, tx, b.Get(o.hash), o.n, pindex)
    {
      AlikeInput(env, tx, o.hash, a.Get(o.hash), b.Get(o.hash), o.n, taken, pindex);
    }
    SameValueIn(a, b, os);
    AlikeSpendable(a, b, taken, pindex, tx);
  }

  lemma FetchedAll(src: Source, os: seq<OutPoint>)
    requires src.Fetchable(os)
    ensures forall o :: o in os ==> src.FetchAll(os).Has(o.hash) && o.n < |src.FetchAll(os).txs[o.hash].vout|
  {
  }

  lemma AlikeSpendable(a: MapPrevTx, b: MapPrevTx, taken: seq<OutPoint>, pindex: CBlockIndex, tx: Tx)
    requires a.txs == b.txs && a.records.Keys == b.records.Keys == a.txs.Keys
    requires forall h :: h in a.txs ==> SamePrevious(h, a.Get(h), b.Get(h), taken, pindex)
    requires Spendable(a.records, tx) && Avoids(tx, taken)
    ensures Spendable(b.records, tx)
  {
    forall o | o in tx.Spends()
      ensures IsUnspent(b.records, o)
    {
      assert IsUnspent(a.records, o) && SamePrevious(o.hash, a.Get(o.hash), b.Get(o.hash), taken, pindex);
      assert o == OutPoint(o.hash, o.n);
    }
  }

  // ----- the index of the block being connected

  lemma AlikeMarked(env: Env, mempool: map<uint256, Tx>, m: Index, c: Index, taken: seq<OutPoint>, pindex: CBlockIndex,
                    os: seq<OutPoint>, p: DiskTxPos, q: DiskTxPos)
    requires Alike(env, mempool, m, c, taken, pindex) && p.At? && q.At?
    ensures Alike(env, mempool, MarkAll(m, os, p), MarkAll(c, os, q), taken, pindex)
  {
    hide MarkAll, SamePlace, FoundOnDisk;
    MarkAllAt(m, os, p);
    MarkAllAt(c, os, q);
  }

  lemma AlikeApplied(env: Env, mempool: map<uint256, Tx>, m: Index, c: Index, taken: seq<OutPoint>, pindex: CBlockIndex,
                     tx: Tx, q: DiskTxPos)
    requires Alike(env, mempool, m, c, taken, pindex) && q.At? && Pooled(env, mempool, tx) && env.txAt(q) == Some(tx)
    ensures Alike(env, mempool, ApplyTx(m, env.txid(tx), tx, MEMPOOL_POS), ApplyTx(c, env.txid(tx), tx, q), taken,
      pindex)
  {
    hide MarkAll;
    AlikeMarked(env, mempool, m, c, taken, pindex, tx.Spends(), MEMPOOL_POS, q);
    assert FoundOnDisk(env, mempool, env.txid(tx), MEMPOOL_POS, q);
  }

  /** A leading transaction changes the index of the block being connected only. */
  lemma AlikeLed(env: Env, mempool: map<uint256, Tx>, m: Index, c: Index, taken: seq<OutPoint>, pindex: CBlockIndex,
                 tx: Tx, q: DiskTxPos)
    requires Alike(env, mempool, m, c, taken, pindex) && env.txid(tx) !in m
    ensures Alike(env, mempool, m, ApplyTx(c, env.txid(tx), tx, q), taken + tx.Spends(), pindex)
  {
    hide MarkAll, SamePlace, FoundOnDisk;
    MarkAllAt(c, tx.Spends(), q);
  }

  /** The block is on disk, behind leading transactions whose ids are new and that no other transaction of the
      block is in conflict with, at a place no earlier record points to. */
  ghost predicate OnDiskAt(env: Env, mempool: map<uint256, Tx>, db: Index, lead: seq<Tx>, vtx: seq<Tx>,
                           pindex: CBlockIndex) {
    var b := Placed(pindex.nFile, pindex.nBlockPos, lead + vtx);
    && (forall i :: 0 <= i < |lead| ==> env.txid(lead[i]) !in db && env.txid(lead[i]) !in mempool)
    && (forall i :: 0 <= i < |vtx| ==> Avoids(vtx[i], SpentBy(lead)))
    && (forall h :: h in db ==> !InBlockFile(db[h].pos, pindex))
    && (forall i :: 0 <= i < |b.vtx| ==> env.txAt(TxPos(env, b, i)) == Some(b.vtx[i]))
  }

  lemma {:induction false} AlikeStart(env: Env, mempool: map<uint256, Tx>, db: Index, lead: seq<Tx>, vtx: seq<Tx>,
                                      j: nat, pindex: CBlockIndex)
    requires j <= |lead| && OnDiskAt(env, mempool, db, lead, vtx, pindex)
    ensures var b := Placed(pindex.nFile, pindex.nBlockPos, lead + vtx);
      Alike(env, mempool, db, ApplyTxs(env, db, b, j), SpentBy(lead[..j]), pindex)
  {
    hide TxPos, ApplyTx, Avoids;
    if j > 0 {
      var b := Placed(pindex.nFile, pindex.nBlockPos, lead + vtx);
      AlikeStart(env, mempool, db, lead, vtx, j - 1, pindex);
      assert lead[..j][..j - 1] == lead[..j - 1] && b.vtx[j - 1] == lead[j - 1];
      AlikeLed(env, mempool, db, ApplyTxs(env, db, b, j - 1), SpentBy(lead[..j - 1]), pindex, lead[j - 1],
        TxPos(env, b, j - 1));
    }
  }

  lemma FoundAt(env: Env, mempool: map<uint256, Tx>, db: Index, lead: seq<Tx>, vtx: seq<Tx>, k: nat,
                pindex: CBlockIndex)
    requires k < |vtx| && OnDiskAt(env, mempool, db, lead, vtx, pindex)
    ensures var b := Placed(pindex.nFile, pindex.nBlockPos, lead + vtx);
      b.vtx[|lead| + k] == vtx[k] && TxPos(env, b, |lead| + k).At?
        && env.txAt(TxPos(env, b, |lead| + k)) == Some(vtx[k])
    ensures Avoids(vtx[k], SpentBy(lead))
  {
    hide Avoids, SpentBy;
    assert (lead + vtx)[|lead| + k] == vtx[k];
  }

  lemma {:induction false} AlikeThroughout(env: Env, mempool: map<uint256, Tx>, db: Index, p: Policy, lead: seq<Tx>,
                                           vtx: seq<Tx>, k: nat,
                                           pindexPrev: CBlockIndex, pindex: CBlockIndex, nBestHeight: int)
    requires k <= |vtx| && OnDiskAt(env, mempool, db, lead, vtx, pindex)
    requires Assembled(env, mempool, db, p, vtx, k, pindexPrev, nBestHeight)
    ensures var b := Placed(pindex.nFile, pindex.nBlockPos, lead + vtx);
      Alike(env, mempool, Mined(env, db, vtx, k), ApplyTxs(env, db, b, |lead| + k), SpentBy(lead), pindex)
    decreases k
  {
    hide Alike, Accepts, Pooled, ApplyTx, TallyOf, OnDiskAt, SpentBy, TxPos;
    var b := Placed(pindex.nFile, pindex.nBlockPos, lead + vtx);
    if k == 0 {
      AlikeStart(env, mempool, db, lead, vtx, |lead|, pindex);
      assert lead[..|lead|] == lead;
    } else {
      AlikeThroughout(env, mempool, db, p, lead, vtx, k - 1, pindexPrev, pindex, nBestHeight);
      var i := |lead| + k - 1;
      FoundAt(env, mempool, db, lead, vtx, k - 1, pindex);
      AlikeApplied(env, mempool, Mined(env, db, vtx, k - 1), ApplyTxs(env, db, b, i), SpentBy(lead), pindex, vtx[k - 1],
        TxPos(env, b, i));
    }
  }

  /** When the block is connected, a picked transaction finds what the assembler found for it. */
  lemma PickedAlike(env: Env, mempool: map<uint256, Tx>, db: Index, p: Policy, lead: seq<Tx>, vtx: seq<Tx>, k: nat,
                    pindex: CBlockIndex, nBestHeight: int)
    requires 0 < k <= |vtx| && OnDiskAt(env, mempool, db, lead, vtx, pindex) && pindex.pprev != null
    requires Assembled(env, mempool, db, p, vtx, k, pindex.pprev, nBestHeight)
    ensures var b, tx := Placed(pindex.nFile, pindex.nBlockPos, lead + vtx), vtx[k - 1];
      var m, c := View(env, mempool, Mined(env, db, vtx, k - 1)),
        View(env, mempool, ApplyTxs(env, db, b, |lead| + k - 1));
      && b.vtx[|lead| + k - 1] == tx && Pooled(env, mempool, tx)
      && m.Fetchable(tx.Spends()) && c.Fetchable(tx.Spends())
      && c.FetchAll(tx.Spends()).txs == m.FetchAll(tx.Spends()).txs
      && ValueOfInputs(c, tx) == ValueOfInputs(m, tx)
      && AddToTally(env, m, TallyOf(env, mempool, db, vtx, k - 1), tx).nBlockSigOps < MAX_BLOCK_SIGOPS
      && SpenderConnects(env, c, tx, pindex, nBestHeight)
  {
    hide Alike, Connectable, ApplyTxs, Mined, Source.FindPrev, Source.AllFound, Source.FetchAll, TallyOf, AddToTally,
      OnDiskAt, SpentBy, ValueOfInputs, Avoids, Pooled;
    var b := Placed(pindex.nFile, pindex.nBlockPos, lead + vtx);
    AlikeThroughout(env, mempool, db, p, lead, vtx, k - 1, pindex.pprev, pindex, nBestHeight);
    FoundAt(env, mempool, db, lead, vtx, k - 1, pindex);
    AlikeConnects(env, mempool, Mined(env, db, vtx, k - 1), ApplyTxs(env, db, b, |lead| + k - 1), SpentBy(lead), pindex,
      vtx[k - 1], nBestHeight);
  }

  /** The assembler counts fees and sigops as ConnectBlock will, apart from its reserve and the leading
      transactions, and what it picks adds nothing to the stake reward. */
  lemma {:induction false} SameTotals(env: Env, mempool: map<uint256, Tx>, db: Index, p: Policy, lead: seq<Tx>,
                                      vtx: seq<Tx>, k: nat,
                                      pindex: CBlockIndex, nBestHeight: int)
    requires k <= |vtx| && OnDiskAt(env, mempool, db, lead, vtx, pindex) && pindex.pprev != null
    requires Assembled(env, mempool, db, p, vtx, k, pindex.pprev, nBestHeight)
    ensures var b := Placed(pindex.nFile, pindex.nBlockPos, lead + vtx);
      var t0, t, y := TotalsOf(env, mempool, db, b, |lead|), TotalsOf(env, mempool, db, b, |lead| + k),
        TallyOf(env, mempool, db, vtx, k);
      t.nFees == t0.nFees + y.nFees && t.nSigOps == t0.nSigOps + y.nBlockSigOps - 100
        && t.nStakeReward == t0.nStakeReward
    decreases k
  {
    hide Accepts, ApplyTxs, Mined, Source.Fetchable, Source.FetchAll, TotalsOf, TallyOf, AddTx, AddToTally, OnDiskAt,
      SpenderConnects, ValueOfInputs;
    var b := Placed(pindex.nFile, pindex.nBlockPos, lead + vtx);
    if k == 0 {
      assert TallyOf(env, mempool, db, vtx, 0) == Tally(1000, 100, 0) by { TallyStart(env, mempool, db, vtx); }
    } else {
      var i, tx := |lead| + k - 1, vtx[k - 1];
      SameTotals(env, mempool, db, p, lead, vtx, k - 1, pindex, nBestHeight);
      PickedAlike(env, mempool, db, p, lead, vtx, k, pindex, nBestHeight);
      TotalsStep(env, mempool, db, b, i);
      TallyStep(env, mempool, db, vtx, k);
      SameAdded(env, mempool, Mined(env, db, vtx, k - 1), ApplyTxs(env, db, b, i),
                TotalsOf(env, mempool, db, b, i), TallyOf(env, mempool, db, vtx, k - 1), tx);
    }
  }

  lemma TallyStart(env: Env, mempool: map<uint256, Tx>, db: Index, vtx: seq<Tx>)
    ensures TallyOf(env, mempool, db, vtx, 0) == Tally(1000, 100, 0)
  {
  }

  lemma SameAdded(env: Env, mempool: map<uint256, Tx>, m: Index, c: Index, t: Totals, y: Tally, tx: Tx)
    requires View(env, mempool, m).Fetchable(tx.Spends()) && View(env, mempool, c).Fetchable(tx.Spends())
    requires View(env, mempool, c).FetchAll(tx.Spends()).txs == View(env, mempool, m).FetchAll(tx.Spends()).txs
    requires ValueOfInputs(View(env, mempool, c), tx) == ValueOfInputs(View(env, mempool, m), tx)
    requires !tx.IsCoinBase() && !tx.IsCoinStake()
    ensures AddTx(env, View(env, mempool, c), t, tx).nFees - t.nFees == AddToTally(env, View(env, mempool, m), y,
      tx).nFees - y.nFees
    ensures AddTx(env, View(env, mempool, c), t, tx).nSigOps - t.nSigOps
         == AddToTally(env, View(env, mempool, m), y, tx).nBlockSigOps - y.nBlockSigOps
    ensures AddTx(env, View(env, mempool, c), t, tx).nStakeReward == t.nStakeReward
  {
    hide Source.FindPrev, Source.AllFound, Source.FetchAll, Wrap, ValueOfInputs, SumOut;
  }

  /** A block whose transactions the assembler has picked passes ConnectBlock transaction by transaction, if its
      leading transactions do and keep to the reserve of sigops. */
  lemma {:induction false} AssembledConnects(env: Env, mempool: map<uint256, Tx>, db: Index, p: Policy, lead: seq<Tx>,
                                             vtx: seq<Tx>, k: nat,
                                             pindex: CBlockIndex, nBestHeight: int)
    requires k <= |vtx| && OnDiskAt(env, mempool, db, lead, vtx, pindex) && pindex.pprev != null
    requires forall h :: h in mempool ==> h !in db
    requires var b := Placed(pindex.nFile, pindex.nBlockPos, lead + vtx);
      TxsConnect(env, mempool, db, b, |lead|, pindex, nBestHeight)
        && TotalsOf(env, mempool, db, b, |lead|).nSigOps <= 100
    requires Assembled(env, mempool, db, p, vtx, k, pindex.pprev, nBestHeight)
    ensures TxsConnect(env, mempool, db, Placed(pindex.nFile, pindex.nBlockPos, lead + vtx), |lead| + k, pindex,
      nBestHeight)
    decreases k
  {
    hide Accepts, ApplyTxs, Mined, TotalsOf, TallyOf, OnDiskAt, TxConnects, Pooled;
    if k > 0 {
      AssembledConnects(env, mempool, db, p, lead, vtx, k - 1, pindex, nBestHeight);
      PickedConnects(env, mempool, db, p, lead, vtx, k, pindex, nBestHeight);
    }
  }

  lemma PickedConnects(env: Env, mempool: map<uint256, Tx>, db: Index, p: Policy, lead: seq<Tx>, vtx: seq<Tx>, k: nat,
                       pindex: CBlockIndex, nBestHeight: int)
    requires 0 < k <= |vtx| && OnDiskAt(env, mempool, db, lead, vtx, pindex) && pindex.pprev != null
    requires forall h :: h in mempool ==> h !in db
    requires TotalsOf(env, mempool, db, Placed(pindex.nFile, pindex.nBlockPos, lead + vtx), |lead|).nSigOps <= 100
    requires Assembled(env, mempool, db, p, vtx, k, pindex.pprev, nBestHeight)
    ensures TxConnects(env, mempool, db, Placed(pindex.nFile, pindex.nBlockPos, lead + vtx), |lead| + k - 1, pindex,
      nBestHeight)
  {
    hide Assembled, ApplyTxs, Mined, Source.Fetchable, Source.FetchAll, TotalsOf, TallyOf, AddTx, AddToTally, OnDiskAt,
      SpenderConnects, ValueOfInputs;
    var b, i, tx := Placed(pindex.nFile, pindex.nBlockPos, lead + vtx), |lead| + k - 1, vtx[k - 1];
    PickedAlike(env, mempool, db, p, lead, vtx, k, pindex, nBestHeight);
    PooledNew(env, mempool, db, tx);
    SameTotals(env, mempool, db, p, lead, vtx, k, pindex, nBestHeight);
    TotalsStep(env, mempool, db, b, i);
    TallyStep(env, mempool, db, vtx, k);
  }

  lemma PooledNew(env: Env, mempool: map<uint256, Tx>, db: Index, tx: Tx)
    requires Pooled(env, mempool, tx) && forall h :: h in mempool ==> h !in db
    ensures env.txid(tx) !in db
  {
  }

  lemma TotalsStep(env: Env, mempool: map<uint256, Tx>, db: Index, b: Placed, k: nat)
    requires k < |b.vtx|
    ensures TotalsOf(env, mempool, db, b, k + 1) ==
      AddTx(env, View(env, mempool, ApplyTxs(env, db, b, k)), TotalsOf(env, mempool, db, b, k), b.vtx[k])
  {
  }

  lemma TallyStep(env: Env, mempool: map<uint256, Tx>, db: Index, vtx: seq<Tx>, k: nat)
    requires 0 < k <= |vtx| && View(env, mempool, Mined(env, db, vtx, k - 1)).Fetchable(vtx[k - 1].Spends())
    ensures TallyOf(env, mempool, db, vtx, k) ==
      AddToTally(env, View(env, mempool, Mined(env, db, vtx, k - 1)), TallyOf(env, mempool, db, vtx, k - 1), vtx[k - 1])
  {
  }

  /** A new coinbase connects by itself. */
  lemma CoinbaseConnects(env: Env, mempool: map<uint256, Tx>, db: Index, vtx: seq<Tx>, pindex: CBlockIndex,
                         nBestHeight: int)
    requires vtx != [] && vtx[0].IsCoinBase() && env.txid(vtx[0]) !in db && env.legacySigOps(vtx[0]) <= 100
    ensures var b := Placed(pindex.nFile, pindex.nBlockPos, vtx);
      && TxsConnect(env, mempool, db, b, 1, pindex, nBestHeight)
      && TotalsOf(env, mempool, db, b, 1).nFees == 0
      && TotalsOf(env, mempool, db, b, 1).nSigOps == env.legacySigOps(vtx[0])
  {
    hide ApplyTxs;
    var b := Placed(pindex.nFile, pindex.nBlockPos, vtx);
    assert TotalsOf(env, mempool, db, b, 0) == Totals(0, 0, 0, 0, 0, 0);
    assert TxsConnect(env, mempool, db, b, 0, pindex, nBestHeight);
  }

  /** With the fees as its reward, a proof-of-work block that passes CheckBlock connects. */
  lemma AssembledBlockConnects(env: Env, mempool: map<uint256, Tx>, db: Index, p: Policy, block: Block,
                               pindex: CBlockIndex, nBestHeight: int)
    requires block.vtx != [] && pindex.pprev != null && CheckBlock(env, block) && !block.IsProofOfStake()
    requires forall h :: h in mempool ==> h !in db
    requires env.legacySigOps(block.vtx[0]) <= 100
    requires OnDiskAt(env, mempool, db, block.vtx[..1], block.vtx[1..], pindex)
    requires Assembled(env, mempool, db, p, block.vtx[1..], |block.vtx| - 1, pindex.pprev, nBestHeight)
    requires block.vtx[0].ValueOut() <= PowSubsidy(nBestHeight + 1) + TallyOf(env, mempool, db, block.vtx[1..],
      |block.vtx| - 1).nFees
    ensures BlockConnects(env, mempool, db, pindex, block, nBestHeight)
  {
    hide Assembled, OnDiskAt, CheckTransaction, TxsConnect, TotalsOf, TallyOf, PowSubsidy, LegacySigOps;
    var lead, vtx := block.vtx[..1], block.vtx[1..];
    assert block.vtx == lead + vtx;
    NewLead(env, mempool, db, lead, vtx, pindex, 0);
    CoinbaseConnects(env, mempool, db, block.vtx, pindex, nBestHeight);
    AssembledConnects(env, mempool, db, p, lead, vtx, |vtx|, pindex, nBestHeight);
    SameTotals(env, mempool, db, p, lead, vtx, |vtx|, pindex, nBestHeight);
  }

  lemma NewLead(env: Env, mempool: map<uint256, Tx>, db: Index, lead: seq<Tx>, vtx: seq<Tx>, pindex: CBlockIndex,
                i: nat)
    requires i < |lead| && OnDiskAt(env, mempool, db, lead, vtx, pindex)
    ensures env.txid(lead[i]) !in db
  {
  }

  /** A proof-of-stake block connects if its coinstake does: with the assembler's fees the coinstake pays itself no
      more than its reward, and it takes no output that a picked transaction spends. */
  lemma AssembledStakeConnects(env: Env, mempool: map<uint256, Tx>, db: Index, p: Policy, block: Block,
                               pindex: CBlockIndex, nBestHeight: int)
    requires pindex.pprev != null && CheckBlock(env, block) && block.IsProofOfStake()
    requires forall h :: h in mempool ==> h !in db
    requires OnDiskAt(env, mempool, db, block.vtx[..2], block.vtx[2..], pindex)
    requires Assembled(env, mempool, db, p, block.vtx[2..], |block.vtx| - 2, pindex.pprev, nBestHeight)
    requires var b := PlacedAt(pindex, block);
      var t := TotalsOf(env, mempool, db, b, 2);
      && TxsConnect(env, mempool, db, b, 2, pindex, nBestHeight) && t.nSigOps <= 100
      && RewardOk(env, db, block, pindex, t.(nFees := TallyOf(env, mempool, db, block.vtx[2..], |block.vtx| - 2).nFees),
        nBestHeight)
    ensures BlockConnects(env, mempool, db, pindex, block, nBestHeight)
  {
    hide Assembled, OnDiskAt, CheckTransaction, TxsConnect, TotalsOf, TallyOf, LegacySigOps, FundPaid,
      ProofOfStakeReward;
    var lead, vtx := block.vtx[..2], block.vtx[2..];
    assert block.vtx == lead + vtx;
    NoFeesYet(env, mempool, db, block, pindex);
    AssembledConnects(env, mempool, db, p, lead, vtx, |vtx|, pindex, nBestHeight);
    SameTotals(env, mempool, db, p, lead, vtx, |vtx|, pindex, nBestHeight);
  }

  lemma NoFeesYet(env: Env, mempool: map<uint256, Tx>, db: Index, block: Block, pindex: CBlockIndex)
    requires CheckBlock(env, block) && block.IsProofOfStake()
    ensures TotalsOf(env, mempool, db, PlacedAt(pindex, block), 2).nFees == 0
  {
    hide ApplyTxs, CheckTransaction, LegacySigOps, Source.Fetchable;
    assert TotalsOf(env, mempool, db, PlacedAt(pindex, block), 0) == Totals(0, 0, 0, 0, 0, 0);
    assert TotalsOf(env, mempool, db, PlacedAt(pindex, block), 1).nFees == 0;
  }

  // ----- what the block contains

  function IdSet(env: Env, vtx: seq<Tx>): set<uint256> {
    set i | 0 <= i < |vtx| :: env.txid(vtx[i])
  }

  /** The block stays below its limits. */
  lemma AssembledLimits(env: Env, mempool: map<uint256, Tx>, db: Index, p: Policy, vtx: seq<Tx>, k: nat,
                        pindexPrev: CBlockIndex, nBestHeight: int)
    requires 0 < k <= |vtx| && Assembled(env, mempool, db, p, vtx, k, pindexPrev, nBestHeight)
    ensures TallyOf(env, mempool, db, vtx, k).nBlockSize < p.nBlockMaxSize
    ensures TallyOf(env, mempool, db, vtx, k).nBlockSigOps < MAX_BLOCK_SIGOPS
  {
    hide Connectable, Source.FindPrev, Source.AllFound, Source.FetchAll, Mined;
    TallyStep(env, mempool, db, vtx, k);
  }

  lemma {:induction false} TallySizes(env: Env, mempool: map<uint256, Tx>, db: Index, p: Policy, vtx: seq<Tx>, k: nat,
                                      pindexPrev: CBlockIndex, nBestHeight: int)
    requires k <= |vtx| && Assembled(env, mempool, db, p, vtx, k, pindexPrev, nBestHeight)
    ensures TallyOf(env, mempool, db, vtx, k).nBlockSize == 1000 + TotalSize(env, vtx[..k])
  {
    hide Connectable, Source.FindPrev, Source.AllFound, Source.FetchAll, Mined;
    if k > 0 {
      TallySizes(env, mempool, db, p, vtx, k - 1, pindexPrev, nBestHeight);
      TallyStep(env, mempool, db, vtx, k);
      assert vtx[..k][..k - 1] == vtx[..k - 1];
    }
  }

  predicate Fresh(mempool: map<uint256, Tx>, db: Index) {
    forall h :: h in mempool ==> h !in db && mempool[h].vin != []
  }

  /** Each transaction spends what is unspent when it is added. */
  predicate SpendsInTurn(env: Env, db: Index, vtx: seq<Tx>, k: nat)
    requires k <= |vtx|
  {
    k == 0 || (SpendsInTurn(env, db, vtx, k - 1) && Spendable(Mined(env, db, vtx, k - 1), vtx[k - 1]))
  }

  predicate AllPooled(env: Env, mempool: map<uint256, Tx>, vtx: seq<Tx>) {
    forall i :: 0 <= i < |vtx| ==> Pooled(env, mempool, vtx[i])
  }

  /** The records fetched are those of the index. */
  lemma FetchedSpendable(env: Env, mempool: map<uint256, Tx>, ix: Index, tx: Tx)
    requires View(env, mempool, ix).Fetchable(tx.Spends())
    requires Spendable(View(env, mempool, ix).FetchAll(tx.Spends()).records, tx)
    ensures Spendable(ix, tx)
  {
    var src := View(env, mempool, ix);
    var records := src.FetchAll(tx.Spends()).records;
    forall o | o in tx.Spends()
      ensures IsUnspent(ix, o)
    {
      assert IsUnspent(records, o) && src.FindPrev(o.hash).Some?;
    }
  }

  lemma {:induction false} AssembledInTurn(env: Env, mempool: map<uint256, Tx>, db: Index, p: Policy, vtx: seq<Tx>,
                                           k: nat,
                                           pindexPrev: CBlockIndex, nBestHeight: int)
    requires k <= |vtx| && Assembled(env, mempool, db, p, vtx, k, pindexPrev, nBestHeight)
    ensures SpendsInTurn(env, db, vtx, k) && AllPooled(env, mempool, vtx[..k])
    decreases k
  {
    hide InputsOk, SignaturesOk, FeeOk, Mined, ValueIn, Spendable, Pooled, Source.FindPrev, Source.AllFound,
      Source.FetchAll, TallyOf, AddToTally;
    if k > 0 {
      AssembledInTurn(env, mempool, db, p, vtx, k - 1, pindexPrev, nBestHeight);
      FetchedSpendable(env, mempool, Mined(env, db, vtx, k - 1), vtx[k - 1]);
      assert vtx[..k] == vtx[..k - 1] + [vtx[k - 1]];
    }
  }

  /** Everything the first k transactions spend is spent in the index. */
  ghost predicate AllSpent(ix: Index, vtx: seq<Tx>, k: nat)
    requires k <= |vtx|
  {
    forall i, o :: 0 <= i < k && o in vtx[i].Spends() ==> InRange(ix, o) && !IsUnspent(ix, o)
  }

  /** The index holds the chain's records and those of the block's transactions, which are all different. */
  ghost predicate Holds(env: Env, db: Index, ix: Index, vtx: seq<Tx>, k: nat)
    requires k <= |vtx|
  {
    && (forall h :: h in ix <==> h in db || h in IdSet(env, vtx[..k]))
    && NoDuplicates(Ids(env, vtx[..k]))
  }

  lemma {:induction false} SpentThroughout(env: Env, mempool: map<uint256, Tx>, db: Index, vtx: seq<Tx>, k: nat)
    requires k <= |vtx| && SpendsInTurn(env, db, vtx, k) && AllPooled(env, mempool, vtx[..k]) && Fresh(mempool, db)
    ensures AllSpent(Mined(env, db, vtx, k), vtx, k) && Holds(env, db, Mined(env, db, vtx, k), vtx, k)
    decreases k
  {
    hide AllSpent, Holds, Fresh, Mined, Spendable, AllPooled;
    if k == 0 {
      NoneSpent(env, db, vtx);
    } else {
      FewerPooled(env, mempool, vtx, k);
      SpentThroughout(env, mempool, db, vtx, k - 1);
      NewId(env, mempool, db, Mined(env, db, vtx, k - 1), vtx, k);
      HoldsStep(env, db, Mined(env, db, vtx, k - 1), vtx, k);
      SpentStep(env, Mined(env, db, vtx, k - 1), vtx, k);
      MinedStep(env, db, vtx, k);
    }
  }

  lemma FewerPooled(env: Env, mempool: map<uint256, Tx>, vtx: seq<Tx>, k: nat)
    requires 0 < k <= |vtx| && AllPooled(env, mempool, vtx[..k])
    ensures AllPooled(env, mempool, vtx[..k - 1]) && Pooled(env, mempool, vtx[k - 1])
  {
    assert vtx[..k][k - 1] == vtx[k - 1];
    var front := vtx[..k - 1];
    forall i | 0 <= i < |front|
      ensures Pooled(env, mempool, front[i])
    {
      assert vtx[..k][i] == front[i];
    }
  }

  lemma MinedStep(env: Env, db: Index, vtx: seq<Tx>, k: nat)
    requires 0 < k <= |vtx|
    ensures Mined(env, db, vtx, k) == ApplyTx(Mined(env, db, vtx, k - 1), env.txid(vtx[k - 1]), vtx[k - 1], MEMPOOL_POS)
  {
  }

  lemma NoneSpent(env: Env, db: Index, vtx: seq<Tx>)
    ensures AllSpent(Mined(env, db, vtx, 0), vtx, 0) && Holds(env, db, Mined(env, db, vtx, 0), vtx, 0)
  {
  }

  /** No transaction is picked twice: its inputs would be spent. */
  lemma NewId(env: Env, mempool: map<uint256, Tx>, db: Index, ix: Index, vtx: seq<Tx>, k: nat)
    requires 0 < k <= |vtx| && AllPooled(env, mempool, vtx[..k]) && Fresh(mempool, db)
    requires AllSpent(ix, vtx, k - 1) && Spendable(ix, vtx[k - 1])
    ensures env.txid(vtx[k - 1]) !in db && env.txid(vtx[k - 1]) !in IdSet(env, vtx[..k - 1])
  {
    hide InRange, IsUnspent;
    var tx := vtx[k - 1];
    assert vtx[..k][k - 1] == tx;
    var o := Prevouts(tx.vin)[0];
    assert o in tx.Spends();
    forall i | 0 <= i < k - 1
      ensures env.txid(vtx[i]) != env.txid(tx)
    {
      assert vtx[..k][i] == vtx[i];
      assert vtx[i] != tx;
    }
    var front := vtx[..k - 1];
    forall i | 0 <= i < |front|
      ensures env.txid(front[i]) != env.txid(tx)
    {
      assert front[i] == vtx[i];
    }
  }

  lemma SpentStep(env: Env, ix: Index, vtx: seq<Tx>, k: nat)
    requires 0 < k <= |vtx| && AllSpent(ix, vtx, k - 1) && Spendable(ix, vtx[k - 1]) && env.txid(vtx[k - 1]) !in ix
    ensures AllSpent(ApplyTx(ix, env.txid(vtx[k - 1]), vtx[k - 1], MEMPOOL_POS), vtx, k)
  {
    hide MarkAll;
    var tx := vtx[k - 1];
    MarkAllAt(ix, tx.Spends(), MEMPOOL_POS);
    forall i, o | 0 <= i < k && o in vtx[i].Spends()
      ensures InRange(ApplyTx(ix, env.txid(tx), tx, MEMPOOL_POS), o)
        && !IsUnspent(ApplyTx(ix, env.txid(tx), tx, MEMPOOL_POS), o)
    {
      assert InRange(ix, o);
      assert OutPoint(o.hash, o.n) == o;
    }
  }

  lemma HoldsStep(env: Env, db: Index, ix: Index, vtx: seq<Tx>, k: nat)
    requires 0 < k <= |vtx| && Holds(env, db, ix, vtx, k - 1)
    requires env.txid(vtx[k - 1]) !in db && env.txid(vtx[k - 1]) !in IdSet(env, vtx[..k - 1])
    ensures env.txid(vtx[k - 1]) !in ix
    ensures Holds(env, db, ApplyTx(ix, env.txid(vtx[k - 1]), vtx[k - 1], MEMPOOL_POS), vtx, k)
  {
    hide MarkAll;
    var tx, id := vtx[k - 1], env.txid(vtx[k - 1]);
    MarkAllAt(ix, tx.Spends(), MEMPOOL_POS);
    var a, b := vtx[..k - 1], vtx[..k];
    assert b == a + [tx];
    assert IdSet(env, b) == IdSet(env, a) + {id};
    assert Ids(env, b) == Ids(env, a) + [id];
    forall i | 0 <= i < |a|
      ensures Ids(env, a)[i] in IdSet(env, a)
    {
    }
  }

  /** Every input is unspent in the chain or comes from a transaction earlier in the block, no transaction is in
      the block twice and no outpoint is spent twice. */
  lemma {:induction false} NothingTwice(env: Env, mempool: map<uint256, Tx>, db: Index, vtx: seq<Tx>, k: nat)
    requires k <= |vtx| && SpendsInTurn(env, db, vtx, k) && AllPooled(env, mempool, vtx[..k]) && Fresh(mempool, db)
    ensures NoDuplicates(Ids(env, vtx[..k]))
    ensures forall i, o :: 0 <= i < k && o in vtx[i].Spends() ==> o.hash in db || o.hash in IdSet(env, vtx[..i])
    ensures forall i, j, o :: 0 <= i < j < k && o in vtx[i].Spends() ==> o !in vtx[j].Spends()
    decreases k
  {
    hide Fresh, Mined, IdSet, AllPooled, Ids;
    if k > 0 {
      FewerPooled(env, mempool, vtx, k);
      NothingTwice(env, mempool, db, vtx, k - 1);
      SpentThroughout(env, mempool, db, vtx, k - 1);
      SpentThroughout(env, mempool, db, vtx, k);
    } else {
      NoneSpent(env, db, vtx);
    }
  }
}
