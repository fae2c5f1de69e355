/** What the assembler demands of the transactions it picks, said of the transactions picked before, and the limits it
    is configured with. */
module MinerRules {
  import opened Basics
  import opened Transactions
  import opened Ledger
  import opened BlockIndex
  import opened ConnectInputs
  import opened ConnectBlock
  import opened Assembly
  import Miner

  /** The largest block size is the one asked for, but from 1,000 to 999,000 bytes; the size kept for free
      transactions is the one asked for, but no larger than that. */
  lemma LimitsAre(s: Miner.Settings, fProofOfStake: bool, nCoinbaseTime: int)
    ensures var p, n := Miner.PolicyOf(s, fProofOfStake, nCoinbaseTime), s.blockMaxSize;
      && 1_000 <= p.nBlockMaxSize <= 999_000
      && (n <= 1_000 ==> p.nBlockMaxSize == 1_000) && (1_000 <= n <= 999_000 ==> p.nBlockMaxSize == n)
      && (n >= 999_000 ==> p.nBlockMaxSize == 999_000)
      && p.nBlockMinSize == Min(s.blockMinSize, p.nBlockMaxSize)
      && p.nMinTxFee == s.nMinTxFee && p.minFee == s.minFee && p.nAdjustedTime == s.nAdjustedTime
      && p.fProofOfStake == fProofOfStake && p.nCoinbaseTime == nCoinbaseTime
  {
  }

  /** The signature operations of the first k picks. */
  function SigOpsTo(env: Env, mempool: map<uint256, Tx>, db: Index, vtx: seq<Tx>, k: nat): nat
    requires k <= |vtx|
  {
    if k == 0 then 0
    else
      var src, tx := View(env, mempool, Mined(env, db, vtx, k - 1)), vtx[k - 1];
      SigOpsTo(env, mempool, db, vtx, k - 1) + env.legacySigOps(tx)
        + if src.Fetchable(tx.Spends()) then env.p2shSigOps(tx, src.FetchAll(tx.Spends()).txs) else 0
  }

  function SizeTo(env: Env, vtx: seq<Tx>, k: nat): nat
    requires k <= |vtx|
  {
    if k == 0 then 0 else SizeTo(env, vtx, k - 1) + env.txSize(vtx[k - 1])
  }

  /** The i-th pick: an ordinary transaction of the pool, within size and signature operations on top of the reserve of
      1,000 bytes and 100 operations, not later than now and, in a stake block, than its coinbase, finding its inputs,
      paying the fee for the size so far, and connecting to the chain and the picks before it. */
  ghost predicate PickRules(env: Env, mempool: map<uint256, Tx>, db: Index, p: Policy, vtx: seq<Tx>, i: nat,
                            pindexPrev: CBlockIndex, nBestHeight: int)
    requires i < |vtx|
  {
    var src, tx := View(env, mempool, Mined(env, db, vtx, i)), vtx[i];
    && env.txid(tx) in mempool && mempool[env.txid(tx)] == tx && !tx.IsCoinBase() && !tx.IsCoinStake()
    && 1_000 + SizeTo(env, vtx, i + 1) < p.nBlockMaxSize
    && 100 + SigOpsTo(env, mempool, db, vtx, i + 1) < 20_000
    && tx.nTime <= p.nAdjustedTime && (p.fProofOfStake ==> tx.nTime <= p.nCoinbaseTime)
    && src.Fetchable(tx.Spends())
    && ValueOfInputs(src, tx) - tx.ValueOut() >= p.minFee(tx, 1_000 + SizeTo(env, vtx, i))
    && Connectable(env, tx, src.FetchAll(tx.Spends()), pindexPrev, Mode(false, true), nBestHeight)
  }

  lemma {:induction false} TallyIs(env: Env, mempool: map<uint256, Tx>, db: Index, vtx: seq<Tx>, k: nat)
    requires k <= |vtx|
    requires forall i :: 0 <= i < k ==> View(env, mempool, Mined(env, db, vtx, i)).Fetchable(vtx[i].Spends())
    ensures TallyOf(env, mempool, db, vtx, k).nBlockSize == 1_000 + SizeTo(env, vtx, k)
    ensures TallyOf(env, mempool, db, vtx, k).nBlockSigOps == 100 + SigOpsTo(env, mempool, db, vtx, k)
  {
    hide Mined, Source.Fetchable, Source.FetchAll, ValueOfInputs;
    if k > 0 { TallyIs(env, mempool, db, vtx, k - 1); }
  }

  /** The picks are those that meet the rules one after the other. */
  lemma {:induction false} AssembledMeans(env: Env, mempool: map<uint256, Tx>, db: Index, p: Policy, vtx: seq<Tx>,
                                          k: nat, pindexPrev: CBlockIndex, nBestHeight: int)
    requires k <= |vtx|
    ensures Assembled(env, mempool, db, p, vtx, k, pindexPrev, nBestHeight) <==>
      forall i :: 0 <= i < k ==> PickRules(env, mempool, db, p, vtx, i, pindexPrev, nBestHeight)
  {
    hide PickRules, Accepts, Pooled, Mined, TallyOf;
    if k > 0 {
      AssembledMeans(env, mempool, db, p, vtx, k - 1, pindexPrev, nBestHeight);
      if forall i :: 0 <= i < k - 1 ==> PickRules(env, mempool, db, p, vtx, i, pindexPrev, nBestHeight) {
        AllFetchable(env, mempool, db, p, vtx, k - 1, pindexPrev, nBestHeight);
        PickIs(env, mempool, db, p, vtx, k - 1, pindexPrev, nBestHeight);
      }
    }
  }

  lemma AllFetchable(env: Env, mempool: map<uint256, Tx>, db: Index, p: Policy, vtx: seq<Tx>, k: nat,
                     pindexPrev: CBlockIndex, nBestHeight: int)
    requires k <= |vtx|
    requires forall i :: 0 <= i < k ==> PickRules(env, mempool, db, p, vtx, i, pindexPrev, nBestHeight)
    ensures forall i :: 0 <= i < k ==> View(env, mempool, Mined(env, db, vtx, i)).Fetchable(vtx[i].Spends())
  {
    hide Mined, Source.Fetchable, Source.FetchAll, ValueOfInputs, Connectable, SigOpsTo, SizeTo;
    forall i | 0 <= i < k
      ensures View(env, mempool, Mined(env, db, vtx, i)).Fetchable(vtx[i].Spends())
    {
      assert PickRules(env, mempool, db, p, vtx, i, pindexPrev, nBestHeight);
    }
  }

  lemma PickIs(env: Env, mempool: map<uint256, Tx>, db: Index, p: Policy, vtx: seq<Tx>, i: nat,
               pindexPrev: CBlockIndex, nBestHeight: int)
    requires i < |vtx|
    requires forall j :: 0 <= j < i ==> View(env, mempool, Mined(env, db, vtx, j)).Fetchable(vtx[j].Spends())
    ensures PickRules(env, mempool, db, p, vtx, i, pindexPrev, nBestHeight) <==>
      && Pooled(env, mempool, vtx[i])
      && Accepts(env, p, View(env, mempool, Mined(env, db, vtx, i)), TallyOf(env, mempool, db, vtx, i), vtx[i],
        pindexPrev, nBestHeight)
  {
    hide Mined, TallyOf, Source.Fetchable, Source.FetchAll, ValueOfInputs, Connectable, Tx.ValueOut;
    TallyIs(env, mempool, db, vtx, i);
  }

  // ----- what is considered

  /** The outpoint names an output of a transaction that the chain's index has and that can be read. */
  ghost predicate Spendable(env: Env, db: Index, o: OutPoint) {
    o.hash in db && exists tx :: env.txAt(db[o.hash].pos) == Some(tx) && o.n < |tx.vout|
  }

  /** A pool transaction is considered exactly when it is neither coinbase nor coinstake, final, and each of its inputs
      takes an output in the chain or one of a transaction picked before. */
  lemma ReadyMeans(env: Env, db: Index, mempool: map<uint256, Tx>, isFinal: Tx -> bool, included: set<uint256>,
                   h: uint256)
    ensures h in Miner.Ready(env, db, mempool, isFinal, included) <==>
      && h in mempool && !mempool[h].IsCoinBase() && !mempool[h].IsCoinStake() && isFinal(mempool[h])
      && forall o :: o in Prevouts(mempool[h].vin) ==> Spendable(env, db, o) || o.hash in included
  {
    if h in mempool { MissingMeans(env, db, Prevouts(mempool[h].vin), included); }
  }

  lemma {:induction false} MissingMeans(env: Env, db: Index, os: seq<OutPoint>, included: set<uint256>)
    ensures Miner.Missing(env, db, os) <= included <==>
      forall o :: o in os ==> Spendable(env, db, o) || o.hash in included
  {
    if os != [] {
      MissingMeans(env, db, os[..|os| - 1], included);
      assert os == os[..|os| - 1] + [os[|os| - 1]];
    }
  }
}
