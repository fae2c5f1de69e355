/** CreateNewBlock: which transactions of the memory pool go into a new block. */
module Miner {
  import opened Transactions
  import opened Ledger
  import opened TxDb
  import opened BlockIndex
  import opened ConnectInputs
  import opened ConnectBlock
  import opened Assembly
  import BigNum

  /** A transaction that waits for others of the pool. */
  class COrphan {
    const ptx: Tx
    var setDependsOn: set<uint256>
    var dFeePerKb: real

    constructor (tx: Tx)
      ensures ptx == tx && setDependsOn == {}
    {
      ptx, setDependsOn, dFeePerKb := tx, {}, 0.0;
    }
  }

  datatype TxPriority = TxPriority(dFeePerKb: real, tx: Tx)

  // ----- what waits for what

  /** The output can be read from the chain. */
  predicate OnDisk(env: Env, db: Index, o: OutPoint) {
    o.hash in db && env.txAt(db[o.hash].pos).Some? && o.n < |env.txAt(db[o.hash].pos).value.vout|
  }

  /** The transactions of the pool that these outpoints wait for. */
  function Missing(env: Env, db: Index, os: seq<OutPoint>): set<uint256> {
    if os == [] then {}
    else Missing(env, db, os[..|os| - 1]) + if OnDisk(env, db, os[|os| - 1]) then {} else {os[|os| - 1].hash}
  }

  function MissingOf(env: Env, db: Index, tx: Tx): set<uint256> { Missing(env, db, Prevouts(tx.vin)) }

  /** Transactions are under their own ids, and what they spend is in the chain or in the pool. */
  ghost predicate PoolGood(env: Env, db: Index, mempool: map<uint256, Tx>) {
    && (forall h :: h in mempool ==> env.txid(mempool[h]) == h && env.txSize(mempool[h]) > 0)
    && (forall h, o :: h in mempool && o in Prevouts(mempool[h].vin) ==>
        OnDisk(env, db, o) || (o.hash in mempool && o.n < |mempool[o.hash].vout|))
  }

  predicate Eligible(tx: Tx, isFinal: Tx -> bool) {
    !tx.IsCoinBase() && !tx.IsCoinStake() && isFinal(tx)
  }

  /** The ids to be considered once the given transactions are in the block. */
  function Ready(env: Env, db: Index, mempool: map<uint256, Tx>, isFinal: Tx -> bool,
                 included: set<uint256>): set<uint256> {
    set h | h in mempool && Eligible(mempool[h], isFinal) && MissingOf(env, db, mempool[h]) <= included
  }

  // ----- the dependency records

  ghost predicate WaitsFor(env: Env, db: Index, o: COrphan, included: set<uint256>)
    reads o
  {
    o.setDependsOn == MissingOf(env, db, o.ptx) - included
  }

  function Members(list: seq<COrphan>): set<COrphan> { set o | o in list }

  function Dependers(m: map<uint256, seq<COrphan>>, h: uint256): set<COrphan> {
    if h in m then Members(m[h]) else {}
  }

  function WaitingFor(env: Env, db: Index, orphans: set<COrphan>, h: uint256): set<COrphan> {
    set o | o in orphans && h in MissingOf(env, db, o.ptx)
  }

  /** Every dependent is listed with what it waits for, and nothing else is. */
  ghost predicate Listed(env: Env, db: Index, orphans: set<COrphan>, m: map<uint256, seq<COrphan>>) {
    forall h :: Dependers(m, h) == WaitingFor(env, db, orphans, h)
  }

  function Enlisted(m: map<uint256, seq<COrphan>>, h: uint256, o: COrphan): map<uint256, seq<COrphan>> {
    m[h := (if h in m then m[h] else []) + [o]]
  }

  /** m lists what m0 does and o0 with the given ids. */
  ghost predicate ListsAlso(m0: map<uint256, seq<COrphan>>, m: map<uint256, seq<COrphan>>, o0: COrphan,
                            hs: set<uint256>) {
    forall h :: Dependers(m, h) == Dependers(m0, h) + if h in hs then {o0} else {}
  }

  lemma EnlistedMore(m0: map<uint256, seq<COrphan>>, m: map<uint256, seq<COrphan>>, o0: COrphan, hs: set<uint256>,
                     h0: uint256)
    requires ListsAlso(m0, m, o0, hs)
    ensures ListsAlso(m0, Enlisted(m, h0, o0), o0, hs + {h0})
  {
    var e := Enlisted(m, h0, o0);
    forall h
      ensures Dependers(e, h) == Dependers(m0, h) + if h in hs + {h0} then {o0} else {}
    {
      assert Dependers(e, h) == Dependers(m, h) + if h == h0 then {o0} else {};
    }
  }

  lemma ListsSame(m: map<uint256, seq<COrphan>>, o0: COrphan)
    ensures ListsAlso(m, m, o0, {})
  {
  }

  // ----- fees

  /** The value of the output: read from the chain, or from the pool when it is not on disk. */
  function ValueAt(env: Env, db: Index, mempool: map<uint256, Tx>, o: OutPoint): int {
    if OnDisk(env, db, o) then env.txAt(db[o.hash].pos).value.vout[o.n].nValue
    else if o.hash in mempool && o.n < |mempool[o.hash].vout| then mempool[o.hash].vout[o.n].nValue
    else 0
  }

  function TotalIn(env: Env, db: Index, mempool: map<uint256, Tx>, os: seq<OutPoint>): int {
    if os == [] then 0
    else TotalIn(env, db, mempool, os[..|os| - 1]) + ValueAt(env, db, mempool, os[|os| - 1])
  }

  /** What a transaction of the pool takes in beyond what it pays out. */
  function Fee(env: Env, db: Index, mempool: map<uint256, Tx>, tx: Tx): int {
    TotalIn(env, db, mempool, Prevouts(tx.vin)) - tx.ValueOut()
  }

  /** The rate is the fee per thousand bytes. */
  predicate Rated(env: Env, db: Index, mempool: map<uint256, Tx>, tx: Tx, dFeePerKb: real) {
    && env.txSize(tx) > 0
    && dFeePerKb * env.txSize(tx) as real == 1000.0 * Fee(env, db, mempool, tx) as real
  }

  predicate QueueRated(env: Env, db: Index, mempool: map<uint256, Tx>, v: seq<TxPriority>) {
    forall i :: 0 <= i < |v| ==> Rated(env, db, mempool, v[i].tx, v[i].dFeePerKb)
  }

  ghost predicate OrphansRated(env: Env, db: Index, mempool: map<uint256, Tx>, orphans: set<COrphan>)
    reads orphans
  {
    forall o :: o in orphans ==> Rated(env, db, mempool, o.ptx, o.dFeePerKb)
  }

  lemma FeePerKbRated(env: Env, db: Index, mempool: map<uint256, Tx>, tx: Tx)
    requires env.txSize(tx) > 0
    ensures Rated(env, db, mempool, tx,
      FeePerKb(TotalIn(env, db, mempool, Prevouts(tx.vin)), tx, env.txSize(tx)))
  {
    var x, k := Fee(env, db, mempool, tx) as real, env.txSize(tx) as real / 1000.0;
    assert x / k * k == x;
  }

  /** A rate that is not lower, without dividing. */
  lemma RatesCompared(env: Env, db: Index, mempool: map<uint256, Tx>, a: Tx, dA: real, b: Tx, dB: real)
    requires Rated(env, db, mempool, a, dA) && Rated(env, db, mempool, b, dB) && dA <= dB
    ensures Fee(env, db, mempool, a) * env.txSize(b) <= Fee(env, db, mempool, b) * env.txSize(a)
  {
    hide Fee;
    Compared(dA, dB, env.txSize(a), env.txSize(b), Fee(env, db, mempool, a), Fee(env, db, mempool, b));
  }

  lemma Compared(x: real, y: real, m: nat, n: nat, a: int, b: int)
    requires x <= y && x * m as real == 1000.0 * a as real && y * n as real == 1000.0 * b as real
    ensures a * n <= b * m
  {
    RealOrder(x, y, m as real * n as real);
    assert x * (m as real * n as real) == x * m as real * n as real == 1000.0 * a as real * n as real;
    assert y * (m as real * n as real) == y * n as real * m as real == 1000.0 * b as real * m as real;
    assert (a * n) as real == a as real * n as real && (b * m) as real == b as real * m as real;
  }

  lemma RealOrder(x: real, y: real, z: real)
    requires x <= y && z >= 0.0
    ensures x * z <= y * z
  {
  }

  lemma RateBelow(env: Env, db: Index, mempool: map<uint256, Tx>, tx: Tx, d: real, nMinTxFee: int)
    requires Rated(env, db, mempool, tx, d)
    ensures d < nMinTxFee as real <==> 1000 * Fee(env, db, mempool, tx) < nMinTxFee * env.txSize(tx)
  {
    hide Fee;
    var n, x := env.txSize(tx) as real, nMinTxFee as real;
    if d < x {
      StrictOrder(d, x, n);
    } else {
      RealOrder(x, d, n);
    }
    assert (nMinTxFee * env.txSize(tx)) as real == x * n;
    assert (1000 * Fee(env, db, mempool, tx)) as real == d * n;
  }

  lemma StrictOrder(x: real, y: real, z: real)
    requires x < y && z > 0.0
    ensures x * z < y * z
  {
  }

  lemma NoInputs(env: Env, db: Index, mempool: map<uint256, Tx>)
    ensures Missing(env, db, []) == {} && TotalIn(env, db, mempool, []) == 0
  {
  }

  lemma NextInput(env: Env, db: Index, mempool: map<uint256, Tx>, os: seq<OutPoint>, i: nat)
    requires i < |os|
    ensures Missing(env, db, os[..i + 1]) ==
      Missing(env, db, os[..i]) + if OnDisk(env, db, os[i]) then {} else {os[i].hash}
    ensures TotalIn(env, db, mempool, os[..i + 1]) ==
      TotalIn(env, db, mempool, os[..i]) + ValueAt(env, db, mempool, os[i])
  {
    assert os[..i + 1][..i] == os[..i];
  }

  /** The inputs of one transaction: what it waits for, and the total value it takes in. */
  method ScanInputs(env: Env, mempool: map<uint256, Tx>, txdb: CTxDB, tx: Tx, mapDependers0: map<uint256, seq<COrphan>>)
    returns (porphan: COrphan?, mapDependers: map<uint256, seq<COrphan>>, nTotalIn: int)
    requires forall o :: o in Prevouts(tx.vin) ==>
      OnDisk(env, txdb.View(), o) || (o.hash in mempool && o.n < |mempool[o.hash].vout|)
    ensures porphan == null <==> MissingOf(env, txdb.View(), tx) == {}
    ensures porphan == null ==> mapDependers == mapDependers0
    ensures porphan != null ==>
      fresh(porphan) && porphan.ptx == tx && porphan.setDependsOn == MissingOf(env, txdb.View(), tx)
    ensures porphan != null ==> ListsAlso(mapDependers0, mapDependers, porphan, MissingOf(env, txdb.View(), tx))
    ensures nTotalIn == TotalIn(env, txdb.View(), mempool, Prevouts(tx.vin))
  {
    hide ListsAlso, Missing, TotalIn;
    NoInputs(env, txdb.View(), mempool);
    porphan, mapDependers, nTotalIn := null, mapDependers0, 0;
    ghost var db, os := txdb.View(), Prevouts(tx.vin);
    for i := 0 to |tx.vin|
      invariant porphan == null <==> Missing(env, db, os[..i]) == {}
      invariant porphan == null ==> mapDependers == mapDependers0
      invariant porphan != null ==>
        fresh(porphan) && porphan.ptx == tx && porphan.setDependsOn == Missing(env, db, os[..i])
      invariant porphan != null ==> ListsAlso(mapDependers0, mapDependers, porphan, Missing(env, db, os[..i]))
      invariant nTotalIn == TotalIn(env, db, mempool, os[..i])
    {
      NextInput(env, db, mempool, os, i);
      var prevout := tx.vin[i].prevout;
      assert prevout == os[i] && os[i] in os;
      var found, txindex := txdb.ReadTxIndex(prevout.hash);
      var txPrev := if found then env.txAt(txindex.pos) else None;
      if txPrev.None? || prevout.n >= |txPrev.value.vout| {
        if porphan == null {
          porphan := new COrphan(tx);
          ListsSame(mapDependers0, porphan);
        }
        EnlistedMore(mapDependers0, mapDependers, porphan, Missing(env, db, os[..i]), prevout.hash);
        mapDependers := Enlisted(mapDependers, prevout.hash, porphan);
        porphan.setDependsOn := porphan.setDependsOn + {prevout.hash};
        nTotalIn := nTotalIn + mempool[prevout.hash].vout[prevout.n].nValue;
        continue;
      }
      nTotalIn := nTotalIn + txPrev.value.vout[prevout.n].nValue;
    }
    assert os[..|os|] == os;
  }

  // ----- collecting the candidates

  predicate DistinctIds(env: Env, v: seq<TxPriority>) {
    forall i, j :: 0 <= i < j < |v| ==> env.txid(v[i].tx) != env.txid(v[j].tx)
  }

  function QueueIds(env: Env, v: seq<TxPriority>): set<uint256> {
    set i | 0 <= i < |v| :: env.txid(v[i].tx)
  }

  predicate QueueGood(env: Env, mempool: map<uint256, Tx>, v: seq<TxPriority>) {
    DistinctIds(env, v) && forall i :: 0 <= i < |v| ==> Pooled(env, mempool, v[i].tx)
  }

  predicate Waits(env: Env, db: Index, mempool: map<uint256, Tx>, isFinal: Tx -> bool, tx: Tx) {
    env.txid(tx) in mempool && tx == mempool[env.txid(tx)] && Eligible(tx, isFinal) && MissingOf(env, db, tx) != {}
  }

  /** The dependents: one for each eligible transaction of hs that waits for something. */
  ghost predicate OrphansFor(env: Env, db: Index, mempool: map<uint256, Tx>, isFinal: Tx -> bool, orphans: set<COrphan>,
                             hs: set<uint256>) {
    && (forall o :: o in orphans ==> env.txid(o.ptx) in hs && Waits(env, db, mempool, isFinal, o.ptx))
    && (forall h :: h in hs && h in mempool && Eligible(mempool[h], isFinal) && MissingOf(env, db, mempool[h]) != {} ==>
          exists o :: o in orphans && o.ptx == mempool[h])
    && (forall o, o' :: o in orphans && o' in orphans && o.ptx == o'.ptx ==> o == o')
  }

  function FeePerKb(nTotalIn: int, tx: Tx, nTxSize: nat): real
    requires nTxSize > 0
  {
    (nTotalIn - tx.ValueOut()) as real / (nTxSize as real / 1000.0)
  }

  /** The transactions of hs are sorted: the eligible ones are queued, or listed with what they wait for. */
  ghost predicate Sorted(env: Env, db: Index, mempool: map<uint256, Tx>, isFinal: Tx -> bool, hs: set<uint256>,
                         v: seq<TxPriority>, m: map<uint256, seq<COrphan>>, orphans: set<COrphan>)
    reads orphans
  {
    && QueueGood(env, mempool, v) && QueueIds(env, v) == Ready(env, db, mempool, isFinal, {}) * hs
    && OrphansFor(env, db, mempool, isFinal, orphans, hs) && Listed(env, db, orphans, m)
    && forall o :: o in orphans ==> WaitsFor(env, db, o, {})
  }

  /** Sort the pool into what can go in at once and what has to wait. */
  method CollectCandidates(env: Env, mempool: map<uint256, Tx>, txdb: CTxDB, isFinal: Tx -> bool)
    returns (vecPriority: seq<TxPriority>, mapDependers: map<uint256, seq<COrphan>>, ghost orphans: set<COrphan>)
    requires PoolGood(env, txdb.View(), mempool)
    ensures fresh(orphans)
      && Sorted(env, txdb.View(), mempool, isFinal, mempool.Keys, vecPriority, mapDependers, orphans)
    ensures QueueRated(env, txdb.View(), mempool, vecPriority) && OrphansRated(env, txdb.View(), mempool, orphans)
  {
    hide Rated, TotalIn, FeePerKb, Missing, Sorted, ListsAlso, Tx.IsCoinBase, Tx.IsCoinStake;
    ghost var db := txdb.View();
    vecPriority, mapDependers, orphans := [], map[], {};
    SortedNone(env, db, mempool, isFinal);
    var rest := mempool.Keys;
    while rest != {}
      invariant rest <= mempool.Keys && fresh(orphans)
      invariant Sorted(env, db, mempool, isFinal, mempool.Keys - rest, vecPriority, mapDependers, orphans)
      invariant QueueRated(env, db, mempool, vecPriority) && OrphansRated(env, db, mempool, orphans)
    {
      var h :| h in rest;
      var tx := mempool[h];
      assert mempool.Keys - (rest - {h}) == mempool.Keys - rest + {h};
      if tx.IsCoinBase() || tx.IsCoinStake() || !isFinal(tx) {
        SortedSkip(env, db, mempool, isFinal, mempool.Keys - rest, vecPriority, mapDependers, orphans, h);
        rest := rest - {h};
        continue;
      }
      var porphan, dependers, nTotalIn := ScanInputs(env, mempool, txdb, tx, mapDependers);
      var dFeePerKb := FeePerKb(nTotalIn, tx, env.txSize(tx));
      FeePerKbRated(env, db, mempool, tx);
      if porphan != null {
        porphan.dFeePerKb := dFeePerKb;
        SortedOrphan(env, db, mempool, isFinal, mempool.Keys - rest, vecPriority, mapDependers, orphans, h, dependers,
          porphan);
        orphans := orphans + {porphan};
      } else {
        SortedQueue(env, db, mempool, isFinal, mempool.Keys - rest, vecPriority, mapDependers, orphans, h, dFeePerKb);
        vecPriority := vecPriority + [TxPriority(dFeePerKb, tx)];
      }
      mapDependers := dependers;
      rest := rest - {h};
    }
    assert mempool.Keys - rest == mempool.Keys;
  }

  lemma SortedNone(env: Env, db: Index, mempool: map<uint256, Tx>, isFinal: Tx -> bool)
    ensures Sorted(env, db, mempool, isFinal, mempool.Keys - mempool.Keys, [], map[], {})
  {
    ListedNone(env, db);
  }

  lemma SortedSkip(env: Env, db: Index, mempool: map<uint256, Tx>, isFinal: Tx -> bool, hs: set<uint256>,
                   v: seq<TxPriority>, m: map<uint256, seq<COrphan>>, orphans: set<COrphan>, h: uint256)
    requires Sorted(env, db, mempool, isFinal, hs, v, m, orphans) && h in mempool && !Eligible(mempool[h], isFinal)
    ensures Sorted(env, db, mempool, isFinal, hs + {h}, v, m, orphans)
  {
    hide Listed, QueueGood, QueueIds, MissingOf, WaitsFor, Eligible;
  }

  lemma SortedQueue(env: Env, db: Index, mempool: map<uint256, Tx>, isFinal: Tx -> bool, hs: set<uint256>,
                    v: seq<TxPriority>, m: map<uint256, seq<COrphan>>, orphans: set<COrphan>, h: uint256,
                    dFeePerKb: real)
    requires Sorted(env, db, mempool, isFinal, hs, v, m, orphans) && h in mempool && h !in hs
      && env.txid(mempool[h]) == h
    requires Eligible(mempool[h], isFinal) && MissingOf(env, db, mempool[h]) == {}
    ensures Sorted(env, db, mempool, isFinal, hs + {h}, v + [TxPriority(dFeePerKb, mempool[h])], m, orphans)
  {
    hide Listed, QueueGood, QueueIds, MissingOf, WaitsFor;
    QueueAdded(env, mempool, v, TxPriority(dFeePerKb, mempool[h]));
  }

  lemma SortedOrphan(env: Env, db: Index, mempool: map<uint256, Tx>, isFinal: Tx -> bool, hs: set<uint256>,
                     v: seq<TxPriority>, m: map<uint256, seq<COrphan>>, orphans: set<COrphan>, h: uint256,
                     m': map<uint256, seq<COrphan>>, o: COrphan)
    requires Sorted(env, db, mempool, isFinal, hs, v, m, orphans) && h in mempool && h !in hs
      && env.txid(mempool[h]) == h
    requires Eligible(mempool[h], isFinal) && MissingOf(env, db, mempool[h]) != {} && o.ptx == mempool[h]
      && WaitsFor(env, db, o, {})
    requires ListsAlso(m, m', o, MissingOf(env, db, mempool[h]))
    ensures Sorted(env, db, mempool, isFinal, hs + {h}, v, m', orphans + {o})
  {
    hide Listed, ListsAlso, QueueGood, QueueIds, MissingOf, Eligible;
    OrphanAdded(env, db, mempool, isFinal, orphans, hs, o);
    ListedMore(env, db, orphans, m, m', o);
  }

  lemma ListedNone(env: Env, db: Index)
    ensures Listed(env, db, {}, map[])
  {
  }

  lemma ListedMore(env: Env, db: Index, orphans: set<COrphan>, m0: map<uint256, seq<COrphan>>,
                   m: map<uint256, seq<COrphan>>, o0: COrphan)
    requires Listed(env, db, orphans, m0) && ListsAlso(m0, m, o0, MissingOf(env, db, o0.ptx))
    ensures Listed(env, db, orphans + {o0}, m)
  {
    hide Missing, Dependers;
    forall h
      ensures Dependers(m, h) == WaitingFor(env, db, orphans + {o0}, h)
    {
      assert Dependers(m0, h) == WaitingFor(env, db, orphans, h);
      assert WaitingFor(env, db, orphans + {o0}, h) == WaitingFor(env, db, orphans, h) + if h in MissingOf(env, db,
        o0.ptx) then {o0} else {};
    }
  }

  lemma QueueAdded(env: Env, mempool: map<uint256, Tx>, v: seq<TxPriority>, c: TxPriority)
    requires QueueGood(env, mempool, v) && Pooled(env, mempool, c.tx) && env.txid(c.tx) !in QueueIds(env, v)
    ensures QueueGood(env, mempool, v + [c]) && QueueIds(env, v + [c]) == QueueIds(env, v) + {env.txid(c.tx)}
  {
    hide Pooled;
    forall i | 0 <= i < |v|
      ensures env.txid(v[i].tx) in QueueIds(env, v)
    {
    }
    var w := v + [c];
    assert w[|v|] == c;
    forall x
      ensures x in QueueIds(env, w) <==> x in QueueIds(env, v) || x == env.txid(c.tx)
    {
      if x in QueueIds(env, v) {
        var i :| 0 <= i < |v| && x == env.txid(v[i].tx);
        assert w[i] == v[i];
      }
    }
  }

  lemma OrphanAdded(env: Env, db: Index, mempool: map<uint256, Tx>, isFinal: Tx -> bool, orphans: set<COrphan>,
                    hs: set<uint256>, o0: COrphan)
    requires OrphansFor(env, db, mempool, isFinal, orphans, hs)
    requires env.txid(o0.ptx) in mempool && o0.ptx == mempool[env.txid(o0.ptx)] && env.txid(o0.ptx) !in hs
    requires Eligible(o0.ptx, isFinal) && MissingOf(env, db, o0.ptx) != {}
    ensures OrphansFor(env, db, mempool, isFinal, orphans + {o0}, hs + {env.txid(o0.ptx)})
  {
    hide Missing, Eligible;
    forall h | h in hs + {env.txid(o0.ptx)} && h in mempool && Eligible(mempool[h], isFinal)
      && MissingOf(env, db, mempool[h]) != {}
      ensures exists o :: o in orphans + {o0} && o.ptx == mempool[h]
    {
      if h == env.txid(o0.ptx) {
        assert o0 in orphans + {o0};
      } else {
        var o :| o in orphans && o.ptx == mempool[h];
        assert o in orphans + {o0};
      }
    }
  }

  // ----- releasing what waited for a transaction

  function Still(env: Env, db: Index, o: COrphan, included: set<uint256>): set<uint256> {
    MissingOf(env, db, o.ptx) - included
  }

  /** Those of the list that waited for nothing else. */
  function Released(env: Env, db: Index, included: set<uint256>, hash: uint256, list: seq<COrphan>): set<uint256> {
    set o | o in list && Still(env, db, o, included) == {hash} :: env.txid(o.ptx)
  }

  /** Part of the list has been told that hash is in the block. */
  ghost predicate Releasing(env: Env, db: Index, mempool: map<uint256, Tx>, orphans: set<COrphan>,
                            included: set<uint256>, hash: uint256,
                            list: seq<COrphan>, queued: set<uint256>, v: seq<TxPriority>)
    reads orphans
  {
    && (forall o :: o in orphans ==>
      o.setDependsOn == Still(env, db, o, if o in list then included + {hash} else included))
    && QueueGood(env, mempool, v) && QueueIds(env, v) == queued + Released(env, db, included, hash, list)
  }

  /** Dependents are different transactions of the pool, none of them queued before what it waits for is included. */
  ghost predicate NotQueued(env: Env, db: Index, mempool: map<uint256, Tx>, orphans: set<COrphan>,
                            included: set<uint256>, queued: set<uint256>) {
    && (forall o :: o in orphans ==>
      Pooled(env, mempool, o.ptx) && (Still(env, db, o, included) != {} ==> env.txid(o.ptx) !in queued))
    && (forall o, o' :: o in orphans && o' in orphans && env.txid(o.ptx) == env.txid(o'.ptx) ==> o == o')
  }

  method ReleaseOne(env: Env, mempool: map<uint256, Tx>, hash: uint256, porphan: COrphan, v0: seq<TxPriority>,
                    ghost db: Index, ghost orphans: set<COrphan>, ghost included: set<uint256>,
                    ghost list: seq<COrphan>, ghost queued: set<uint256>)
    returns (v: seq<TxPriority>)
    requires porphan in orphans && hash in MissingOf(env, db, porphan.ptx) && hash !in included
    requires Releasing(env, db, mempool, orphans, included, hash, list, queued, v0)
    requires NotQueued(env, db, mempool, orphans, included, queued) && forall x :: x in list ==> x in orphans
    requires QueueRated(env, db, mempool, v0) && OrphansRated(env, db, mempool, orphans)
    modifies porphan`setDependsOn
    ensures Releasing(env, db, mempool, orphans, included, hash, list + [porphan], queued, v)
    ensures QueueRated(env, db, mempool, v) && OrphansRated(env, db, mempool, orphans)
  {
    hide Rated, MissingOf, QueueGood, QueueIds, Pooled;
    v := v0;
    ghost var before := Still(env, db, porphan, included);
    ReleasedMore(env, db, included, hash, list, porphan);
    if porphan.setDependsOn != {} {
      porphan.setDependsOn := porphan.setDependsOn - {hash};
      assert porphan.setDependsOn == Still(env, db, porphan, included + {hash});
      if porphan.setDependsOn == {} {
        NotReleasedYet(env, db, mempool, orphans, included, hash, list, queued, porphan);
        QueueAdded(env, mempool, v, TxPriority(porphan.dFeePerKb, porphan.ptx));
        v := v + [TxPriority(porphan.dFeePerKb, porphan.ptx)];
      }
    }
  }

  lemma ReleasedMore(env: Env, db: Index, included: set<uint256>, hash: uint256, list: seq<COrphan>, o: COrphan)
    ensures Released(env, db, included, hash, list + [o]) ==
      Released(env, db, included, hash, list) + if Still(env, db, o, included) == {hash} then {env.txid(o.ptx)} else {}
  {
    hide Still;
  }

  lemma NotReleasedYet(env: Env, db: Index, mempool: map<uint256, Tx>, orphans: set<COrphan>, included: set<uint256>,
                       hash: uint256,
                       list: seq<COrphan>, queued: set<uint256>, o: COrphan)
    requires NotQueued(env, db, mempool, orphans, included, queued) && o in orphans
      && (forall x :: x in list ==> x in orphans)
    requires o !in list && Still(env, db, o, included) != {}
    ensures env.txid(o.ptx) !in queued && env.txid(o.ptx) !in Released(env, db, included, hash, list)
      && Pooled(env, mempool, o.ptx)
  {
    hide Still, Pooled;
  }

  /** What is queued, what has been considered, and what waits, with the transactions of the block included. */
  ghost predicate Scheduled(env: Env, db: Index, mempool: map<uint256, Tx>, isFinal: Tx -> bool, included: set<uint256>,
                            popped: set<uint256>,
                            v: seq<TxPriority>, m: map<uint256, seq<COrphan>>, orphans: set<COrphan>)
    reads orphans
  {
    && QueueGood(env, mempool, v) && QueueIds(env, v) !! popped && included <= popped
    && QueueIds(env, v) + popped == Ready(env, db, mempool, isFinal, included)
    && OrphansFor(env, db, mempool, isFinal, orphans, mempool.Keys) && Listed(env, db, orphans, m)
    && forall o :: o in orphans ==> WaitsFor(env, db, o, included)
  }

  lemma SortedScheduled(env: Env, db: Index, mempool: map<uint256, Tx>, isFinal: Tx -> bool,
                        v: seq<TxPriority>, m: map<uint256, seq<COrphan>>, orphans: set<COrphan>)
    requires Sorted(env, db, mempool, isFinal, mempool.Keys, v, m, orphans)
    ensures Scheduled(env, db, mempool, isFinal, {}, {}, v, m, orphans)
  {
    hide Listed, QueueGood, MissingOf, Eligible;
  }

  lemma StartReleasing(env: Env, db: Index, mempool: map<uint256, Tx>, isFinal: Tx -> bool, included: set<uint256>,
                       popped: set<uint256>,
                       v: seq<TxPriority>, m: map<uint256, seq<COrphan>>, orphans: set<COrphan>, hash: uint256)
    requires Scheduled(env, db, mempool, isFinal, included, popped, v, m, orphans)
    ensures Releasing(env, db, mempool, orphans, included, hash, [], QueueIds(env, v), v)
    ensures NotQueued(env, db, mempool, orphans, included, QueueIds(env, v) + popped)
  {
    hide Listed, QueueGood, QueueIds, MissingOf;
    assert Released(env, db, included, hash, []) == {};
  }

  lemma NotQueuedBelow(env: Env, db: Index, mempool: map<uint256, Tx>, orphans: set<COrphan>, included: set<uint256>,
                       a: set<uint256>, b: set<uint256>)
    requires NotQueued(env, db, mempool, orphans, included, a) && b <= a
    ensures NotQueued(env, db, mempool, orphans, included, b)
  {
    hide Still, Pooled;
  }

  /** Including one more transaction makes ready exactly those that waited for nothing else. */
  lemma ReadyMore(env: Env, db: Index, mempool: map<uint256, Tx>, isFinal: Tx -> bool, included: set<uint256>,
                  m: map<uint256, seq<COrphan>>, orphans: set<COrphan>, hash: uint256, list: seq<COrphan>)
    requires OrphansFor(env, db, mempool, isFinal, orphans, mempool.Keys) && hash !in included
    requires Members(list) == WaitingFor(env, db, orphans, hash) && forall h :: h in mempool ==>
      env.txid(mempool[h]) == h
    ensures Ready(env, db, mempool, isFinal, included + {hash}) ==
      Ready(env, db, mempool, isFinal, included) + Released(env, db, included, hash, list)
  {
    hide MissingOf, Eligible;
    forall h | h in mempool && Eligible(mempool[h], isFinal) && MissingOf(env, db, mempool[h]) <= included + {hash}
      ensures h in Ready(env, db, mempool, isFinal, included) + Released(env, db, included, hash, list)
    {
      if !(MissingOf(env, db, mempool[h]) <= included) {
        ReadyReleased(env, db, mempool, isFinal, included, orphans, hash, list, h);
      }
    }
    forall o | o in list
      ensures o in Members(list)
    {
    }
  }

  lemma ReadyReleased(env: Env, db: Index, mempool: map<uint256, Tx>, isFinal: Tx -> bool, included: set<uint256>,
                      orphans: set<COrphan>, hash: uint256, list: seq<COrphan>, h: uint256)
    requires OrphansFor(env, db, mempool, isFinal, orphans, mempool.Keys) && hash !in included
    requires Members(list) == WaitingFor(env, db, orphans, hash)
    requires h in mempool && env.txid(mempool[h]) == h && Eligible(mempool[h], isFinal)
    requires MissingOf(env, db, mempool[h]) <= included + {hash} && !(MissingOf(env, db, mempool[h]) <= included)
    ensures h in Released(env, db, included, hash, list)
  {
    hide MissingOf, Eligible;
    assert hash in MissingOf(env, db, mempool[h]);
    var o :| o in orphans && o.ptx == mempool[h];
    assert o in WaitingFor(env, db, orphans, hash) && o in Members(list);
    assert Still(env, db, o, included) == {hash};
  }

  lemma EndReleasing(env: Env, db: Index, mempool: map<uint256, Tx>, isFinal: Tx -> bool, included: set<uint256>,
                     popped: set<uint256>,
                     v0: seq<TxPriority>, m: map<uint256, seq<COrphan>>, orphans: set<COrphan>, hash: uint256,
                     list: seq<COrphan>, v: seq<TxPriority>)
    requires QueueIds(env, v0) !! popped && included <= popped && hash in popped && hash !in included
    requires QueueIds(env, v0) + popped == Ready(env, db, mempool, isFinal, included)
    requires OrphansFor(env, db, mempool, isFinal, orphans, mempool.Keys) && Listed(env, db, orphans, m)
    requires forall h :: h in mempool ==> env.txid(mempool[h]) == h
    requires NotQueued(env, db, mempool, orphans, included, QueueIds(env, v0) + popped)
    requires Members(list) == WaitingFor(env, db, orphans, hash)
    requires Releasing(env, db, mempool, orphans, included, hash, list, QueueIds(env, v0), v)
    ensures Scheduled(env, db, mempool, isFinal, included + {hash}, popped, v, m, orphans)
  {
    hide MissingOf, QueueGood, QueueIds, OrphansFor, Listed, Ready;
    ReadyMore(env, db, mempool, isFinal, included, m, orphans, hash, list);
    forall o | o in orphans
      ensures WaitsFor(env, db, o, included + {hash})
    {
      assert o in list <==> o in Members(list);
    }
    forall o | o in list
      ensures o in orphans
    {
      assert o in Members(list);
    }
  }

  /** Tell the dependents of a transaction that it is in the block. */
  method ReleaseDependents(env: Env, mempool: map<uint256, Tx>, hash: uint256, mapDependers: map<uint256, seq<COrphan>>,
                           v0: seq<TxPriority>,
                           ghost db: Index, ghost isFinal: Tx -> bool, ghost orphans: set<COrphan>,
                           ghost included: set<uint256>, ghost popped: set<uint256>)
    returns (v: seq<TxPriority>)
    requires Scheduled(env, db, mempool, isFinal, included, popped, v0, mapDependers, orphans)
    requires hash in popped && hash !in included && forall h :: h in mempool ==> env.txid(mempool[h]) == h
    requires QueueRated(env, db, mempool, v0) && OrphansRated(env, db, mempool, orphans)
    modifies orphans
    ensures Scheduled(env, db, mempool, isFinal, included + {hash}, popped, v, mapDependers, orphans)
    ensures QueueRated(env, db, mempool, v) && OrphansRated(env, db, mempool, orphans)
  {
    hide Rated, MissingOf, QueueGood, QueueIds, Releasing, NotQueued, OrphansFor, WaitsFor, Ready;
    v := v0;
    StartReleasing(env, db, mempool, isFinal, included, popped, v0, mapDependers, orphans, hash);
    NotQueuedBelow(env, db, mempool, orphans, included, QueueIds(env, v0) + popped, QueueIds(env, v0));
    var list := if hash in mapDependers then mapDependers[hash] else [];
    assert Members(list) == Dependers(mapDependers, hash) == WaitingFor(env, db, orphans, hash);
    for i := 0 to |list|
      invariant Releasing(env, db, mempool, orphans, included, hash, list[..i], QueueIds(env, v0), v)
      invariant QueueRated(env, db, mempool, v) && OrphansRated(env, db, mempool, orphans)
    {
      ListMembers(env, db, orphans, hash, list, i);
      v := ReleaseOne(env, mempool, hash, list[i], v, db, orphans, included, list[..i], QueueIds(env, v0));
      assert list[..i + 1] == list[..i] + [list[i]];
    }
    assert list[..|list|] == list;
    EndReleasing(env, db, mempool, isFinal, included, popped, v0, mapDependers, orphans, hash, list, v);
  }

  lemma ListMembers(env: Env, db: Index, orphans: set<COrphan>, hash: uint256, list: seq<COrphan>, i: nat)
    requires Members(list) == WaitingFor(env, db, orphans, hash) && i < |list|
    ensures list[i] in orphans && hash in MissingOf(env, db, list[i].ptx) && forall x :: x in list[..i] ==> x in orphans
  {
    hide MissingOf;
    forall x | x in list
      ensures x in orphans && hash in MissingOf(env, db, x.ptx)
    {
      assert x in Members(list);
    }
  }

  // ----- trying one transaction

  /** The assembler's lookups are those in the index with the block's changes laid over it. */
  lemma MiningInputs(env: Env, mempool: map<uint256, Tx>, ix: Index, queue: Index, os: seq<OutPoint>)
    ensures var queued, plain := Source(env, mempool, ix, queue, MINING), View(env, mempool, ix + queue);
      && queued.Fetchable(os) == plain.Fetchable(os)
      && (plain.AllFound(os) ==> queued.AllFound(os) && queued.FetchAll(os) == plain.FetchAll(os))
  {
    forall h
      ensures Source(env, mempool, ix, queue, MINING).FindPrev(h) == View(env, mempool, ix + queue).FindPrev(h)
    {
    }
  }

  /** Free transactions are left out once the block has its minimum size. */
  predicate FreeTooLate(env: Env, p: Policy, t: Tally, c: TxPriority) {
    c.dFeePerKb < p.nMinTxFee as real && t.nBlockSize + env.txSize(c.tx) >= p.nBlockMinSize
  }

  method TryAdd(env: Env, mempool: map<uint256, Tx>, txdb: CTxDB, p: Policy, c: TxPriority, pool0: Index, t: Tally,
                pindexPrev: CBlockIndex, nBestHeight: int)
    returns (ok: bool, mapTestPool: Index, t': Tally)
    requires pindexPrev.Linked() && !c.tx.IsCoinBase()
    ensures var src := View(env, mempool, txdb.View() + pool0);
      && ok == (Accepts(env, p, src, t, c.tx, pindexPrev, nBestHeight) && !FreeTooLate(env, p, t, c))
      && (ok ==> t' == AddToTally(env, src, t, c.tx))
    ensures ok ==> txdb.View() + mapTestPool == ApplyTx(txdb.View() + pool0, env.txid(c.tx), c.tx, MEMPOOL_POS)
  {
    hide Connectable, Source.FindPrev, Source.AllFound, Source.FetchAll, MarkAll, WriteBack, Wrap;
    mapTestPool, t' := pool0, t;
    var tx := c.tx;
    ghost var src := View(env, mempool, txdb.View() + pool0);
    MiningInputs(env, mempool, txdb.View(), pool0, tx.Spends());
    var nTxSize := env.txSize(tx);
    if t.nBlockSize + nTxSize >= p.nBlockMaxSize { return false, mapTestPool, t; }
    var nTxSigOps := env.legacySigOps(tx);
    if t.nBlockSigOps + nTxSigOps >= MAX_BLOCK_SIGOPS { return false, mapTestPool, t; }
    if tx.nTime > p.nAdjustedTime || (p.fProofOfStake && tx.nTime > p.nCoinbaseTime) { return false, mapTestPool, t; }
    var nMinFee := p.minFee(tx, t.nBlockSize);
    if c.dFeePerKb < p.nMinTxFee as real && t.nBlockSize + nTxSize >= p.nBlockMinSize { return false, mapTestPool, t; }
    var fetched, mapInputs, fInvalid := FetchInputs(env, mempool, txdb, tx, pool0, MINING);
    if !fetched { return false, mapTestPool, t; }
    FetchedAll(src, tx.Spends());
    var nTxFees := ValueIn(mapInputs, tx.Spends()) - tx.ValueOut();
    if nTxFees < nMinFee { return false, mapTestPool, t; }
    nTxSigOps := nTxSigOps + env.p2shSigOps(tx, mapInputs.txs);
    if t.nBlockSigOps + nTxSigOps >= MAX_BLOCK_SIGOPS { return false, mapTestPool, t; }
    QueueApplies(env, mempool, txdb.View(), pool0, tx, MEMPOOL_POS);
    var nBurnCoins;
    ZeroWraps();
    ok, mapTestPool,
      nBurnCoins := ConnectInputs.ConnectInputs(env, tx, mapInputs, pool0, MEMPOOL_POS, pindexPrev, 0, MINING,
      nBestHeight);
    if !ok { return; }
    OverlayPut(txdb.View(), mapTestPool, env.txid(tx), TxIndex(MEMPOOL_POS, Unspent(|tx.vout|)));
    mapTestPool := mapTestPool[env.txid(tx) := TxIndex(MEMPOOL_POS, Unspent(|tx.vout|))];
    t' := Tally(t.nBlockSize + nTxSize, t.nBlockSigOps + nTxSigOps, t.nFees + nTxFees);
  }

  lemma ZeroWraps()
    ensures 0 == Wrap(0)
  {
  }

  // ----- the block grows at its end

  lemma {:induction false} MinedPrefix(env: Env, db: Index, vtx: seq<Tx>, tx: Tx, k: nat)
    requires k <= |vtx|
    ensures Mined(env, db, vtx + [tx], k) == Mined(env, db, vtx, k)
  {
    hide ApplyTx;
    if k > 0 { MinedPrefix(env, db, vtx, tx, k - 1); }
  }

  lemma {:induction false} AssembledPrefix(env: Env, mempool: map<uint256, Tx>, db: Index, p: Policy, vtx: seq<Tx>,
                                           tx: Tx, k: nat,
                                           pindexPrev: CBlockIndex, nBestHeight: int)
    requires k <= |vtx|
    ensures TallyOf(env, mempool, db, vtx + [tx], k) == TallyOf(env, mempool, db, vtx, k)
    ensures Assembled(env, mempool, db, p, vtx, k, pindexPrev, nBestHeight) ==>
      Assembled(env, mempool, db, p, vtx + [tx], k, pindexPrev, nBestHeight)
  {
    hide Mined, Accepts, Pooled, AddToTally, Source.Fetchable;
    if k > 0 {
      AssembledPrefix(env, mempool, db, p, vtx, tx, k - 1, pindexPrev, nBestHeight);
      MinedPrefix(env, db, vtx, tx, k - 1);
      assert (vtx + [tx])[k - 1] == vtx[k - 1];
    }
  }

  lemma AssembledMore(env: Env, mempool: map<uint256, Tx>, db: Index, p: Policy, vtx: seq<Tx>, tx: Tx,
                      pindexPrev: CBlockIndex, nBestHeight: int)
    requires Assembled(env, mempool, db, p, vtx, |vtx|, pindexPrev, nBestHeight) && Pooled(env, mempool, tx)
    requires Accepts(env, p, View(env, mempool, Mined(env, db, vtx, |vtx|)), TallyOf(env, mempool, db, vtx, |vtx|), tx,
      pindexPrev, nBestHeight)
    ensures Assembled(env, mempool, db, p, vtx + [tx], |vtx| + 1, pindexPrev, nBestHeight)
    ensures Mined(env, db, vtx + [tx], |vtx| + 1) == ApplyTx(Mined(env, db, vtx, |vtx|), env.txid(tx), tx, MEMPOOL_POS)
    ensures View(env, mempool, Mined(env, db, vtx, |vtx|)).Fetchable(tx.Spends())
    ensures TallyOf(env, mempool, db, vtx + [tx], |vtx| + 1) ==
      AddToTally(env, View(env, mempool, Mined(env, db, vtx, |vtx|)), TallyOf(env, mempool, db, vtx, |vtx|), tx)
    ensures IdSet(env, vtx + [tx]) == IdSet(env, vtx) + {env.txid(tx)}
  {
    hide *;
    AssembledPrefix(env, mempool, db, p, vtx, tx, |vtx|, pindexPrev, nBestHeight);
    MinedPrefix(env, db, vtx, tx, |vtx|);
    AssembledLast(env, mempool, db, p, vtx + [tx], pindexPrev, nBestHeight);
    MinedStep(env, db, vtx + [tx], |vtx| + 1);
    TallyStep(env, mempool, db, vtx + [tx], |vtx| + 1);
    IdSetMore(env, vtx, tx);
  }

  lemma AssembledLast(env: Env, mempool: map<uint256, Tx>, db: Index, p: Policy, vtx: seq<Tx>, pindexPrev: CBlockIndex,
                      nBestHeight: int)
    requires vtx != []
    requires var k := |vtx| - 1;
      && Assembled(env, mempool, db, p, vtx, k, pindexPrev, nBestHeight) && Pooled(env, mempool, vtx[k])
      && Accepts(env, p, View(env, mempool, Mined(env, db, vtx, k)), TallyOf(env, mempool, db, vtx, k), vtx[k],
        pindexPrev, nBestHeight)
    ensures Assembled(env, mempool, db, p, vtx, |vtx|, pindexPrev, nBestHeight)
    ensures View(env, mempool, Mined(env, db, vtx, |vtx| - 1)).Fetchable(vtx[|vtx| - 1].Spends())
  {
    hide Mined, TallyOf, Pooled, Connectable, Source.Fetchable, AddToTally;
  }

  lemma IdSetMore(env: Env, vtx: seq<Tx>, tx: Tx)
    ensures IdSet(env, vtx + [tx]) == IdSet(env, vtx) + {env.txid(tx)}
  {
    var w := vtx + [tx];
    assert w[|vtx|] == tx;
    forall i | 0 <= i < |vtx|
      ensures w[i] == vtx[i] && env.txid(vtx[i]) in IdSet(env, w)
    {
    }
  }

  // ----- the queue

  method PopHighest(v0: seq<TxPriority>) returns (c: TxPriority, v: seq<TxPriority>, ghost k: nat)
    requires v0 != []
    ensures k < |v0| && c == v0[k] && v == v0[..k] + v0[k + 1..]
    ensures forall i :: 0 <= i < |v0| ==> v0[i].dFeePerKb <= c.dFeePerKb
  {
    var best := 0;
    for i := 1 to |v0|
      invariant best < |v0| && forall j :: 0 <= j < i ==> v0[j].dFeePerKb <= v0[best].dFeePerKb
    {
      if v0[best].dFeePerKb < v0[i].dFeePerKb { best := i; }
    }
    k := best;
    c, v := v0[best], v0[..best] + v0[best + 1..];
  }

  lemma Popped(env: Env, db: Index, mempool: map<uint256, Tx>, isFinal: Tx -> bool, included: set<uint256>,
               popped: set<uint256>,
               v: seq<TxPriority>, m: map<uint256, seq<COrphan>>, orphans: set<COrphan>, k: nat)
    requires Scheduled(env, db, mempool, isFinal, included, popped, v, m, orphans) && k < |v|
    ensures Scheduled(env, db, mempool, isFinal, included, popped + {env.txid(v[k].tx)}, v[..k] + v[k + 1..], m,
      orphans)
    ensures env.txid(v[k].tx) in mempool && env.txid(v[k].tx) !in popped && Pooled(env, mempool, v[k].tx)
  {
    hide Listed, MissingOf, Eligible, OrphansFor, WaitsFor;
    QueueWithout(env, mempool, v, k);
  }

  lemma QueueWithout(env: Env, mempool: map<uint256, Tx>, v: seq<TxPriority>, k: nat)
    requires QueueGood(env, mempool, v) && k < |v|
    ensures QueueGood(env, mempool, v[..k] + v[k + 1..])
    ensures QueueIds(env, v[..k] + v[k + 1..]) == QueueIds(env, v) - {env.txid(v[k].tx)}
      && env.txid(v[k].tx) in QueueIds(env, v)
  {
    hide Pooled;
    var w := v[..k] + v[k + 1..];
    forall x
      ensures x in QueueIds(env, w) <==> x in QueueIds(env, v) && x != env.txid(v[k].tx)
    {
      if x in QueueIds(env, v) && x != env.txid(v[k].tx) {
        var i :| 0 <= i < |v| && x == env.txid(v[i].tx);
        assert w[if i < k then i else i - 1] == v[i];
      }
    }
  }

  // ----- the turns

  /** A transaction considered when k transactions were in the block, and whether it was picked. */
  datatype Turn = Turn(tx: Tx, k: nat, fPicked: bool)

  function TurnIds(env: Env, turns: seq<Turn>): set<uint256> {
    if turns == [] then {} else TurnIds(env, turns[..|turns| - 1]) + {env.txid(turns[|turns| - 1].tx)}
  }

  function PickedIn(turns: seq<Turn>): nat {
    if turns == [] then 0 else PickedIn(turns[..|turns| - 1]) + if turns[|turns| - 1].fPicked then 1 else 0
  }

  /** The transaction is ready, has not had its turn, and no other such one pays more for its size. */
  ghost predicate Highest(env: Env, db: Index, mempool: map<uint256, Tx>, isFinal: Tx -> bool, included: set<uint256>,
                          before: set<uint256>, tx: Tx) {
    && env.txid(tx) in Ready(env, db, mempool, isFinal, included) - before && mempool[env.txid(tx)] == tx
    && forall h :: h in Ready(env, db, mempool, isFinal, included) - before ==>
      Fee(env, db, mempool, mempool[h]) * env.txSize(tx) <= Fee(env, db, mempool, tx) * env.txSize(mempool[h])
  }

  /** Acceptable behind the first k transactions, and not too cheap for a block that has its minimum size. */
  ghost predicate Passes(env: Env, db: Index, mempool: map<uint256, Tx>, p: Policy, vtx: seq<Tx>, k: nat, tx: Tx,
                         pindexPrev: CBlockIndex, nBestHeight: int)
    requires k <= |vtx|
  {
    var t := TallyOf(env, mempool, db, vtx, k);
    && Accepts(env, p, View(env, mempool, Mined(env, db, vtx, k)), t, tx, pindexPrev, nBestHeight)
    && (1000 * Fee(env, db, mempool, tx) >= p.nMinTxFee * env.txSize(tx)
        || t.nBlockSize + env.txSize(tx) < p.nBlockMinSize)
  }

  ghost predicate TurnOk(env: Env, db: Index, mempool: map<uint256, Tx>, p: Policy, isFinal: Tx -> bool, vtx: seq<Tx>,
                         before: seq<Turn>, turn: Turn, pindexPrev: CBlockIndex, nBestHeight: int) {
    && turn.k == PickedIn(before) && turn.k <= |vtx|
    && Highest(env, db, mempool, isFinal, IdSet(env, vtx[..turn.k]), TurnIds(env, before), turn.tx)
    && turn.fPicked == Passes(env, db, mempool, p, vtx, turn.k, turn.tx, pindexPrev, nBestHeight)
    && (turn.fPicked ==> turn.k < |vtx| && vtx[turn.k] == turn.tx)
  }

  /** The block is what the turns came to. */
  ghost predicate InTurn(env: Env, db: Index, mempool: map<uint256, Tx>, p: Policy, isFinal: Tx -> bool, vtx: seq<Tx>,
                         turns: seq<Turn>, pindexPrev: CBlockIndex, nBestHeight: int) {
    && PickedIn(turns) == |vtx|
    && forall j :: 0 <= j < |turns| ==>
      TurnOk(env, db, mempool, p, isFinal, vtx, turns[..j], turns[j], pindexPrev, nBestHeight)
  }

  lemma PoppedHighest(env: Env, db: Index, mempool: map<uint256, Tx>, isFinal: Tx -> bool, included: set<uint256>,
                      popped: set<uint256>, v: seq<TxPriority>, m: map<uint256, seq<COrphan>>, orphans: set<COrphan>,
                      k: nat)
    requires Scheduled(env, db, mempool, isFinal, included, popped, v, m, orphans) && k < |v|
    requires QueueRated(env, db, mempool, v) && forall i :: 0 <= i < |v| ==> v[i].dFeePerKb <= v[k].dFeePerKb
    ensures Highest(env, db, mempool, isFinal, included, popped, v[k].tx)
    ensures QueueRated(env, db, mempool, v[..k] + v[k + 1..])
  {
    hide Listed, Ready, OrphansFor, WaitsFor, Fee, Rated;
    assert env.txid(v[k].tx) in QueueIds(env, v);
    forall h | h in Ready(env, db, mempool, isFinal, included) - popped
      ensures Fee(env, db, mempool, mempool[h]) * env.txSize(v[k].tx) <=
        Fee(env, db, mempool, v[k].tx) * env.txSize(mempool[h])
    {
      assert h in QueueIds(env, v);
      var i :| 0 <= i < |v| && h == env.txid(v[i].tx);
      RatesCompared(env, db, mempool, v[i].tx, v[i].dFeePerKb, v[k].tx, v[k].dFeePerKb);
    }
  }

  /** What TryAdd says of the popped transaction is what its turn demands. */
  lemma TriedPasses(env: Env, db: Index, mempool: map<uint256, Tx>, p: Policy, vtx: seq<Tx>, c: TxPriority,
                    pindexPrev: CBlockIndex, nBestHeight: int)
    requires Rated(env, db, mempool, c.tx, c.dFeePerKb)
    ensures var src, t := View(env, mempool, Mined(env, db, vtx, |vtx|)), TallyOf(env, mempool, db, vtx, |vtx|);
      Passes(env, db, mempool, p, vtx, |vtx|, c.tx, pindexPrev, nBestHeight) ==
        (Accepts(env, p, src, t, c.tx, pindexPrev, nBestHeight) && !FreeTooLate(env, p, t, c))
  {
    hide Accepts, Fee, TallyOf, Mined;
    RateBelow(env, db, mempool, c.tx, c.dFeePerKb, p.nMinTxFee);
  }

  /** A turn stays what it was when the block grows. */
  lemma TurnKept(env: Env, db: Index, mempool: map<uint256, Tx>, p: Policy, isFinal: Tx -> bool, vtx: seq<Tx>,
                 before: seq<Turn>, turn: Turn, tx: Tx, pindexPrev: CBlockIndex, nBestHeight: int)
    requires TurnOk(env, db, mempool, p, isFinal, vtx, before, turn, pindexPrev, nBestHeight)
    ensures TurnOk(env, db, mempool, p, isFinal, vtx + [tx], before, turn, pindexPrev, nBestHeight)
  {
    hide Accepts, Highest, TallyOf, Mined, Fee, IdSet, PickedIn, TurnIds;
    MinedPrefix(env, db, vtx, tx, turn.k);
    AssembledPrefix(env, mempool, db, p, vtx, tx, turn.k, pindexPrev, nBestHeight);
    assert (vtx + [tx])[..turn.k] == vtx[..turn.k];
  }

  /** One more turn. */
  lemma TurnAdded(env: Env, db: Index, mempool: map<uint256, Tx>, p: Policy, isFinal: Tx -> bool, vtx: seq<Tx>,
                  turns: seq<Turn>, turn: Turn, pindexPrev: CBlockIndex, nBestHeight: int)
    requires InTurn(env, db, mempool, p, isFinal, vtx, turns, pindexPrev, nBestHeight)
    requires turn.k == |vtx| && Highest(env, db, mempool, isFinal, IdSet(env, vtx), TurnIds(env, turns), turn.tx)
    requires turn.fPicked == Passes(env, db, mempool, p, vtx, |vtx|, turn.tx, pindexPrev, nBestHeight)
    ensures InTurn(env, db, mempool, p, isFinal, if turn.fPicked then vtx + [turn.tx] else vtx, turns + [turn],
      pindexPrev, nBestHeight)
    ensures TurnIds(env, turns + [turn]) == TurnIds(env, turns) + {env.txid(turn.tx)}
  {
    hide TurnOk;
    var vtx', turns' := if turn.fPicked then vtx + [turn.tx] else vtx, turns + [turn];
    assert turns'[..|turns|] == turns;
    forall j | 0 <= j < |turns'|
      ensures TurnOk(env, db, mempool, p, isFinal, vtx', turns'[..j], turns'[j], pindexPrev, nBestHeight)
    {
      if j < |turns| {
        assert turns'[..j] == turns[..j];
        if turn.fPicked {
          TurnKept(env, db, mempool, p, isFinal, vtx, turns[..j], turns[j], turn.tx, pindexPrev, nBestHeight);
        }
      } else {
        NewTurn(env, db, mempool, p, isFinal, vtx, turns, turn, pindexPrev, nBestHeight);
      }
    }
  }

  lemma NewTurn(env: Env, db: Index, mempool: map<uint256, Tx>, p: Policy, isFinal: Tx -> bool, vtx: seq<Tx>,
                turns: seq<Turn>, turn: Turn, pindexPrev: CBlockIndex, nBestHeight: int)
    requires PickedIn(turns) == |vtx|
    requires turn.k == |vtx| && Highest(env, db, mempool, isFinal, IdSet(env, vtx), TurnIds(env, turns), turn.tx)
    requires turn.fPicked == Passes(env, db, mempool, p, vtx, |vtx|, turn.tx, pindexPrev, nBestHeight)
    ensures TurnOk(env, db, mempool, p, isFinal, if turn.fPicked then vtx + [turn.tx] else vtx, turns, turn,
      pindexPrev, nBestHeight)
  {
    hide Accepts, Highest, TallyOf, Mined, Fee, IdSet, PickedIn, TurnIds;
    MinedPrefix(env, db, vtx, turn.tx, turn.k);
    AssembledPrefix(env, mempool, db, p, vtx, turn.tx, turn.k, pindexPrev, nBestHeight);
    assert (vtx + [turn.tx])[..turn.k] == vtx[..turn.k] == vtx;
  }

  /** Behind the first k picks the transaction is not acceptable. */
  ghost predicate Unacceptable(env: Env, db: Index, mempool: map<uint256, Tx>, p: Policy, vtx: seq<Tx>, k: nat, tx: Tx,
                               pindexPrev: CBlockIndex, nBestHeight: int) {
    k <= |vtx| && !Accepts(env, p, View(env, mempool, Mined(env, db, vtx, k)), TallyOf(env, mempool, db, vtx, k), tx,
      pindexPrev, nBestHeight)
  }

  /** A transaction that was considered and left out, although it pays the minimum for its size, was refused on another
      ground in its turn. */
  lemma LeftOutRefused(env: Env, db: Index, mempool: map<uint256, Tx>, p: Policy, isFinal: Tx -> bool, vtx: seq<Tx>,
                       turns: seq<Turn>, h: uint256, pindexPrev: CBlockIndex, nBestHeight: int)
    requires InTurn(env, db, mempool, p, isFinal, vtx, turns, pindexPrev, nBestHeight)
    requires h in TurnIds(env, turns) && h in mempool
    requires 1000 * Fee(env, db, mempool, mempool[h]) >= p.nMinTxFee * env.txSize(mempool[h])
    ensures h in IdSet(env, vtx)
      || exists k :: Unacceptable(env, db, mempool, p, vtx, k, mempool[h], pindexPrev, nBestHeight)
  {
    hide Accepts, TallyOf, Mined, Fee, TurnOk;
    var j := TurnOf(env, turns, h);
    assert TurnOk(env, db, mempool, p, isFinal, vtx, turns[..j], turns[j], pindexPrev, nBestHeight);
    TurnRefused(env, db, mempool, p, isFinal, vtx, turns[..j], turns[j], h, pindexPrev, nBestHeight);
  }

  lemma TurnRefused(env: Env, db: Index, mempool: map<uint256, Tx>, p: Policy, isFinal: Tx -> bool, vtx: seq<Tx>,
                    before: seq<Turn>, turn: Turn, h: uint256, pindexPrev: CBlockIndex, nBestHeight: int)
    requires TurnOk(env, db, mempool, p, isFinal, vtx, before, turn, pindexPrev, nBestHeight)
    requires env.txid(turn.tx) == h && h in mempool
    requires 1000 * Fee(env, db, mempool, mempool[h]) >= p.nMinTxFee * env.txSize(mempool[h])
    ensures h in IdSet(env, vtx)
      || Unacceptable(env, db, mempool, p, vtx, turn.k, mempool[h], pindexPrev, nBestHeight)
  {
    hide Accepts, TallyOf, Mined, Fee, Ready;
  }

  lemma {:induction false} TurnOf(env: Env, turns: seq<Turn>, h: uint256) returns (j: nat)
    requires h in TurnIds(env, turns)
    ensures j < |turns| && env.txid(turns[j].tx) == h
  {
    j := |turns| - 1;
    if env.txid(turns[j].tx) != h { j := TurnOf(env, turns[..j], h); }
  }

  /** The selection of CreateNewBlock. Every transaction picked was acceptable when it was picked, and exactly the
      eligible transactions whose ancestors in the pool have all been picked have been considered. */
  method SelectTransactions(env: Env, mempool: map<uint256, Tx>, txdb: CTxDB, p: Policy, isFinal: Tx -> bool,
                            pindexPrev: CBlockIndex, nBestHeight: int)
    returns (vtx: seq<Tx>, t: Tally, ghost considered: set<uint256>, ghost turns: seq<Turn>)
    requires PoolGood(env, txdb.View(), mempool) && pindexPrev.Linked()
    ensures Assembled(env, mempool, txdb.View(), p, vtx, |vtx|, pindexPrev, nBestHeight)
    ensures t == TallyOf(env, mempool, txdb.View(), vtx, |vtx|)
    ensures IdSet(env, vtx) <= considered == Ready(env, txdb.View(), mempool, isFinal, IdSet(env, vtx))
    ensures considered == TurnIds(env, turns)
      && InTurn(env, txdb.View(), mempool, p, isFinal, vtx, turns, pindexPrev, nBestHeight)
  {
    hide InTurn, TurnIds, Highest, Passes, Rated, FreeTooLate, Assembled, TallyOf, Mined, Accepts, Scheduled,
      AddToTally, ApplyTx, Sorted, Ready, IdSet, Connectable, Source.Fetchable, Pooled;
    ghost var db := txdb.View();
    var vecPriority, mapDependers;
    ghost var orphans;
    vecPriority, mapDependers, orphans := CollectCandidates(env, mempool, txdb, isFinal);
    SortedScheduled(env, db, mempool, isFinal, vecPriority, mapDependers, orphans);
    vtx, t, considered, turns := [], Tally(1000, 100, 0), {}, [];
    NoTurns(env, db, mempool, p, isFinal, pindexPrev, nBestHeight);
    var mapTestPool: Index := map[];
    NothingAssembled(env, mempool, db, p, pindexPrev, nBestHeight);
    while |vecPriority| > 0
      invariant Assembled(env, mempool, db, p, vtx, |vtx|, pindexPrev, nBestHeight)
      invariant t == TallyOf(env, mempool, db, vtx, |vtx|) && db + mapTestPool == Mined(env, db, vtx, |vtx|)
      invariant Scheduled(env, db, mempool, isFinal, IdSet(env, vtx), considered, vecPriority, mapDependers, orphans)
      invariant fresh(orphans) && txdb.View() == db
      invariant QueueRated(env, db, mempool, vecPriority) && OrphansRated(env, db, mempool, orphans)
      invariant considered == TurnIds(env, turns)
        && InTurn(env, db, mempool, p, isFinal, vtx, turns, pindexPrev, nBestHeight)
      decreases mempool.Keys - considered
    {
      ghost var v0 := vecPriority;
      var c;
      ghost var k;
      c, vecPriority, k := PopHighest(vecPriority);
      Popped(env, db, mempool, isFinal, IdSet(env, vtx), considered, v0, mapDependers, orphans, k);
      PoppedHighest(env, db, mempool, isFinal, IdSet(env, vtx), considered, v0, mapDependers, orphans, k);
      ScheduledIds(env, db, mempool, isFinal, IdSet(env, vtx), considered, v0, mapDependers, orphans);
      var hash := env.txid(c.tx);
      considered := considered + {hash};
      PooledIsOrdinary(env, mempool, c.tx);
      var ok, pool', t' := TryAdd(env, mempool, txdb, p, c, mapTestPool, t, pindexPrev, nBestHeight);
      TriedPasses(env, db, mempool, p, vtx, c, pindexPrev, nBestHeight);
      TurnAdded(env, db, mempool, p, isFinal, vtx, turns, Turn(c.tx, |vtx|, ok), pindexPrev, nBestHeight);
      turns := turns + [Turn(c.tx, |vtx|, ok)];
      if !ok { continue; }
      AssembledMore(env, mempool, db, p, vtx, c.tx, pindexPrev, nBestHeight);
      vecPriority := ReleaseDependents(env, mempool, hash, mapDependers, vecPriority, db, isFinal, orphans,
        IdSet(env, vtx), considered);
      mapTestPool, t := pool', t';
      vtx := vtx + [c.tx];
    }
    AllConsidered(env, db, mempool, isFinal, IdSet(env, vtx), considered, vecPriority, mapDependers, orphans);
  }

  lemma NoTurns(env: Env, db: Index, mempool: map<uint256, Tx>, p: Policy, isFinal: Tx -> bool,
                pindexPrev: CBlockIndex, nBestHeight: int)
    ensures InTurn(env, db, mempool, p, isFinal, [], [], pindexPrev, nBestHeight) && TurnIds(env, []) == {}
  {
  }

  lemma NothingAssembled(env: Env, mempool: map<uint256, Tx>, db: Index, p: Policy, pindexPrev: CBlockIndex,
                         nBestHeight: int)
    ensures Assembled(env, mempool, db, p, [], 0, pindexPrev, nBestHeight)
      && TallyOf(env, mempool, db, [], 0) == Tally(1000, 100, 0)
    ensures db + map[] == Mined(env, db, [], 0) && IdSet(env, []) == {}
  {
  }

  lemma PooledIsOrdinary(env: Env, mempool: map<uint256, Tx>, tx: Tx)
    requires Pooled(env, mempool, tx)
    ensures !tx.IsCoinBase()
  {
  }

  lemma ScheduledIds(env: Env, db: Index, mempool: map<uint256, Tx>, isFinal: Tx -> bool, included: set<uint256>,
                     popped: set<uint256>,
                     v: seq<TxPriority>, m: map<uint256, seq<COrphan>>, orphans: set<COrphan>)
    requires Scheduled(env, db, mempool, isFinal, included, popped, v, m, orphans)
    ensures included <= popped <= mempool.Keys
  {
  }

  lemma AllConsidered(env: Env, db: Index, mempool: map<uint256, Tx>, isFinal: Tx -> bool, included: set<uint256>,
                      popped: set<uint256>,
                      v: seq<TxPriority>, m: map<uint256, seq<COrphan>>, orphans: set<COrphan>)
    requires Scheduled(env, db, mempool, isFinal, included, popped, v, m, orphans) && v == []
    ensures included <= popped == Ready(env, db, mempool, isFinal, included)
  {
    assert QueueIds(env, v) == {};
  }

  // ----- the whole block

  /** What the node is configured with, and what it is told about the time. */
  datatype Settings = Settings(
    blockMaxSize: nat,
    blockMinSize: nat,
    nMinTxFee: int,
    minFee: (Tx, nat) -> int,
    nAdjustedTime: int,
    nPastTimeLimit: int)

  function LargestBlock(blockMaxSize: nat): nat {
    if blockMaxSize < 1000 then 1000 else if blockMaxSize > MAX_BLOCK_SIZE - 1000 then MAX_BLOCK_SIZE - 1000
      else blockMaxSize
  }

  function PolicyOf(s: Settings, fProofOfStake: bool, nCoinbaseTime: int): Policy {
    var nBlockMaxSize := LargestBlock(s.blockMaxSize);
    Policy(nBlockMaxSize, if s.blockMinSize < nBlockMaxSize then s.blockMinSize else nBlockMaxSize,
           s.nMinTxFee, s.minFee, s.nAdjustedTime, fProofOfStake, nCoinbaseTime)
  }

  function WithValue(coinbase: Tx, nValue: int): Tx
    requires coinbase.vout != []
  {
    coinbase.(vout := coinbase.vout[0 := coinbase.vout[0].(nValue := nValue)])
  }

  method MaxTransactionTime(vtx: seq<Tx>) returns (maxTime: int)
    ensures maxTime >= 0 && forall tx :: tx in vtx ==> tx.nTime <= maxTime
    ensures maxTime == 0 || exists tx :: tx in vtx && tx.nTime == maxTime
  {
    maxTime := 0;
    for i := 0 to |vtx|
      invariant maxTime >= 0 && forall j :: 0 <= j < i ==> vtx[j].nTime <= maxTime
      invariant maxTime == 0 || exists j :: 0 <= j < i && vtx[j].nTime == maxTime
    {
      if vtx[i].nTime > maxTime { maxTime := vtx[i].nTime; }
    }
  }

  /** CreateNewBlock on top of the best block, given its empty coinbase. The header's time is later than the past
      time limit and than every transaction; a proof-of-work coinbase takes subsidy and fees. */
  method CreateNewBlock(env: Env, mempool: map<uint256, Tx>, txdb: CTxDB, s: Settings, isFinal: Tx -> bool, txNew: Tx,
                        fProofOfStake: bool,
                        nBits: BigNum.uint32, pindexBest: CBlockIndex)
    returns (block: Block, nFees: int, ghost considered: set<uint256>, ghost turns: seq<Turn>)
    requires PoolGood(env, txdb.View(), mempool) && pindexBest.Linked() && |txNew.vout| == 1
    ensures block.vtx != [] && block.hashPrevBlock == pindexBest.hash && block.nBits == nBits
    ensures block.vtx[0] == if fProofOfStake then txNew
      else WithValue(txNew, PowSubsidy(pindexBest.nHeight + 1) + nFees)
    ensures block.nTime > s.nPastTimeLimit && forall tx :: tx in block.vtx ==> tx.nTime <= block.nTime
    ensures block.nTime == s.nPastTimeLimit + 1 || block.nTime == 0
      || (!fProofOfStake && block.nTime == s.nAdjustedTime)
      || exists tx :: tx in block.vtx && tx.nTime == block.nTime
    ensures !fProofOfStake ==> block.nTime >= s.nAdjustedTime
    ensures !fProofOfStake ==>
      && block.vtx[0].vout == [TxOut(PowSubsidy(pindexBest.nHeight + 1) + nFees, txNew.vout[0].scriptPubKey)]
      && block.vtx[0].vin == txNew.vin && block.vtx[0].nTime == txNew.nTime
    ensures var p, vtx := PolicyOf(s, fProofOfStake, txNew.nTime), block.vtx[1..];
      && Assembled(env, mempool, txdb.View(), p, vtx, |vtx|, pindexBest, pindexBest.nHeight)
      && nFees == TallyOf(env, mempool, txdb.View(), vtx, |vtx|).nFees
      && IdSet(env, vtx) <= considered == Ready(env, txdb.View(), mempool, isFinal, IdSet(env, vtx))
      && considered == TurnIds(env, turns)
      && InTurn(env, txdb.View(), mempool, p, isFinal, vtx, turns, pindexBest, pindexBest.nHeight)
  {
    hide InTurn, TurnIds, Assembled, TallyOf, IdSet, Ready, PowSubsidy, PoolGood;
    var p := PolicyOf(s, fProofOfStake, txNew.nTime);
    var vtx, t;
    vtx, t, considered, turns := SelectTransactions(env, mempool, txdb, p, isFinal, pindexBest, pindexBest.nHeight);
    nFees := t.nFees;
    var coinbase := txNew;
    if !fProofOfStake {
      coinbase := WithValue(txNew, PowSubsidy(pindexBest.nHeight + 1) + nFees);
    }
    var all := [coinbase] + vtx;
    assert all[1..] == vtx;
    var nTime := MaxTransactionTime(all);
    if nTime < s.nPastTimeLimit + 1 { nTime := s.nPastTimeLimit + 1; }
    if !fProofOfStake && nTime < s.nAdjustedTime { nTime := s.nAdjustedTime; }
    block := Block(7, pindexBest.hash, nTime, nBits, all);
  }

  /** A proof-of-work block made by CreateNewBlock connects as soon as it passes CheckBlock: with the pool in order,
      its coinbase new, and the block on disk at a place of its own. */
  lemma CreatedBlockConnects(env: Env, mempool: map<uint256, Tx>, db: Index, s: Settings, txNew: Tx, block: Block,
                             pindex: CBlockIndex, nFees: int)
    requires block.vtx != [] && |txNew.vout| == 1 && pindex.pprev != null
    requires var p, vtx := PolicyOf(s, false, txNew.nTime), block.vtx[1..];
      && Assembled(env, mempool, db, p, vtx, |vtx|, pindex.pprev, pindex.pprev.nHeight)
      && nFees == TallyOf(env, mempool, db, vtx, |vtx|).nFees
    requires block.vtx[0] == WithValue(txNew, PowSubsidy(pindex.pprev.nHeight + 1) + nFees)
    requires CheckBlock(env, block) && !block.IsProofOfStake() && env.legacySigOps(block.vtx[0]) <= 100
    requires Fresh(mempool, db) && OnDiskAt(env, mempool, db, block.vtx[..1], block.vtx[1..], pindex)
    ensures BlockConnects(env, mempool, db, pindex, block, pindex.pprev.nHeight)
  {
    hide Assembled, TallyOf, OnDiskAt, CheckBlock, PowSubsidy, BlockConnects;
    OneOutput(block.vtx[0]);
    AssembledBlockConnects(env, mempool, db, PolicyOf(s, false, txNew.nTime), block, pindex, pindex.pprev.nHeight);
  }

  /** A proof-of-stake template connects once a coinstake that connects by itself has been put behind its coinbase:
      when no picked transaction was dropped as later than the coinstake or spends what the coinstake takes, and the
      coinstake pays itself no more than its reward with their fees. */
  lemma StakedBlockConnects(env: Env, mempool: map<uint256, Tx>, db: Index, s: Settings, txNew: Tx, template: Block,
                            block: Block,
                            pindex: CBlockIndex, nFees: int)
    requires template.vtx != [] && pindex.pprev != null
    requires var p, vtx := PolicyOf(s, true, txNew.nTime), template.vtx[1..];
      && Assembled(env, mempool, db, p, vtx, |vtx|, pindex.pprev, pindex.pprev.nHeight)
      && nFees == TallyOf(env, mempool, db, vtx, |vtx|).nFees
    requires |block.vtx| >= 2 && block.vtx[2..] == template.vtx[1..]
    requires CheckBlock(env, block) && block.IsProofOfStake()
    requires Fresh(mempool, db) && OnDiskAt(env, mempool, db, block.vtx[..2], block.vtx[2..], pindex)
    requires var b := PlacedAt(pindex, block);
      var t := TotalsOf(env, mempool, db, b, 2);
      && TxsConnect(env, mempool, db, b, 2, pindex, pindex.pprev.nHeight) && t.nSigOps <= 100
      && RewardOk(env, db, block, pindex, t.(nFees := nFees), pindex.pprev.nHeight)
    ensures BlockConnects(env, mempool, db, pindex, block, pindex.pprev.nHeight)
  {
    hide Assembled, TallyOf, OnDiskAt, CheckBlock, RewardOk, BlockConnects, TotalsOf, TxsConnect;
    AssembledStakeConnects(env, mempool, db, PolicyOf(s, true, txNew.nTime), block, pindex, pindex.pprev.nHeight);
  }

  lemma OneOutput(tx: Tx)
    requires |tx.vout| == 1
    ensures tx.ValueOut() == tx.vout[0].nValue
  {
    assert SumOut(tx.vout[..0]) == 0;
  }
}
