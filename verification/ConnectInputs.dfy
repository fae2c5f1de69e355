/** CTransaction's part of connecting and disconnecting a block: FetchInputs, ConnectInputs and
    DisconnectInputs, as loops over the inputs. */
module ConnectInputs {
  import opened Basics
  import opened Transactions
  import opened Ledger
  import opened TxDb
  import opened BlockIndex

  /** A previous transaction with its index record. */
  datatype Prev = Prev(txindex: TxIndex, tx: Tx)

  /** The fetched previous transactions: index records and transactions, by id. */
  datatype MapPrevTx = MapPrevTx(records: Index, txs: map<uint256, Tx>) {
    predicate Has(h: uint256) { h in records && h in txs }

    function Add(h: uint256, prev: Prev): MapPrevTx {
      MapPrevTx(records[h := prev.txindex], txs[h := prev.tx])
    }

    function Get(h: uint256): Prev
      requires Has(h)
    {
      Prev(records[h], txs[h])
    }
  }

  datatype Mode = Mode(fBlock: bool, fMiner: bool) {
    predicate UsesPool() { fBlock || fMiner }
  }

  predicate OutputExists(prev: Prev, n: nat) {
    n < |prev.tx.vout| && n < |prev.txindex.vSpent|
  }

  // ----- FetchInputs

  /** What FetchInputs looks things up in: the block files, the memory pool, the database and the
      changes proposed so far. */
  datatype Source = Source(env: Env, mempool: map<uint256, Tx>, db: Index, pool: Index, mode: Mode) {

    /** The proposed changes come first when a block is connected or assembled, then the database. */
    function FindIndex(h: uint256): Option<TxIndex> {
      if mode.UsesPool() && h in pool then Some(pool[h])
      else if h in db then Some(db[h])
      else None
    }

    /** Record and transaction of a previous transaction, or nothing when either is missing. */
    function FindPrev(h: uint256): Option<Prev> {
      match FindIndex(h)
      case None =>
        if mode.UsesPool() || h !in mempool then None
        else Some(Prev(TxIndex(NullPos, Unspent(|mempool[h].vout|)), mempool[h]))
      case Some(t) =>
        if t.pos == MEMPOOL_POS then (if h in mempool then Some(Prev(t, mempool[h])) else None)
        else match env.txAt(t.pos)
          case None => None
          case Some(tx) => Some(Prev(t, tx))
    }

    predicate AllFound(os: seq<OutPoint>) {
      forall h :: h in HashesOf(os) ==> FindPrev(h).Some?
    }

    predicate Fetchable(os: seq<OutPoint>) {
      AllFound(os) && forall o :: o in os ==> FindPrev(o.hash).Some? && OutputExists(FindPrev(o.hash).value, o.n)
    }

    /** The previous transactions of the outpoints. */
    function FetchAll(os: seq<OutPoint>): MapPrevTx
      requires AllFound(os)
    {
      MapPrevTx(map h | h in HashesOf(os) :: FindPrev(h).value.txindex, map h | h in HashesOf(os) ::
        FindPrev(h).value.tx)
    }
  }

  /** Where FetchInputs finds a previous transaction. Connecting or assembling a block, the changes proposed so far
      come before the database, and what is in neither is not found; otherwise the changes do not count, and what is
      not in the database is looked for in the memory pool. A record with the position that stands for the memory pool
      is looked up there, any other in the block files. */
  lemma FoundWhere(src: Source, h: uint256)
    ensures src.mode.fBlock || src.mode.fMiner ==>
      if h in src.pool then src.FindPrev(h) == Resolved(src, h, src.pool[h])
      else if h in src.db then src.FindPrev(h) == Resolved(src, h, src.db[h])
      else src.FindPrev(h) == None
    ensures !src.mode.fBlock && !src.mode.fMiner ==>
      if h in src.db then src.FindPrev(h) == Resolved(src, h, src.db[h])
      else if h in src.mempool then
        src.FindPrev(h) == Some(Prev(TxIndex(NullPos, Unspent(|src.mempool[h].vout|)), src.mempool[h]))
      else src.FindPrev(h) == None
  {
  }

  function Resolved(src: Source, h: uint256, t: TxIndex): Option<Prev> {
    var found := if t.pos != At(1, 1, 1) then src.env.txAt(t.pos)
      else if h in src.mempool then Some(src.mempool[h]) else None;
    if found.None? then None else Some(Prev(t, found.value))
  }

  function HashesOf(os: seq<OutPoint>): (r: set<uint256>)
    ensures forall o :: o in os ==> o.hash in r
  {
    if os == [] then {}
    else
      assert os == os[..|os| - 1] + [os[|os| - 1]];
      HashesOf(os[..|os| - 1]) + {os[|os| - 1].hash}
  }

  method ReadPrev(env: Env, mempool: map<uint256, Tx>, txdb: CTxDB, mapTestPool: Index, mode: Mode, hash: uint256)
    returns (prev: Option<Prev>)
    ensures prev == Source(env, mempool, txdb.View(), mapTestPool, mode).FindPrev(hash)
  {
    var fFound, txindex := true, TxIndex(NullPos, []);
    if mode.UsesPool() && hash in mapTestPool {
      txindex := mapTestPool[hash];
    } else {
      fFound, txindex := txdb.ReadTxIndex(hash);
    }
    if !fFound && mode.UsesPool() {
      return None;
    }
    if !fFound || txindex.pos == MEMPOOL_POS {
      if hash !in mempool {
        return None;
      }
      if !fFound {
        txindex := TxIndex(NullPos, Unspent(|mempool[hash].vout|));
      }
      return Some(Prev(txindex, mempool[hash]));
    }
    match env.txAt(txindex.pos)
    case None => return None;
    case Some(txPrev) => return Some(Prev(txindex, txPrev));
  }

  method FetchRecords(env: Env, mempool: map<uint256, Tx>, txdb: CTxDB, os: seq<OutPoint>, mapTestPool: Index,
                      mode: Mode)
    returns (ok: bool, inputsRet: MapPrevTx)
    ensures ok <==> Source(env, mempool, txdb.View(), mapTestPool, mode).AllFound(os)
    ensures ok ==> inputsRet == Source(env, mempool, txdb.View(), mapTestPool, mode).FetchAll(os)
  {
    hide Source.FindPrev;
    ghost var src := Source(env, mempool, txdb.View(), mapTestPool, mode);
    inputsRet := MapPrevTx(map[], map[]);
    for i := 0 to |os|
      invariant src.AllFound(os[..i]) && inputsRet == src.FetchAll(os[..i])
    {
      assert os[..i + 1][..i] == os[..i];
      assert HashesOf(os[..i + 1]) == HashesOf(os[..i]) + {os[i].hash};
      if inputsRet.Has(os[i].hash) {
        continue;
      }
      var prev := ReadPrev(env, mempool, txdb, mapTestPool, mode, os[i].hash);
      if prev.None? {
        assert os[i] in os;
        return false, inputsRet;
      }
      inputsRet := inputsRet.Add(os[i].hash, prev.value);
      assert inputsRet == src.FetchAll(os[..i + 1]);
    }
    assert os[..|os|] == os;
    ok := true;
  }

  /** FetchInputs succeeds exactly when every input's previous transaction is found and has the output, and
      then returns them all; fInvalid says that only an output was missing. */
  method FetchInputs(env: Env, mempool: map<uint256, Tx>, txdb: CTxDB, tx: Tx, mapTestPool: Index, mode: Mode)
    returns (ok: bool, inputsRet: MapPrevTx, fInvalid: bool)
    ensures ok <==> Source(env, mempool, txdb.View(), mapTestPool, mode).Fetchable(tx.Spends())
    ensures ok ==> inputsRet == Source(env, mempool, txdb.View(), mapTestPool, mode).FetchAll(tx.Spends())
    ensures fInvalid <==> !ok && Source(env, mempool, txdb.View(), mapTestPool, mode).AllFound(tx.Spends())
  {
    hide Source.FindPrev;
    fInvalid := false;
    ghost var src := Source(env, mempool, txdb.View(), mapTestPool, mode);
    var os := tx.Spends();
    ok, inputsRet := FetchRecords(env, mempool, txdb, os, mapTestPool, mode);
    if !ok {
      return;
    }
    for i := 0 to |os|
      invariant forall o :: o in os[..i] ==> OutputExists(src.FindPrev(o.hash).value, o.n)
    {
      assert os[..i + 1] == os[..i] + [os[i]] && os[i] in os;
      if !OutputExists(inputsRet.Get(os[i].hash), os[i].n) {
        return false, inputsRet, true;
      }
    }
    assert os[..|os|] == os;
  }

  // ----- ConnectInputs

  /** The total value of the outputs taken in. */
  function ValueIn(inputs: MapPrevTx, os: seq<OutPoint>): int
    requires forall o :: o in os ==> o.hash in inputs.txs && o.n < |inputs.txs[o.hash].vout|
  {
    if os == [] then 0
    else
      var o := os[|os| - 1];
      assert o in os;
      ValueIn(inputs, os[..|os| - 1]) + inputs.txs[o.hash].vout[o.n].nValue
  }

  /** The tests on one input that need no signature. */
  ghost predicate InputOk(env: Env, tx: Tx, prev: Prev, n: nat, pindexBlock: CBlockIndex) {
    && OutputExists(prev, n)
    && !((prev.tx.IsCoinBase() || prev.tx.IsCoinStake())
         && ConfirmedWithin(prev.txindex.pos, pindexBlock, env.nCoinbaseMaturity))
    && prev.tx.nTime <= tx.nTime
    && !prev.tx.vout[n].IsEmpty()
    && MoneyRange(prev.tx.vout[n].nValue)
  }

  ghost predicate InputsOk(env: Env, tx: Tx, inputs: MapPrevTx, pindexBlock: CBlockIndex, os: seq<OutPoint>) {
    forall o :: o in os ==> inputs.Has(o.hash) && InputOk(env, tx, inputs.Get(o.hash), o.n, pindexBlock)
  }

  predicate Signed(env: Env, tx: Tx, inputs: MapPrevTx, os: seq<OutPoint>) {
    forall i :: 0 <= i < |os| && inputs.Has(os[i].hash) ==> env.verifySignature(inputs.txs[os[i].hash], tx, i)
  }

  predicate SkipsSignatures(env: Env, mode: Mode, nBestHeight: int) {
    mode.fBlock && nBestHeight < env.nCheckpointHeight
  }

  /** Signatures are not checked when blocks below the last checkpoint are connected. */
  predicate SignaturesOk(env: Env, tx: Tx, inputs: MapPrevTx, os: seq<OutPoint>, mode: Mode, nBestHeight: int) {
    SkipsSignatures(env, mode, nBestHeight) || Signed(env, tx, inputs, os)
  }

  predicate FeeOk(tx: Tx, nValueIn: int) {
    tx.IsCoinStake() || (MIN_TX_FEE <= nValueIn - tx.ValueOut() && MoneyRange(nValueIn - tx.ValueOut()))
  }

  /** The records of the inputs, each written to the pool when it is marked. */
  function WriteBack(pool: Index, ix: Index, os: seq<OutPoint>, pos: DiskTxPos): Index
    requires forall o :: o in os ==> o.hash in ix
  {
    if os == [] then pool
    else
      var o := os[|os| - 1];
      var marked := MarkAll(ix, os, pos);
      assert o.hash in marked by { MarkAllAt(ix, os, pos); }
      WriteBack(pool, ix, os[..|os| - 1], pos)[o.hash := marked[o.hash]]
  }

  method CheckInput(env: Env, tx: Tx, prev: Prev, n: nat, pindexBlock: CBlockIndex) returns (ok: bool)
    requires pindexBlock.Linked()
    ensures ok <==> InputOk(env, tx, prev, n, pindexBlock)
  {
    if !OutputExists(prev, n) {
      return false;
    }
    if prev.tx.IsCoinBase() || prev.tx.IsCoinStake() {
      var confirmed, nSpendDepth := IsConfirmedInNPrevBlocks(prev.txindex.pos, pindexBlock, env.nCoinbaseMaturity);
      if confirmed {
        return false;
      }
    }
    if prev.tx.nTime > tx.nTime {
      return false;
    }
    if prev.tx.vout[n].IsEmpty() {
      return false;
    }
    return MoneyRange(prev.tx.vout[n].nValue);
  }

  /** The first loop: the inexpensive tests on every input, and the sum of their values. */
  method CheckInputs(env: Env, tx: Tx, inputs: MapPrevTx, pindexBlock: CBlockIndex)
    returns (ok: bool, nValueIn: int)
    requires pindexBlock.Linked()
    requires forall o :: o in tx.Spends() ==> inputs.Has(o.hash)
    ensures ok <==> InputsOk(env, tx, inputs, pindexBlock, tx.Spends()) && MoneyRange(ValueIn(inputs, tx.Spends()))
    ensures ok ==> nValueIn == ValueIn(inputs, tx.Spends())
  {
    hide ConfirmedWithin;
    var os := tx.Spends();
    nValueIn := 0;
    for i := 0 to |os|
      invariant InputsOk(env, tx, inputs, pindexBlock, os[..i])
      invariant nValueIn == ValueIn(inputs, os[..i]) && MoneyRange(nValueIn)
    {
      assert os[i] in os;
      var passes := CheckInput(env, tx, inputs.Get(os[i].hash), os[i].n, pindexBlock);
      if !passes {
        return false, 0;
      }
      assert os[..i + 1][..i] == os[..i];
      assert os[..i + 1] == os[..i] + [os[i]];
      nValueIn := nValueIn + inputs.txs[os[i].hash].vout[os[i].n].nValue;
      if !MoneyRange(nValueIn) {
        if InputsOk(env, tx, inputs, pindexBlock, os) {
          ValueInGrows(env, tx, inputs, pindexBlock, i + 1);
        }
        return false, 0;
      }
    }
    assert os[..|os|] == os;
    ok := true;
  }

  /** Partial sums of the input values do not exceed the total. */
  lemma {:induction false} ValueInGrows(env: Env, tx: Tx, inputs: MapPrevTx, pindexBlock: CBlockIndex, k: nat)
    requires k <= |tx.Spends()| && InputsOk(env, tx, inputs, pindexBlock, tx.Spends())
    ensures 0 <= ValueIn(inputs, tx.Spends()[..k]) <= ValueIn(inputs, tx.Spends())
    decreases |tx.Spends()| - k
  {
    var os := tx.Spends();
    NonNegativeIn(env, tx, inputs, pindexBlock, os[..k]);
    if k == |os| {
      assert os[..k] == os;
    } else {
      ValueInGrows(env, tx, inputs, pindexBlock, k + 1);
      assert os[..k + 1][..k] == os[..k];
      assert os[k] in os;
    }
  }

  lemma {:induction false} NonNegativeIn(env: Env, tx: Tx, inputs: MapPrevTx, pindexBlock: CBlockIndex,
                                         os: seq<OutPoint>)
    requires InputsOk(env, tx, inputs, pindexBlock, os)
    ensures ValueIn(inputs, os) >= 0
  {
    if os != [] {
      NonNegativeIn(env, tx, inputs, pindexBlock, os[..|os| - 1]);
      assert os[|os| - 1] in os;
    }
  }

  /** Looking at one more input: its record is still unspent exactly when the output was unspent at the
      start and no earlier input took it. */
  lemma NextSpend(ix: Index, os: seq<OutPoint>, i: nat, pos: DiskTxPos)
    requires i < |os| && pos.At? && InRange(ix, os[i])
    ensures InRange(MarkAll(ix, os[..i], pos), os[i])
    ensures MarkAll(ix, os[..i], pos)[os[i].hash].vSpent[os[i].n] == NullPos <==>
      IsUnspent(ix, os[i]) && os[i] !in os[..i]
    ensures MarkAll(ix, os[..i + 1], pos) == Mark(MarkAll(ix, os[..i], pos), os[i], pos)
  {
    MarkAllAt(ix, os[..i], pos);
    assert OutPoint(os[i].hash, os[i].n) == os[i];
    assert os[..i + 1][..i] == os[..i];
  }

  /** One turn of the second loop: the conflict test, the signature, and the mark. */
  method SpendInput(env: Env, tx: Tx, i: nat, o: OutPoint, inputs0: MapPrevTx, pool0: Index, pos: DiskTxPos,
                    mode: Mode, nBestHeight: int)
    returns (ok: bool, inputs: MapPrevTx, mapTestPool: Index)
    requires inputs0.Has(o.hash) && o.n < |inputs0.records[o.hash].vSpent|
    ensures ok == (inputs0.records[o.hash].vSpent[o.n] == NullPos &&
      (SkipsSignatures(env, mode, nBestHeight) || env.verifySignature(inputs0.txs[o.hash], tx, i)))
    ensures ok ==> inputs == inputs0.(records := Mark(inputs0.records, o, pos))
    ensures ok ==> mapTestPool == if mode.UsesPool() then pool0[o.hash := inputs.records[o.hash]] else pool0
  {
    inputs, mapTestPool := inputs0, pool0;
    var txindex := inputs.records[o.hash];
    if txindex.vSpent[o.n] != NullPos {
      return false, inputs, mapTestPool;
    }
    if !SkipsSignatures(env, mode, nBestHeight) {
      if !env.verifySignature(inputs.txs[o.hash], tx, i) {
        return false, inputs, mapTestPool;
      }
    }
    txindex := txindex.(vSpent := txindex.vSpent[o.n := pos]);
    inputs := inputs.(records := inputs.records[o.hash := txindex]);
    if mode.UsesPool() {
      mapTestPool := mapTestPool[o.hash := txindex];
    }
    ok := true;
  }

  /** The outpoints are unspent and each is new, taken one after the other. */
  predicate TakenInTurn(ix: Index, os: seq<OutPoint>) {
    os == [] ||
    (TakenInTurn(ix, os[..|os| - 1]) && IsUnspent(ix, os[|os| - 1]) && os[|os| - 1] !in os[..|os| - 1])
  }

  lemma {:induction false} TakenMeansSpendable(ix: Index, os: seq<OutPoint>)
    ensures TakenInTurn(ix, os) <==> (forall o :: o in os ==> IsUnspent(ix, o)) && NoDuplicates(os)
  {
    if os != [] {
      var front, o := os[..|os| - 1], os[|os| - 1];
      TakenMeansSpendable(ix, front);
      assert os == front + [o];
    }
  }

  lemma TakenIsSpendable(ix: Index, tx: Tx)
    ensures TakenInTurn(ix, tx.Spends()) == Spendable(ix, tx)
  {
    TakenMeansSpendable(ix, tx.Spends());
  }

  lemma InputsExist(env: Env, tx: Tx, inputs: MapPrevTx, pindexBlock: CBlockIndex, os: seq<OutPoint>)
    requires InputsOk(env, tx, inputs, pindexBlock, os)
    ensures forall o :: o in os ==>
      o.hash in inputs.txs && o.hash in inputs.records && o.n < |inputs.records[o.hash].vSpent|
  {
  }

  lemma {:induction false} TakenPrefix(ix: Index, os: seq<OutPoint>, k: nat)
    requires k <= |os| && TakenInTurn(ix, os)
    ensures TakenInTurn(ix, os[..k])
    decreases |os| - k
  {
    if k == |os| {
      assert os[..k] == os;
    } else {
      TakenPrefix(ix, os, k + 1);
      assert os[..k + 1][..k] == os[..k];
    }
  }

  /** The second loop: spends marked one after the other in the fetched records and written back. */
  method SpendInputs(env: Env, tx: Tx, os: seq<OutPoint>, inputs0: MapPrevTx, pool0: Index, posThisTx: DiskTxPos,
                     mode: Mode, nBestHeight: int)
    returns (ok: bool, mapTestPool: Index)
    requires posThisTx.At?
    requires forall o :: o in os ==>
      o.hash in inputs0.txs && o.hash in inputs0.records && o.n < |inputs0.records[o.hash].vSpent|
    ensures ok == (TakenInTurn(inputs0.records, os) && SignaturesOk(env, tx, inputs0, os, mode, nBestHeight))
    ensures ok ==> mapTestPool == PoolAfter(pool0, inputs0.records, os, posThisTx, mode)
    ensures ok && !(mode.fBlock && nBestHeight < env.nCheckpointHeight) ==>
      forall i :: 0 <= i < |os| ==> env.verifySignature(inputs0.txs[os[i].hash], tx, i)
  {
    var inputs := inputs0;
    mapTestPool := pool0;
    ghost var ix := inputs0.records;
    assert os[..0] == [] && MarkAll(ix, [], posThisTx) == ix;
    hide MarkAll;
    for i := 0 to |os|
      invariant inputs == inputs0.(records := MarkAll(ix, os[..i], posThisTx))
      invariant mapTestPool == PoolAfter(pool0, ix, os[..i], posThisTx, mode)
      invariant TakenInTurn(ix, os[..i])
      invariant SignaturesOk(env, tx, inputs0, os[..i], mode, nBestHeight)
    {
      assert os[i] in os;
      NextSpend(ix, os, i, posThisTx);
      assert os[..i + 1][..i] == os[..i];
      var spent, inputs', pool' := SpendInput(env, tx, i, os[i], inputs, mapTestPool, posThisTx, mode, nBestHeight);
      if !spent {
        NotAllTaken(env, tx, os, inputs0, i, mode, nBestHeight);
        return false, mapTestPool;
      }
      inputs, mapTestPool := inputs', pool';
    }
    assert os[..|os|] == os;
    ok := true;
  }

  lemma NotAllTaken(env: Env, tx: Tx, os: seq<OutPoint>, inputs: MapPrevTx, i: nat, mode: Mode, nBestHeight: int)
    requires i < |os| && inputs.Has(os[i].hash)
    requires !IsUnspent(inputs.records, os[i]) || os[i] in os[..i]
      || (!SkipsSignatures(env, mode, nBestHeight) && !env.verifySignature(inputs.txs[os[i].hash], tx, i))
    ensures !(TakenInTurn(inputs.records, os) && SignaturesOk(env, tx, inputs, os, mode, nBestHeight))
  {
    assert os[..i + 1][..i] == os[..i];
    if TakenInTurn(inputs.records, os) {
      TakenPrefix(inputs.records, os, i + 1);
    }
  }

  function PoolAfter(pool: Index, ix: Index, os: seq<OutPoint>, pos: DiskTxPos, mode: Mode): Index
    requires forall o :: o in os ==> o.hash in ix
  {
    if mode.UsesPool() then WriteBack(pool, ix, os, pos) else pool
  }

  /** Everything ConnectInputs asks of a transaction that is not a coinbase. */
  ghost predicate Connectable(env: Env, tx: Tx, inputs: MapPrevTx, pindexBlock: CBlockIndex, mode: Mode,
                              nBestHeight: int) {
    && InputsOk(env, tx, inputs, pindexBlock, tx.Spends())
    && MoneyRange(ValueIn(inputs, tx.Spends()))
    && Spendable(inputs.records, tx)
    && SignaturesOk(env, tx, inputs, tx.Spends(), mode, nBestHeight)
    && FeeOk(tx, ValueIn(inputs, tx.Spends()))
  }

  /** Below the last checkpoint a block's signatures do not matter. */
  lemma SignedBelow(env: Env, tx: Tx, inputs: MapPrevTx, mode: Mode, nBestHeight: int)
    requires forall o :: o in tx.Spends() ==> inputs.Has(o.hash)
    ensures mode.fBlock && nBestHeight < env.nCheckpointHeight ==>
      SignaturesOk(env, tx, inputs, tx.Spends(), mode, nBestHeight)
  {
  }

  // ----- what a connectable transaction is, input by input

  /** The output exists and is unspent, mature, not later than the spender, and neither empty nor out of range. */
  ghost predicate MayTake(env: Env, tx: Tx, prev: Prev, n: nat, p: CBlockIndex)
    requires p.Linked()
  {
    && n < |prev.tx.vout| && n < |prev.txindex.vSpent| && prev.txindex.vSpent[n] == NullPos
    && prev.tx.nTime <= tx.nTime
    && 0 <= prev.tx.vout[n].nValue <= 9_000_000_000_000_000
    && (prev.tx.vout[n].nValue != 0 || prev.tx.vout[n].scriptPubKey != [])
    && !((prev.tx.IsCoinBase() || prev.tx.IsCoinStake()) && OnPath(prev.txindex.pos, p, env.nCoinbaseMaturity))
  }

  lemma MayTakeMeans(env: Env, tx: Tx, inputs: MapPrevTx, o: OutPoint, p: CBlockIndex)
    requires p.Linked() && inputs.Has(o.hash)
    ensures MayTake(env, tx, inputs.Get(o.hash), o.n, p) <==>
      InputOk(env, tx, inputs.Get(o.hash), o.n, p) && IsUnspent(inputs.records, o)
  {
    hide ConfirmedWithin;
    ConfirmedOnPath(inputs.records[o.hash].pos, p, env.nCoinbaseMaturity);
  }

  /** A spender connects exactly when it may take each of its inputs and none twice, each is signed, but for blocks
      below the checkpoint, the sum is in range, and the fee is paid, unless it is a coinstake. */
  lemma ConnectableMeans(env: Env, tx: Tx, inputs: MapPrevTx, p: CBlockIndex, mode: Mode, nBestHeight: int)
    requires !tx.IsCoinBase() && p.Linked() && forall o :: o in Prevouts(tx.vin) ==> inputs.Has(o.hash)
    ensures Connectable(env, tx, inputs, p, mode, nBestHeight) <==>
      var os := Prevouts(tx.vin);
      && (forall o :: o in os ==> inputs.Has(o.hash) && MayTake(env, tx, inputs.Get(o.hash), o.n, p))
      && (forall i, j :: 0 <= i < j < |os| ==> os[i] != os[j])
      && ((mode.fBlock && nBestHeight < env.nCheckpointHeight) ||
          forall i :: 0 <= i < |os| ==> inputs.Has(os[i].hash) && env.verifySignature(inputs.txs[os[i].hash], tx, i))
      && 0 <= ValueIn(inputs, os) <= 9_000_000_000_000_000
      && (tx.IsCoinStake() || 10_000 <= ValueIn(inputs, os) - tx.ValueOut() <= 9_000_000_000_000_000)
  {
    hide ConfirmedWithin, ValueIn, Tx.ValueOut, MayTake, InputOk;
    forall o | o in Prevouts(tx.vin)
      ensures MayTake(env, tx, inputs.Get(o.hash), o.n, p) <==>
        InputOk(env, tx, inputs.Get(o.hash), o.n, p) && IsUnspent(inputs.records, o)
    {
      MayTakeMeans(env, tx, inputs, o, p);
    }
  }

  /** Unsigned 64-bit arithmetic. */
  function Wrap(n: int): nat {
    n % TWO_64
  }

  /** The fee of a transaction that is not a coinstake. */
  method CheckFee(tx: Tx, nValueIn: int) returns (ok: bool)
    requires !tx.IsCoinStake()
    ensures ok == FeeOk(tx, nValueIn)
  {
    if nValueIn < tx.ValueOut() {
      return false;
    }
    var nTxFee := nValueIn - tx.ValueOut();
    if nTxFee < 0 {
      return false;
    }
    if nTxFee < MIN_TX_FEE {
      return false;
    }
    return MoneyRange(nTxFee);
  }

  method CountBurned(vout: seq<TxOut>, nBurnCoins0: nat) returns (nBurnCoins: nat)
    requires nBurnCoins0 == Wrap(nBurnCoins0)
    ensures nBurnCoins == Wrap(nBurnCoins0 + SumBurn(vout)) && nBurnCoins == Wrap(nBurnCoins)
  {
    nBurnCoins := nBurnCoins0;
    for i := 0 to |vout|
      invariant nBurnCoins == Wrap(nBurnCoins0 + SumBurn(vout[..i]))
    {
      assert vout[..i + 1][..i] == vout[..i];
      if vout[i].IsBurn() {
        nBurnCoins := Wrap(nBurnCoins + vout[i].nValue);
      }
    }
    assert vout[..|vout|] == vout;
  }

  /** ConnectInputs accepts exactly the connectable transactions. The pool then holds the records of the
      inputs with this transaction's spends marked, and the burnt outputs are added to the counter. */
  method ConnectInputs(env: Env, tx: Tx, inputs: MapPrevTx, pool0: Index, posThisTx: DiskTxPos,
                       pindexBlock: CBlockIndex, nBurnCoins0: nat, mode: Mode, nBestHeight: int)
    returns (ok: bool, mapTestPool: Index, nBurnCoins: nat)
    requires posThisTx.At? && pindexBlock.Linked() && nBurnCoins0 == Wrap(nBurnCoins0)
    requires forall o :: o in tx.Spends() ==> inputs.Has(o.hash)
    ensures ok <==> tx.IsCoinBase() || Connectable(env, tx, inputs, pindexBlock, mode, nBestHeight)
    ensures ok ==> mapTestPool == PoolAfter(pool0, inputs.records, tx.Spends(), posThisTx, mode)
    ensures nBurnCoins == Wrap(nBurnCoins)
    ensures ok ==> nBurnCoins == Wrap(nBurnCoins0 + tx.Burned())
    ensures ok && !tx.IsCoinBase() && !(mode.fBlock && nBestHeight < env.nCheckpointHeight) ==>
      (forall i :: 0 <= i < |tx.vin| ==>
        tx.vin[i].prevout.hash in inputs.txs && env.verifySignature(inputs.txs[tx.vin[i].prevout.hash], tx, i))
    ensures mode.fBlock && nBestHeight < env.nCheckpointHeight ==>
      ok == (tx.IsCoinBase() ||
             (InputsOk(env, tx, inputs, pindexBlock, tx.Spends()) && MoneyRange(ValueIn(inputs, tx.Spends()))
              && Spendable(inputs.records, tx) && FeeOk(tx, ValueIn(inputs, tx.Spends()))))
  {
    mapTestPool, nBurnCoins := pool0, nBurnCoins0;
    if tx.IsCoinBase() {
      return true, mapTestPool, nBurnCoins;
    }
    SignedBelow(env, tx, inputs, mode, nBestHeight);
    hide SignaturesOk, WriteBack, TakenInTurn, InputsOk, Spendable, SumOut, SumBurn, ValueIn, FeeOk, PoolAfter, Wrap;
    var nValueIn;
    ok, nValueIn := CheckInputs(env, tx, inputs, pindexBlock);
    if !ok {
      return;
    }
    TakenIsSpendable(inputs.records, tx);
    InputsExist(env, tx, inputs, pindexBlock, tx.Spends());
    ok, mapTestPool := SpendInputs(env, tx, tx.Spends(), inputs, pool0, posThisTx, mode, nBestHeight);
    if !ok || tx.IsCoinStake() {
      return;
    }
    ok := CheckFee(tx, nValueIn);
    if ok {
      nBurnCoins := CountBurned(tx.vout, nBurnCoins0);
    }
  }

  /** Seen through the database with the pool laid over it, the records written back are the spends marked
      in the index itself. */
  lemma {:induction false} WriteBackIsMarkAll(db: Index, pool: Index, ix: Index, os: seq<OutPoint>, pos: DiskTxPos)
    requires forall o :: o in os ==> o.hash in ix
    requires forall h :: h in ix ==> h in db + pool && (db + pool)[h] == ix[h]
    ensures db + WriteBack(pool, ix, os, pos) == MarkAll(db + pool, os, pos)
  {
    if os != [] {
      var front, o := os[..|os| - 1], os[|os| - 1];
      WriteBackIsMarkAll(db, pool, ix, front, pos);
      SameMarks(ix, db + pool, front, pos, o.hash);
      SameMarks(ix, db + pool, os, pos, o.hash);
      assert db + WriteBack(pool, ix, os, pos)
          == (db + WriteBack(pool, ix, front, pos))[o.hash := MarkAll(ix, os, pos)[o.hash]];
    }
  }

  lemma SameMarks(a: Index, b: Index, os: seq<OutPoint>, pos: DiskTxPos, h: uint256)
    requires h in a && h in b && a[h] == b[h]
    ensures h in MarkAll(a, os, pos) && h in MarkAll(b, os, pos)
    ensures MarkAll(a, os, pos)[h] == MarkAll(b, os, pos)[h]
  {
    MarkAllAt(a, os, pos);
    MarkAllAt(b, os, pos);
    assert MarkAll(a, os, pos)[h].vSpent == MarkAll(b, os, pos)[h].vSpent;
  }

  // ----- DisconnectInputs

  /** Fails when an input has no record or no such output; otherwise the index is UndoTx of what it was. */
  method DisconnectInputs(env: Env, txdb: CTxDB, tx: Tx) returns (ok: bool)
    requires txdb.activeBatch.Some?
    modifies txdb
    ensures txdb.activeBatch.Some? && txdb.stored == old(txdb.stored) && txdb.storedBest == old(txdb.storedBest)
    ensures txdb.BestView() == old(txdb.BestView()) && txdb.nWrites == old(txdb.nWrites)
    ensures ok <==> forall o :: o in tx.Spends() ==> InRange(old(txdb.View()), o)
    ensures ok ==> txdb.View() == UndoTx(old(txdb.View()), env.txid(tx), tx)
  {
    ghost var ix := txdb.View();
    if !tx.IsCoinBase() {
      var os := tx.Spends();
      for i := 0 to |os|
        invariant txdb.activeBatch.Some? && txdb.stored == old(txdb.stored) && txdb.storedBest == old(txdb.storedBest)
        invariant txdb.BestView() == old(txdb.BestView()) && txdb.nWrites == old(txdb.nWrites)
        invariant txdb.View() == MarkAll(ix, os[..i], NullPos)
        invariant forall o :: o in os[..i] ==> InRange(ix, o)
      {
        var prevout := os[i];
        assert prevout in os && os[..i + 1] == os[..i] + [prevout] && os[..i + 1][..i] == os[..i];
        MarkAllAt(ix, os[..i], NullPos);
        var found, txindex := txdb.ReadTxIndex(prevout.hash);
        if !found {
          return false;
        }
        if prevout.n >= |txindex.vSpent| {
          return false;
        }
        txindex := txindex.(vSpent := txindex.vSpent[prevout.n := NullPos]);
        ok := txdb.UpdateTxIndex(prevout.hash, txindex);
        if !ok {
          return false;
        }
      }
      assert os[..|os|] == os;
    }
    var erased := txdb.EraseTxIndex(env.txid(tx));
    ok := true;
  }
}
