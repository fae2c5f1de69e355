/** What connecting and disconnecting transactions does to the transaction index, as plain functions:
    the specification of the methods in ConnectInputs.dfy and ConnectBlock.dfy. */
module Ledger {
  import opened Transactions

  predicate InRange(ix: Index, o: OutPoint) {
    o.hash in ix && o.n < |ix[o.hash].vSpent|
  }

  predicate IsUnspent(ix: Index, o: OutPoint) {
    InRange(ix, o) && ix[o.hash].vSpent[o.n] == NullPos
  }

  function Mark(ix: Index, o: OutPoint, p: DiskTxPos): Index {
    if InRange(ix, o) then ix[o.hash := ix[o.hash].(vSpent := ix[o.hash].vSpent[o.n := p])] else ix
  }

  function MarkAll(ix: Index, os: seq<OutPoint>, p: DiskTxPos): Index {
    if os == [] then ix else Mark(MarkAll(ix, os[..|os| - 1], p), os[|os| - 1], p)
  }

  /** Connecting a transaction: take over the spent pointers of its inputs, then add its own record. */
  function ApplyTx(ix: Index, id: uint256, tx: Tx, pos: DiskTxPos): Index {
    MarkAll(ix, tx.Spends(), pos)[id := TxIndex(pos, Unspent(|tx.vout|))]
  }

  /** Disconnecting a transaction: relinquish the spent pointers, then erase its record. */
  function UndoTx(ix: Index, id: uint256, tx: Tx): Index {
    MarkAll(ix, tx.Spends(), NullPos) - {id}
  }

  predicate NoDuplicates<T(==)>(s: seq<T>) {
    forall i, j :: 0 <= i < j < |s| ==> s[i] != s[j]
  }

  /** Every output the transaction spends exists and is unspent, and none is spent twice. */
  predicate Spendable(ix: Index, tx: Tx) {
    && (forall o :: o in tx.Spends() ==> IsUnspent(ix, o))
    && NoDuplicates(tx.Spends())
  }

  // ----- marking, record by record

  lemma {:induction false} MarkAllAt(ix: Index, os: seq<OutPoint>, p: DiskTxPos)
    ensures MarkAll(ix, os, p).Keys == ix.Keys
    ensures forall h :: h in ix ==>
      && MarkAll(ix, os, p)[h].pos == ix[h].pos
      && |MarkAll(ix, os, p)[h].vSpent| == |ix[h].vSpent|
    ensures forall h, n :: h in ix && 0 <= n < |ix[h].vSpent| ==>
      MarkAll(ix, os, p)[h].vSpent[n] == if OutPoint(h, n) in os then p else ix[h].vSpent[n]
  {
    if os != [] {
      var front, o := os[..|os| - 1], os[|os| - 1];
      MarkAllAt(ix, front, p);
      assert os == front + [o];
      forall h, n | h in ix && 0 <= n < |ix[h].vSpent|
        ensures MarkAll(ix, os, p)[h].vSpent[n] == if OutPoint(h, n) in os then p else ix[h].vSpent[n]
      {
        assert OutPoint(h, n) in os <==> OutPoint(h, n) in front || OutPoint(h, n) == o;
      }
    }
  }

  /** Equality of indexes, spelled out per record and output. */
  lemma SameIndex(a: Index, b: Index)
    requires a.Keys == b.Keys
    requires forall h :: h in a ==> a[h].pos == b[h].pos && |a[h].vSpent| == |b[h].vSpent|
    requires forall h, n :: h in a && 0 <= n < |a[h].vSpent| ==> a[h].vSpent[n] == b[h].vSpent[n]
    ensures a == b
  {
    forall h | h in a
      ensures a[h] == b[h]
    {
      assert a[h].vSpent == b[h].vSpent;
    }
  }

  /** Disconnecting a transaction exactly undoes connecting it, provided its id was not in the index. */
  lemma UndoInvertsApply(ix: Index, id: uint256, tx: Tx, pos: DiskTxPos)
    requires Spendable(ix, tx)
    requires id !in ix
    ensures UndoTx(ApplyTx(ix, id, tx, pos), id, tx) == ix
  {
    var os := tx.Spends();
    var marked := MarkAll(ix, os, pos);
    var applied := ApplyTx(ix, id, tx, pos);
    MarkAllAt(ix, os, pos);
    MarkAllAt(applied, os, NullPos);
    var undone := UndoTx(applied, id, tx);
    assert undone.Keys == ix.Keys;
    forall h, n | h in ix && 0 <= n < |ix[h].vSpent|
      ensures undone[h].vSpent[n] == ix[h].vSpent[n]
    {
      if OutPoint(h, n) in os {
        assert IsUnspent(ix, OutPoint(h, n));
      }
    }
    SameIndex(undone, ix);
  }

  // ----- blocks

  /** A block together with the file position it was written at. */
  datatype Placed = Placed(nFile: nat, nBlockPos: nat, vtx: seq<Tx>)

  /** Length of the variable-length encoding of a count. */
  function CompactSize(n: nat): nat {
    if n < 253 then 1 else if n <= 0xffff then 3 else if n <= 0xffff_ffff then 5 else 9
  }

  /** One byte for a count below 253, and a marker with two, four or eight bytes otherwise. */
  lemma CompactSizeIs(n: nat)
    ensures n <= 252 ==> CompactSize(n) == 1
    ensures 253 <= n < 0x1_0000 ==> CompactSize(n) == 1 + 2
    ensures 0x1_0000 <= n < 0x1_0000_0000 ==> CompactSize(n) == 1 + 4
    ensures 0x1_0000_0000 <= n ==> CompactSize(n) == 1 + 8
  {
  }

  function TotalSize(env: Env, txs: seq<Tx>): nat {
    if txs == [] then 0 else TotalSize(env, txs[..|txs| - 1]) + env.txSize(txs[|txs| - 1])
  }

  /** The transactions follow the 80-byte header and their count. */
  function TxPos(env: Env, b: Placed, i: nat): DiskTxPos
    requires i <= |b.vtx|
  {
    At(b.nFile, b.nBlockPos, b.nBlockPos + 80 + CompactSize(|b.vtx|) + TotalSize(env, b.vtx[..i]))
  }

  function ApplyTxs(env: Env, ix: Index, b: Placed, k: nat): Index
    requires k <= |b.vtx|
  {
    if k == 0 then ix
    else ApplyTx(ApplyTxs(env, ix, b, k - 1), env.txid(b.vtx[k - 1]), b.vtx[k - 1], TxPos(env, b, k - 1))
  }

  function ApplyBlock(env: Env, ix: Index, b: Placed): Index {
    ApplyTxs(env, ix, b, |b.vtx|)
  }

  /** Disconnect the first k transactions, last one first. */
  function UndoTxs(env: Env, ix: Index, vtx: seq<Tx>, k: nat): Index
    requires k <= |vtx|
    decreases k
  {
    if k == 0 then ix
    else UndoTxs(env, UndoTx(ix, env.txid(vtx[k - 1]), vtx[k - 1]), vtx, k - 1)
  }

  function UndoBlock(env: Env, ix: Index, b: Placed): Index {
    UndoTxs(env, ix, b.vtx, |b.vtx|)
  }

  function Ids(env: Env, vtx: seq<Tx>): (r: seq<uint256>)
    ensures |r| == |vtx|
    ensures forall i :: 0 <= i < |vtx| ==> r[i] == env.txid(vtx[i])
  {
    seq(|vtx|, i requires 0 <= i < |vtx| => env.txid(vtx[i]))
  }

  /** Each transaction of the block spends existing unspent outputs, those of earlier ones included. */
  predicate SpendableTxs(env: Env, ix: Index, b: Placed, k: nat)
    requires k <= |b.vtx|
  {
    k == 0 || (SpendableTxs(env, ix, b, k - 1) && Spendable(ApplyTxs(env, ix, b, k - 1), b.vtx[k - 1]))
  }

  predicate SpendableBlock(env: Env, ix: Index, b: Placed) {
    && SpendableTxs(env, ix, b, |b.vtx|)
    && NoDuplicates(Ids(env, b.vtx))
  }

  predicate FreshIds(env: Env, ix: Index, vtx: seq<Tx>) {
    forall i :: 0 <= i < |vtx| ==> env.txid(vtx[i]) !in ix
  }

  ghost function IdsBelow(env: Env, vtx: seq<Tx>, k: nat): set<uint256>
    requires k <= |vtx|
  {
    if k == 0 then {} else IdsBelow(env, vtx, k - 1) + {env.txid(vtx[k - 1])}
  }

  lemma {:induction false} InIdsBelow(env: Env, vtx: seq<Tx>, k: nat, id: uint256)
    requires k <= |vtx|
    ensures id in IdsBelow(env, vtx, k) <==> exists i :: 0 <= i < k && env.txid(vtx[i]) == id
  {
    if k > 0 { InIdsBelow(env, vtx, k - 1, id); }
  }

  lemma ApplyTxKeys(ix: Index, id: uint256, tx: Tx, pos: DiskTxPos)
    ensures ApplyTx(ix, id, tx, pos).Keys == ix.Keys + {id}
    ensures UndoTx(ix, id, tx).Keys == ix.Keys - {id}
  {
    MarkAllAt(ix, tx.Spends(), pos);
    MarkAllAt(ix, tx.Spends(), NullPos);
  }

  lemma {:induction false} ApplyTxsKeys(env: Env, ix: Index, b: Placed, k: nat)
    requires k <= |b.vtx|
    ensures ApplyTxs(env, ix, b, k).Keys == ix.Keys + IdsBelow(env, b.vtx, k)
  {
    if k > 0 {
      ApplyTxsKeys(env, ix, b, k - 1);
      ApplyTxKeys(ApplyTxs(env, ix, b, k - 1), env.txid(b.vtx[k - 1]), b.vtx[k - 1], TxPos(env, b, k - 1));
    }
  }

  lemma {:induction false} UndoTxsErases(env: Env, ix: Index, vtx: seq<Tx>, k: nat)
    requires k <= |vtx|
    ensures UndoTxs(env, ix, vtx, k).Keys == ix.Keys - IdsBelow(env, vtx, k)
    decreases k
  {
    if k > 0 {
      ApplyTxKeys(ix, env.txid(vtx[k - 1]), vtx[k - 1], NullPos);
      UndoTxsErases(env, UndoTx(ix, env.txid(vtx[k - 1]), vtx[k - 1]), vtx, k - 1);
    }
  }

  /** Just before its own transaction is applied, an id that is new to the index is still new. */
  lemma StillFresh(env: Env, ix: Index, b: Placed, k: nat)
    requires k < |b.vtx|
    requires NoDuplicates(Ids(env, b.vtx)) && FreshIds(env, ix, b.vtx)
    ensures env.txid(b.vtx[k]) !in ApplyTxs(env, ix, b, k)
  {
    ApplyTxsKeys(env, ix, b, k);
    InIdsBelow(env, b.vtx, k, env.txid(b.vtx[k]));
    var ids := Ids(env, b.vtx);
    assert forall i :: 0 <= i < k ==> ids[i] != ids[k];
  }

  lemma {:induction false} UndoTxsInvertsApplyTxs(env: Env, ix: Index, b: Placed, k: nat)
    requires k <= |b.vtx|
    requires SpendableTxs(env, ix, b, k) && NoDuplicates(Ids(env, b.vtx)) && FreshIds(env, ix, b.vtx)
    ensures UndoTxs(env, ApplyTxs(env, ix, b, k), b.vtx, k) == ix
  {
    hide ApplyTx, UndoTx, Spendable, NoDuplicates, FreshIds;
    if k > 0 {
      StillFresh(env, ix, b, k - 1);
      UndoInvertsApply(ApplyTxs(env, ix, b, k - 1), env.txid(b.vtx[k - 1]), b.vtx[k - 1], TxPos(env, b, k - 1));
      UndoTxsInvertsApplyTxs(env, ix, b, k - 1);
    }
  }

  /** Disconnecting a block undoes connecting it exactly when none of its transaction ids was already
      in the index: a fully spent record that the block overwrote is erased, not restored. */
  lemma UndoInvertsApplyBlock(env: Env, ix: Index, b: Placed)
    requires SpendableBlock(env, ix, b)
    ensures UndoBlock(env, ApplyBlock(env, ix, b), b) == ix <==> FreshIds(env, ix, b.vtx)
  {
    if FreshIds(env, ix, b.vtx) {
      UndoTxsInvertsApplyTxs(env, ix, b, |b.vtx|);
    } else {
      var i :| 0 <= i < |b.vtx| && env.txid(b.vtx[i]) in ix;
      UndoTxsErases(env, ApplyBlock(env, ix, b), b.vtx, |b.vtx|);
      InIdsBelow(env, b.vtx, |b.vtx|, env.txid(b.vtx[i]));
    }
  }

  /** A fully spent record that a block overwrites is gone after the block has been disconnected. */
  lemma OverwrittenIsErased(env: Env)
    ensures var tx := Tx(0, [TxIn(OutPoint(0, 0xffff_ffff), [])], [TxOut(1, [])]);
      var ix, b := map[env.txid(tx) := TxIndex(At(0, 1, 82), [At(0, 2, 83)])], Placed(0, 3, [tx]);
      SpendableBlock(env, ix, b) && UndoBlock(env, ApplyBlock(env, ix, b), b) == map[]
  {
    var tx := Tx(0, [TxIn(OutPoint(0, 0xffff_ffff), [])], [TxOut(1, [])]);
    var id, b := env.txid(tx), Placed(0, 3, [tx]);
    var ix := map[id := TxIndex(At(0, 1, 82), [At(0, 2, 83)])];
    assert tx.Spends() == [];
    assert ApplyTxs(env, ix, b, 0) == ix && SpendableTxs(env, ix, b, 0);
    assert ApplyTxs(env, ix, b, 1) == ix[id := TxIndex(TxPos(env, b, 0), Unspent(1))];
    assert UndoTx(ApplyTxs(env, ix, b, 1), id, tx) == map[];
    assert UndoTxs(env, map[], b.vtx, 0) == map[];
  }

  /** The index after connecting a chain of blocks, from nothing. */
  function Replay(env: Env, bs: seq<Placed>): Index {
    if bs == [] then map[] else ApplyBlock(env, Replay(env, bs[..|bs| - 1]), bs[|bs| - 1])
  }
}
