/** CTxDB: the transaction index on disk and its write batch. A read during a database transaction scans
    the batch first, so it sees the transaction's own writes and deletes. */
module TxDb {
  import opened Transactions

  datatype BatchOp = Put(hash: uint256, value: TxIndex) | Delete(hash: uint256) | PutBest(best: uint256)

  function Written(ix: Index, ops: seq<BatchOp>): Index {
    if ops == [] then ix
    else
      var before := Written(ix, ops[..|ops| - 1]);
      match ops[|ops| - 1]
      case Put(h, t) => before[h := t]
      case Delete(h) => before - {h}
      case PutBest(_) => before
  }

  function WrittenBest(best: uint256, ops: seq<BatchOp>): uint256 {
    if ops == [] then best
    else match ops[|ops| - 1]
      case PutBest(h) => h
      case _ => WrittenBest(best, ops[..|ops| - 1])
  }

  /** How many of the first n attempts fail. */
  function Refusals(refuses: nat -> bool, n: nat): nat {
    if n == 0 then 0 else Refusals(refuses, n - 1) + if refuses(n - 1) then 1 else 0
  }

  class CTxDB {
    const refuses: nat -> bool   // which writes to disk the database refuses
    var nWrites: nat
    var stored: Index
    var storedBest: uint256
    var activeBatch: Option<seq<BatchOp>>

    constructor (refuses: nat -> bool)
      ensures this.refuses == refuses && nWrites == 0 && stored == map[] && storedBest == 0 && activeBatch == None
    {
      this.refuses := refuses;
      nWrites, stored, storedBest, activeBatch := 0, map[], 0, None;
    }

    /** The writes and commits refused so far. */
    ghost function Failures(): nat
      reads `nWrites
    {
      Refusals(refuses, nWrites)
    }

    /** The index as a reader sees it. */
    ghost function View(): Index
      reads this
    {
      if activeBatch.None? then stored else Written(stored, activeBatch.value)
    }

    ghost function BestView(): uint256
      reads this
    {
      if activeBatch.None? then storedBest else WrittenBest(storedBest, activeBatch.value)
    }

    method TxnBegin()
      requires activeBatch.None?
      modifies this`activeBatch
      ensures activeBatch.Some? && View() == old(View()) && BestView() == old(BestView())
    {
      activeBatch := Some([]);
    }

    /** All of the batch is applied, or none of it; the database transaction is over either way. */
    method TxnCommit() returns (ok: bool)
      requires activeBatch.Some?
      modifies this
      ensures activeBatch.None? && nWrites == old(nWrites) + 1 && ok == !refuses(old(nWrites))
      ensures ok ==> stored == old(View()) && storedBest == old(BestView()) && Failures() == old(Failures())
      ensures !ok ==> stored == old(stored) && storedBest == old(storedBest) && Failures() == old(Failures()) + 1
    {
      ok := !refuses(nWrites);
      nWrites := nWrites + 1;
      if ok {
        stored, storedBest := Written(stored, activeBatch.value), WrittenBest(storedBest, activeBatch.value);
      }
      activeBatch := None;
    }

    method TxnAbort()
      modifies this`activeBatch
      ensures activeBatch.None?
    {
      activeBatch := None;
    }

    /** The last entry for the key in the batch, if there is one. */
    method ScanBatch(hash: uint256) returns (foundEntry: bool, deleted: bool, value: TxIndex)
      requires activeBatch.Some?
      ensures foundEntry && deleted ==> hash !in View()
      ensures foundEntry && !deleted ==> hash in View() && View()[hash] == value
      ensures !foundEntry ==> !deleted
      ensures !foundEntry ==> (hash in View() <==> hash in stored)
      ensures !foundEntry && hash in stored ==> View()[hash] == stored[hash]
    {
      foundEntry, deleted, value := false, false, TxIndex(NullPos, []);
      var ops := activeBatch.value;
      for i := 0 to |ops|
        invariant foundEntry && deleted ==> hash !in Written(stored, ops[..i])
        invariant foundEntry && !deleted ==>
          hash in Written(stored, ops[..i]) && Written(stored, ops[..i])[hash] == value
        invariant !foundEntry ==> !deleted
        invariant !foundEntry ==> (hash in Written(stored, ops[..i]) <==> hash in stored)
        invariant !foundEntry && hash in stored ==> Written(stored, ops[..i])[hash] == stored[hash]
      {
        assert ops[..i + 1][..i] == ops[..i];
        match ops[i]
        case Put(h, t) =>
          if h == hash {
            foundEntry, deleted, value := true, false, t;
          }
        case Delete(h) =>
          if h == hash {
            foundEntry, deleted := true, true;
          }
        case PutBest(_) =>
      }
      assert ops[..|ops|] == ops;
    }

    method ReadTxIndex(hash: uint256) returns (found: bool, txindex: TxIndex)
      ensures found <==> hash in View()
      ensures found ==> txindex == View()[hash]
    {
      found, txindex := false, TxIndex(NullPos, []);
      var readFromDb := true;
      if activeBatch.Some? {
        var foundEntry, deleted, value := ScanBatch(hash);
        if deleted {
          return;
        }
        readFromDb, found, txindex := !foundEntry, foundEntry, value;
      }
      if readFromDb && hash in stored {
        found, txindex := true, stored[hash];
      }
    }

    /** Writes go to the batch; outside a database transaction they go to disk, where they can fail. */
    method UpdateTxIndex(hash: uint256, txindex: TxIndex) returns (ok: bool)
      modifies this
      ensures activeBatch.Some? == old(activeBatch.Some?) && (activeBatch.Some? ==> stored == old(stored))
      ensures ok == (activeBatch.Some? || !refuses(old(nWrites)))
      ensures View() == if ok then old(View())[hash := txindex] else old(View())
      ensures BestView() == old(BestView()) && storedBest == old(storedBest)
      ensures nWrites == old(nWrites) + if activeBatch.Some? then 0 else 1
    {
      ok := true;
      if activeBatch.Some? {
        var ops := activeBatch.value + [Put(hash, txindex)];
        assert ops[..|ops| - 1] == activeBatch.value;
        activeBatch := Some(ops);
      } else {
        ok := !refuses(nWrites);
        nWrites := nWrites + 1;
        if ok { stored := stored[hash := txindex]; }
      }
    }

    method EraseTxIndex(hash: uint256) returns (ok: bool)
      modifies this
      ensures activeBatch.Some? == old(activeBatch.Some?) && (activeBatch.Some? ==> stored == old(stored))
      ensures ok == (activeBatch.Some? || !refuses(old(nWrites)))
      ensures View() == if ok then old(View()) - {hash} else old(View())
      ensures BestView() == old(BestView()) && storedBest == old(storedBest)
      ensures nWrites == old(nWrites) + if activeBatch.Some? then 0 else 1
    {
      ok := true;
      if activeBatch.Some? {
        var ops := activeBatch.value + [Delete(hash)];
        assert ops[..|ops| - 1] == activeBatch.value;
        activeBatch := Some(ops);
      } else {
        ok := !refuses(nWrites);
        nWrites := nWrites + 1;
        if ok { stored := stored - {hash}; }
      }
    }

    method WriteHashBestChain(hash: uint256) returns (ok: bool)
      modifies this
      ensures activeBatch.Some? == old(activeBatch.Some?)
      ensures activeBatch.Some? ==> storedBest == old(storedBest)
      ensures ok == (activeBatch.Some? || !refuses(old(nWrites)))
      ensures View() == old(View()) && stored == old(stored)
      ensures BestView() == if ok then hash else old(BestView())
      ensures nWrites == old(nWrites) + if activeBatch.Some? then 0 else 1
    {
      ok := true;
      if activeBatch.Some? {
        var ops := activeBatch.value + [PutBest(hash)];
        assert ops[..|ops| - 1] == activeBatch.value;
        activeBatch := Some(ops);
      } else {
        ok := !refuses(nWrites);
        nWrites := nWrites + 1;
        if ok { storedBest := hash; }
      }
    }
  }
}
