/** Small concrete chains: blocks of one coinbase each, filed one after the other, under hashes that do not
    collide. */
module SmallChain {
  import opened Transactions
  import opened Ledger
  import opened BlockIndex
  import opened ConnectInputs
  import opened ConnectBlock
  import opened Injective
  import BigNum
  import Difficulty
  import Freshness
  import Targets

  const GENESIS := Block(7, 0, 0, 0, [])

  function Coinbase(nTime: int, scriptSig: seq<byte>, nValue: int): Tx {
    Tx(nTime, [TxIn(OutPoint(0, 0xffff_ffff), scriptSig)], [TxOut(nValue, [0x51])])
  }

  /** A block of one coinbase. */
  function Single(nLimit: BigNum.Target, hashPrev: uint256, nTime: int, scriptSig: seq<byte>, nValue: int): Block {
    Block(7, hashPrev, nTime, Bits(nLimit), [Coinbase(nTime, scriptSig, nValue)])
  }

  /** The limit in compact form: the target of the first two blocks of a chain. */
  function Bits(nLimit: BigNum.Target): BigNum.uint32 {
    Difficulty.SmallBytes(nLimit);
    Difficulty.PackedParts(BigNum.MpiEncode(nLimit));
    Difficulty.Encode(nLimit)
  }

  /** Block i is at place i + 1 of the first file, its coinbase 81 bytes after its start; no other demands are
      made on blocks. */
  function EnvOf(nLimit: BigNum.Target, blocks: seq<Block>): Env {
    Env(OfTx, OfBlock, (prev, tx, n) => true, tx => 0, (tx, txs) => 0, tx => 100,
        pos => CoinbaseAt(blocks, pos), (nFile: nat, nBlockPos: nat) => BlockAt(blocks, nFile, nBlockPos),
        b => true, (b, h) => true, (nFile, nBlockPos) => None, script => false, nLimit, nLimit, 0, 0, 0)
  }

  function BlockAt(blocks: seq<Block>, nFile: nat, nBlockPos: nat): Option<Block> {
    if nFile == 0 && 0 < nBlockPos <= |blocks| then Some(blocks[nBlockPos - 1]) else None
  }

  function CoinbaseAt(blocks: seq<Block>, pos: DiskTxPos): Option<Tx> {
    if pos.At? && BlockAt(blocks, pos.nFile, pos.nBlockPos).Some? && pos.nTxPos == pos.nBlockPos + 81 then
      var vtx := BlockAt(blocks, pos.nFile, pos.nBlockPos).value.vtx;
      if vtx == [] then None else Some(vtx[0])
    else None
  }

  lemma NoCollisions(nLimit: BigNum.Target, blocks: seq<Block>)
    ensures Freshness.CollisionFree(EnvOf(nLimit, blocks))
  {
    forall a: Tx, b: Tx | OfTx(a) == OfTx(b)
      ensures a == b
    {
      TxInjective(a, b);
    }
  }

  /** Blocks with different parents or first transactions have different hashes, none of them zero. */
  lemma HashesDiffer(a: Block, b: Block)
    requires a.vtx != [] && b.vtx != [] && (a.hashPrevBlock != b.hashPrevBlock || a.vtx[0] != b.vtx[0])
    ensures OfBlock(a) != 0 && OfBlock(b) != 0 && OfBlock(a) != OfBlock(b)
  {
    if OfBlock(a) == OfBlock(b) {
      BlockInjective(a, b);
      assert false;
    }
  }

  // ----- a block of one coinbase

  lemma OneTx(env: Env, tx: Tx)
    ensures TotalSize(env, [tx][..0]) == 0 && LegacySigOps(env, [tx]) == env.legacySigOps(tx)
    ensures Ids(env, [tx]) == [env.txid(tx)]
  {
    assert [tx][..0] == [];
    assert LegacySigOps(env, []) == 0;
  }

  lemma CoinbaseValue(nTime: int, scriptSig: seq<byte>, nValue: int)
    ensures Coinbase(nTime, scriptSig, nValue).ValueOut() == nValue
  {
    assert [TxOut(nValue, [0x51])][..0] == [];
    assert SumOut([]) == 0;
  }

  lemma Checked(nLimit: BigNum.Target, blocks: seq<Block>, hashPrev: uint256, nTime: int, scriptSig: seq<byte>,
                nValue: int)
    requires 2 <= |scriptSig| <= 100 && MoneyRange(nValue)
    ensures CheckBlock(EnvOf(nLimit, blocks), Single(nLimit, hashPrev, nTime, scriptSig, nValue))
  {
    hide Bits;
    var block := Single(nLimit, hashPrev, nTime, scriptSig, nValue);
    OneTx(EnvOf(nLimit, blocks), block.vtx[0]);
    CoinbaseValue(nTime, scriptSig, nValue);
    assert CheckTransaction(EnvOf(nLimit, blocks), block.vtx[0]);
  }

  lemma Filed(nLimit: BigNum.Target, blocks: seq<Block>, i: nat)
    requires i < |blocks| && |blocks[i].vtx| == 1
    ensures EnvOf(nLimit, blocks).blockAt(0, i + 1) == Some(blocks[i])
    ensures Freshness.OnDisk(EnvOf(nLimit, blocks), Placed(0, i + 1, blocks[i].vtx))
  {
    var env, b := EnvOf(nLimit, blocks), Placed(0, i + 1, blocks[i].vtx);
    OneTx(env, b.vtx[0]);
    assert b.vtx == [b.vtx[0]];
    assert TxPos(env, b, 0) == At(0, i + 1, i + 82);
  }

  /** The first two blocks of a chain carry the limit. */
  lemma EarlyTarget(nLimit: BigNum.Target, blocks: seq<Block>, p: CBlockIndex)
    requires p.Linked() && p.nHeight <= 1 && (p.nHeight == 1 ==> !p.fProofOfStake)
    ensures Targets.Required(EnvOf(nLimit, blocks), p, false) == Bits(nLimit)
  {
    hide Difficulty.Encode, Difficulty.Decode, Difficulty.Retarget;
  }

  /** A new block of one coinbase connects exactly when it takes no more than the subsidy after the best height. */
  lemma SingleConnects(nLimit: BigNum.Target, blocks: seq<Block>, ix: Index, pindex: CBlockIndex,
                       hashPrev: uint256, nTime: int, scriptSig: seq<byte>, nValue: int, nBestHeight: int)
    requires 2 <= |scriptSig| <= 100 && MoneyRange(nValue) && OfTx(Coinbase(nTime, scriptSig, nValue)) !in ix
    ensures BlockConnects(EnvOf(nLimit, blocks), map[], ix, pindex, Single(nLimit, hashPrev, nTime, scriptSig, nValue),
      nBestHeight) <==>
      nValue <= PowSubsidy(nBestHeight + 1)
  {
    hide CheckBlock, Tx.ValueOut, Bits, PowSubsidy;
    var env, block := EnvOf(nLimit, blocks), Single(nLimit, hashPrev, nTime, scriptSig, nValue);
    var b := PlacedAt(pindex, block);
    Checked(nLimit, blocks, hashPrev, nTime, scriptSig, nValue);
    CoinbaseValue(nTime, scriptSig, nValue);
    assert block.vtx[0].IsCoinBase();
    assert TotalsOf(env, map[], ix, b, 0) == Totals(0, 0, 0, 0, 0, 0);
    assert ApplyTxs(env, ix, b, 0) == ix;
    assert TotalsOf(env, map[], ix, b, 1) == Totals(0, 0, 0, nValue, 0, 0);
    assert TxsConnect(env, map[], ix, b, 0, pindex, nBestHeight);
    assert TxConnects(env, map[], ix, b, 0, pindex, nBestHeight);
    assert TxsConnect(env, map[], ix, b, 1, pindex, nBestHeight);
  }
}
