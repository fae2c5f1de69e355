/** Values shared by the ledger modules: transactions, blocks and the transaction index record. */
module Transactions {
  import BigNum

  type uint256 = nat   // a hash: only equality of hashes is ever used

  type byte = BigNum.byte

  const COIN: int := 100_000_000
  const MAX_MONEY: int := 90_000_000 * COIN
  const MIN_TX_FEE: int := 10_000
  const MAX_BLOCK_SIZE: int := 1_000_000
  const MAX_BLOCK_SIGOPS: int := MAX_BLOCK_SIZE / 50
  const OP_BURN: byte := 0xd0

  predicate MoneyRange(nValue: int) {
    0 <= nValue <= MAX_MONEY
  }

  datatype Option<+T> = None | Some(value: T)

  /** Where a transaction is on disk; the null position marks an unspent output. */
  datatype DiskTxPos = NullPos | At(nFile: nat, nBlockPos: nat, nTxPos: nat)

  /** The position that FetchInputs reads as "look in the memory pool". */
  const MEMPOOL_POS: DiskTxPos := At(1, 1, 1)

  datatype OutPoint = OutPoint(hash: uint256, n: nat) {
    predicate IsNull() { hash == 0 && n == 0xffff_ffff }
  }

  datatype TxIn = TxIn(prevout: OutPoint, scriptSig: seq<byte>)

  datatype TxOut = TxOut(nValue: int, scriptPubKey: seq<byte>) {
    predicate IsEmpty() { nValue == 0 && scriptPubKey == [] }

    /** The second script byte is OP_BURN; a shorter script has no second byte. */
    predicate IsBurn() { |scriptPubKey| >= 2 && scriptPubKey[1] == OP_BURN }
  }

  datatype Tx = Tx(nTime: int, vin: seq<TxIn>, vout: seq<TxOut>) {
    predicate IsCoinBase() {
      |vin| == 1 && vin[0].prevout.IsNull() && |vout| >= 1
    }

    predicate IsCoinStake() {
      |vin| > 0 && !vin[0].prevout.IsNull() && |vout| >= 2 && vout[0].IsEmpty()
    }

    /** The outpoints this transaction takes over; a coinbase takes none. */
    function Spends(): seq<OutPoint> {
      if IsCoinBase() then [] else Prevouts(vin)
    }

    function ValueOut(): int { SumOut(vout) }

    function Burned(): int {
      if IsCoinBase() || IsCoinStake() then 0 else SumBurn(vout)
    }
  }

  function Prevouts(vin: seq<TxIn>): (r: seq<OutPoint>)
    ensures |r| == |vin|
    ensures forall i :: 0 <= i < |vin| ==> r[i] == vin[i].prevout
  {
    seq(|vin|, i requires 0 <= i < |vin| => vin[i].prevout)
  }

  function SumOut(vout: seq<TxOut>): int {
    if vout == [] then 0 else SumOut(vout[..|vout| - 1]) + vout[|vout| - 1].nValue
  }

  function SumBurn(vout: seq<TxOut>): int {
    if vout == [] then 0
    else SumBurn(vout[..|vout| - 1]) + (if vout[|vout| - 1].IsBurn() then vout[|vout| - 1].nValue else 0)
  }

  /** A record of the transaction index. */
  datatype TxIndex = TxIndex(pos: DiskTxPos, vSpent: seq<DiskTxPos>)

  type Index = map<uint256, TxIndex>

  function Unspent(n: nat): (r: seq<DiskTxPos>) {
    seq(n, _ => NullPos)
  }

  datatype Block = Block(nVersion: int, hashPrevBlock: uint256, nTime: int, nBits: BigNum.uint32, vtx: seq<Tx>) {
    predicate IsProofOfStake() {
      |vtx| > 1 && vtx[1].IsCoinStake()
    }
  }

  /** What the node takes from outside: hashing, signature checking, the block files and the clock.
      Block files are append-only, so their contents are a fixed function of the position. */
  datatype Env = Env(
    txid: Tx -> uint256,
    blockHash: Block -> uint256,
    verifySignature: (Tx, Tx, nat) -> bool,
    legacySigOps: Tx -> nat,
    p2shSigOps: (Tx, map<uint256, Tx>) -> nat,
    txSize: Tx -> nat,
    txAt: DiskTxPos -> Option<Tx>,
    blockAt: (nat, nat) -> Option<Block>,
    headerChecks: Block -> bool,
    contextChecks: (Block, uint256) -> bool,
    blockTimeAt: (nat, nat) -> Option<int>,
    isFund: seq<byte> -> bool,
    nWorkLimit: BigNum.Target,
    nStakeLimit: BigNum.Target,
    nCoinbaseMaturity: nat,
    nCheckpointHeight: int,
    genesisHash: uint256)
}
