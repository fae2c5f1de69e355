/** When the reward tests of ConnectBlock do what they are meant to: the subsidy goes by the height of the best
    block instead of the block's own, and the stake reward is compared as an unsigned number. */
module Rewards {
  import opened Basics
  import opened Transactions
  import opened BlockIndex
  import opened ConnectBlock
  import opened ConnectInputs
  import CoinAge

  // ----- proof of work

  /** The heights of one subsidy. */
  function Band(nHeight: int): nat {
    if nHeight == 1 then 1
    else if 1 < nHeight <= 10 then 2
    else if 10 < nHeight <= 50 then 3
    else if 50 < nHeight <= 100 then 4
    else 0
  }

  /** What the blocks at heights 1 to n may make between them. */
  function Issued(n: nat): int { if n == 0 then 0 else Issued(n - 1) + PowSubsidy(n) }

  /** In coins: 57 million at height 1, then 10, 20 and 25 a block up to heights 10, 50 and 100, and 1 after that. */
  lemma {:induction false} IssuedIs(n: nat)
    ensures n == 0 ==> Issued(n) == 0
    ensures 1 <= n <= 10 ==> Issued(n) == (57_000_000 + 10 * (n - 1)) * 100_000_000
    ensures 10 <= n <= 50 ==> Issued(n) == (57_000_090 + 20 * (n - 10)) * 100_000_000
    ensures 50 <= n <= 100 ==> Issued(n) == (57_000_890 + 25 * (n - 50)) * 100_000_000
    ensures n >= 100 ==> Issued(n) == (57_002_140 + (n - 100)) * 100_000_000
  {
    if n > 0 { IssuedIs(n - 1); }
  }

  lemma BandsDiffer(a: int, b: int)
    ensures PowSubsidy(a) == PowSubsidy(b) <==> Band(a) == Band(b)
  {
  }

  /** A block whose coinbase takes the whole subsidy of a height. */
  function TakesAll(nHeight: int): Block {
    Block(7, 0, 0, 0, [Tx(0, [TxIn(OutPoint(0, 0xffff_ffff), [])], [TxOut(PowSubsidy(nHeight), [])])])
  }

  lemma TakesSubsidy(nHeight: int)
    ensures |TakesAll(nHeight).vtx| == 1 && !TakesAll(nHeight).IsProofOfStake()
    ensures TakesAll(nHeight).vtx[0].ValueOut() == PowSubsidy(nHeight)
  {
    var vout := TakesAll(nHeight).vtx[0].vout;
    assert SumOut(vout[..0]) == 0 && SumOut(vout) == SumOut(vout[..0]) + vout[0].nValue;
  }

  /** The test by the best block agrees with one by the block's own height, for every proof-of-work block and all
      fees, exactly when both heights have the same subsidy. */
  lemma RewardByOwnHeight(env: Env, ix: Index, pindex: CBlockIndex, nBestHeight: int)
    ensures Band(nBestHeight + 1) == Band(pindex.nHeight) <==>
      forall block: Block, t: Totals :: !block.IsProofOfStake() ==>
        RewardOk(env, ix, block, pindex, t, nBestHeight) == RewardOk(env, ix, block, pindex, t, pindex.nHeight - 1)
  {
    hide PowSubsidy, TakesAll;
    BandsDiffer(nBestHeight + 1, pindex.nHeight);
    if Band(nBestHeight + 1) != Band(pindex.nHeight) {
      var h := if PowSubsidy(nBestHeight + 1) > PowSubsidy(pindex.nHeight) then nBestHeight + 1 else pindex.nHeight;
      TakesSubsidy(h);
      var t := Totals(0, 0, 0, 0, 0, 0);
      assert RewardOk(env, ix, TakesAll(h), pindex, t, nBestHeight) != RewardOk(env, ix, TakesAll(h), pindex, t,
        pindex.nHeight - 1);
    }
  }

  /** For one block the two disagree exactly when what it takes beyond its fees lies between the two subsidies. */
  lemma RewardDiffers(env: Env, ix: Index, block: Block, pindex: CBlockIndex, t: Totals, nBestHeight: int)
    requires !block.IsProofOfStake() && block.vtx != []
    ensures RewardOk(env, ix, block, pindex, t, nBestHeight) != RewardOk(env, ix, block, pindex, t,
      pindex.nHeight - 1) <==>
      var own, other := PowSubsidy(pindex.nHeight), PowSubsidy(nBestHeight + 1);
      Min(own, other) < block.vtx[0].ValueOut() - t.nFees <= own + other - Min(own, other)
  {
    hide PowSubsidy;
  }

  // ----- proof of stake

  /** The output pays the fund a fifth of the reward, rounded down. */
  predicate PaysFifth(env: Env, o: TxOut, nReward: int) {
    env.isFund(o.scriptPubKey) && var n := o.nValue % TWO_64; 5 * n <= nReward < 5 * n + 5
  }

  /** Within 64 bits a stake reward passes exactly when it is not negative, at most the coin-age subsidy and the
      fees, and has paid the fund. */
  lemma StakeRewardPasses(env: Env, ix: Index, block: Block, pindex: CBlockIndex, t: Totals, nCoinAge: nat,
                          nBestHeight: int)
    requires block.IsProofOfStake() && CoinAge.CoinAgeOf(env, ix, block.vtx[1], pindex.pprev) == Some(nCoinAge)
    requires -0x8000_0000_0000_0000 <= t.nStakeReward < 0x8000_0000_0000_0000
    requires 0 <= StakeSubsidy(nCoinAge) + t.nFees < 0x8000_0000_0000_0000
    ensures RewardOk(env, ix, block, pindex, t, nBestHeight) <==>
      && 0 <= t.nStakeReward <= StakeSubsidy(nCoinAge) + t.nFees
      && (pindex.nHeight > 25 ==>
          exists o :: o in block.vtx[1].vout && PaysFifth(env, o, StakeSubsidy(nCoinAge) + t.nFees))
  {
    hide StakeSubsidy, CoinAge.CoinAgeOf;
    assert forall o :: o in block.vtx[1].vout ==> (PaysFifth(env, o, StakeSubsidy(nCoinAge) + t.nFees) <==>
      env.isFund(o.scriptPubKey) && Wrap(o.nValue) == (StakeSubsidy(nCoinAge) + t.nFees) / 5);
  }

  /** The coin-age subsidy in numbers, within 64 bits: per coin-day 6,000,000 * 33 / (365 * 33 + 8), rounded down;
      that is six hundredths of a coin for a coin held for a year. */
  lemma StakeSubsidyExact(nCoinAge: nat)
    requires nCoinAge * 198_000_000 < TWO_64
    ensures StakeSubsidy(nCoinAge) * 12_053 <= nCoinAge * 198_000_000 < (StakeSubsidy(nCoinAge) + 1) * 12_053
  {
    var x := nCoinAge * COIN_YEAR_REWARD;
    assert x * 33 == nCoinAge * 198_000_000;
    assert Wrap(x) == x && Wrap(x * 33) == x * 33;
  }

  /** The coin-age subsidy is far from 2^63. */
  lemma SubsidySmall(nCoinAge: nat)
    ensures StakeSubsidy(nCoinAge) < 0x10_0000_0000_0000
  {
    var x := Wrap(Wrap(nCoinAge * COIN_YEAR_REWARD) * 33);
    assert x < TWO_64;
  }

  /** A coinstake that pays out one unit less than it takes in is refused, whatever its coin age. */
  lemma NegativeRewardRefused(env: Env, ix: Index, block: Block, pindex: CBlockIndex, t: Totals, nBestHeight: int)
    requires block.IsProofOfStake() && t.nStakeReward == -1 && t.nFees == 0
    ensures !RewardOk(env, ix, block, pindex, t, nBestHeight)
  {
    hide StakeSubsidy, CoinAge.CoinAgeOf;
    var age := CoinAge.CoinAgeOf(env, ix, block.vtx[1], pindex.pprev);
    if age.Some? {
      SubsidySmall(age.value);
      StakeRewardPasses(env, ix, block, pindex, t, age.value, nBestHeight);
    }
  }
}
