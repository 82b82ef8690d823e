/**
  What the shares of a block are worth: each receiver gets its own percentage of the block value less
  the lottery part, rounded down; together they never exceed the block value; and what a fund is paid
  at a superblock is its percentage of the values of all blocks that the superblock covers.
 */
module SubsidyShares {
  import opened Basics
  import opened Arithmetic
  import opened Superblocks

  // ---- The block value ----

  /** The block value without overrides: 1250 coins until the second halving, then a hundred less at each, down to 250. */
  lemma SubsidyFalls(h: nat, interval: nat, premine: Amount)
    requires interval > 0 && h >= 2
    ensures h < 2 * interval ==> BlockSubsidy(h, interval, premine) == 1250 * COIN
    ensures h >= interval ==>
              BlockSubsidy(h + interval, interval, premine)
              == if BlockSubsidy(h, interval, premine) >= 350 * COIN then BlockSubsidy(h, interval, premine) - 100 * COIN else 250 * COIN
  {
    var q, r := h / interval, h % interval;
    assert h == q * interval + r;
    Distribute(q, 1, interval);
    DivisionIs(h + interval, interval, q + 1, r);
    if q >= 2 { Monotone(2, q, interval); }
    if q == 0 { assert h < interval; }
  }

  // ---- One block ----

  /** r is the given percentage of an amount, rounded down. */
  ghost predicate IsPercentage(r: Amount, percentage: nat, amount: Amount) { 100 * r <= amount * percentage < 100 * r + 100 }

  lemma RoundedDown(amount: Amount, percentage: nat)
    ensures IsPercentage(amount * percentage / 100, percentage, amount)
  {
  }

  /** Every receiver gets its own percentage of what the lottery leaves. */
  lemma SharesArePercentages(p: Params, h: int)
    requires h > p.lastPowBlock
    ensures var r, s := LegacySubsidy(p, h), p.shares(h);
            var rest := p.value(h) - r.lottery;
            && r.lottery == (if h >= p.lotteryStart then 50 * COIN else 0)
            && IsPercentage(r.stake, s.stake, rest) && IsPercentage(r.masternode, s.masternode, rest)
            && IsPercentage(r.treasury, s.treasury, rest) && IsPercentage(r.charity, s.charity, rest)
            && IsPercentage(r.proposals, s.proposals, rest)
  {
    hide IsPercentage;
    var s, rest := p.shares(h), p.value(h) - LegacySubsidy(p, h).lottery;
    RoundedDown(rest, s.stake);
    RoundedDown(rest, s.masternode);
    RoundedDown(rest, s.treasury);
    RoundedDown(rest, s.charity);
    RoundedDown(rest, s.proposals);
  }

  /** Up to the last block with proof of work the miner gets everything. */
  lemma MinerGetsAll(p: Params, h: int)
    requires h <= p.lastPowBlock
    ensures var r := LegacySubsidy(p, h);
            r.stake == p.value(h) && r.masternode == r.treasury == r.charity == r.lottery == r.proposals == 0
  {
  }

  function AllShares(r: Rewards): Amount { r.stake + r.masternode + r.treasury + r.charity + r.lottery + r.proposals }

  function AllPercentages(s: Percentages): nat { s.stake + s.masternode + s.treasury + s.proposals + s.charity }

  /** Percentages of one amount that add up to at most a hundred add up to at most the amount. */
  lemma PercentagesAddUp(rest: nat, s: Percentages, r: Rewards)
    requires IsPercentage(r.stake, s.stake, rest) && IsPercentage(r.masternode, s.masternode, rest)
    requires IsPercentage(r.treasury, s.treasury, rest) && IsPercentage(r.charity, s.charity, rest)
    requires IsPercentage(r.proposals, s.proposals, rest) && AllPercentages(s) <= 100
    ensures AllShares(r) - r.lottery <= rest && (AllPercentages(s) == 100 ==> rest < AllShares(r) - r.lottery + 5)
  {
    Distribute(s.stake, s.masternode, rest);
    Distribute(s.stake + s.masternode, s.treasury, rest);
    Distribute(s.stake + s.masternode + s.treasury, s.proposals, rest);
    Distribute(s.stake + s.masternode + s.treasury + s.proposals, s.charity, rest);
    Monotone(AllPercentages(s), 100, rest);
  }

  lemma ShareNotNegative(r: Amount, percentage: nat, amount: nat)
    requires IsPercentage(r, percentage, amount)
    ensures r >= 0
  {
    Monotone(0, amount, percentage);
  }

  /** All shares of a block together are at most its value; rounding loses less than five units if the percentages make a hundred. */
  lemma SharesWithinValue(p: Params, h: int)
    requires p.Valid() && p.value(h) >= 0 && AllPercentages(p.shares(h)) <= 100
    ensures var r := LegacySubsidy(p, h);
            && r.stake >= 0 && r.masternode >= 0 && r.treasury >= 0 && r.charity >= 0 && r.lottery >= 0 && r.proposals >= 0
            && AllShares(r) <= p.value(h)
            && (AllPercentages(p.shares(h)) == 100 ==> p.value(h) < AllShares(r) + 5)
  {
    if h > p.lastPowBlock {
      var r, s := LegacySubsidy(p, h), p.shares(h);
      SharesArePercentages(p, h);
      hide LegacySubsidy, IsPercentage;
      var rest := p.value(h) - r.lottery;
      PercentagesAddUp(rest, s, r);
      ShareNotNegative(r.stake, s.stake, rest);
      ShareNotNegative(r.masternode, s.masternode, rest);
      ShareNotNegative(r.treasury, s.treasury, rest);
      ShareNotNegative(r.charity, s.charity, rest);
      ShareNotNegative(r.proposals, s.proposals, rest);
    }
  }

  /** The shares of the main network without overrides, in coins. */
  lemma DefaultShares(p: Params, h: int)
    requires h > p.lastPowBlock && h >= p.lotteryStart && p.value(h) == 1250 * COIN && p.shares(h) == Percentages(38, 45, 16, 0, 1)
    ensures LegacySubsidy(p, h) == Rewards(456 * COIN, 540 * COIN, 192 * COIN, 12 * COIN, 50 * COIN, 0)
  {
  }

  // ---- Superblocks ----

  /** The percentage of a fund. */
  function PercentageOf(s: Percentages, f: Fund): nat { match f case TREASURY => s.treasury case CHARITY => s.charity }

  /** A hundred times what the fund is due for the blocks from height a up to height b. */
  ghost function Due(p: Params, f: Fund, a: int, b: int): Amount
    requires a <= b
    decreases b - a
  {
    if a == b then 0 else Due(p, f, a, b - 1) + (p.value(b - 1) - 50 * COIN) * PercentageOf(p.shares(b - 1), f)
  }

  lemma FundShareIs(p: Params, f: Fund, h: int)
    requires h > p.lastPowBlock && h >= p.lotteryStart
    ensures IsPercentage(FundShare(p, f)(h), PercentageOf(p.shares(h), f), p.value(h) - 50 * COIN)
  {
    SharesArePercentages(p, h);
  }

  lemma {:induction false} SharesMeetDue(p: Params, f: Fund, a: int, b: int)
    requires p.lastPowBlock < a <= b && p.lotteryStart <= a
    ensures 100 * SharesBetween(FundShare(p, f), a, b) <= Due(p, f, a, b) <= 100 * SharesBetween(FundShare(p, f), a, b) + 99 * (b - a)
    decreases b - a
  {
    hide FundShare, PercentageOf;
    if a < b {
      SharesMeetDue(p, f, a, b - 1);
      FundShareIs(p, f, b - 1);
    }
  }

  /** A treasury superblock pays each fund its percentage of all blocks since the previous one, but for rounding in each block. */
  lemma SuperblockPaysWhatIsDue(p: Params, h: int)
    requires p.Valid() && p.Steady() && TreasuryCycle(p, h) <= p.halvingInterval && IsTreasuryHeight(p, h)
    requires var prior := h - TreasuryCycle(p, h); prior > p.lastPowBlock && prior >= p.lotteryStart
    ensures var prior, r := h - TreasuryCycle(p, h), Subsidy(p, h);
            && 100 * r.treasury <= Due(p, TREASURY, prior, h) <= 100 * r.treasury + 99 * (h - prior)
            && 100 * r.charity <= Due(p, CHARITY, prior, h) <= 100 * r.charity + 99 * (h - prior)
  {
    hide TreasuryCycle, LegacySubsidy, FundPayout, LotteryPayout, IsTreasuryHeight, IsLotteryHeight, Params.Valid, Params.Steady, FundShare, Due,
      SharesBetween;
    var prior := h - TreasuryCycle(p, h);
    TreasuryPayoutIsSum(p, TREASURY, h);
    TreasuryPayoutIsSum(p, CHARITY, h);
    SharesMeetDue(p, TREASURY, prior, h);
    SharesMeetDue(p, CHARITY, prior, h);
  }

  /** Whatever the height, staker, masternode and proposals get the shares of that block alone. */
  lemma OthersArePaidEveryBlock(p: Params, h: int)
    requires p.Valid() && h > p.lastPowBlock
    ensures var r, s := Subsidy(p, h), p.shares(h);
            var rest := p.value(h) - if h >= p.lotteryStart then 50 * COIN else 0;
            IsPercentage(r.stake, s.stake, rest) && IsPercentage(r.masternode, s.masternode, rest) && IsPercentage(r.proposals, s.proposals, rest)
  {
    SharesArePercentages(p, h);
    hide LegacySubsidy, FundPayout, LotteryPayout, IsTreasuryHeight, IsLotteryHeight, Params.Valid, IsPercentage;
  }
}
