/**
  The treasury and lottery superblocks: at which heights they fall, and what they pay. Every payout
  but the first of its kind covers the blocks since the previous one, across halvings and across the
  height at which the schedule changes. The first one also pays for blocks that had no share.
 */
module Superblocks {
  import opened Basics
  import opened Arithmetic

  type Amount = int

  const LOTTERY_SHARE := 50 * COIN

  datatype Percentages = Percentages(stake: nat, masternode: nat, treasury: nat, proposals: nat, charity: nat)

  /** What a chain fixes; block value and percentages may be overridden from some halving on. */
  datatype Params = Params(
    halvingInterval: nat, lotteryCycle: nat, treasuryCycle: nat, lotteryStart: int, treasuryStart: int, lastPowBlock: nat,
    premine: Amount, value: int -> Amount, shares: int -> Percentages)
  {
    /** Cycles are positive, there is room for the lottery, superblocks start after the first block. */
    ghost predicate Valid()
    {
      && halvingInterval > 0 && lotteryCycle > 0 && treasuryCycle > 0 && lotteryStart > 0 && treasuryStart > 0
      && lastPowBlock >= 1
      && forall h :: h >= lotteryStart ==> value(h) >= LOTTERY_SHARE
    }

    /** Overrides take effect at halvings only. */
    ghost predicate Steady()
      requires halvingInterval > 0
    {
      forall g, h :: 2 <= g <= h && g / halvingInterval == h / halvingInterval ==> value(g) == value(h) && shares(g) == shares(h)
    }
  }

  /** The block value without overrides. */
  function BlockSubsidy(nHeight: nat, interval: nat, premine: Amount): Amount
    requires interval > 0
  {
    if nHeight == 0 then 50 * COIN
    else if nHeight == 1 then premine
    else
      var halvings := nHeight / interval - 1;
      var coins := 1250 - 100 * (if halvings > 0 then halvings else 0);
      (if coins > 250 then coins else 250) * COIN
  }

  /** The default schedule changes at halvings only, and always leaves room for the lottery. */
  lemma DefaultIsSteady(g: nat, h: nat, interval: nat, premine: Amount)
    requires interval > 0 && 2 <= g && 2 <= h && g / interval == h / interval
    ensures BlockSubsidy(g, interval, premine) == BlockSubsidy(h, interval, premine) >= LOTTERY_SHARE
  {
  }

  // ---- Per-block shares ----

  datatype Rewards = Rewards(stake: Amount, masternode: Amount, treasury: Amount, charity: Amount, lottery: Amount, proposals: Amount)

  function LegacySubsidy(p: Params, nHeight: int): Rewards
  {
    var nSubsidy := p.value(nHeight);
    if nHeight <= p.lastPowBlock then Rewards(nSubsidy, 0, 0, 0, 0, 0) else
      var lottery := if nHeight >= p.lotteryStart then LOTTERY_SHARE else 0;
      var rest, s := nSubsidy - lottery, p.shares(nHeight);
      Rewards(rest * s.stake / 100, rest * s.masternode / 100, rest * s.treasury / 100, rest * s.charity / 100, lottery, rest * s.proposals / 100)
  }

  /** Past the start heights the shares are the same on a whole halving interval. */
  lemma SharesAreSteady(p: Params, g: int, h: int)
    requires p.Valid() && p.Steady() && g > p.lastPowBlock && g >= p.lotteryStart && g <= h
    requires g / p.halvingInterval == h / p.halvingInterval
    ensures LegacySubsidy(p, g) == LegacySubsidy(p, h)
  {
  }

  // ---- Heights ----

  function TransitionHeight(p: Params): nat { p.lotteryCycle * p.treasuryCycle }

  predicate LegacyLotteryHeight(p: Params, h: int)
    requires p.lotteryCycle > 0
  {
    h >= p.lotteryStart && h % p.lotteryCycle == 0
  }

  predicate LegacyTreasuryHeight(p: Params, h: int)
    requires p.treasuryCycle > 0
  {
    h >= p.treasuryStart && h % p.treasuryCycle == 0
  }

  predicate IsLotteryHeight(p: Params, h: int)
    requires p.lotteryCycle > 0
  {
    if h < TransitionHeight(p) then LegacyLotteryHeight(p, h) else (h - TransitionHeight(p)) % p.lotteryCycle == 0
  }

  predicate IsTreasuryHeight(p: Params, h: int)
    requires p.lotteryCycle > 0 && p.treasuryCycle > 0
  {
    if h < TransitionHeight(p) then LegacyTreasuryHeight(p, h) else IsLotteryHeight(p, h - 1)
  }

  function TreasuryCycle(p: Params, h: int): nat
  {
    if h < TransitionHeight(p) then p.treasuryCycle
    else if h <= TransitionHeight(p) + 1 then p.treasuryCycle + 1
    else p.lotteryCycle
  }

  function LotteryCycle(p: Params, h: int): nat { p.lotteryCycle }

  // ---- Divisibility ----

  ghost predicate Divides(d: int, n: int) { exists k :: n == d * k }

  lemma ModuloZero(n: int, d: int)
    requires d > 0
    ensures n % d == 0 <==> Divides(d, n)
  {
    if n % d == 0 { assert n == d * (n / d); }
    if Divides(d, n) {
      var k :| n == d * k;
      MultipleModulo(d, k);
    }
  }

  lemma MultipleModulo(d: int, k: int)
    requires d > 0
    ensures (d * k) % d == 0 && (d * k) / d == k
  {
    IntDivision(d * k, d, k, 0);
  }

  /** Quotient and remainder of any integer. */
  lemma IntDivision(x: int, d: int, q: int, r: int)
    requires d > 0 && x == d * q + r && 0 <= r < d
    ensures x / d == q && x % d == r
  {
    var q', r' := x / d, x % d;
    assert x == d * q' + r' && 0 <= r' < d;
    Distribute(q, -q', d);
    SmallMultiple(q - q', d);
  }

  lemma SmallMultiple(m: int, d: int)
    requires d > 0 && -d < m * d < d
    ensures m == 0
  {
    if m > 0 { } else { }
  }

  function Gcd(a: nat, b: nat): nat
    requires a > 0
    decreases b
  {
    if b == 0 then a else Gcd(b, a % b)
  }

  lemma {:induction false} Bezout(a: nat, b: nat) returns (x: int, y: int)
    requires a > 0
    ensures a * x + b * y == Gcd(a, b)
    decreases b
  {
    if b == 0 {
      x, y := 1, 0;
    } else {
      var u, v := Bezout(b, a % b);
      x, y := v, u - a / b * v;
    }
  }

  /** A number that two coprime numbers divide is divided by their product. */
  lemma CoprimeProduct(a: nat, b: nat, n: int)
    requires a > 0 && Gcd(a, b) == 1 && Divides(a, n) && Divides(b, n)
    ensures Divides(a * b, n)
  {
    var x, y := Bezout(a, b);
    var k :| n == a * k;
    var l :| n == b * l;
    ProductOf(a, b, n, x, y, k, l);
  }

  lemma ProductOf(a: int, b: int, n: int, x: int, y: int, k: int, l: int)
    requires a * x + b * y == 1 && n == a * k && n == b * l
    ensures n == (a * b) * (l * x + k * y)
  {
    assert n * (a * x) == (a * b) * (l * x);
    assert n * (b * y) == (a * b) * (k * y);
    assert n == n * (a * x + b * y) == n * (a * x) + n * (b * y);
    Distribute(l * x, k * y, a * b);
  }

  /** With coprime cycles and a lottery cycle above one, no block is both kinds of superblock. */
  lemma NeverBoth(p: Params, h: int)
    requires p.Valid() && Gcd(p.lotteryCycle, p.treasuryCycle) == 1 && p.lotteryCycle > 1
    ensures !(IsLotteryHeight(p, h) && IsTreasuryHeight(p, h))
  {
    var t, l := TransitionHeight(p), p.lotteryCycle;
    if IsLotteryHeight(p, h) && IsTreasuryHeight(p, h) {
      if h < t {
        ModuloZero(h, l);
        ModuloZero(h, p.treasuryCycle);
        CoprimeProduct(l, p.treasuryCycle, h);
        var k :| h == t * k;
        PositiveMultiple(t, k);
      } else if h == t {
        MultipleModulo(l, p.treasuryCycle);
        Neighbours(t, l);
      } else {
        Neighbours(h - t, l);
      }
    }
  }

  /** Without coprime cycles: a height is both exactly below the transition, past both starts, on a multiple of both. */
  lemma BothIff(p: Params, h: int)
    requires p.Valid() && p.lotteryCycle > 1
    ensures IsLotteryHeight(p, h) && IsTreasuryHeight(p, h)
       <==> && h < TransitionHeight(p) && h >= p.lotteryStart && h >= p.treasuryStart
            && h % p.lotteryCycle == 0 && h % p.treasuryCycle == 0
  {
    var t, l := TransitionHeight(p), p.lotteryCycle;
    if h == t {
      MultipleModulo(l, p.treasuryCycle);
      Neighbours(t, l);
    } else if h > t && IsLotteryHeight(p, h) {
      Neighbours(h - t, l);
    }
  }

  /** The cycles of the regression test network, 10 and 50, meet at height 150. */
  lemma BothOnRegtest(p: Params)
    requires p.Valid() && p.lotteryCycle == 10 && p.treasuryCycle == 50 && p.lotteryStart == 101 && p.treasuryStart == 102
    ensures IsLotteryHeight(p, 150) && IsTreasuryHeight(p, 150)
  {
  }

  lemma PositiveMultiple(t: nat, k: int)
    requires t * k > 0
    ensures t * k >= t
  {
    if k >= 1 { Monotone(1, k, t); } else { Monotone(0, -k, t); }
  }

  /** Two neighbours are not both multiples of a number above one. */
  lemma Neighbours(n: int, d: int)
    requires d > 1 && n % d == 0
    ensures (n - 1) % d != 0
  {
    var q := n / d;
    assert n == d * q;
    Distribute(q, -1, d);
    IntDivision(n - 1, d, q - 1, d - 1);
  }

  // ---- Payouts ----

  /** A weighted sum of the shares before and after the last halving. */
  function Weighted(before: Amount, now: Amount, nHeight: int, prior: int, interval: nat): Amount
    requires interval > 0
  {
    var boundary := nHeight / interval * interval;
    before * (boundary - prior) + now * (nHeight - boundary)
  }

  /** The two shares that are paid out at treasury superblocks. */
  datatype Fund = TREASURY | CHARITY

  function Of(r: Rewards, f: Fund): Amount { if f.TREASURY? then r.treasury else r.charity }

  function FundPayout(p: Params, f: Fund, h: int): Amount
    requires p.halvingInterval > 0
  {
    var prior := h - TreasuryCycle(p, h);
    Weighted(Of(LegacySubsidy(p, prior), f), Of(LegacySubsidy(p, h), f), h, prior, p.halvingInterval)
  }

  function LotteryPayout(p: Params, h: int): Amount
    requires p.halvingInterval > 0
  {
    var prior := h - LotteryCycle(p, h);
    Weighted(LegacySubsidy(p, prior).lottery, LegacySubsidy(p, h).lottery, h, prior, p.halvingInterval)
  }

  /** The rewards of a block: superblocks pay what has accumulated, other blocks pay nothing to treasury, charity and lottery. */
  function Subsidy(p: Params, h: int): Rewards
    requires p.Valid()
  {
    LegacySubsidy(p, h).(
      treasury := if IsTreasuryHeight(p, h) then FundPayout(p, TREASURY, h) else 0,
      charity := if IsTreasuryHeight(p, h) then FundPayout(p, CHARITY, h) else 0,
      lottery := if IsLotteryHeight(p, h) then LotteryPayout(p, h) else 0)
  }

  class BlockRewards {
    var r: Rewards

    constructor (r: Rewards)
      ensures this.r == r
    {
      this.r := r;
    }

    method UpdateTreasuryReward(p: Params, nHeight: int, isTreasuryBlock: bool)
      requires p.Valid()
      modifies this
      ensures var prior := nHeight - TreasuryCycle(p, nHeight);
              var before := LegacySubsidy(p, prior);
              r == old(r).(
                treasury := if isTreasuryBlock then Weighted(before.treasury, old(r).treasury, nHeight, prior, p.halvingInterval) else 0,
                charity := if isTreasuryBlock then Weighted(before.charity, old(r).charity, nHeight, prior, p.halvingInterval) else 0)
    {
      if !isTreasuryBlock { r := r.(treasury := 0, charity := 0); }
      var prior := nHeight - TreasuryCycle(p, nHeight);
      var priorRewards := if isTreasuryBlock then LegacySubsidy(p, prior) else r;
      var intervals := nHeight / p.halvingInterval;
      var priorWeight := intervals * p.halvingInterval - prior;
      var currentWeight := nHeight - intervals * p.halvingInterval;
      r := r.(treasury := priorRewards.treasury * priorWeight + r.treasury * currentWeight,
              charity := priorRewards.charity * priorWeight + r.charity * currentWeight);
    }

    method UpdateLotteryReward(p: Params, nHeight: int, isLotteryBlock: bool)
      requires p.Valid()
      modifies this
      ensures var prior := nHeight - LotteryCycle(p, nHeight);
              var before := LegacySubsidy(p, prior);
              r == old(r).(
                lottery := if isLotteryBlock then Weighted(before.lottery, old(r).lottery, nHeight, prior, p.halvingInterval) else 0)
    {
      if !isLotteryBlock { r := r.(lottery := 0); }
      var prior := nHeight - LotteryCycle(p, nHeight);
      var priorRewards := if isLotteryBlock then LegacySubsidy(p, prior) else r;
      var intervals := nHeight / p.halvingInterval;
      var priorWeight := intervals * p.halvingInterval - prior;
      var currentWeight := nHeight - intervals * p.halvingInterval;
      r := r.(lottery := priorRewards.lottery * priorWeight + r.lottery * currentWeight);
    }
  }

  method GetBlockSubsidity(p: Params, nHeight: int) returns (rewards: Rewards)
    requires p.Valid()
    ensures rewards == Subsidy(p, nHeight)
  {
    hide LegacySubsidy;
    var b := new BlockRewards(LegacySubsidy(p, nHeight));
    b.UpdateTreasuryReward(p, nHeight, IsTreasuryHeight(p, nHeight));
    b.UpdateLotteryReward(p, nHeight, IsLotteryHeight(p, nHeight));
    rewards := b.r;
  }

  // ---- What the payouts add up to ----

  /** The sum of per-block shares from one height up to another. */
  ghost function SharesBetween(share: int -> Amount, a: int, b: int): Amount
    requires a <= b
    decreases b - a
  {
    if a == b then 0 else SharesBetween(share, a, b - 1) + share(b - 1)
  }

  lemma {:induction false} ConstantShares(share: int -> Amount, a: int, b: int, v: Amount)
    requires a <= b && forall h :: a <= h < b ==> share(h) == v
    ensures SharesBetween(share, a, b) == v * (b - a)
    decreases b - a
  {
    if a < b {
      ConstantShares(share, a, b - 1, v);
      Distribute(b - 1 - a, 1, v);
    }
  }

  lemma {:induction false} SharesSplit(share: int -> Amount, a: int, b: int, c: int)
    requires a <= b <= c
    ensures SharesBetween(share, a, c) == SharesBetween(share, a, b) + SharesBetween(share, b, c)
    decreases c - b
  {
    if b < c { SharesSplit(share, a, b, c - 1); }
  }

  ghost predicate SteadyFrom(share: int -> Amount, interval: nat, first: int)
    requires interval > 0
  {
    forall g, h :: first <= g <= h && g / interval == h / interval ==> share(g) == share(h)
  }

  lemma SameInterval(g: int, h: int, interval: nat)
    requires interval > 0 && 0 <= h - g < interval && h / interval * interval <= g
    ensures g / interval == h / interval
  {
    var k := h / interval;
    assert h == interval * k + h % interval;
    IntDivision(g, interval, k, g - k * interval);
  }

  lemma IntervalBefore(g: int, h: int, interval: nat)
    requires interval > 0 && h / interval * interval - interval <= g < h / interval * interval
    ensures g / interval == h / interval - 1
  {
    var k := h / interval - 1;
    Distribute(k, 1, interval);
    IntDivision(g, interval, k, g - k * interval);
  }

  lemma Boundary(h: int, interval: nat)
    requires interval > 0
    ensures h / interval * interval <= h < h / interval * interval + interval
  {
    assert h == interval * (h / interval) + h % interval;
  }

  /** What is paid beyond the shares of the blocks: those before the last halving count as the first of them. */
  ghost function Overpaid(share: int -> Amount, h: int, prior: int, interval: nat): Amount
    requires interval > 0 && prior <= h
  {
    var b := h / interval * interval;
    if b <= prior then 0 else Boundary(h, interval); share(prior) * (b - prior) - SharesBetween(share, prior, b)
  }

  lemma SinceBoundary(share: int -> Amount, h: int, from: int, interval: nat)
    requires interval > 0 && h / interval * interval <= from <= h && SteadyFrom(share, interval, from)
    ensures SharesBetween(share, from, h) == share(h) * (h - from)
  {
    Boundary(h, interval);
    forall g | from <= g < h ensures share(g) == share(h) { SameInterval(g, h, interval); }
    ConstantShares(share, from, h, share(h));
  }

  /** The weighted sum is the sum of the shares since the prior height and what is overpaid, however many halvings are between. */
  lemma WeightedIs(share: int -> Amount, h: int, prior: int, interval: nat)
    requires interval > 0 && prior <= h && SteadyFrom(share, interval, prior)
    ensures Weighted(share(prior), share(h), h, prior, interval) == SharesBetween(share, prior, h) + Overpaid(share, h, prior, interval)
  {
    var b := h / interval * interval;
    Boundary(h, interval);
    if prior < b {
      SinceBoundary(share, h, b, interval);
      SharesSplit(share, prior, b, h);
    } else {
      SinceBoundary(share, h, prior, interval);
      SameInterval(prior, h, interval);
      Distribute(b - prior, h - b, share(h));
    }
  }

  /** Exact if the cycle is no longer than a halving interval. */
  lemma WeightedIsSum(share: int -> Amount, h: int, prior: int, interval: nat)
    requires interval > 0 && prior <= h <= prior + interval && SteadyFrom(share, interval, prior)
    ensures Weighted(share(prior), share(h), h, prior, interval) == SharesBetween(share, prior, h)
  {
    var b := h / interval * interval;
    Boundary(h, interval);
    WeightedIs(share, h, prior, interval);
    if prior < b {
      forall g | prior <= g < b ensures share(g) == share(prior) {
        IntervalBefore(g, h, interval);
        IntervalBefore(prior, h, interval);
      }
      ConstantShares(share, prior, b, share(prior));
    }
  }

  lemma {:induction false} FallingShares(share: int -> Amount, a: int, b: int)
    requires a < b && forall g, h :: a <= g <= h < b ==> share(h) <= share(g)
    ensures SharesBetween(share, a, b) <= share(a) * (b - a)
    ensures SharesBetween(share, a, b) == share(a) * (b - a) <==> share(b - 1) == share(a)
    decreases b - a
  {
    if a + 1 < b {
      FallingShares(share, a, b - 1);
      Distribute(b - 1 - a, 1, share(a));
      assert share(b - 1) <= share(b - 2) <= share(a);
    } else {
      assert SharesBetween(share, a, a) == 0;
    }
  }

  /** For shares that never rise: exact if and only if the share just before the last halving is still that of the prior height. */
  lemma WeightedIsSumIff(share: int -> Amount, h: int, prior: int, interval: nat)
    requires interval > 0 && prior <= h && SteadyFrom(share, interval, prior) && forall f, g :: prior <= f <= g < h ==> share(g) <= share(f)
    ensures var b := h / interval * interval;
            Weighted(share(prior), share(h), h, prior, interval) == SharesBetween(share, prior, h)
            <==> (prior < b ==> share(b - 1) == share(prior))
  {
    var b := h / interval * interval;
    Boundary(h, interval);
    WeightedIs(share, h, prior, interval);
    if prior < b { FallingShares(share, prior, b); }
  }

  /** What the first payout is off by, if blocks have their regular share from `first` on. */
  ghost function FirstExcess(share: int -> Amount, h: int, prior: int, interval: nat, first: int): Amount
    requires interval > 0 && prior <= first <= h
  {
    var b := h / interval * interval;
    (if b <= first then share(h) * (first - b) else Boundary(h, interval); -SharesBetween(share, first, b)) - SharesBetween(share, prior, first)
  }

  /** The prior height has no share: then all blocks since the last halving count, or none before it. */
  lemma FirstPayout(share: int -> Amount, h: int, prior: int, interval: nat, first: int)
    requires interval > 0 && prior <= first <= h && share(prior) == 0 && SteadyFrom(share, interval, first)
    ensures Weighted(share(prior), share(h), h, prior, interval)
         == SharesBetween(share, prior, h) + FirstExcess(share, h, prior, interval, first)
  {
    var b := h / interval * interval;
    Boundary(h, interval);
    SharesSplit(share, prior, first, h);
    if b <= first {
      SinceBoundary(share, h, first, interval);
      Distribute(h - first, first - b, share(h));
    } else {
      SinceBoundary(share, h, b, interval);
      SharesSplit(share, first, b, h);
    }
  }

  // ---- Treasury payouts telescope ----

  /** A treasury superblock and the one before it: nothing in between is one. */
  lemma PriorTreasury(p: Params, h: int)
    requires p.Valid() && p.lotteryCycle > 1 && IsTreasuryHeight(p, h)
    ensures TreasuryCycle(p, h) > 0
    ensures h - TreasuryCycle(p, h) >= p.treasuryStart ==> IsTreasuryHeight(p, h - TreasuryCycle(p, h))
    ensures forall g :: h - TreasuryCycle(p, h) < g < h ==> !IsTreasuryHeight(p, g)
  {
    var t := TransitionHeight(p);
    if h < t {
      PriorMultiple(h, p.treasuryCycle);
      assert h < t;
    } else if h == t {
      MultipleModulo(p.lotteryCycle, p.treasuryCycle);
      Neighbours(t, p.lotteryCycle);
    } else if h == t + 1 {
      TransitionStep(p);
    } else {
      LaterTreasury(p, h);
    }
  }

  /** The multiple of a number before a multiple of it. */
  lemma PriorMultiple(h: int, d: int)
    requires d > 0 && h % d == 0
    ensures (h - d) % d == 0 && forall g :: h - d < g < h ==> g % d != 0
  {
    var q := h / d;
    assert h == d * q;
    Distribute(q, -1, d);
    IntDivision(h - d, d, q - 1, 0);
    forall g | h - d < g < h ensures g % d != 0 { IntDivision(g, d, q - 1, g - (h - d)); }
  }

  /** The first treasury superblock of the new schedule covers one block more than the old cycle. */
  lemma TransitionStep(p: Params)
    requires p.Valid() && p.lotteryCycle > 1
    ensures var t := TransitionHeight(p);
            && (t - p.treasuryCycle >= p.treasuryStart ==> IsTreasuryHeight(p, t - p.treasuryCycle))
            && forall g :: t - p.treasuryCycle < g <= t ==> !IsTreasuryHeight(p, g)
  {
    var t := TransitionHeight(p);
    MultipleModulo(p.treasuryCycle, p.lotteryCycle);
    MultipleModulo(p.lotteryCycle, p.treasuryCycle);
    PriorMultiple(t, p.treasuryCycle);
    Neighbours(t, p.lotteryCycle);
  }

  lemma LaterTreasury(p: Params, h: int)
    requires p.Valid() && p.lotteryCycle > 1 && h > TransitionHeight(p) + 1 && IsTreasuryHeight(p, h)
    ensures IsTreasuryHeight(p, h - p.lotteryCycle) && forall g :: h - p.lotteryCycle < g < h ==> !IsTreasuryHeight(p, g)
  {
    var t, l := TransitionHeight(p), p.lotteryCycle;
    var n := h - 1 - t;
    PriorMultiple(n, l);
    assert n >= l;
    forall g | h - l < g < h ensures !IsTreasuryHeight(p, g) {
      assert n - l < g - 1 - t < n;
    }
  }

  ghost function FundShare(p: Params, f: Fund): int -> Amount { h => Of(LegacySubsidy(p, h), f) }

  /** All payouts of a fund after height a and up to height b. */
  ghost function FundPaid(p: Params, f: Fund, a: int, b: int): Amount
    requires p.Valid() && a <= b
    decreases b - a
  {
    if a == b then 0 else FundPaid(p, f, a, b - 1) + Of(Subsidy(p, b), f)
  }

  lemma {:induction false} NothingPaid(p: Params, f: Fund, a: int, b: int, c: int)
    requires p.Valid() && a <= b <= c && forall g :: b < g <= c ==> !IsTreasuryHeight(p, g)
    ensures FundPaid(p, f, a, c) == FundPaid(p, f, a, b)
    decreases c - b
  {
    hide LegacySubsidy, FundPayout, LotteryPayout, IsLotteryHeight, IsTreasuryHeight;
    if b < c { NothingPaid(p, f, a, b, c - 1); }
  }

  lemma FundSteady(p: Params, f: Fund, first: int)
    requires p.Valid() && p.Steady() && first > p.lastPowBlock && first >= p.lotteryStart
    ensures SteadyFrom(FundShare(p, f), p.halvingInterval, first)
  {
    hide LegacySubsidy;
    forall g, h | first <= g <= h && g / p.halvingInterval == h / p.halvingInterval ensures FundShare(p, f)(g) == FundShare(p, f)(h) {
      SharesAreSteady(p, g, h);
    }
  }

  /** A payout of treasury or charity is the sum of its shares since the previous treasury superblock. */
  lemma TreasuryPayoutIsSum(p: Params, f: Fund, h: int)
    requires p.Valid() && p.Steady() && TreasuryCycle(p, h) <= p.halvingInterval
    requires var prior := h - TreasuryCycle(p, h); prior > p.lastPowBlock && prior >= p.lotteryStart
    ensures FundPayout(p, f, h) == SharesBetween(FundShare(p, f), h - TreasuryCycle(p, h), h)
  {
    hide LegacySubsidy, TreasuryCycle, Params.Steady;
    var prior := h - TreasuryCycle(p, h);
    FundSteady(p, f, prior);
    WeightedIsSum(FundShare(p, f), h, prior, p.halvingInterval);
  }

  /** With a cycle longer than a halving interval it is so exactly while the share does not fall, if it never rises. */
  lemma LongCycleIsSumIff(p: Params, f: Fund, h: int)
    requires p.Valid() && p.Steady()
    requires var prior := h - TreasuryCycle(p, h);
             && prior > p.lastPowBlock && prior >= p.lotteryStart
             && forall g, k :: prior <= g <= k < h ==> FundShare(p, f)(k) <= FundShare(p, f)(g)
    ensures var prior, b := h - TreasuryCycle(p, h), h / p.halvingInterval * p.halvingInterval;
            FundPayout(p, f, h) == SharesBetween(FundShare(p, f), prior, h)
            <==> (prior < b ==> FundShare(p, f)(b - 1) == FundShare(p, f)(prior))
  {
    hide LegacySubsidy, TreasuryCycle, Params.Steady;
    var prior := h - TreasuryCycle(p, h);
    FundSteady(p, f, prior);
    WeightedIsSumIff(FundShare(p, f), h, prior, p.halvingInterval);
  }

  /** The first height at which treasury, charity and lottery have their regular shares. */
  function FirstRegular(p: Params): int { if p.lastPowBlock + 1 >= p.lotteryStart then p.lastPowBlock + 1 else p.lotteryStart }

  /** The first payout, whose prior height has no share, and its exact excess. */
  lemma FirstTreasuryPayout(p: Params, f: Fund, h: int)
    requires p.Valid() && p.Steady() && h - TreasuryCycle(p, h) <= p.lastPowBlock && FirstRegular(p) <= h
    ensures var prior := h - TreasuryCycle(p, h);
            FundPayout(p, f, h) == SharesBetween(FundShare(p, f), prior, h)
                                   + FirstExcess(FundShare(p, f), h, prior, p.halvingInterval, FirstRegular(p))
  {
    var prior := h - TreasuryCycle(p, h);
    assert FundShare(p, f)(prior) == 0;
    hide LegacySubsidy, TreasuryCycle, Params.Steady;
    FundSteady(p, f, FirstRegular(p));
    FirstPayout(FundShare(p, f), h, prior, p.halvingInterval, FirstRegular(p));
  }

  lemma NoShareYet(p: Params, f: Fund, h: int)
    requires h <= p.lastPowBlock
    ensures FundShare(p, f)(h) == 0
  {
  }

  lemma BeforeHalving(h: int, interval: nat)
    requires 0 <= h < interval
    ensures h / interval * interval == 0
  {
    IntDivision(h, interval, 0, h);
  }

  lemma WeightedAtFirst(now: Amount, h: int, prior: int, interval: nat)
    requires 0 <= h < interval
    ensures Weighted(0, now, h, prior, interval) == now * h
  {
    BeforeHalving(h, interval);
  }

  lemma FirstBeforeHalving(share: int -> Amount, h: int, prior: int, interval: nat, first: int)
    requires 0 <= prior < first <= h < interval && SteadyFrom(share, interval, first) && forall g :: 0 <= g < first ==> share(g) == 0
    ensures Weighted(share(prior), share(h), h, prior, interval) == share(h) * h == SharesBetween(share, 0, h) + share(h) * first
  {
    hide SteadyFrom, SharesBetween, Weighted;
    BeforeHalving(h, interval);
    WeightedAtFirst(share(h), h, prior, interval);
    ConstantShares(share, 0, first, 0);
    SinceBoundary(share, h, first, interval);
    SharesSplit(share, 0, first, h);
    Distribute(h - first, first, share(h));
  }

  /** As on the main network, where it falls before the first halving: it pays a share for every height, the early ones included. */
  lemma FirstPayoutBeforeHalving(p: Params, f: Fund, h: int)
    requires p.Valid() && p.Steady() && 0 <= h - TreasuryCycle(p, h) <= p.lastPowBlock
    requires p.lotteryStart <= p.lastPowBlock + 1 <= h < p.halvingInterval
    ensures FundPayout(p, f, h) == FundShare(p, f)(h) * h
         == SharesBetween(FundShare(p, f), 0, h) + FundShare(p, f)(h) * (p.lastPowBlock + 1)
  {
    hide LegacySubsidy, TreasuryCycle, Params.Steady, Weighted;
    var first := p.lastPowBlock + 1;
    forall g | 0 <= g < first ensures FundShare(p, f)(g) == 0 { NoShareYet(p, f, g); }
    FundSteady(p, f, first);
    FirstBeforeHalving(FundShare(p, f), h, h - TreasuryCycle(p, h), p.halvingInterval, first);
  }

  /** From one treasury superblock to another the payouts add up to the shares of all blocks between: none twice, none left out. */
  lemma {:induction false} TreasuryTelescopes(p: Params, f: Fund, a: int, b: int)
    requires p.Valid() && p.Steady() && p.lotteryCycle > 1
    requires p.lotteryCycle <= p.halvingInterval && p.treasuryCycle + 1 <= p.halvingInterval
    requires IsTreasuryHeight(p, a) && IsTreasuryHeight(p, b) && a <= b
    requires a > p.lastPowBlock && a >= p.lotteryStart && a >= p.treasuryStart
    ensures FundPaid(p, f, a, b) == SharesBetween(FundShare(p, f), a, b)
    decreases b - a
  {
    hide LegacySubsidy, FundPayout, LotteryPayout, IsLotteryHeight, IsTreasuryHeight, Params.Valid, Params.Steady;
    if a < b {
      var prior := b - TreasuryCycle(p, b);
      PriorTreasury(p, b);
      assert a <= prior;
      TreasuryPayoutIsSum(p, f, b);
      TreasuryTelescopes(p, f, a, prior);
      NothingPaid(p, f, a, prior, b - 1);
      SharesSplit(FundShare(p, f), a, prior, b);
    }
  }

  // ---- The lottery ----

  /** Lottery superblocks stay on the multiples of the cycle when the schedule changes. */
  lemma LotteryHeightsAreMultiples(p: Params, h: int)
    requires p.Valid()
    ensures IsLotteryHeight(p, h) <==> h % p.lotteryCycle == 0 && (h < TransitionHeight(p) ==> h >= p.lotteryStart)
  {
    var t, l := TransitionHeight(p), p.lotteryCycle;
    MultipleModulo(l, p.treasuryCycle);
    ShiftModulo(h, l, p.treasuryCycle);
  }

  lemma ShiftModulo(h: int, d: int, k: int)
    requires d > 0
    ensures (h - d * k) % d == h % d
  {
    var q, r := h / d, h % d;
    assert h == d * q + r;
    Distribute(q, -k, d);
    IntDivision(h - d * k, d, q - k, r);
  }

  ghost function LotteryShare(p: Params): int -> Amount { h => LegacySubsidy(p, h).lottery }

  lemma LotteryShareIs(p: Params, h: int)
    ensures LotteryShare(p)(h) == LegacySubsidy(p, h).lottery == if h >= FirstRegular(p) then LOTTERY_SHARE else 0
  {
  }

  /** A lottery payout is the sum of the lottery shares since the previous lottery superblock, whatever the halvings between. */
  lemma LotteryPayoutIsSum(p: Params, h: int)
    requires p.Valid() && h - p.lotteryCycle >= FirstRegular(p)
    ensures LotteryPayout(p, h) == SharesBetween(LotteryShare(p), h - p.lotteryCycle, h) == LOTTERY_SHARE * p.lotteryCycle
  {
    hide LegacySubsidy;
    var prior, b := h - p.lotteryCycle, h / p.halvingInterval * p.halvingInterval;
    forall g | prior <= g <= h ensures LotteryShare(p)(g) == LegacySubsidy(p, g).lottery == LOTTERY_SHARE { LotteryShareIs(p, g); }
    ConstantShares(LotteryShare(p), prior, h, LOTTERY_SHARE);
    Distribute(b - prior, h - b, LOTTERY_SHARE);
  }

  /** The first payout counts every height since the last halving, with or without a share. */
  lemma FirstLotteryPayout(p: Params, h: int)
    requires p.Valid() && h - p.lotteryCycle < FirstRegular(p) <= h
    ensures var b := h / p.halvingInterval * p.halvingInterval;
            && LotteryPayout(p, h) == LOTTERY_SHARE * (h - b)
            && LotteryPayout(p, h) == SharesBetween(LotteryShare(p), h - p.lotteryCycle, h) + LOTTERY_SHARE * (FirstRegular(p) - b)
  {
    hide LegacySubsidy;
    var prior, first := h - p.lotteryCycle, FirstRegular(p);
    forall g ensures LotteryShare(p)(g) == LegacySubsidy(p, g).lottery == if g >= first then LOTTERY_SHARE else 0 { LotteryShareIs(p, g); }
    ConstantShares(LotteryShare(p), prior, first, 0);
    ConstantShares(LotteryShare(p), first, h, LOTTERY_SHARE);
    SharesSplit(LotteryShare(p), prior, first, h);
  }

  /** All lottery payouts after height a and up to height b. */
  ghost function LotteryPaid(p: Params, a: int, b: int): Amount
    requires p.Valid() && a <= b
    decreases b - a
  {
    if a == b then 0 else LotteryPaid(p, a, b - 1) + Subsidy(p, b).lottery
  }

  lemma {:induction false} NoLotteryPaid(p: Params, a: int, b: int, c: int)
    requires p.Valid() && a <= b <= c && forall g :: b < g <= c ==> !IsLotteryHeight(p, g)
    ensures LotteryPaid(p, a, c) == LotteryPaid(p, a, b)
    decreases c - b
  {
    hide LegacySubsidy, FundPayout, LotteryPayout, IsLotteryHeight, IsTreasuryHeight;
    if b < c { NoLotteryPaid(p, a, b, c - 1); }
  }

  /** From one lottery superblock to another the payouts are one share for every block between. */
  lemma {:induction false} LotteryTelescopes(p: Params, a: int, b: int)
    requires p.Valid() && IsLotteryHeight(p, a) && IsLotteryHeight(p, b) && FirstRegular(p) <= a <= b
    ensures LotteryPaid(p, a, b) == LOTTERY_SHARE * (b - a)
    decreases b - a
  {
    hide LegacySubsidy, FundPayout, LotteryPayout, IsLotteryHeight, IsTreasuryHeight, Params.Valid;
    if a < b {
      PriorLottery(p, a, b);
      var prior := b - p.lotteryCycle;
      LotteryPayoutIsSum(p, b);
      LotteryTelescopes(p, a, prior);
      NoLotteryPaid(p, a, prior, b - 1);
    }
  }

  lemma PriorLottery(p: Params, a: int, b: int)
    requires p.Valid() && IsLotteryHeight(p, a) && IsLotteryHeight(p, b) && p.lotteryStart <= a < b
    ensures p.lotteryCycle > 0 && a <= b - p.lotteryCycle && IsLotteryHeight(p, b - p.lotteryCycle)
    ensures forall g :: b - p.lotteryCycle < g < b ==> !IsLotteryHeight(p, g)
  {
    forall g ensures IsLotteryHeight(p, g) <==> g % p.lotteryCycle == 0 && (g < TransitionHeight(p) ==> g >= p.lotteryStart) {
      LotteryHeightsAreMultiples(p, g);
    }
    PriorMultiple(b, p.lotteryCycle);
  }
}
