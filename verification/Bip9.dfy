/**
  Activation of deployments by version bits. The tracker walks back over periods to a block whose
  state it has cached and computes forward from there, caching only changes. The reference is the
  recursion over all periods.
 */
module Bip9 {
  import opened Basics
  import opened Arithmetic
  import opened BlockTree
  import opened MedianTime

  datatype ThresholdState = DEFINED | STARTED | LOCKED_IN | ACTIVE | FAILED

  const ALWAYS_ACTIVE := -1

  datatype Deployment = Deployment(bit: nat, nStartTime: int, nTimeout: int, nPeriod: nat, threshold: int) {
    predicate Viable() { !(nStartTime > nTimeout || nPeriod < threshold) }
  }

  /** The version announces version bits, and the bit of the deployment is among them. */
  function SignaledBy(bip: Deployment, nVersion: int): bool
  {
    var u := nVersion % 0x1_0000_0000;
    u / 0x2000_0000 == 1 && u / Pow2(bip.bit) % 2 != 0
  }

  predicate Signals(bip: Deployment, b: BlockIndex) { SignaledBy(bip, b.nVersion) }

  /** A version signals exactly if its top three bits are 001 and the bit of the deployment is one of its binary digits. */
  lemma SignalIff(bip: Deployment, nVersion: nat)
    requires nVersion < 0x1_0000_0000
    ensures SignaledBy(bip, nVersion)
       <==> 0x2000_0000 <= nVersion < 0x4000_0000 && exists high: nat, low: nat :: IsDigit(bip, nVersion, high, low)
  {
    var p := Pow2(bip.bit);
    var q, low := nVersion / p, nVersion % p;
    assert nVersion == q * p + low;
    hide Pow2;
    assert nVersion % 0x1_0000_0000 == nVersion;
    if q % 2 == 1 {
      var high := q / 2;
      Distribute(2 * high, 1, p);
      assert IsDigit(bip, nVersion, high, low);
    }
    forall high: nat, low: nat | IsDigit(bip, nVersion, high, low) ensures q % 2 == 1 {
      Distribute(2 * high, 1, p);
      DivisionIs(nVersion, p, 2 * high + 1, low);
    }
  }

  ghost predicate IsDigit(bip: Deployment, n: nat, high: nat, low: nat)
  {
    n == 2 * high * Pow2(bip.bit) + Pow2(bip.bit) + low && low < Pow2(bip.bit)
  }

  // ---- The reference ----

  /** How many of the last n blocks signal. */
  ghost function SignalCount(bip: Deployment, b: BlockIndex?, n: nat): (c: nat)
    requires b != null ==> Rooted(b)
    ensures c <= n
  {
    if b == null || n == 0 then 0 else SignalCount(bip, b.pprev, n - 1) + if Signals(bip, b) then 1 else 0
  }

  ghost predicate LocksIn(bip: Deployment, b: BlockIndex?)
    requires b != null ==> Rooted(b)
  {
    SignalCount(bip, b, bip.nPeriod) >= bip.threshold
  }

  /** The state of the period that starts with block b, from the state of the period before. */
  ghost function Transition(bip: Deployment, state: ThresholdState, b: BlockIndex): ThresholdState
    requires Rooted(b)
  {
    match state
    case DEFINED =>
      if MedianTimePast(b) >= bip.nTimeout then FAILED else if MedianTimePast(b) >= bip.nStartTime then STARTED else DEFINED
    case STARTED =>
      if MedianTimePast(b) >= bip.nTimeout then FAILED else if LocksIn(bip, b.pprev) then LOCKED_IN else STARTED
    case LOCKED_IN => ACTIVE
    case FAILED => FAILED
    case ACTIVE => ACTIVE
  }

  /** The first block of the period before, if there is one. */
  ghost function Before(bip: Deployment, b: BlockIndex): (p: BlockIndex?)
    requires Rooted(b) && bip.nPeriod > 0
    ensures p != null ==> Rooted(p) && p.nHeight == b.nHeight - bip.nPeriod
    ensures p == null <==> b.nHeight < bip.nPeriod
  {
    if b.nHeight < bip.nPeriod then null else Ancestor(b, b.nHeight - bip.nPeriod)
  }

  ghost function StateOf(bip: Deployment, b: BlockIndex?): ThresholdState
    requires bip.nPeriod > 0 && (b != null ==> Rooted(b))
    decreases if b == null then 0 else b.nHeight + 1
  {
    if b == null then DEFINED else Transition(bip, StateOf(bip, Before(bip, b)), b)
  }

  /** The first block of the period of b. */
  ghost function PeriodStart(bip: Deployment, b: BlockIndex): (p: BlockIndex)
    requires Rooted(b) && bip.nPeriod > 0
    ensures Rooted(p) && p.nHeight == b.nHeight - b.nHeight % bip.nPeriod
  {
    Ancestor(b, b.nHeight - b.nHeight % bip.nPeriod)
  }

  // ---- What the reference guarantees ----

  /** Before the start time every period is DEFINED, however far back the recursion goes. */
  lemma {:induction false} DefinedBeforeStart(bip: Deployment, b: BlockIndex, tree: set<BlockIndex>)
    requires TimesOk(tree) && b in tree && Rooted(b) && bip.nPeriod > 0 && bip.Viable() && MedianTimePast(b) < bip.nStartTime
    requires Closed(tree)
    ensures StateOf(bip, b) == DEFINED
    decreases b.nHeight
  {
    hide MedianTimePast, TimesOk;
    var p := Before(bip, b);
    if p != null {
      MedianNeverDecreases(b, p.nHeight, tree);
      AncestorStays(b, p.nHeight, tree);
      DefinedBeforeStart(bip, p, tree);
    }
  }

  ghost predicate Closed(tree: set<BlockIndex>) { forall b <- tree :: Rooted(b) && (b.pprev != null ==> b.pprev in tree) }

  lemma {:induction false} AncestorStays(b: BlockIndex, h: int, tree: set<BlockIndex>)
    requires Closed(tree) && b in tree && Rooted(b) && 0 <= h <= b.nHeight
    ensures Ancestor(b, h) in tree
    decreases b.nHeight
  {
    if h < b.nHeight { AncestorStays(b.pprev, h, tree); }
  }

  /** n periods back. */
  ghost function PeriodsBack(bip: Deployment, b: BlockIndex?, n: nat): (p: BlockIndex?)
    requires bip.nPeriod > 0 && (b != null ==> Rooted(b))
    ensures p != null ==> Rooted(p)
  {
    if n == 0 || b == null then b else PeriodsBack(bip, Before(bip, b), n - 1)
  }

  /** ACTIVE and FAILED last for all later periods of the branch. */
  lemma {:induction false} FinalStatesLast(bip: Deployment, b: BlockIndex?, n: nat)
    requires bip.nPeriod > 0 && (b != null ==> Rooted(b))
    requires StateOf(bip, PeriodsBack(bip, b, n)) in {ACTIVE, FAILED}
    ensures StateOf(bip, b) == StateOf(bip, PeriodsBack(bip, b, n))
    decreases n
  {
    hide MedianTimePast, LocksIn;
    if n > 0 && b != null { FinalStatesLast(bip, Before(bip, b), n - 1); }
  }

  /** LOCKED_IN lasts one period, and is entered from STARTED after a period at the threshold and before the timeout. */
  lemma LockedInOnce(bip: Deployment, b: BlockIndex)
    requires Rooted(b) && bip.nPeriod > 0
    ensures StateOf(bip, Before(bip, b)) == LOCKED_IN ==> StateOf(bip, b) == ACTIVE
    ensures StateOf(bip, b) == LOCKED_IN ==>
              && b.nHeight >= bip.nPeriod && StateOf(bip, Before(bip, b)) == STARTED
              && LocksIn(bip, b.pprev) && MedianTimePast(b) < bip.nTimeout
  {
    hide MedianTimePast, LocksIn;
  }

  /** An active deployment was locked in some periods ago. */
  lemma {:induction false} ActiveWasLockedIn(bip: Deployment, b: BlockIndex) returns (n: nat)
    requires Rooted(b) && bip.nPeriod > 0 && StateOf(bip, b) == ACTIVE
    ensures n > 0
    ensures var q := PeriodsBack(bip, b, n);
            q != null && StateOf(bip, q) == LOCKED_IN && StateOf(bip, Before(bip, q)) == STARTED && LocksIn(bip, q.pprev)
    decreases b.nHeight
  {
    hide MedianTimePast, LocksIn;
    var p := Before(bip, b);
    if StateOf(bip, p) == LOCKED_IN {
      LockedInOnce(bip, p);
      n := 1;
      assert PeriodsBack(bip, p, 0) == p;
    } else {
      var k := ActiveWasLockedIn(bip, p);
      n := k + 1;
    }
  }

  ghost function SignalHeights(bip: Deployment, b: BlockIndex, n: nat): set<int>
    requires Rooted(b)
  {
    set h | 0 <= h <= b.nHeight && b.nHeight - n < h && Signals(bip, Ancestor(b, h))
  }

  /** The walk counts the signals of exactly the last n heights. */
  lemma {:induction false} CountIsOfHeights(bip: Deployment, b: BlockIndex, n: nat)
    requires Rooted(b)
    ensures SignalCount(bip, b, n) == |SignalHeights(bip, b, n)|
    decreases n
  {
    hide SignaledBy;
    if n == 0 {
      assert SignalHeights(bip, b, 0) == {};
    } else if b.pprev == null {
      assert SignalHeights(bip, b, n) == if Signals(bip, b) then {0} else {};
    } else {
      CountIsOfHeights(bip, b.pprev, n - 1);
      var below := SignalHeights(bip, b.pprev, n - 1);
      assert SignalHeights(bip, b, n) == if Signals(bip, b) then below + {b.nHeight as int} else below;
    }
  }

  // ---- The tracker ----

  type Cache = map<BlockIndex?, ThresholdState>

  /** Every cached state is the state of the reference. */
  ghost predicate CacheOk(bip: Deployment, cache: Cache, tree: set<BlockIndex>)
    requires bip.nPeriod > 0 && Closed(tree)
  {
    forall b <- cache :: (b != null ==> b in tree) && cache[b] == StateOf(bip, b)
  }

  /** Going back from b, no change is missed before the first cached block. */
  ghost predicate UpToDate(bip: Deployment, cache: Cache, b: BlockIndex?)
    requires bip.nPeriod > 0 && (b != null ==> Rooted(b))
    decreases if b == null then 0 else b.nHeight + 1
  {
    b in cache || b == null || (StateOf(bip, b) == StateOf(bip, Before(bip, b)) && UpToDate(bip, cache, Before(bip, b)))
  }

  lemma {:induction false} UpToDateGrows(bip: Deployment, cache: Cache, more: Cache, b: BlockIndex?)
    requires bip.nPeriod > 0 && (b != null ==> Rooted(b)) && UpToDate(bip, cache, b) && cache.Keys <= more.Keys
    ensures UpToDate(bip, more, b)
    decreases if b == null then 0 else b.nHeight + 1
  {
    if b !in cache && b != null { UpToDateGrows(bip, cache, more, Before(bip, b)); }
  }

  /** A list of period starts, each the one before its predecessor in the list. */
  ghost predicate WalkOk(bip: Deployment, list: seq<BlockIndex?>, tree: set<BlockIndex>)
    requires bip.nPeriod > 0 && Closed(tree)
  {
    && list != []
    && (forall i :: 0 <= i < |list| && list[i] != null ==> list[i] in tree)
    && (forall i :: 0 <= i < |list| - 1 ==> list[i] != null && list[i + 1] == Before(bip, list[i]))
  }

  method EnoughSignals(bip: Deployment, end: BlockIndex?) returns (enough: bool)
    requires end != null ==> Rooted(end)
    ensures enough == LocksIn(bip, end)
  {
    hide SignaledBy;
    var p, blocksCounted, count := end, 0, 0;
    while p != null && blocksCounted < bip.nPeriod
      invariant 0 <= blocksCounted <= bip.nPeriod && (p != null ==> Rooted(p))
      invariant count + SignalCount(bip, p, bip.nPeriod - blocksCounted) == SignalCount(bip, end, bip.nPeriod)
    {
      if Signals(bip, p) { count := count + 1; }
      p, blocksCounted := p.pprev, blocksCounted + 1;
    }
    enough := count >= bip.threshold;
  }

  method ComputeStateTransition(bip: Deployment, state: ThresholdState, b: BlockIndex) returns (next: ThresholdState)
    requires Rooted(b)
    ensures next == Transition(bip, state, b)
  {
    hide MedianTimePast, LocksIn;
    next := state;
    if state == DEFINED {
      var time := GetMedianTimePast(b);
      next := if time >= bip.nTimeout then FAILED else if time >= bip.nStartTime then STARTED else DEFINED;
    } else if state == STARTED {
      var time := GetMedianTimePast(b);
      if time >= bip.nTimeout {
        next := FAILED;
      } else {
        var enough := EnoughSignals(bip, b.pprev);
        next := if enough then LOCKED_IN else STARTED;
      }
    } else if state == LOCKED_IN {
      next := ACTIVE;
    }
  }

  class CachedTracker {
    const bip: Deployment
    var cache: Cache

    constructor (bip: Deployment)
      ensures this.bip == bip && cache == map[]
    {
      this.bip := bip;
      cache := map[];
    }

    ghost predicate Valid(tree: set<BlockIndex>)
      reads this, tree
    {
      bip.nPeriod > 0 && Closed(tree) && SkipsOk(tree) && TimesOk(tree) && (bip.Viable() ==> CacheOk(bip, cache, tree))
    }

    method MostRecentStart(b: BlockIndex, ghost tree: set<BlockIndex>) returns (p: BlockIndex)
      requires Valid(tree) && b in tree
      ensures p in tree && p == PeriodStart(bip, b)
    {
      hide TimesOk, CacheOk;
      p := b.GetAncestor(b.nHeight - b.nHeight % bip.nPeriod, tree);
    }

    /** Walks back over periods to a cached one, to the beginning, or to one before the start time. */
    method StartingBlocks(start: BlockIndex?, ghost tree: set<BlockIndex>) returns (list: seq<BlockIndex?>)
      requires Valid(tree) && (start != null ==> start in tree)
      modifies this
      ensures Valid(tree) && WalkOk(bip, list, tree) && list[0] == start
      ensures cache.Keys == old(cache.Keys) + if start == null then {} else {list[|list| - 1]}
      ensures forall i :: 0 <= i < |list| - 1 ==> list[i] !in old(cache)
    {
      hide TimesOk, SkipsOk, StateOf, Closed, MedianTimePast, Deployment.Viable;
      list := [start];
      while list[|list| - 1] != null && list[|list| - 1] !in cache
        invariant Valid(tree) && WalkOk(bip, list, tree) && list[0] == start && cache == old(cache)
        invariant forall i :: 0 <= i < |list| - 1 ==> list[i] !in cache
        invariant start != null ==> |list| == 1 || list[|list| - 1] != null
        decreases if list[|list| - 1] == null then 0 else list[|list| - 1].nHeight + 1
      {
        var current := list[|list| - 1];
        InClosed(current, tree);
        var predecessor := current.GetAncestor(current.nHeight - bip.nPeriod, tree);
        assert predecessor == Before(bip, current);
        list := list + [predecessor];
        if predecessor == null {
          StateOfNull(bip);
          cache := cache[null := DEFINED];
          return;
        }
        InClosed(predecessor, tree);
        var time := GetMedianTimePast(predecessor);
        if time < bip.nStartTime {
          if predecessor in cache { return; }
          if bip.Viable() { DefinedBeforeStart(bip, predecessor, tree); }
          cache := cache[predecessor := DEFINED];
          return;
        }
      }
    }

    /** Computes the states from the last cached period forward, and caches those that change. */
    method Update(b: BlockIndex?, ghost tree: set<BlockIndex>)
      requires Valid(tree) && (b != null ==> b in tree)
      modifies this
      ensures Valid(tree) && old(cache.Keys) <= cache.Keys
      ensures bip.Viable() && bip.nStartTime != ALWAYS_ACTIVE && b != null ==> Rooted(b) && UpToDate(bip, cache, PeriodStart(bip, b))
    {
      hide TimesOk, SkipsOk, StateOf, Closed, Deployment.Viable, Transition, PeriodStart;
      if bip.nStartTime == ALWAYS_ACTIVE { return; }
      var start: BlockIndex? := null;
      if b != null {
        InClosed(b, tree);
        start := MostRecentStart(b, tree);
      }
      var list := StartingBlocks(start, tree);
      var i := |list| - 1;
      if i == 0 { return; }
      var lastKnownState := cache[list[i]];
      if list[i] != null { InClosed(list[i], tree); }
      while i > 0
        invariant 0 <= i < |list| && Valid(tree) && old(cache.Keys) <= cache.Keys && (list[i] != null ==> list[i] in tree)
        invariant bip.Viable() ==> (list[i] != null ==> Rooted(list[i])) && lastKnownState == StateOf(bip, list[i]) && UpToDate(bip, cache, list[i])
      {
        var block: BlockIndex := list[i - 1];
        InClosed(block, tree);
        if !bip.Viable() {
          if lastKnownState != FAILED { cache := cache[block := FAILED]; }
          return;
        }
        var next := ComputeStateTransition(bip, lastKnownState, block);
        StateOfNext(bip, block);
        ghost var before := cache;
        if next != lastKnownState { cache := cache[block := next]; }
        UpToDateGrows(bip, before, cache, list[i]);
        lastKnownState := next;
        i := i - 1;
      }
    }

    /** The state of the last cached period, which is the state of the block's own period once it has been updated. */
    method LastCachedState(b: BlockIndex?, ghost tree: set<BlockIndex>) returns (state: ThresholdState)
      requires Valid(tree) && (b != null ==> b in tree)
      modifies this
      ensures Valid(tree) && old(cache.Keys) <= cache.Keys
      ensures bip.nStartTime == ALWAYS_ACTIVE ==> state == ACTIVE
      ensures bip.nStartTime != ALWAYS_ACTIVE && !bip.Viable() ==> state == FAILED
      ensures bip.nStartTime != ALWAYS_ACTIVE && (bip.nStartTime > bip.nTimeout || bip.nPeriod < bip.threshold) ==> state == FAILED
      ensures bip.nStartTime != ALWAYS_ACTIVE && bip.Viable() && b == null ==> state == DEFINED
      ensures bip.nStartTime != ALWAYS_ACTIVE && bip.Viable() && b != null ==>
                && Rooted(b)
                && (exists n :: state == StateOf(bip, PeriodsBack(bip, PeriodStart(bip, b), n)))
                && (UpToDate(bip, old(cache), PeriodStart(bip, b)) ==> state == StateOf(bip, PeriodStart(bip, b)))
    {
      assert !bip.Viable() <==> bip.nStartTime > bip.nTimeout || bip.nPeriod < bip.threshold;
      hide TimesOk, SkipsOk, StateOf, Closed, Deployment.Viable, PeriodStart, PeriodsBack, UpToDate;
      if bip.nStartTime == ALWAYS_ACTIVE { return ACTIVE; }
      if !bip.Viable() { return FAILED; }
      if b == null { return DEFINED; }
      InClosed(b, tree);
      var start := MostRecentStart(b, tree);
      var list := StartingBlocks(start, tree);
      var n := |list| - 1;
      state := cache[list[n]];
      WalkGoesBack(bip, list, tree, n);
      if UpToDate(bip, old(cache), start) { SameStateAlongWalk(bip, old(cache), list, tree, n); }
    }

    /** A block that is entered takes nothing away from the cache. */
    lemma ValidGrows(b: BlockIndex, tree: set<BlockIndex>)
      requires Valid(tree) && CanEnter(b, tree)
      ensures Valid(tree + {b})
    {
      hide StateOf, MedianTimePast, Ancestor, GetSkipHeight;
    }

    /**
      After an update of a block, and whatever calls come after it while the tree grows, the query
      gives the state of the reference.
     */
    method UpdateRunQuery(b: BlockIndex, calls: seq<Call>, ghost tree: set<BlockIndex>) returns (state: ThresholdState)
      requires Valid(tree) && b in tree && bip.Viable() && bip.nStartTime != ALWAYS_ACTIVE
      requires forall i :: 0 <= i < |calls| ==> CallOk(calls[i], TreeAfter(tree, calls[..i]))
      modifies this
      ensures Valid(TreeAfter(tree, calls)) && Rooted(b) && state == StateOf(bip, PeriodStart(bip, b))
    {
      hide TimesOk, SkipsOk, StateOf, Closed, Deployment.Viable, PeriodStart, UpToDate, CacheOk, Valid, CanEnter;
      assert bip.nPeriod > 0 by { PeriodPositive(tree); }
      Update(b, tree);
      for i := 0 to |calls|
        invariant Valid(TreeAfter(tree, calls[..i])) && b in TreeAfter(tree, calls[..i]) && UpToDate(bip, cache, PeriodStart(bip, b))
      {
        ghost var before, now := cache, TreeAfter(tree, calls[..i]);
        assert CallOk(calls[i], now);
        TreeAfterNext(tree, calls, i);
        match calls[i] {
          case Updating(block) => Update(block, now);
          case Querying(block) => var _ := LastCachedState(block, now);
          case Entering(block) => ValidGrows(block, now);
        }
        UpToDateGrows(bip, before, cache, PeriodStart(bip, b));
      }
      assert calls[..|calls|] == calls;
      state := LastCachedState(b, TreeAfter(tree, calls));
    }

    lemma PeriodPositive(tree: set<BlockIndex>)
      requires Valid(tree)
      ensures bip.nPeriod > 0
    {
    }
  }

  datatype Call = Updating(block: BlockIndex?) | Querying(block: BlockIndex?) | Entering(block: BlockIndex?)

  /** Under a parent in the tree, with its skip pointer built and a time past the median of its parent. */
  ghost predicate CanEnter(b: BlockIndex, tree: set<BlockIndex>)
    reads b
  {
    && Rooted(b)
    && (b.pprev != null ==> && b.pprev in tree && b.pskip == Ancestor(b.pprev, GetSkipHeight(b.nHeight))
                            && b.nTime > MedianTimePast(b.pprev))
  }

  ghost predicate CallOk(call: Call, tree: set<BlockIndex>)
    reads call.block
  {
    if call.Entering? then call.block != null && CanEnter(call.block, tree) else call.block == null || call.block in tree
  }

  /** The tree with the blocks that the calls have entered. */
  ghost function TreeAfter(tree: set<BlockIndex>, calls: seq<Call>): set<BlockIndex>
  {
    if calls == [] then tree else
      var t, call := TreeAfter(tree, calls[..|calls| - 1]), calls[|calls| - 1];
      if call.Entering? && call.block != null then t + {call.block} else t
  }

  lemma TreeAfterNext(tree: set<BlockIndex>, calls: seq<Call>, i: nat)
    requires i < |calls|
    ensures var t, call := TreeAfter(tree, calls[..i]), calls[i];
            TreeAfter(tree, calls[..i + 1]) == if call.Entering? && call.block != null then t + {call.block} else t
  {
    assert calls[..i + 1][..i] == calls[..i];
  }

  lemma StateOfNext(bip: Deployment, b: BlockIndex)
    requires bip.nPeriod > 0 && Rooted(b)
    ensures StateOf(bip, b) == Transition(bip, StateOf(bip, Before(bip, b)), b)
  {
    hide Transition;
  }

  lemma {:induction false} SameStateAlongWalk(bip: Deployment, cache: Cache, list: seq<BlockIndex?>, tree: set<BlockIndex>, i: nat)
    requires bip.nPeriod > 0 && Closed(tree) && WalkOk(bip, list, tree) && i < |list|
    requires forall k :: 0 <= k < |list| - 1 ==> list[k] !in cache
    requires UpToDate(bip, cache, list[0])
    ensures (list[i] != null ==> Rooted(list[i])) && UpToDate(bip, cache, list[i]) && StateOf(bip, list[i]) == StateOf(bip, list[0])
  {
    hide StateOf;
    if i > 0 { SameStateAlongWalk(bip, cache, list, tree, i - 1); }
  }

  lemma {:induction false} WalkGoesBack(bip: Deployment, list: seq<BlockIndex?>, tree: set<BlockIndex>, i: nat)
    requires bip.nPeriod > 0 && Closed(tree) && WalkOk(bip, list, tree) && i < |list|
    ensures (list[0] != null ==> Rooted(list[0])) && PeriodsBack(bip, list[0], i) == list[i]
    decreases i
  {
    if i > 0 {
      assert WalkOk(bip, list[1..], tree);
      WalkGoesBack(bip, list[1..], tree, i - 1);
    }
  }

  lemma InClosed(b: BlockIndex, tree: set<BlockIndex>)
    requires Closed(tree) && b in tree
    ensures Rooted(b)
  {
  }

  lemma StateOfNull(bip: Deployment)
    requires bip.nPeriod > 0
    ensures StateOf(bip, null) == DEFINED
  {
  }
}
