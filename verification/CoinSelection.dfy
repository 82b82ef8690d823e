/**
  Choosing coins for a payment: exact small change, one large coin, or a random search for a small
  subset. Whatever the random draws are, the choice covers the target and is counted correctly.
 */
module CoinSelection {
  import opened Basics

  type Amount = int

  const CENT := 1_000_000
  const ITERATIONS := 1000

  /** An output of the wallet; the id tells outputs apart. */
  datatype Output = Output(id: nat, value: Amount, fSpendable: bool, nDepth: int)

  /** How deep an output must be buried, given what is asked of own and foreign transactions. */
  type Confirmations = (Output, int, int) -> int

  predicate Eligible(checker: Confirmations, mine: int, theirs: int, o: Output)
  {
    !(!o.fSpendable || o.nDepth < checker(o, mine, theirs))
  }

  // ---- Sums ----

  function Sum(s: seq<Output>): Amount { if s == [] then 0 else Sum(s[..|s| - 1]) + s[|s| - 1].value }

  function SumWhere(s: seq<Output>, mask: seq<bool>): Amount
    requires |mask| == |s|
  {
    if s == [] then 0 else SumWhere(s[..|s| - 1], mask[..|s| - 1]) + if mask[|s| - 1] then s[|s| - 1].value else 0
  }

  function Where(s: seq<Output>, mask: seq<bool>): seq<Output>
    requires |mask| == |s|
  {
    if s == [] then [] else Where(s[..|s| - 1], mask[..|s| - 1]) + if mask[|s| - 1] then [s[|s| - 1]] else []
  }

  lemma {:induction false} SumSnoc(s: seq<Output>, o: Output)
    ensures Sum(s + [o]) == Sum(s) + o.value
  {
    assert (s + [o])[..|s|] == s;
  }

  lemma {:induction false} SumConcat(a: seq<Output>, b: seq<Output>)
    ensures Sum(a + b) == Sum(a) + Sum(b)
  {
    if b == [] {
      assert a + b == a;
    } else {
      var n := |b| - 1;
      SumConcat(a, b[..n]);
      assert a + b == (a + b[..n]) + [b[n]];
      SumSnoc(a + b[..n], b[n]);
    }
  }

  lemma {:induction false} SumAll(s: seq<Output>, mask: seq<bool>)
    requires |mask| == |s| && forall i :: 0 <= i < |s| ==> mask[i]
    ensures SumWhere(s, mask) == Sum(s)
  {
    if s != [] { SumAll(s[..|s| - 1], mask[..|s| - 1]); }
  }

  lemma {:induction false} SumNone(s: seq<Output>, mask: seq<bool>)
    requires |mask| == |s| && forall i :: 0 <= i < |s| ==> !mask[i]
    ensures SumWhere(s, mask) == 0
  {
    if s != [] { SumNone(s[..|s| - 1], mask[..|s| - 1]); }
  }

  /** Setting or clearing one place changes the sum by that output. */
  lemma {:induction false} SumFlip(s: seq<Output>, mask: seq<bool>, i: nat)
    requires |mask| == |s| && i < |s| && !mask[i]
    ensures SumWhere(s, mask[i := true]) == SumWhere(s, mask) + s[i].value
  {
    var n := |s| - 1;
    if i < n {
      SumFlip(s[..n], mask[..n], i);
      assert mask[i := true][..n] == mask[..n][i := true];
    } else {
      assert mask[i := true][..n] == mask[..n];
    }
  }

  lemma {:induction false} SumOfWhere(s: seq<Output>, mask: seq<bool>)
    requires |mask| == |s|
    ensures Sum(Where(s, mask)) == SumWhere(s, mask)
  {
    if s != [] {
      var n := |s| - 1;
      SumOfWhere(s[..n], mask[..n]);
      if mask[n] { SumSnoc(Where(s[..n], mask[..n]), s[n]); } else { assert Where(s, mask) == Where(s[..n], mask[..n]); }
    }
  }

  // ---- The random search ----

  /** One more output tried: kept while the total stays below the target, noted when it is the best so far. */
  datatype Search = Search(included: seq<bool>, total: Amount, best: seq<bool>, bestTotal: Amount)

  ghost predicate SearchOk(coins: seq<Output>, target: Amount, s: Search)
  {
    && |s.included| == |coins| == |s.best|
    && s.total == SumWhere(coins, s.included)
    && s.bestTotal == SumWhere(coins, s.best) && s.bestTotal >= target
  }

  /** Overshooting by less than the value of some coin. */
  ghost predicate Near(coins: seq<Output>, target: Amount, total: Amount)
  {
    exists i :: 0 <= i < |coins| && total < target + coins[i].value
  }

  /** The coin stays only below the target; otherwise the total that reaches it is recorded if it is the best. */
  method TryCoin(coins: seq<Output>, target: Amount, s: Search, i: nat) returns (r: Search, reached: bool)
    requires SearchOk(coins, target, s) && i < |coins| && !s.included[i]
    ensures SearchOk(coins, target, r) && r.bestTotal <= s.bestTotal
    ensures reached <==> s.total + coins[i].value >= target
    ensures reached ==> r.included == s.included && r.bestTotal <= s.total + coins[i].value
    ensures !reached ==> r.included == s.included[i := true] && r.bestTotal == s.bestTotal
    ensures s.total < target ==> r.total < target && (reached ==> Near(coins, target, r.bestTotal))
  {
    SumFlip(coins, s.included, i);
    var total, included := s.total + coins[i].value, s.included[i := true];
    r := s.(included := included, total := total);
    reached := total >= target;
    if reached {
      if total < r.bestTotal { r := r.(bestTotal := total, best := included); }
      assert included[i := false] == s.included;
      r := r.(total := total - coins[i].value, included := included[i := false]);
    }
  }

  lemma StaysNear(coins: seq<Output>, target: Amount, total: Amount, less: Amount)
    requires Near(coins, target, total) && less <= total
    ensures Near(coins, target, less)
  {
  }

  /**
    The random bits are drawn one after the other from any sequence. The second pass of a repetition
    tries all coins that are left, so every repetition reaches the target.
   */
  method ApproximateSubset(coins: seq<Output>, initial: Amount, target: Amount, draws: nat -> bool, first: nat)
    returns (mask: seq<bool>, best: Amount, drawn: nat)
    requires initial == Sum(coins) >= target
    ensures |mask| == |coins| && best == SumWhere(coins, mask) && target <= best <= initial && drawn >= first
    ensures target > 0 && best != target ==> Near(coins, target, best)
  {
    var all := seq(|coins|, _ => true);
    SumAll(coins, all);
    SumNone(coins, seq(|coins|, _ => false));
    drawn := first;
    var s := Search(seq(|coins|, _ => false), 0, all, initial);
    var nRep := 0;
    while nRep < ITERATIONS && s.bestTotal != target
      invariant 0 <= nRep <= ITERATIONS && SearchOk(coins, target, s) && s.bestTotal <= initial && drawn >= first
      invariant target > 0 && nRep > 0 ==> Near(coins, target, s.bestTotal)
    {
      s := s.(included := seq(|coins|, _ => false), total := 0);
      var fReachedTarget := false;
      var nPass := 0;
      while nPass < 2 && !fReachedTarget
        invariant 0 <= nPass <= 2 && SearchOk(coins, target, s) && s.bestTotal <= initial && drawn >= first
        invariant nPass == 0 ==> forall k :: 0 <= k < |coins| ==> !s.included[k]
        invariant target > 0 ==> s.total < target && (fReachedTarget ==> Near(coins, target, s.bestTotal))
        invariant target > 0 && nPass == 2 ==> fReachedTarget
      {
        var i := 0;
        while i < |coins|
          invariant 0 <= i <= |coins| && SearchOk(coins, target, s) && s.bestTotal <= initial && drawn >= first
          invariant nPass == 0 ==> forall k :: i <= k < |coins| ==> !s.included[k]
          invariant target > 0 ==> s.total < target && (fReachedTarget ==> Near(coins, target, s.bestTotal))
          invariant nPass == 1 && !fReachedTarget ==> forall k :: 0 <= k < i ==> s.included[k]
        {
          var take := !s.included[i];
          if nPass == 0 { take, drawn := draws(drawn), drawn + 1; }
          if take {
            ghost var was := s.bestTotal;
            var reached;
            s, reached := TryCoin(coins, target, s, i);
            if target > 0 && fReachedTarget { StaysNear(coins, target, was, s.bestTotal); }
            if reached { fReachedTarget := true; }
          }
          i := i + 1;
        }
        if nPass == 1 && !fReachedTarget { SumAll(coins, s.included); }
        nPass := nPass + 1;
      }
      nRep := nRep + 1;
    }
    mask, best := s.best, s.bestTotal;
  }

  // ---- Sorting by value, largest first ----

  function Insert(o: Output, s: seq<Output>): seq<Output>
  {
    if s == [] || o.value >= s[0].value then [o] + s else [s[0]] + Insert(o, s[1..])
  }

  function Sorted(s: seq<Output>): seq<Output> { if s == [] then [] else Insert(s[|s| - 1], Sorted(s[..|s| - 1])) }

  ghost predicate Distinct(s: seq<Output>) { forall i, j :: 0 <= i < j < |s| ==> s[i] != s[j] }

  ghost predicate Descending(s: seq<Output>) { forall i, j :: 0 <= i < j < |s| ==> s[i].value >= s[j].value }

  lemma {:induction false} InsertIs(o: Output, s: seq<Output>)
    requires Distinct(s) && o !in s
    ensures Sum(Insert(o, s)) == Sum(s) + o.value && Distinct(Insert(o, s)) && |Insert(o, s)| == |s| + 1
    ensures forall x :: x in Insert(o, s) <==> x == o || x in s
  {
    if s == [] || o.value >= s[0].value {
      SumConcat([o], s);
      assert Sum([o]) == o.value;
    } else {
      var r := Insert(o, s[1..]);
      assert s == [s[0]] + s[1..];
      InsertIs(o, s[1..]);
      SumConcat([s[0]], r);
      SumConcat([s[0]], s[1..]);
      assert s[0] !in s[1..];
    }
  }

  lemma {:induction false} InsertDescends(o: Output, s: seq<Output>, high: Amount)
    requires Descending(s) && (forall i :: 0 <= i < |s| ==> s[i].value <= high) && o.value <= high
    ensures Descending(Insert(o, s)) && forall i :: 0 <= i < |Insert(o, s)| ==> Insert(o, s)[i].value <= high
  {
    if s != [] && o.value < s[0].value { InsertDescends(o, s[1..], s[0].value); }
  }

  lemma {:induction false} SortedIs(s: seq<Output>)
    requires Distinct(s)
    ensures Sum(Sorted(s)) == Sum(s) && Distinct(Sorted(s)) && |Sorted(s)| == |s|
    ensures forall x :: x in Sorted(s) <==> x in s
  {
    hide Insert;
    if s != [] {
      var n := |s| - 1;
      assert s == s[..n] + [s[n]] && s[n] !in s[..n];
      SortedIs(s[..n]);
      InsertIs(s[n], Sorted(s[..n]));
    }
  }

  lemma {:induction false} SortedDescends(s: seq<Output>)
    ensures Descending(Sorted(s))
  {
    if s != [] {
      var t, o := Sorted(s[..|s| - 1]), s[|s| - 1];
      SortedDescends(s[..|s| - 1]);
      InsertDescends(o, t, if t == [] || o.value > t[0].value then o.value else t[0].value);
    }
  }

  lemma {:induction false} WhereIs(s: seq<Output>, mask: seq<bool>)
    requires |mask| == |s| && Distinct(s)
    ensures Distinct(Where(s, mask)) && forall x <- Where(s, mask) :: x in s
  {
    if s != [] {
      var n := |s| - 1;
      WhereIs(s[..n], mask[..n]);
      assert s == s[..n] + [s[n]] && s[n] !in s[..n];
    }
  }

  // ---- The choice ----

  function EligibleOf(checker: Confirmations, mine: int, theirs: int, s: seq<Output>): seq<Output>
  {
    if s == [] then [] else
      EligibleOf(checker, mine, theirs, s[..|s| - 1]) + if Eligible(checker, mine, theirs, s[|s| - 1]) then [s[|s| - 1]] else []
  }

  /** Distinct outputs of positive value. */
  ghost predicate WalletOk(s: seq<Output>) { Distinct(s) && forall i :: 0 <= i < |s| ==> s[i].value > 0 }

  lemma {:induction false} EligibleOk(checker: Confirmations, mine: int, theirs: int, s: seq<Output>)
    requires WalletOk(s)
    ensures WalletOk(EligibleOf(checker, mine, theirs, s))
    ensures forall x :: x in EligibleOf(checker, mine, theirs, s) <==> x in s && x.fSpendable && x.nDepth >= checker(x, mine, theirs)
  {
    if s != [] {
      var n := |s| - 1;
      assert s == s[..n] + [s[n]] && s[n] !in s[..n];
      EligibleOk(checker, mine, theirs, s[..n]);
    }
  }

  method Filter(checker: Confirmations, mine: int, theirs: int, vCoins: seq<Output>) returns (r: seq<Output>)
    ensures r == EligibleOf(checker, mine, theirs, vCoins)
  {
    hide Eligible;
    r := [];
    for i := 0 to |vCoins|
      invariant r == EligibleOf(checker, mine, theirs, vCoins[..i])
    {
      assert vCoins[..i + 1][..i] == vCoins[..i];
      if Eligible(checker, mine, theirs, vCoins[i]) { r := r + [vCoins[i]]; }
    }
    assert vCoins[..|vCoins|] == vCoins;
  }

  // ---- The shuffle ----

  ghost predicate Rearranged(s: seq<Output>, r: seq<Output>) { |r| == |s| && Distinct(r) && forall x :: x in r <==> x in s }

  lemma SwapRearranges(s: seq<Output>, i: nat, j: nat)
    requires i < |s| && j < |s| && Distinct(s)
    ensures Rearranged(s, s[i := s[j]][j := s[i]])
  {
    var r := s[i := s[j]][j := s[i]];
    forall k, l | 0 <= k < l < |r| ensures r[k] != r[l] { }
    forall x ensures x in r <==> x in s {
      if x in s {
        var k :| 0 <= k < |s| && s[k] == x;
        assert r[if k == i then j else if k == j then i else k] == x;
      }
    }
  }

  /** Every element from the second on changes places with a random one up to itself. */
  method Shuffle(vCoins: seq<Output>, draws: nat -> nat) returns (r: seq<Output>)
    requires WalletOk(vCoins)
    ensures Rearranged(vCoins, r) && WalletOk(r)
  {
    r := vCoins;
    var i := 1;
    while i < |vCoins|
      invariant 1 <= i && Rearranged(vCoins, r)
    {
      var j := draws(i) % (i + 1);
      if i != j {
        SwapRearranges(r, i, j);
        r := r[i := r[j]][j := r[i]];
      }
      i := i + 1;
    }
    forall i | 0 <= i < |r| ensures r[i].value > 0 { assert r[i] in r && r[i] in vCoins; }
  }

  lemma FirstIsElement(b: seq<Output>)
    ensures b == [] || exists x :: x in b
  {
    if b != [] { assert b[0] in b; }
  }

  lemma WithoutOne(b: seq<Output>, i: nat)
    requires i < |b| && Distinct(b)
    ensures var c := b[..i] + b[i + 1..];
            Sum(b) == Sum(c) + b[i].value && Distinct(c) && forall x :: x in c <==> x in b && x != b[i]
  {
    var c := b[..i] + b[i + 1..];
    assert b == b[..i] + [b[i]] + b[i + 1..];
    SumConcat(b[..i], b[i + 1..]);
    SumConcat(b[..i] + [b[i]], b[i + 1..]);
    SumSnoc(b[..i], b[i]);
    hide Sum;
    forall x ensures x in c <==> x in b && x != b[i] {
      assert b[i] !in b[..i] && b[i] !in b[i + 1..];
    }
  }

  /** Sequences without repetition and with the same elements have the same sum. */
  lemma {:induction false} SameElementsSameSum(a: seq<Output>, b: seq<Output>)
    requires Distinct(a) && Distinct(b) && forall x :: x in a <==> x in b
    ensures Sum(a) == Sum(b)
    decreases |a|
  {
    if a == [] {
      FirstIsElement(b);
    } else {
      hide Sum, Distinct;
      var n := |a| - 1;
      assert a[n] in a;
      var i :| 0 <= i < |b| && b[i] == a[n];
      WithoutOne(a, n);
      WithoutOne(b, i);
      SameElementsSameSum(a[..n] + a[n + 1..], b[..i] + b[i + 1..]);
    }
  }

  /** The order of the coins does not matter to which are eligible and what they add up to. */
  lemma ShuffleKeepsEligible(checker: Confirmations, mine: int, theirs: int, s: seq<Output>, r: seq<Output>)
    requires WalletOk(s) && WalletOk(r) && Rearranged(s, r)
    ensures Sum(EligibleOf(checker, mine, theirs, r)) == Sum(EligibleOf(checker, mine, theirs, s))
    ensures forall x :: x in EligibleOf(checker, mine, theirs, r) <==> x in EligibleOf(checker, mine, theirs, s)
  {
    hide Eligible, EligibleOf, Sum;
    EligibleOk(checker, mine, theirs, s);
    EligibleOk(checker, mine, theirs, r);
    SameElementsSameSum(EligibleOf(checker, mine, theirs, r), EligibleOf(checker, mine, theirs, s));
  }

  /** The outputs below the target plus a cent, the others, and the smallest of those. */
  ghost predicate SplitOk(coins: seq<Output>, target: Amount, small: seq<Output>, large: seq<Output>, fallback: Option<Output>)
  {
    && Sum(coins) == Sum(small) + Sum(large) && Distinct(small) && Distinct(large)
    && (forall x :: x in small <==> x in coins && x.value < target + CENT)
    && (forall x :: x in large <==> x in coins && x.value >= target + CENT)
    && (fallback.None? <==> large == [])
    && (fallback.Some? ==> fallback.value in large && forall x <- large :: fallback.value.value <= x.value)
  }

  lemma SplitNext(coins: seq<Output>, target: Amount, small: seq<Output>, large: seq<Output>, fallback: Option<Output>, o: Output)
    requires SplitOk(coins, target, small, large, fallback) && o !in coins
    ensures o.value < target + CENT ==> SplitOk(coins + [o], target, small + [o], large, fallback)
    ensures o.value >= target + CENT ==>
              SplitOk(coins + [o], target, small, large + [o], if fallback.None? || o.value < fallback.value.value then Some(o) else fallback)
  {
    hide Sum;
    SumSnoc(coins, o);
    SumSnoc(small, o);
    SumSnoc(large, o);
  }

  method Split(coins: seq<Output>, target: Amount) returns (small: seq<Output>, total: Amount, fallback: Option<Output>, ghost large: seq<Output>)
    requires WalletOk(coins)
    ensures SplitOk(coins, target, small, large, fallback) && total == Sum(small)
  {
    hide Sum;
    small, total, fallback, large := [], 0, None, [];
    NoSum();
    assert coins[..0] == [];
    for i := 0 to |coins|
      invariant SplitOk(coins[..i], target, small, large, fallback) && total == Sum(small)
    {
      var o := coins[i];
      assert coins[..i + 1] == coins[..i] + [o] && o !in coins[..i];
      SplitNext(coins[..i], target, small, large, fallback, o);
      if o.value < target + CENT {
        SumSnoc(small, o);
        small, total := small + [o], total + o.value;
      } else {
        large := large + [o];
        if fallback.None? || o.value < fallback.value.value { fallback := Some(o); }
      }
    }
    assert coins[..|coins|] == coins;
  }

  /** One output is at most the sum, if all are positive. */
  lemma {:induction false} MemberAtMost(s: seq<Output>, x: Output)
    requires (forall o <- s :: o.value > 0) && x in s
    ensures x.value <= Sum(s)
  {
    var n := |s| - 1;
    assert s == s[..n] + [s[n]];
    if x in s[..n] { MemberAtMost(s[..n], x); } else { Positive(s[..n]); }
  }

  lemma {:induction false} Positive(s: seq<Output>)
    requires forall o <- s :: o.value > 0
    ensures Sum(s) >= 0
  {
    if s != [] {
      assert s[|s| - 1] in s && forall o <- s[..|s| - 1] :: o in s;
      Positive(s[..|s| - 1]);
    }
  }

  /** What a successful choice satisfies. */
  ghost predicate Covers(coins: seq<Output>, target: Amount, picked: seq<Output>, chosen: set<Output>, value: Amount)
  {
    && Distinct(picked) && (forall x <- picked :: x in coins) && chosen == (set x | x in picked)
    && Sum(picked) == value >= target
  }

  /**
    False exactly if all eligible coins together do not reach the target; otherwise the choice covers
    it. The change is none, or at least a cent unless the coins do not allow that, and it is never
    more than the smallest of the large coins would leave.
   */
  method SelectCoinsMinConf(checker: Confirmations, target: Amount, mine: int, theirs: int, vCoins: seq<Output>, order: nat -> nat,
                            draws: nat -> bool, first: nat)
    returns (ok: bool, chosen: set<Output>, nValueRet: Amount, ghost picked: seq<Output>, drawn: nat)
    requires WalletOk(vCoins)
    ensures ok <==> Sum(EligibleOf(checker, mine, theirs, vCoins)) >= target
    ensures ok ==> Covers(EligibleOf(checker, mine, theirs, vCoins), target, picked, chosen, nValueRet)
    ensures ok ==> nValueRet == target || nValueRet >= target + CENT || Sum(EligibleOf(checker, mine, theirs, vCoins)) < target + CENT
    ensures ok ==> forall x <- EligibleOf(checker, mine, theirs, vCoins) :: x.value >= target + CENT ==> nValueRet <= x.value
    ensures !ok ==> chosen == {} && nValueRet == 0
  {
    hide Eligible, EligibleOf, Sum, Sorted, SumWhere, Where;
    chosen, nValueRet, picked, drawn := {}, 0, [], first;
    var shuffled := Shuffle(vCoins, order);
    ShuffleKeepsEligible(checker, mine, theirs, vCoins, shuffled);
    var coins := Filter(checker, mine, theirs, shuffled);
    EligibleOk(checker, mine, theirs, shuffled);
    var small, total, fallback, large := Split(coins, target);
    assert fallback.None? ==> Sum(large) == 0 by { NoSum(); }
    if fallback.Some? {
      LargeSum(coins, target, small, large, fallback.value);
    }
    if total == target {
      chosen, nValueRet := CollectAll(small);
      return true, chosen, nValueRet, small, drawn;
    }
    if total < target {
      if fallback.None? { return false, chosen, nValueRet, picked, drawn; }
      SumOne(fallback.value);
      return true, {fallback.value}, fallback.value.value, [fallback.value], drawn;
    }
    var sorted := Sorted(small);
    SortedIs(small);
    var mask, best;
    mask, best, drawn := ApproximateSubset(sorted, total, target, draws, drawn);
    if best != target && total >= target + CENT {
      mask, best, drawn := ApproximateSubset(sorted, total, target + CENT, draws, drawn);
    }
    var bad := best != target && best < target + CENT;
    if fallback.Some? && (bad || fallback.value.value <= best) {
      SumOne(fallback.value);
      return true, {fallback.value}, fallback.value.value, [fallback.value], drawn;
    }
    WhereIs(sorted, mask);
    SumOfWhere(sorted, mask);
    chosen, nValueRet := Collect(sorted, mask);
    return true, chosen, nValueRet, Where(sorted, mask), drawn;
  }

  lemma NoSum()
    ensures Sum([]) == 0
  {
  }

  lemma SumOne(o: Output)
    ensures Sum([o]) == o.value
  {
    assert [o][..0] == [];
  }

  lemma LargeSum(coins: seq<Output>, target: Amount, small: seq<Output>, large: seq<Output>, x: Output)
    requires WalletOk(coins) && SplitOk(coins, target, small, large, Some(x))
    ensures Sum(coins) >= x.value >= target + CENT && x in coins && Sum(coins) >= Sum(small)
  {
    hide Sum;
    MemberAtMost(large, x);
    Positive(small);
    Positive(large);
  }

  method CollectAll(s: seq<Output>) returns (chosen: set<Output>, value: Amount)
    ensures chosen == (set x | x in s) && value == Sum(s)
  {
    chosen, value := {}, 0;
    for i := 0 to |s|
      invariant chosen == (set x | x in s[..i]) && value == Sum(s[..i])
    {
      assert s[..i + 1] == s[..i] + [s[i]];
      chosen, value := chosen + {s[i]}, value + s[i].value;
    }
    assert s[..|s|] == s;
  }

  method Collect(s: seq<Output>, mask: seq<bool>) returns (chosen: set<Output>, value: Amount)
    requires |mask| == |s|
    ensures chosen == (set x | x in Where(s, mask)) && value == SumWhere(s, mask)
  {
    chosen, value := {}, 0;
    for i := 0 to |s|
      invariant chosen == (set x | x in Where(s[..i], mask[..i])) && value == SumWhere(s[..i], mask[..i])
    {
      assert s[..i + 1][..i] == s[..i] && mask[..i + 1][..i] == mask[..i];
      if mask[i] { chosen, value := chosen + {s[i]}, value + s[i].value; }
    }
    assert s[..|s|] == s && mask[..|s|] == mask;
  }

  /**
    Coins confirmed by the network first, then coins confirmed once, then, if allowed, own coins that
    are not confirmed: the choice is made among the coins of the first attempt that suffices.
   */
  method SelectCoins(checker: Confirmations, target: Amount, vCoins: seq<Output>, allowZeroConf: bool,
                     orders: nat -> nat -> nat, draws: nat -> bool)
    returns (chosen: set<Output>, ghost picked: seq<Output>)
    requires WalletOk(vCoins) && target > 0
    ensures chosen == {} <==>
              && Sum(EligibleOf(checker, 1, 6, vCoins)) < target
              && Sum(EligibleOf(checker, 1, 1, vCoins)) < target
              && (allowZeroConf ==> Sum(EligibleOf(checker, 0, 1, vCoins)) < target)
    ensures if Sum(EligibleOf(checker, 1, 6, vCoins)) >= target then
              Covers(EligibleOf(checker, 1, 6, vCoins), target, picked, chosen, Sum(picked))
            else if Sum(EligibleOf(checker, 1, 1, vCoins)) >= target then
              Covers(EligibleOf(checker, 1, 1, vCoins), target, picked, chosen, Sum(picked))
            else if allowZeroConf && Sum(EligibleOf(checker, 0, 1, vCoins)) >= target then
              Covers(EligibleOf(checker, 0, 1, vCoins), target, picked, chosen, Sum(picked))
            else chosen == {}
  {
    hide Eligible, EligibleOf, Sum;
    EligibleOk(checker, 1, 6, vCoins);
    EligibleOk(checker, 1, 1, vCoins);
    EligibleOk(checker, 0, 1, vCoins);
    NoSum();
    var ok, value, drawn;
    ok, chosen, value, picked, drawn := SelectCoinsMinConf(checker, target, 1, 6, vCoins, orders(0), draws, 0);
    if !ok {
      ok, chosen, value, picked, drawn := SelectCoinsMinConf(checker, target, 1, 1, vCoins, orders(1), draws, drawn);
    }
    if !ok && allowZeroConf {
      ok, chosen, value, picked, drawn := SelectCoinsMinConf(checker, target, 0, 1, vCoins, orders(2), draws, drawn);
    }
    if !ok { chosen := {}; } else { assert picked[0] in chosen; }
  }
}
