/**
  Numbers as little-endian sequences of 32-bit limbs: their value, and what updating, cutting and
  shifting limbs does to it.
 */
module Limbs {
  import opened Basics
  import opened Arithmetic

  const BASE := 0x1_0000_0000

  type Limb = x: int | 0 <= x < BASE

  /** The weight of the n-th limb. */
  function Weight(n: nat): (p: nat)
    ensures p > 0
  {
    if n == 0 then 1 else BASE * Weight(n - 1)
  }

  function Value(s: seq<Limb>): nat
  {
    if s == [] then 0 else Value(s[..|s| - 1]) + s[|s| - 1] * Weight(|s| - 1)
  }

  // ---- Powers ----

  lemma {:induction false} Pow2Add(a: nat, b: nat)
    ensures Pow2(a + b) == Pow2(a) * Pow2(b)
  {
    if a > 0 {
      Pow2Add(a - 1, b);
      Associate(2, Pow2(a - 1), Pow2(b));
    }
  }

  lemma Pow2Monotone(a: nat, b: nat)
    requires a <= b
    ensures Pow2(a) <= Pow2(b)
  {
    Pow2Add(a, b - a);
    Monotone(1, Pow2(b - a), Pow2(a));
  }

  lemma Pow2Values()
    ensures Pow2(8) == 256 && Pow2(16) == 65536 && Pow2(24) == 0x100_0000 && Pow2(32) == BASE
    ensures Pow2(15) == 0x8000 && Pow2(23) == 0x80_0000
  {
    assert Pow2(4) == 16;
    Pow2Add(4, 4);
    Pow2Add(8, 8);
    Pow2Add(16, 8);
    Pow2Add(16, 16);
    assert Pow2(16) == 2 * Pow2(15) && Pow2(24) == 2 * Pow2(23);
  }

  lemma {:induction false} WeightIsPow2(n: nat)
    ensures Weight(n) == Pow2(32 * n)
  {
    if n > 0 {
      WeightIsPow2(n - 1);
      Pow2Values();
      Pow2Add(32, 32 * (n - 1));
    }
  }

  lemma WeightAdd(a: nat, b: nat)
    ensures Weight(a + b) == Weight(a) * Weight(b)
  {
    WeightIsPow2(a);
    WeightIsPow2(b);
    WeightIsPow2(a + b);
    Pow2Add(32 * a, 32 * b);
  }

  lemma WeightNext(n: nat)
    ensures Weight(n + 1) == BASE * Weight(n)
  {
  }

  // ---- Values ----

  lemma ValueNext(s: seq<Limb>, n: nat)
    requires n < |s|
    ensures Value(s[..n + 1]) == Value(s[..n]) + s[n] * Weight(n)
  {
    assert s[..n + 1][..n] == s[..n];
  }

  lemma {:induction false} ValueBound(s: seq<Limb>)
    ensures Value(s) < Weight(|s|)
  {
    if s != [] {
      var n := |s| - 1;
      ValueBound(s[..n]);
      Monotone(s[n], BASE - 1, Weight(n));
      Distribute(BASE - 1, 1, Weight(n));
    }
  }

  lemma {:induction false} ValueSplit(s: seq<Limb>, n: nat)
    requires n <= |s|
    ensures Value(s) == Value(s[..n]) + Value(s[n..]) * Weight(n)
    decreases |s|
  {
    if n == |s| {
      assert s[..n] == s && s[n..] == [];
    } else {
      var m := |s| - 1;
      ValueSplit(s[..m], n);
      assert s[..m][..n] == s[..n] && s[n..][..m - n] == s[..m][n..];
      WeightAdd(n, m - n);
      Associate(s[m], Weight(n), Weight(m - n));
      Distribute(Value(s[..m][n..]), s[m] * Weight(m - n), Weight(n));
      Associate(s[m], Weight(m - n), Weight(n));
    }
  }

  lemma {:induction false} ValueUpdate(s: seq<Limb>, t: nat, x: Limb)
    requires t < |s|
    ensures Value(s[t := x]) == Value(s) + (x - s[t]) * Weight(t)
    decreases |s|
  {
    var n := |s| - 1;
    var s' := s[t := x];
    if t == n {
      assert s'[..n] == s[..n];
      Distribute(x - s[t], s[t], Weight(t));
    } else {
      assert s'[..n] == s[..n][t := x];
      ValueUpdate(s[..n], t, x);
    }
  }

  lemma {:induction false} ValueZero(s: seq<Limb>)
    requires forall i :: 0 <= i < |s| ==> s[i] == 0
    ensures Value(s) == 0
  {
    if s != [] { ValueZero(s[..|s| - 1]); }
  }

  lemma {:induction false} ZeroValue(s: seq<Limb>, i: nat)
    requires Value(s) == 0 && i < |s|
    ensures s[i] == 0
    decreases |s|
  {
    var n := |s| - 1;
    if s[n] > 0 { Monotone(1, s[n], Weight(n)); }
    if i < n { ZeroValue(s[..n], i); }
  }

  /** Equal values have equal limbs. */
  lemma {:induction false} ValueInjective(s: seq<Limb>, t: seq<Limb>)
    requires |s| == |t| && Value(s) == Value(t)
    ensures s == t
  {
    if s != [] {
      var n := |s| - 1;
      ValueBound(s[..n]);
      ValueBound(t[..n]);
      DivisionIs(Value(s), Weight(n), s[n], Value(s[..n]));
      DivisionIs(Value(s), Weight(n), t[n], Value(t[..n]));
      ValueInjective(s[..n], t[..n]);
      assert s == s[..n] + [s[n]] && t == t[..n] + [t[n]];
    }
  }

  // ---- Or on numbers whose bits do not meet ----

  function BitOr(x: nat, y: nat): nat
    decreases x + y
  {
    if x == 0 && y == 0 then 0 else
      2 * BitOr(x / 2, y / 2) + (if x % 2 == 1 || y % 2 == 1 then 1 else 0)
  }

  /** One bit of an or. */
  lemma OrStep(x: nat, y: nat, p: nat, q: nat)
    requires p <= 1 && q <= 1
    ensures BitOr(2 * x + p, 2 * y + q) == 2 * BitOr(x, y) + if p == 1 || q == 1 then 1 else 0
  {
    assert (2 * x + p) / 2 == x && (2 * x + p) % 2 == p;
    assert (2 * y + q) / 2 == y && (2 * y + q) % 2 == q;
  }

  lemma {:induction false} OrZero(x: nat)
    ensures BitOr(x, 0) == x && BitOr(0, x) == x
  {
    if x > 0 {
      hide BitOr;
      OrZero(x / 2);
      OrStep(x / 2, 0, x % 2, 0);
      OrStep(0, x / 2, 0, x % 2);
    }
  }

  /** High bits or low bits: the sum. */
  lemma {:induction false} OrDisjoint(h: nat, low: nat, s: nat)
    requires low < Pow2(s)
    ensures BitOr(h * Pow2(s), low) == h * Pow2(s) + low == BitOr(low, h * Pow2(s))
    decreases s
  {
    hide BitOr;
    if s == 0 {
      OrZero(h);
      assert h * Pow2(s) == h;
    } else {
      var x := h * Pow2(s - 1);
      Associate(h, 2, Pow2(s - 1));
      Monotone(0, h, Pow2(s - 1));
      OrDisjoint(h, low / 2, s - 1);
      OrStep(x, low / 2, 0, low % 2);
      OrStep(low / 2, x, low % 2, 0);
    }
  }
}
