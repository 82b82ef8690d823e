/**
  Shifts of limb arrays, bit by bit across limbs.
 */
module ArithShift {
  import opened Basics
  import opened Arithmetic
  import opened Limbs

  /** A limb shifted left: what stays and what goes into the next limb. */
  lemma LimbLeft(x: Limb, s: nat)
    requires s < 32
    ensures x * Pow2(s) == (x * Pow2(s)) % BASE + BASE * (x / Pow2(32 - s))
    ensures (x * Pow2(s)) % BASE == (x % Pow2(32 - s)) * Pow2(s)
    ensures x / Pow2(32 - s) < Pow2(s) && (x * Pow2(s)) % BASE < BASE
    ensures s == 0 ==> x / Pow2(32 - s) == 0
  {
    hide Pow2;
    var p, r := Pow2(s), Pow2(32 - s);
    assert p * r == BASE by { Pow2Add(s, 32 - s); Pow2Values(); }
    TwoParts(x, r, p, x / r, x % r);
    if s == 0 { assert r == BASE by { Pow2Values(); } DivisionIs(x, BASE, 0, x); }
  }

  /** A limb split at a bit, and multiplied so that the upper part leaves the limb. */
  lemma TwoParts(x: Limb, d: nat, m: nat, h: nat, low: nat)
    requires d * m == BASE && d > 0 && m > 0 && x == h * d + low && low < d
    ensures (x * m) % BASE == low * m < BASE && x * m == low * m + BASE * h && h < m
  {
    Distribute(h * d, low, m);
    Associate(h, d, m);
    Monotone(low + 1, d, m);
    Distribute(low, 1, m);
    DivisionIs(x * m, BASE, h, low * m);
    if h >= m { Monotone(m, h, d); }
  }

  lemma ShiftSplit(shift: nat)
    ensures Pow2(shift) == Pow2(shift % 32) * Weight(shift / 32)
  {
    WeightIsPow2(shift / 32);
    Pow2Add(shift % 32, 32 * (shift / 32));
  }

  /** The weight that limb i has after a shift. */
  lemma ShiftedWeight(x: nat, i: nat, s: nat, k: nat)
    ensures x * Weight(i) * (Pow2(s) * Weight(k)) == x * Pow2(s) * Weight(i + k)
  {
    hide Weight, Pow2;
    WeightAdd(i, k);
    Associate(x * Weight(i), Pow2(s), Weight(k));
    Associate(x * Pow2(s), Weight(i), Weight(k));
  }

  method CopyOf(pn: array<Limb>) returns (a: array<Limb>)
    ensures fresh(a) && a[..] == pn[..] && a.Length == pn.Length
  {
    a := new Limb[pn.Length](i requires 0 <= i < pn.Length reads pn => pn[i]);
  }

  method Clear(pn: array<Limb>)
    modifies pn
    ensures Value(pn[..]) == 0 && forall t :: 0 <= t < pn.Length ==> pn[t] == 0
  {
    for i := 0 to pn.Length
      invariant forall t :: 0 <= t < i ==> pn[t] == 0
    {
      pn[i] := 0;
    }
    ValueZero(pn[..]);
  }

  /** An or of bits that do not meet adds their value. */
  method OrAssign(pn: array<Limb>, t: nat, x: Limb, ghost h: nat, ghost s: nat, ghost low: nat)
    requires t < pn.Length && low < Pow2(s) && pn[t] as int + x as int < BASE
    requires (pn[t] == low && x == h * Pow2(s)) || (pn[t] == h * Pow2(s) && x == low)
    modifies pn
    ensures pn[t] == old(pn[t]) + x && forall i :: 0 <= i < pn.Length && i != t ==> pn[i] == old(pn[i])
    ensures Value(pn[..]) == old(Value(pn[..])) + x * Weight(t)
  {
    OrDisjoint(h, low, s);
    ghost var a := pn[..];
    pn[t] := BitOr(pn[t], x);
    ValueUpdate(a, t, pn[t]);
    assert pn[..] == a[t := pn[t]];
  }

  // ---- Left ----

  /** What one limb contributes, inside the array and past its end. */
  lemma LeftStep(a: seq<Limb>, i: nat, s: nat, k: nat, width: nat, v: nat, q: nat) returns (q': nat)
    requires i < |a| && s < 32
    requires v + q * Weight(width) == Value(a[..i]) * (Pow2(s) * Weight(k))
    ensures v + (if i + k + 1 < width then a[i] / Pow2(32 - s) * Weight(i + k + 1) else 0)
              + (if i + k < width then (a[i] * Pow2(s)) % BASE * Weight(i + k) else 0)
              + q' * Weight(width)
         == Value(a[..i + 1]) * (Pow2(s) * Weight(k))
  {
    hide Value, Weight, Pow2;
    LeftValue(a, i, s, k);
    LeftLimb(a[i], s, i + k);
    var low, high := (a[i] * Pow2(s)) % BASE, a[i] / Pow2(32 - s);
    if i + k + 1 < width {
      q' := q;
    } else if i + k + 1 == width {
      q' := q + high;
      Distribute(q, high, Weight(width));
    } else {
      q' := PastTheEnd(a[i] * Pow2(s), i + k - width, width, q);
    }
  }

  /** The next limb in the shifted sum. */
  lemma LeftValue(a: seq<Limb>, i: nat, s: nat, k: nat)
    requires i < |a|
    ensures Value(a[..i + 1]) * (Pow2(s) * Weight(k)) == Value(a[..i]) * (Pow2(s) * Weight(k)) + a[i] * Pow2(s) * Weight(i + k)
  {
    hide Value, Weight, Pow2;
    ValueNext(a, i);
    Distribute(Value(a[..i]), a[i] * Weight(i), Pow2(s) * Weight(k));
    ShiftedWeight(a[i], i, s, k);
  }

  lemma LeftLimb(x: Limb, s: nat, t: nat)
    requires s < 32
    ensures x * Pow2(s) * Weight(t) == (x * Pow2(s)) % BASE * Weight(t) + x / Pow2(32 - s) * Weight(t + 1)
    ensures x / Pow2(32 - s) >= 0 && x * Pow2(s) >= 0
  {
    hide Weight, Pow2;
    LimbLeft(x, s);
    WeightNext(t);
  }

  lemma PastTheEnd(x: nat, t: nat, width: nat, q: nat) returns (q': nat)
    ensures q' * Weight(width) == q * Weight(width) + x * Weight(t + width)
  {
    hide Weight;
    Monotone(0, x, Weight(t));
    q' := q + x * Weight(t);
    WeightAdd(t, width);
    Associate(x, Weight(t), Weight(width));
    Distribute(q, x * Weight(t), Weight(width));
  }

  /** The two halves of a shifted limb, or as much of them as fits. */
  method PutLeft(pn: array<Limb>, x: Limb, i: nat, k: nat, shift: nat)
    requires shift < 32
    requires forall t :: i + k < t < pn.Length ==> pn[t] == 0
    requires i + k < pn.Length ==> pn[i + k] < Pow2(shift)
    modifies pn
    ensures forall t :: i + k + 1 < t < pn.Length ==> pn[t] == 0
    ensures i + k + 1 < pn.Length ==> pn[i + k + 1] < Pow2(shift)
    ensures Value(pn[..]) == old(Value(pn[..]))
      + (if i + k + 1 < pn.Length then x / Pow2(32 - shift) * Weight(i + k + 1) else 0)
      + (if i + k < pn.Length then (x * Pow2(shift)) % BASE * Weight(i + k) else 0)
  {
    hide Value, Weight, Pow2;
    LimbLeft(x, shift);
    var low, high := (x * Pow2(shift)) % BASE, x / Pow2(32 - shift);
    if i + k + 1 < pn.Length && shift != 0 {
      OrAssign(pn, i + k + 1, high, 0, shift, high);
    }
    if i + k < pn.Length {
      LowFits(x, shift, pn[i + k]);
      OrAssign(pn, i + k, low, x % Pow2(32 - shift), shift, pn[i + k]);
    }
  }

  method ShiftLeftAssign(pn: array<Limb>, amount: nat)
    modifies pn
    ensures Value(pn[..]) == (old(Value(pn[..])) * Pow2(amount)) % Weight(pn.Length)
  {
    hide Value, Weight, Pow2;
    var a := CopyOf(pn);
    ghost var c := a[..];
    Clear(pn);
    var k, shift := amount / 32, amount % 32;
    ghost var q: nat := 0;
    assert Value(c[..0]) == 0 && Pow2(shift) > 0 by { Nothing(c); }
    var i := 0;
    while i < pn.Length
      invariant 0 <= i <= pn.Length && a[..] == c && q >= 0
      invariant forall t :: i + k < t < pn.Length ==> pn[t] == 0
      invariant i + k < pn.Length ==> pn[i + k] < Pow2(shift)
      invariant Value(pn[..]) + q * Weight(pn.Length) == Value(c[..i]) * (Pow2(shift) * Weight(k))
    {
      q := LeftStep(c, i, shift, k, pn.Length, Value(pn[..]), q);
      PutLeft(pn, a[i], i, k, shift);
      i := i + 1;
    }
    assert c[..i] == c;
    ShiftSplit(amount);
    ValueBound(pn[..]);
    ModuloIs(Value(c) * Pow2(amount), Weight(pn.Length), q, Value(pn[..]));
  }

  lemma Nothing(c: seq<Limb>)
    ensures Value(c[..0]) == 0
  {
  }

  lemma LowFits(x: Limb, s: nat, low: nat)
    requires s < 32 && low < Pow2(s)
    ensures low + (x * Pow2(s)) % BASE < BASE
  {
    hide Pow2;
    LimbLeft(x, s);
    var p, r := Pow2(s), Pow2(32 - s);
    assert p * r == BASE by { Pow2Add(s, 32 - s); Pow2Values(); }
    Monotone(x % r + 1, r, p);
    Distribute(x % r, 1, p);
  }

  // ---- Right ----

  lemma LimbRight(x: Limb, s: nat)
    requires s < 32
    ensures x == x / Pow2(s) * Pow2(s) + x % Pow2(s)
    ensures (x * Pow2(32 - s)) % BASE == (x % Pow2(s)) * Pow2(32 - s)
    ensures x / Pow2(s) < Pow2(32 - s) <= BASE && 0 <= x % Pow2(s) < Pow2(s)
    ensures s == 0 ==> x % Pow2(s) == 0
  {
    hide Pow2;
    var p, r := Pow2(s), Pow2(32 - s);
    assert p * r == BASE by { Pow2Add(s, 32 - s); Pow2Values(); }
    TwoParts(x, p, r, x / p, x % p);
    Monotone(1, p, r);
    if s == 0 { assert p == 1 by { PowZero(); } }
  }

  lemma PowZero()
    ensures Pow2(0) == 1
  {
  }

  /** What one limb contributes to the result and, at the cut, to what is dropped. */
  lemma RightStep(a: seq<Limb>, i: nat, s: nat, k: nat, v: nat, d: nat) returns (d': nat)
    requires i < |a| && s < 32
    requires Value(a[..i]) == v * (Pow2(s) * Weight(k)) + d
    requires (i <= k ==> d == Value(a[..i])) && (i > k ==> d < Pow2(s) * Weight(k))
    ensures (i < k ==> d' == Value(a[..i + 1])) && (i >= k ==> d' < Pow2(s) * Weight(k))
    ensures Value(a[..i + 1]) == (v + (if i > k then a[i] % Pow2(s) * Pow2(32 - s) * Weight(i - k - 1) else 0)
                                    + (if i >= k then a[i] / Pow2(s) * Weight(i - k) else 0)) * (Pow2(s) * Weight(k)) + d'
  {
    hide Value, Weight, Pow2;
    var low, high, m := a[i] % Pow2(s), a[i] / Pow2(s), Pow2(s) * Weight(k);
    RightValue(a, i, s);
    DroppedBound(a, i, s, k, d);
    Monotone(0, low, Weight(k));
    Monotone(0, a[i], Weight(i));
    d' := if i > k then d else if i == k then d + low * Weight(k) else d + a[i] * Weight(i);
    if i >= k {
      ShiftedWeight(high, i - k, s, k);
      Distribute(v, high * Weight(i - k), m);
    }
    if i > k {
      LowPart(low, i, s, k);
      Distribute(v + low * Pow2(32 - s) * Weight(i - k - 1), high * Weight(i - k), m);
      Distribute(v, low * Pow2(32 - s) * Weight(i - k - 1), m);
    }
  }

  lemma RightValue(a: seq<Limb>, i: nat, s: nat)
    requires i < |a| && s < 32
    ensures Value(a[..i + 1]) == Value(a[..i]) + a[i] / Pow2(s) * Pow2(s) * Weight(i) + a[i] % Pow2(s) * Weight(i)
    ensures Value(a[..i + 1]) == Value(a[..i]) + a[i] * Weight(i)
    ensures a[i] / Pow2(s) >= 0 && a[i] % Pow2(s) >= 0
  {
    hide Value, Weight, Pow2;
    LimbRight(a[i], s);
    ValueNext(a, i);
    Distribute(a[i] / Pow2(s) * Pow2(s), a[i] % Pow2(s), Weight(i));
  }

  /** The low bits of a limb, moved to the top of the limb below. */
  lemma LowPart(low: nat, i: nat, s: nat, k: nat)
    requires s < 32 && i > k
    ensures low * Pow2(32 - s) * Weight(i - k - 1) * (Pow2(s) * Weight(k)) == low * Weight(i)
  {
    hide Weight, Pow2;
    Monotone(0, low, Pow2(32 - s));
    ShiftedWeight(low * Pow2(32 - s), i - k - 1, s, k);
    assert Pow2(32 - s) * Pow2(s) == BASE by { Pow2Add(32 - s, s); Pow2Values(); }
    Associate(low, Pow2(32 - s), Pow2(s));
    WeightNext(i - 1);
    Associate(low, BASE, Weight(i - 1));
  }

  /** What is dropped stays below the divisor. */
  lemma DroppedBound(a: seq<Limb>, i: nat, s: nat, k: nat, d: nat)
    requires i < |a| && s < 32
    ensures i < k && d == Value(a[..i]) ==> d + a[i] * Weight(i) == Value(a[..i + 1])
    ensures i == k && d == Value(a[..i]) ==> d + a[i] % Pow2(s) * Weight(k) < Pow2(s) * Weight(k)
  {
    hide Value, Weight, Pow2;
    ValueNext(a, i);
    ValueBound(a[..i]);
    LimbRight(a[i], s);
    var low := a[i] % Pow2(s);
    Monotone(low + 1, Pow2(s), Weight(k));
    Distribute(low, 1, Weight(k));
  }

  /** The two parts of a limb, or-ed into the limbs that they belong to. */
  method PutParts(pn: array<Limb>, low: Limb, high: Limb, i: nat, k: nat, shift: nat, ghost h: nat)
    requires shift < 32 && i < pn.Length && low == h * Pow2(32 - shift) && high < Pow2(32 - shift) && (shift == 0 ==> low == 0)
    requires forall t :: 0 <= t < pn.Length && t >= i - k ==> pn[t] == 0
    requires i > k ==> pn[i - k - 1] < Pow2(32 - shift) && pn[i - k - 1] as int + low as int < BASE
    modifies pn
    ensures forall t :: 0 <= t < pn.Length && t >= i + 1 - k ==> pn[t] == 0
    ensures i >= k ==> pn[i - k] == high
    ensures Value(pn[..]) == old(Value(pn[..])) + (if i > k then low * Weight(i - k - 1) else 0) + (if i >= k then high * Weight(i - k) else 0)
  {
    hide Value, Weight, Pow2;
    if i - k - 1 >= 0 && shift != 0 {
      OrAssign(pn, i - k - 1, low, h, 32 - shift, pn[i - k - 1]);
    }
    if i - k >= 0 {
      OrAssign(pn, i - k, high, 0, 32 - shift, high);
    }
  }

  method PutRight(pn: array<Limb>, x: Limb, i: nat, k: nat, shift: nat)
    requires shift < 32 && i < pn.Length
    requires forall t :: 0 <= t < pn.Length && t >= i - k ==> pn[t] == 0
    requires i > k ==> pn[i - k - 1] < Pow2(32 - shift)
    modifies pn
    ensures forall t :: 0 <= t < pn.Length && t >= i + 1 - k ==> pn[t] == 0
    ensures i >= k ==> pn[i - k] < Pow2(32 - shift)
    ensures Value(pn[..]) == old(Value(pn[..]))
      + (if i > k then x % Pow2(shift) * Pow2(32 - shift) * Weight(i - k - 1) else 0)
      + (if i >= k then x / Pow2(shift) * Weight(i - k) else 0)
  {
    hide Value, Weight, Pow2;
    LimbRight(x, shift);
    if i > k { HighFits(x, shift, pn[i - k - 1]); }
    var low, high := (x * Pow2(32 - shift)) % BASE, x / Pow2(shift);
    QuotientAtMost(x, Pow2(shift));
    PutParts(pn, low, high, i, k, shift, x % Pow2(shift));
  }

  method ShiftRightAssign(pn: array<Limb>, amount: nat)
    modifies pn
    ensures Value(pn[..]) == old(Value(pn[..])) / Pow2(amount)
  {
    hide Value, Weight, Pow2;
    var a := CopyOf(pn);
    ghost var c := a[..];
    Clear(pn);
    var k, shift := amount / 32, amount % 32;
    ghost var d: nat := 0;
    assert Value(c[..0]) == 0 by { Nothing(c); }
    var i := 0;
    while i < pn.Length
      invariant 0 <= i <= pn.Length && a[..] == c && d >= 0
      invariant forall t :: 0 <= t < pn.Length && t >= i - k ==> pn[t] == 0
      invariant i > k ==> pn[i - k - 1] < Pow2(32 - shift) && d < Pow2(shift) * Weight(k)
      invariant i <= k ==> d == Value(c[..i])
      invariant Value(c[..i]) == Value(pn[..]) * (Pow2(shift) * Weight(k)) + d
    {
      d := RightStep(c, i, shift, k, Value(pn[..]), d);
      PutRight(pn, a[i], i, k, shift);
      i := i + 1;
    }
    assert c[..i] == c;
    ShiftSplit(amount);
    if i <= k { SmallRemainder(c, k, shift); }
    DivisionIs(Value(c), Pow2(amount), Value(pn[..]), d);
  }

  lemma HighFits(x: Limb, s: nat, low: nat)
    requires s < 32 && low < Pow2(32 - s)
    ensures low + (x * Pow2(32 - s)) % BASE < BASE
  {
    hide Pow2;
    LimbRight(x, s);
    var p, r := Pow2(s), Pow2(32 - s);
    assert p * r == BASE by { Pow2Add(s, 32 - s); Pow2Values(); }
    Monotone(x % p + 1, p, r);
    Distribute(x % p, 1, r);
  }

  lemma SmallRemainder(c: seq<Limb>, k: nat, s: nat)
    requires |c| <= k
    ensures Value(c) < Pow2(s) * Weight(k)
  {
    ValueBound(c);
    WeightIsPow2(|c|);
    WeightIsPow2(k);
    Pow2Monotone(32 * |c|, 32 * k);
    Monotone(1, Pow2(s), Weight(k));
  }
}
