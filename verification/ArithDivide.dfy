/**
  Comparison, length in bits and long division of limb arrays.
 */
module ArithDivide {
  import opened Basics
  import opened Arithmetic
  import opened Limbs
  import opened ArithUint
  import opened ArithShift

  // ---- Comparison ----

  /** The highest limb that differs decides. */
  lemma HighestLimbDecides(a: seq<Limb>, b: seq<Limb>, i: nat)
    requires |a| == |b| && i < |a| && a[i + 1..] == b[i + 1..] && a[i] < b[i]
    ensures Value(a) < Value(b)
  {
    hide Value, Weight;
    ValueSplit(a, i + 1);
    ValueSplit(b, i + 1);
    ValueNext(a, i);
    ValueNext(b, i);
    ValueBound(a[..i]);
    Monotone(a[i] as int + 1, b[i], Weight(i));
    Distribute(a[i], 1, Weight(i));
  }

  /** Comparing the limbs for equality compares the values. */
  method Equal(a: array<Limb>, b: array<Limb>) returns (eq: bool)
    requires a.Length == b.Length
    ensures eq <==> Value(a[..]) == Value(b[..])
  {
    eq := a[..] == b[..];
    if Value(a[..]) == Value(b[..]) { ValueInjective(a[..], b[..]); }
  }

  method CompareTo(a: array<Limb>, b: array<Limb>) returns (c: int)
    requires a.Length == b.Length
    ensures c < 0 <==> Value(a[..]) < Value(b[..])
    ensures c > 0 <==> Value(a[..]) > Value(b[..])
    ensures c == 0 <==> Value(a[..]) == Value(b[..])
  {
    var i := a.Length - 1;
    while i >= 0
      invariant -1 <= i < a.Length && a[i + 1..] == b[i + 1..]
    {
      if a[i] < b[i] {
        HighestLimbDecides(a[..], b[..], i);
        return -1;
      }
      if a[i] > b[i] {
        HighestLimbDecides(b[..], a[..], i);
        return 1;
      }
      i := i - 1;
    }
    assert a[..] == b[..];
    return 0;
  }

  // ---- Length in bits ----

  /** The highest limb that is not zero, and its highest bit, give the length. */
  lemma TopBit(s: seq<Limb>, pos: nat, bits: nat)
    requires pos < |s| && (forall t :: pos < t < |s| ==> s[t] == 0) && Pow2(bits) <= s[pos] < Pow2(bits + 1)
    ensures Pow2(32 * pos + bits) <= Value(s) < Pow2(32 * pos + bits + 1)
  {
    hide Value, Weight, Pow2;
    ValueSplit(s, pos + 1);
    ValueZero(s[pos + 1..]);
    ValueNext(s, pos);
    ValueBound(s[..pos]);
    Monotone(Pow2(bits), s[pos], Weight(pos));
    Monotone(s[pos] as int + 1, Pow2(bits + 1), Weight(pos));
    Distribute(s[pos], 1, Weight(pos));
    WeightIsPow2(pos);
    Pow2Add(bits, 32 * pos);
    Pow2Add(bits + 1, 32 * pos);
  }

  method Bits(pn: array<Limb>) returns (n: nat)
    ensures n <= 32 * pn.Length
    ensures n == 0 <==> Value(pn[..]) == 0
    ensures n > 0 ==> Pow2(n - 1) <= Value(pn[..]) < Pow2(n)
  {
    hide Value, Weight, Pow2;
    var pos := pn.Length - 1;
    while pos >= 0
      invariant -1 <= pos < pn.Length && forall t :: pos < t < pn.Length ==> pn[t] == 0
    {
      if pn[pos] != 0 {
        assert pn[pos] < Pow2(32) by { Pow2Values(); }
        var bits := 31;
        while bits > 0
          invariant 0 <= bits <= 31 && pn[pos] < Pow2(bits + 1)
        {
          if pn[pos] / Pow2(bits) % 2 != 0 {   // the bit is set
            BitIsTop(pn[pos], bits);
            TopBit(pn[..], pos, bits);
            return 32 * pos + bits + 1;
          }
          BitIsClear(pn[pos], bits);
          bits := bits - 1;
        }
        assert Pow2(0) == 1 by { PowZero(); }
        TopBit(pn[..], pos, 0);
        return 32 * pos + 1;
      }
      pos := pos - 1;
    }
    ValueZero(pn[..]);
    return 0;
  }

  lemma BitIsTop(x: nat, bits: nat)
    requires x < Pow2(bits + 1) && x / Pow2(bits) % 2 != 0
    ensures Pow2(bits) <= x
  {
    if x < Pow2(bits) { DivisionIs(x, Pow2(bits), 0, x); }
  }

  lemma BitIsClear(x: nat, bits: nat)
    requires bits > 0 && x < Pow2(bits + 1) && x / Pow2(bits) % 2 == 0
    ensures x < Pow2(bits)
  {
    if x >= Pow2(bits) { DivisionIs(x, Pow2(bits), 1, x - Pow2(bits)); }
  }

  // ---- Division ----

  /** No bit below n is set. */
  ghost predicate LowBitsClear(s: seq<Limb>, n: nat)
  {
    forall t :: 0 <= t < |s| ==>
      && (32 * t + 32 <= n ==> s[t] == 0)
      && (32 * t < n < 32 * t + 32 ==> s[t] % Pow2(n - 32 * t) == 0)
  }

  /** Setting the bit just below: it meets no other bit. */
  lemma NextBit(s: seq<Limb>, n: nat)
    requires n < 32 * |s| && LowBitsClear(s, n + 1)
    ensures var t, b := n / 32, n % 32;
            && s[t] % Pow2(b + 1) == 0 && s[t] as int + Pow2(b) < BASE
            && LowBitsClear(s[t := s[t] as int + Pow2(b)], n) && LowBitsClear(s, n)
  {
    hide Pow2;
    var t, b := n / 32, n % 32;
    BitOfLimb(s, n);
    MultipleOfHalf(s[t], b);
    assert s[t := s[t]] == s;
  }

  lemma BitOfLimb(s: seq<Limb>, n: nat)
    requires n < 32 * |s| && LowBitsClear(s, n + 1)
    ensures var t, b := n / 32, n % 32; s[t] % Pow2(b + 1) == 0 && s[t] as int + Pow2(b) < BASE
  {
    hide Pow2;
    var t, b := n / 32, n % 32;
    assert n == 32 * t + b;
    if b == 31 {
      assert s[t] == 0;
      ZeroModulo(Pow2(32));
      PowTwice(31);
      Pow2Values();
    } else {
      assert s[t] % Pow2(b + 1) == 0;
      MultipleFits(s[t], b);
    }
  }

  lemma PowOne()
    ensures Pow2(1) == 2
  {
    assert Pow2(0) == 1;
  }

  lemma MultipleFits(x: Limb, b: nat)
    requires b < 31 && x % Pow2(b + 1) == 0
    ensures x as int + Pow2(b) < BASE
  {
    hide Pow2;
    var p, r := Pow2(b + 1), Pow2(31 - b);
    assert p * r == BASE by { Pow2Add(b + 1, 31 - b); Pow2Values(); }
    var h := x / p;
    assert x == h * p;
    if h >= r { Monotone(r, h, p); }
    Monotone(h + 1, r, p);
    Distribute(h, 1, p);
    assert p == Pow2(b) + Pow2(b) by { PowTwice(b); }
  }

  lemma PowTwice(b: nat)
    ensures Pow2(b + 1) == 2 * Pow2(b)
  {
  }

  lemma MultipleOfHalf(x: nat, b: nat)
    requires x % Pow2(b + 1) == 0
    ensures x % Pow2(b) == 0 && (x + Pow2(b)) % Pow2(b) == 0
  {
    var h := x / Pow2(b + 1);
    assert x == h * Pow2(b + 1);
    Associate(h, 2, Pow2(b));
    ModuloIs(x, Pow2(b), 2 * h, 0);
    Distribute(2 * h, 1, Pow2(b));
    ModuloIs(x + Pow2(b), Pow2(b), 2 * h + 1, 0);
  }

  method SetBit(pn: array<Limb>, n: nat)
    requires n < 32 * pn.Length && LowBitsClear(pn[..], n + 1)
    modifies pn
    ensures LowBitsClear(pn[..], n) && Value(pn[..]) == old(Value(pn[..])) + Pow2(n)
  {
    hide Value, Weight, Pow2;
    var t, b := n / 32, n % 32;
    ghost var s := pn[..];
    NextBit(s, n);
    ghost var h := pn[t] / Pow2(b + 1);
    assert pn[t] == h * Pow2(b + 1);
    assert Pow2(b) < Pow2(b + 1) by { PowTwice(b); }
    OrAssign(pn, t, Pow2(b), h, b + 1, Pow2(b));
    assert pn[..] == s[t := s[t] as int + Pow2(b)];
    ShiftSplit(n);
  }

  /** The numbers that go through the loop. */
  ghost predicate Dividing(x: nat, d: nat, num: nat, quotient: nat, shift: int)
  {
    shift >= -1 && x == quotient * d + num && num < d * Pow2(shift + 1)
  }

  lemma TakeAway(x: nat, d: nat, num: nat, quotient: nat, shift: nat)
    requires Dividing(x, d, num, quotient, shift)
    ensures num >= d * Pow2(shift) ==> Dividing(x, d, num - d * Pow2(shift), quotient + Pow2(shift), shift - 1)
    ensures num < d * Pow2(shift) ==> Dividing(x, d, num, quotient, shift - 1)
  {
    hide Pow2;
    PowTwice(shift);
    Associate(d, 2, Pow2(shift));
    Distribute(quotient, Pow2(shift), d);
  }

  lemma Aligned(x: nat, d: nat, nx: nat, nd: nat)
    requires 0 < nd <= nx && Pow2(nx - 1) <= x < Pow2(nx) && Pow2(nd - 1) <= d < Pow2(nd)
    ensures d * Pow2(nx - nd) < Pow2(nx) && x < d * Pow2(nx - nd + 1)
  {
    hide Pow2;
    var s := nx - nd;
    Pow2Add(nd, s);
    Monotone(d + 1, Pow2(nd), Pow2(s));
    Distribute(d, 1, Pow2(s));
    Pow2Add(nd - 1, s + 1);
    Monotone(Pow2(nd - 1), d, Pow2(s + 1));
  }

  lemma Halved(d: nat, shift: nat)
    requires shift > 0
    ensures d * Pow2(shift) / Pow2(1) == d * Pow2(shift - 1)
  {
    hide Pow2;
    PowOne();
    PowTwice(shift - 1);
    Associate(d, 2, Pow2(shift - 1));
    DivisionIs(d * Pow2(shift), 2, d * Pow2(shift - 1), 0);
  }

  /** Shorter than the divisor means smaller. */
  lemma Shorter(x: nat, d: nat, nx: nat, nd: nat)
    requires nx < nd && (nx == 0 ==> x == 0) && (nx > 0 ==> x < Pow2(nx)) && Pow2(nd - 1) <= d
    ensures x < d && x / d == 0 && x % d == x
  {
    Pow2Monotone(nx, nd - 1);
    DivisionIs(x, d, 0, x);
  }

  /** Division by zero is an error; otherwise the quotient and the remainder are those of the integers. */
  method DivAssign(pn: array<Limb>, b: array<Limb>) returns (ok: bool, num: array<Limb>)
    requires pn.Length == b.Length > 0
    modifies pn
    ensures ok <==> old(Value(b[..])) != 0
    ensures ok ==> && Value(pn[..]) == old(Value(pn[..])) / old(Value(b[..]))
                   && Value(num[..]) == old(Value(pn[..])) % old(Value(b[..]))
  {
    hide Value, Weight, Pow2;
    ghost var x, d := Value(pn[..]), Value(b[..]);
    var div := CopyOf(b);
    num := CopyOf(pn);
    Clear(pn);
    var numBits := Bits(num);
    var divBits := Bits(div);
    if divBits == 0 { return false, num; }
    if divBits > numBits {
      Shorter(x, d, numBits, divBits);
      return true, num;
    }
    var shift: int := numBits - divBits;
    Aligned(x, d, numBits, divBits);
    WidthBound(pn.Length, numBits);
    ShiftLeftAssign(div, shift);
    ModuloIs(d * Pow2(shift), Weight(pn.Length), 0, d * Pow2(shift));
    assert LowBitsClear(pn[..], shift + 1) by { AllClear(pn[..], shift + 1); }
    while shift >= 0
      invariant -1 <= shift < 32 * pn.Length && div.Length == num.Length == pn.Length
      invariant fresh(div) && fresh(num) && div != num && div != pn && num != pn
      invariant LowBitsClear(pn[..], shift + 1) && Dividing(x, d, Value(num[..]), Value(pn[..]), shift)
      invariant shift >= 0 ==> Value(div[..]) == d * Pow2(shift)
    {
      TakeAway(x, d, Value(num[..]), Value(pn[..]), shift);
      var c := CompareTo(num, div);
      if c >= 0 {
        Subtract(num, div);
        SetBit(pn, shift);
      } else {
        FewerBits(pn[..], shift);
      }
      if shift > 0 { Halved(d, shift); }
      ShiftRightAssign(div, 1);
      shift := shift - 1;
    }
    assert Pow2(0) == 1 by { PowZero(); }
    DivisionIs(x, d, Value(pn[..]), Value(num[..]));
    ok := true;
  }

  method Subtract(num: array<Limb>, div: array<Limb>)
    requires num.Length == div.Length > 0 && num != div && Value(div[..]) <= Value(num[..])
    modifies num
    ensures Value(num[..]) == old(Value(num[..])) - Value(div[..])
  {
    ghost var a, b, w := Value(num[..]), Value(div[..]), Weight(num.Length);
    ValueBound(num[..]);
    SubAssign(num, div);
    ModuloIs(a + w - b, w, 1, a - b);
  }

  lemma WidthBound(width: nat, n: nat)
    requires n <= 32 * width
    ensures Pow2(n) <= Weight(width)
  {
    WeightIsPow2(width);
    Pow2Monotone(n, 32 * width);
  }

  lemma AllClear(s: seq<Limb>, n: nat)
    requires forall t :: 0 <= t < |s| ==> s[t] == 0
    ensures LowBitsClear(s, n)
  {
    hide Pow2;
    forall t | 0 <= t < |s| && 32 * t < n < 32 * t + 32 ensures s[t] % Pow2(n - 32 * t) == 0 { ZeroModulo(Pow2(n - 32 * t)); }
  }

  lemma FewerBits(s: seq<Limb>, n: nat)
    requires n < 32 * |s| && LowBitsClear(s, n + 1)
    ensures LowBitsClear(s, n)
  {
    NextBit(s, n);
  }
}
