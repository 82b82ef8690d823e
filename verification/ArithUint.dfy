/**
  Arithmetic on arrays of 32-bit limbs, of any width, in place: every operation computes what the
  integers say, modulo the weight of the array, and no 64-bit intermediate overflows.
 */
module ArithUint {
  import opened Arithmetic
  import opened Limbs

  const WORD64 := BASE * BASE

  // ---- Addition ----

  /** One step of a carry chain, on the values. */
  lemma CarryStep(low: nat, carry: nat, sum: nat, digit: nat, limb: nat, carry': nat, w: nat)
    requires low + carry * w == sum && digit + carry == limb + BASE * carry'
    ensures low + limb * w + carry' * (BASE * w) == sum + digit * w
  {
    Distribute(digit, carry, w);
    Distribute(limb, BASE * carry', w);
    Associate(carry', BASE, w);
  }

  method AddAssign(pn: array<Limb>, b: array<Limb>)
    requires pn.Length == b.Length
    modifies pn
    ensures Value(pn[..]) == (old(Value(pn[..])) + old(Value(b[..]))) % Weight(pn.Length)
  {
    hide Value, Weight;
    ghost var a, c := pn[..], b[..];
    var carry := 0;
    assert Value(a[..0]) == 0 && Weight(0) == 1 by { NoLimbs(a); }
    assert Value(c[..0]) == 0 by { NoLimbs(c); }
    assert Value(pn[..0]) == 0 by { NoLimbs(pn[..]); }
    var i := 0;
    while i < pn.Length
      invariant 0 <= i <= pn.Length && 0 <= carry <= 1
      invariant forall k :: i <= k < pn.Length ==> pn[k] == a[k] && b[k] == c[k]
      invariant Value(pn[..i]) + carry * Weight(i) == Value(a[..i]) + Value(c[..i])
    {
      var n := carry + pn[i] + b[i];
      assert 0 <= n < WORD64;
      ghost var before := pn[..i];
      pn[i] := n % BASE;
      assert pn[..i] == before && pn[..i + 1] == before + [n % BASE];
      CarryStep(Value(before), carry, Value(a[..i]) + Value(c[..i]), a[i] as int + c[i] as int, n % BASE, n / BASE, Weight(i));
      SnocValue(before, n % BASE);
      ValueNext(a, i);
      ValueNext(c, i);
      WeightNext(i);
      Distribute(a[i], c[i], Weight(i));
      carry := n / BASE;
      i := i + 1;
    }
    assert pn[..i] == pn[..] && a[..i] == a && c[..i] == c;
    ValueBound(pn[..]);
    ModuloIs(Value(a) + Value(c), Weight(i), carry, Value(pn[..]));
  }

  lemma NoLimbs(s: seq<Limb>)
    ensures Value(s[..0]) == 0 && Weight(0) == 1
  {
  }

  lemma SnocValue(s: seq<Limb>, x: Limb)
    ensures Value(s + [x]) == Value(s) + x * Weight(|s|)
  {
    assert (s + [x])[..|s|] == s;
  }

  // ---- Negation and subtraction ----

  /** Increment: the first limb that does not wrap stops the carry. */
  method Increment(pn: array<Limb>)
    requires pn.Length > 0
    modifies pn
    ensures Value(pn[..]) == (old(Value(pn[..])) + 1) % Weight(pn.Length)
  {
    hide Value, Weight;
    ghost var a := pn[..];
    assert Weight(0) == 1 by { NoLimbs(a); }
    var i := 0;
    LimbStep(a, 0);
    pn[0] := (pn[0] + 1) % BASE;
    assert pn[..] == a[0 := pn[0]];
    while pn[i] == 0 && i < pn.Length - 1
      invariant 0 <= i < pn.Length
      invariant Value(pn[..]) + (if pn[i] == 0 then Weight(i + 1) else 0) == Value(a) + 1
    {
      ghost var before := pn[..];
      i := i + 1;
      LimbStep(before, i);
      pn[i] := (pn[i] + 1) % BASE;
      assert pn[..] == before[i := pn[i]];
    }
    ValueBound(pn[..]);
    ModuloIs(Value(a) + 1, Weight(pn.Length), if pn[i] == 0 then 1 else 0, Value(pn[..]));
  }

  lemma LimbStep(s: seq<Limb>, i: nat)
    requires i < |s|
    ensures var x := (s[i] + 1) % BASE;
            Value(s[i := x]) + (if x == 0 then Weight(i + 1) else 0) == Value(s) + Weight(i)
  {
    hide Value;
    var x := (s[i] + 1) % BASE;
    ValueUpdate(s, i, x);
    if x == 0 { Distribute(1, -BASE, Weight(i)); }
  }

  lemma {:induction false} ValueOfNot(s: seq<Limb>, t: seq<Limb>)
    requires |t| == |s| && forall i :: 0 <= i < |s| ==> t[i] == BASE - 1 - s[i]
    ensures Value(t) == Weight(|s|) - 1 - Value(s)
  {
    if s != [] {
      var n := |s| - 1;
      ValueOfNot(s[..n], t[..n]);
      Distribute(BASE - 1, -(s[n] as int), Weight(n));
      Distribute(BASE, -1, Weight(n));
    }
  }

  /** Unary minus: all bits flipped, plus one. */
  method Negated(b: array<Limb>) returns (ret: array<Limb>)
    requires b.Length > 0
    ensures fresh(ret) && ret.Length == b.Length
    ensures Value(ret[..]) == (Weight(b.Length) - Value(b[..])) % Weight(b.Length)
  {
    ret := new Limb[b.Length](_ => 0);
    for i := 0 to b.Length
      invariant forall k :: 0 <= k < i ==> ret[k] == BASE - 1 - b[k]
    {
      ret[i] := BASE - 1 - b[i];
    }
    ValueOfNot(b[..], ret[..]);
    Increment(ret);
  }

  method SubAssign(pn: array<Limb>, b: array<Limb>)
    requires pn.Length == b.Length > 0
    modifies pn
    ensures Value(pn[..]) == (old(Value(pn[..])) + Weight(pn.Length) - old(Value(b[..]))) % Weight(pn.Length)
  {
    ghost var a := Value(pn[..]);
    ValueBound(b[..]);
    ghost var w, v := Weight(pn.Length), Value(b[..]);
    var minus := Negated(b);
    AddAssign(pn, minus);
    AddModulo(a, w - v, w);
  }

  lemma AddModulo(a: nat, b: nat, m: nat)
    requires m > 0
    ensures (a + b % m) % m == (a + b) % m
  {
    var q, r := (a + b % m) / m, (a + b % m) % m;
    Distribute(b / m, q, m);
    ModuloIs(a + b, m, b / m + q, r);
  }

  // ---- Multiplication ----

  method MulAssign32(pn: array<Limb>, b32: Limb)
    modifies pn
    ensures Value(pn[..]) == (old(Value(pn[..])) * b32) % Weight(pn.Length)
  {
    hide Value, Weight;
    ghost var a := pn[..];
    var carry := 0;
    NoLimbs(a);
    NoLimbs(pn[..]);
    var i := 0;
    while i < pn.Length
      invariant 0 <= i <= pn.Length && 0 <= carry < BASE
      invariant forall k :: i <= k < pn.Length ==> pn[k] == a[k]
      invariant Value(pn[..i]) + carry * Weight(i) == Value(a[..i]) * b32
    {
      ProductBound(carry, 0, b32, pn[i]);
      var n := carry + b32 * pn[i];
      assert 0 <= n < WORD64;
      ghost var before := pn[..i];
      pn[i] := n % BASE;
      assert pn[..i] == before && pn[..i + 1] == before + [n % BASE];
      CarryStep(Value(before), carry, Value(a[..i]) * b32, b32 * a[i], n % BASE, n / BASE, Weight(i));
      SnocValue(before, n % BASE);
      ValueNext(a, i);
      WeightNext(i);
      Distribute(Value(a[..i]), a[i] * Weight(i), b32);
      Associate(b32, a[i], Weight(i));
      carry := n / BASE;
      i := i + 1;
    }
    assert pn[..i] == pn[..] && a[..i] == a;
    ValueBound(pn[..]);
    ModuloIs(Value(a) * b32, Weight(i), carry, Value(pn[..]));
  }

  /** The largest number that one step of a product can reach still fits into 64 bits. */
  lemma ProductBound(carry: nat, limb: nat, x: nat, y: nat)
    requires carry < BASE && limb < BASE && x < BASE && y < BASE
    ensures 0 <= carry + limb + x * y < WORD64
  {
    Monotone(x, BASE - 1, y);
    Monotone(y, BASE - 1, BASE - 1);
  }

  /** Adds x times b, shifted by j limbs; q is what runs over the end. */
  method AddRow(pn: array<Limb>, x: Limb, b: array<Limb>, j: nat) returns (ghost q: nat)
    requires pn.Length == b.Length && j < pn.Length
    requires pn == b ==> forall k :: 0 <= k < pn.Length ==> pn[k] == 0
    modifies pn
    ensures pn != b ==> Value(pn[..]) + q * Weight(pn.Length) == old(Value(pn[..])) + x * Value(b[..]) * Weight(j)
    ensures pn == b ==> forall k :: 0 <= k < pn.Length ==> pn[k] == 0
  {
    hide Value, Weight;
    ghost var a, c := pn[..], b[..];
    NoLimbs(c);
    var carry, i := 0, 0;
    while i + j < pn.Length
      invariant 0 <= i <= pn.Length - j && 0 <= carry < BASE
      invariant forall k :: i + j <= k < pn.Length ==> pn[k] == a[k]
      invariant pn == b ==> carry == 0 && forall k :: 0 <= k < pn.Length ==> pn[k] == 0
      invariant pn != b ==> b[..] == c && Value(pn[..i + j]) + carry * Weight(i + j) == Value(a[..i + j]) + x * Value(c[..i]) * Weight(j)
    {
      ProductBound(carry, pn[i + j], x, b[i]);
      var n := carry + pn[i + j] + x * b[i];
      assert 0 <= n < WORD64;
      ghost var before := pn[..i + j];
      pn[i + j] := n % BASE;
      assert pn[..i + j] == before && pn[..i + j + 1] == before + [n % BASE];
      if pn != b { RowStep(before, a, c, x, i, j, carry, n); }
      carry := n / BASE;
      i := i + 1;
      assert (i - 1) + j + 1 == i + j;
    }
    assert pn[..i + j] == pn[..] && a[..i + j] == a;
    q := carry + x * Value(c[i..]);
    RowEnds(c, x, i, j, carry);
  }

  lemma RowStep(low: seq<Limb>, a: seq<Limb>, c: seq<Limb>, x: Limb, i: nat, j: nat, carry: nat, n: nat)
    requires i + j < |a| == |c| && |low| == i + j && n == carry + a[i + j] + x * c[i]
    requires Value(low) + carry * Weight(i + j) == Value(a[..i + j]) + x * Value(c[..i]) * Weight(j)
    ensures Value(low + [n % BASE]) + n / BASE * Weight(i + j + 1) == Value(a[..i + j + 1]) + x * Value(c[..i + 1]) * Weight(j)
  {
    hide Value, Weight;
    var w := Weight(i + j);
    CarryStep(Value(low), carry, Value(a[..i + j]) + x * Value(c[..i]) * Weight(j), a[i + j] + x * c[i], n % BASE, n / BASE, w);
    SnocValue(low, n % BASE);
    ValueNext(a, i + j);
    ValueNext(c, i);
    WeightNext(i + j);
    RowProduct(x, Value(c[..i]), c[i], i, j);
    Distribute(a[i + j], x * c[i], w);
  }

  lemma RowProduct(x: nat, v: nat, d: nat, i: nat, j: nat)
    ensures x * (v + d * Weight(i)) * Weight(j) == x * v * Weight(j) + x * d * Weight(i + j)
  {
    hide Weight;
    WeightAdd(i, j);
    Distribute(v, d * Weight(i), x);
    Associate(x, d, Weight(i));
    Distribute(x * v, x * d * Weight(i), Weight(j));
    Associate(x * d, Weight(i), Weight(j));
  }

  lemma RowEnds(c: seq<Limb>, x: Limb, i: nat, j: nat, carry: nat)
    requires i + j == |c|
    ensures carry * Weight(|c|) + x * Value(c) * Weight(j)
         == (carry + x * Value(c[i..])) * Weight(|c|) + x * Value(c[..i]) * Weight(j)
  {
    hide Value, Weight;
    ValueSplit(c, i);
    RowProduct(x, Value(c[..i]), Value(c[i..]), i, j);
    Distribute(carry, x * Value(c[i..]), Weight(|c|));
  }

  /**
    The product of two numbers. The number is cleared before the rows are added, so multiplying a
    number by itself in place gives zero.
   */
  method MulAssign(pn: array<Limb>, b: array<Limb>)
    requires pn.Length == b.Length
    modifies pn
    ensures pn != b ==> Value(pn[..]) == (old(Value(pn[..])) * Value(b[..])) % Weight(pn.Length)
    ensures pn == b ==> Value(pn[..]) == 0
    ensures Value(pn[..]) == (old(Value(pn[..])) * old(Value(b[..]))) % Weight(pn.Length)
       <==> pn != b || (old(Value(pn[..])) * old(Value(pn[..]))) % Weight(pn.Length) == 0
  {
    hide Value, Weight;
    var a := new Limb[pn.Length](i requires 0 <= i < pn.Length reads pn => pn[i]);
    assert a[..] == pn[..];
    ghost var v, c := a[..], b[..];
    for i := 0 to pn.Length
      invariant forall k :: 0 <= k < i ==> pn[k] == 0
      invariant a[..] == v && (pn != b ==> b[..] == c)
    {
      pn[i] := 0;
    }
    ValueZero(pn[..]);
    NoLimbs(v);
    ghost var q: nat := 0;
    for j := 0 to pn.Length
      invariant a[..] == v && (pn != b ==> b[..] == c)
      invariant pn != b ==> Value(pn[..]) + q * Weight(pn.Length) == Value(v[..j]) * Value(c)
      invariant pn == b ==> forall k :: 0 <= k < pn.Length ==> pn[k] == 0
    {
      ghost var before := Value(pn[..]);
      ghost var more := AddRow(pn, a[j], b, j);
      if pn != b { ProductStep(v, Value(c), j, Weight(pn.Length), before, Value(pn[..]), q, more); }
      q := q + more;
    }
    if pn != b {
      assert v[..pn.Length] == v;
      ValueBound(pn[..]);
      ModuloIs(Value(v) * Value(c), Weight(pn.Length), q, Value(pn[..]));
    } else {
      ValueZero(pn[..]);
    }
  }

  /** The number one, which loses its square. */
  lemma SquareIsLost(s: seq<Limb>)
    requires |s| > 0 && s[0] == 1 && forall i :: 0 < i < |s| ==> s[i] == 0
    ensures Value(s) == 1 && (Value(s) * Value(s)) % Weight(|s|) == 1
  {
    ValueSplit(s, 1);
    ValueZero(s[1..]);
    assert s[..1][..0] == [];
    assert Weight(|s|) >= BASE by { hide Weight; WeightAdd(1, |s| - 1); Monotone(1, Weight(|s| - 1), BASE); WeightOne(); }
    ModuloIs(1, Weight(|s|), 0, 1);
  }

  lemma WeightOne()
    ensures Weight(1) == BASE
  {
    assert Weight(0) == 1;
  }

  lemma ProductStep(v: seq<Limb>, c: nat, j: nat, w: nat, before: nat, after: nat, q: nat, more: nat)
    requires j < |v| && before + q * w == Value(v[..j]) * c && after + more * w == before + v[j] * c * Weight(j)
    ensures after + (q + more) * w == Value(v[..j + 1]) * c
  {
    hide Value, Weight;
    ValueNext(v, j);
    Distribute(Value(v[..j]), v[j] * Weight(j), c);
    Distribute(q, more, w);
  }
}
