/**
  Facts about products, quotients and remainders of integers.
 */
module Arithmetic {

  lemma Distribute(a: int, b: int, c: int)
    ensures (a + b) * c == a * c + b * c && c * (a + b) == c * a + c * b
  {
  }

  lemma Associate(a: int, b: int, c: int)
    ensures a * (b * c) == (a * b) * c == b * (a * c)
  {
  }

  lemma Monotone(a: nat, b: nat, c: nat)
    requires a <= b
    ensures a * c <= b * c
    ensures a < b && c > 0 ==> a * c < b * c
  {
    Distribute(a, b - a, c);
  }

  /** Quotient and remainder are what they should be. */
  lemma DivisionIs(x: nat, d: nat, q: nat, r: nat)
    requires d > 0 && x == q * d + r && r < d
    ensures x / d == q && x % d == r
  {
    var q', r' := x / d, x % d;
    assert x == q' * d + r' && 0 <= r' < d;
    if q < q' { Monotone(q + 1, q', d); Distribute(q, 1, d); }
    if q' < q { Monotone(q' + 1, q, d); Distribute(q', 1, d); }
  }

  lemma ModuloIs(x: nat, d: nat, q: nat, r: nat)
    requires d > 0 && x == q * d + r && r < d
    ensures x % d == r
  {
    DivisionIs(x, d, q, r);
  }

  lemma ZeroModulo(p: nat)
    requires p > 0
    ensures 0 % p == 0
  {
    ModuloIs(0, p, 0, 0);
  }

  lemma QuotientAtMost(x: nat, y: nat)
    requires y > 0
    ensures 0 <= x / y <= x && (y > 1 && x > 0 ==> x / y < x)
  {
    var q := x / y;
    assert x == q * y + x % y;
    if q < 0 { Monotone(1, -q, y); }
    if q > 0 { Monotone(1, y, q); }
  }
}
