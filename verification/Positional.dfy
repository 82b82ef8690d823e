/**
  Numbers written in a base, most significant digit first, and how many digits a change of base needs.
 */
module Positional {
  import opened Arithmetic

  function Pow(b: nat, e: nat): (p: nat)
    ensures b > 0 ==> p > 0
  {
    if e == 0 then 1 else
      var q := Pow(b, e - 1);
      assert b > 0 ==> b * q > 0;
      assert b == 0 ==> b * q == 0;
      b * q
  }

  predicate AreDigits(base: nat, s: seq<nat>) { forall i :: 0 <= i < |s| ==> s[i] < base }

  function Val(base: nat, s: seq<nat>): nat
  {
    if s == [] then 0 else
      var v := Val(base, s[..|s| - 1]);
      assert v * base >= 0;
      v * base + s[|s| - 1]
  }

  /** The digits of a number, without leading zeros. */
  function Digits(base: nat, v: nat): (s: seq<nat>)
    requires base > 1
    ensures AreDigits(base, s) && (|s| > 0 ==> s[0] != 0) && (s == [] <==> v == 0)
  {
    if v == 0 then [] else
      QuotientAtMost(v, base);
      Digits(base, v / base) + [v % base]
  }

  function LeadingZeros(s: seq<nat>): (n: nat)
    ensures n <= |s| && (forall i :: 0 <= i < n ==> s[i] == 0) && (n < |s| ==> s[n] != 0)
  {
    if s == [] || s[0] != 0 then 0 else 1 + LeadingZeros(s[1..])
  }

  function Strip(s: seq<nat>): seq<nat> { s[LeadingZeros(s)..] }

  // ---- Powers ----

  lemma {:induction false} PowAdd(b: nat, e: nat, f: nat)
    ensures Pow(b, e + f) == Pow(b, e) * Pow(b, f)
  {
    if e > 0 {
      PowAdd(b, e - 1, f);
      Associate(b, Pow(b, e - 1), Pow(b, f));
    }
  }

  lemma {:induction false} PowMul(b: nat, e: nat, f: nat)
    ensures e * f >= 0 && Pow(Pow(b, e), f) == Pow(b, e * f)
    decreases f
  {
    Monotone(0, e, f);
    if f == 0 {
      assert e * f == 0;
    } else {
      PowMul(b, e, f - 1);
      Distribute(f - 1, 1, e);
      assert e * f == e * (f - 1) + e;
      PowAdd(b, e, e * (f - 1));
    }
  }

  lemma {:induction false} PowGrows(a: nat, b: nat, e: nat)
    requires a <= b
    ensures Pow(a, e) <= Pow(b, e)
    ensures a < b && e > 0 ==> Pow(a, e) < Pow(b, e)
  {
    if e > 0 {
      PowGrows(a, b, e - 1);
      var p, q := Pow(a, e - 1), Pow(b, e - 1);
      Monotone(p, q, a);
      Monotone(a, b, q);
    }
  }

  lemma PowLonger(b: nat, e: nat, f: nat)
    requires b > 0 && e <= f
    ensures Pow(b, e) <= Pow(b, f)
  {
    hide Pow;
    PowAdd(b, e, f - e);
    Monotone(1, Pow(b, f - e), Pow(b, e));
  }

  /** If n digits of base a never need more than m digits of base b, in every length that holds in proportion. */
  lemma InProportion(a: nat, b: nat, n: nat, m: nat, x: nat, y: nat)
    requires a > 0 && b > 0 && n > 0 && Pow(a, n) <= Pow(b, m) && m * x <= n * y
    ensures Pow(a, x) <= Pow(b, y)
  {
    hide Pow;
    PowMul(a, n, x);
    PowMul(b, m, x);
    PowGrows(Pow(a, n), Pow(b, m), x);
    PowLonger(b, m * x, n * y);
    PowMul(a, x, n);
    PowMul(b, y, n);
    if Pow(a, x) > Pow(b, y) { PowGrows(Pow(b, y), Pow(a, x), n); }
  }

  lemma Powers58()
    ensures Pow(58, 2) == 3364
    ensures Pow(58, 4) == 3364 * 3364
    ensures Pow(58, 8) == 128063081718016
    ensures Pow(58, 16) == 128063081718016 * 128063081718016
  {
    assert Pow(58, 1) == 58;
    PowAdd(58, 1, 1);
    PowAdd(58, 2, 2);
    PowAdd(58, 4, 4);
    PowAdd(58, 8, 8);
  }

  lemma Powers256()
    ensures Pow(256, 4) == 4294967296
    ensures Pow(256, 8) == 4294967296 * 4294967296
    ensures Pow(256, 16) == 340282366920938463463374607431768211456
  {
    assert Pow(256, 1) == 256;
    PowAdd(256, 1, 1);
    PowAdd(256, 2, 2);
    PowAdd(256, 4, 4);
    PowAdd(256, 8, 8);
  }

  /** 256^19 <= 58^26 */
  lemma NineteenBytes()
    ensures Pow(256, 19) <= Pow(58, 26)
  {
    hide Pow;
    Powers58();
    Powers256();
    PowAdd(58, 16, 8);
    PowAdd(58, 24, 2);
    PowAdd(256, 2, 1);
    PowAdd(256, 16, 3);
    assert Pow(256, 1) == 256 && Pow(256, 2) == 65536 by { SmallPowers(); }
  }

  lemma SmallPowers()
    ensures Pow(256, 1) == 256 && Pow(256, 2) == 65536 && Pow(58, 1) == 58 && Pow(58, 3) == 58 * 3364
  {
    assert Pow(256, 0) == 1 && Pow(58, 0) == 1;
    assert Pow(58, 2) == 3364;
  }

  /** 58^71 <= 256^52 */
  lemma SeventyOneDigits()
    ensures Pow(58, 71) <= Pow(256, 52)
  {
    hide Pow;
    Powers58();
    Powers256();
    SmallPowers();
    PowAdd(58, 16, 16);
    PowAdd(58, 32, 32);
    PowAdd(58, 4, 3);
    PowAdd(58, 64, 7);
    PowAdd(256, 16, 16);
    PowAdd(256, 32, 16);
    PowAdd(256, 48, 4);
  }

  /** Enough base-58 digits for n bytes: the size of the encoding buffer. */
  lemma EncodingFits(n: nat)
    ensures Pow(256, n) <= Pow(58, n * 138 / 100 + 1)
  {
    hide Pow;
    NineteenBytes();
    InProportion(256, 58, 19, 26, n, n * 138 / 100 + 1);
  }

  /** Enough bytes for m base-58 digits: the size of the decoding buffer. */
  lemma DecodingFits(m: nat)
    ensures Pow(58, m) <= Pow(256, m * 733 / 1000 + 1)
  {
    hide Pow;
    SeventyOneDigits();
    InProportion(58, 256, 71, 52, m, m * 733 / 1000 + 1);
  }
}
