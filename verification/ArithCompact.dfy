/**
  The compact form of 256-bit numbers: a size in bytes, a sign and a 23-bit mantissa in 32 bits.
 */
module ArithCompact {
  import opened Basics
  import opened Arithmetic
  import opened Limbs
  import opened ArithUint
  import opened ArithShift
  import opened ArithDivide

  const WIDTH := 8
  const SIGN := 0x0080_0000
  const SIZE_UNIT := 0x0100_0000

  /** The number that a compact form stands for, however large. */
  function CompactValue(c: nat): nat
  {
    var nSize, nWord := c / SIZE_UNIT, c % SIGN;
    if nSize <= 3 then Quotient(nWord, Pow2(8 * (3 - nSize))) else Times(nWord, Pow2(8 * (nSize - 3)))
  }

  predicate SignBit(c: nat) { c / SIGN % 2 == 1 }

  function BitLength(x: nat): (n: nat)
    ensures x == 0 <==> n == 0
  {
    if x == 0 then 0 else 1 + BitLength(x / 2)
  }

  lemma {:induction false} BitLengthIs(x: nat)
    requires x > 0
    ensures Pow2(BitLength(x) - 1) <= x < Pow2(BitLength(x))
  {
    if x == 1 {
      assert BitLength(0) == 0 && BitLength(1) == 1;
      assert Pow2(0) == 1;
    } else {
      BitLengthIs(x / 2);
    }
  }

  lemma BitLengthUnique(x: nat, n: nat)
    requires n > 0 && Pow2(n - 1) <= x < Pow2(n)
    ensures BitLength(x) == n
  {
    var m := BitLength(x);
    BitLengthIs(x);
    if m < n { Pow2Monotone(m, n - 1); }
    if n < m { Pow2Monotone(n, m - 1); }
  }

  /** The mantissa before the sign bit is kept free. */
  function Mantissa(x: nat, nSize: nat): nat
  {
    if nSize <= 3 then Times(x, Pow2(8 * (3 - nSize))) else Quotient(x, Pow2(8 * (nSize - 3)))
  }

  function Times(x: nat, y: nat): nat { Monotone(0, x, y); x * y }

  function Quotient(x: nat, y: nat): nat
    requires y > 0
  {
    QuotientAtMost(x, y); x / y
  }

  function SizeInBytes(x: nat): nat { (BitLength(x) + 7) / 8 }

  function ToCompact(x: nat, fNegative: bool): nat
  {
    var nSize := SizeInBytes(x);
    var m := Mantissa(x, nSize);
    var word, size := if SignBit(m) then m / 256 else m, if SignBit(m) then nSize + 1 else nSize;
    Packed(word, size, fNegative)
  }

  function Packed(word: nat, size: nat, fNegative: bool): nat
  {
    word + size * SIZE_UNIT + (if fNegative && word != 0 then SIGN else 0)
  }

  /** Compact forms and what they stand for. */
  lemma KnownCompacts()
    ensures CompactValue(0x01123456) == 0x12 && CompactValue(0x02123456) == 0x1234 && CompactValue(0x03123456) == 0x123456
    ensures CompactValue(0x04123456) == 0x12345600 && CompactValue(0x05009234) == 0x92340000 && CompactValue(0x04923456) == 0x12345600
    ensures SignBit(0x04923456) && SignBit(0x01fedcba) && !SignBit(0x04123456) && CompactValue(0x01fedcba) == 0x7e
    ensures CompactValue(0x00123456) == CompactValue(0x01003456) == CompactValue(0x02000056) == CompactValue(0x04800000) == 0
  {
    assert Pow2(0) == 1;
    EightBits(0);
    EightBits(8);
    EightBits(16);
  }

  lemma EightBits(n: nat)
    ensures Pow2(n + 8) == 256 * Pow2(n)
  {
    assert Pow2(n + 2) == 4 * Pow2(n) && Pow2(n + 4) == 4 * Pow2(n + 2);
    assert Pow2(n + 6) == 4 * Pow2(n + 4) && Pow2(n + 8) == 4 * Pow2(n + 6);
  }

  // ---- Decoding ----

  /** The flag of the source says exactly whether the number is too large. */
  predicate OverflowFlag(nSize: nat, nWord: nat)
  {
    nWord != 0 && (nSize > 34 || (nWord > 0xff && nSize > 33) || (nWord > 0xffff && nSize > 32))
  }

  lemma OverflowIsExact(nSize: nat, nWord: nat)
    requires nSize > 3 && nWord < SIGN
    ensures OverflowFlag(nSize, nWord) <==> nWord * Pow2(8 * (nSize - 3)) >= Pow2(256)
  {
    hide Pow2;
    Pow2Values();
    var e := 8 * (nSize - 3);
    if nSize > 34 {
      Pow2Monotone(256, e);
      if nWord > 0 { Monotone(1, nWord, Pow2(e)); }
      assert Pow2(256) > 0;
    } else {
      var limit := Pow2(256 - e);
      Pow2Add(256 - e, e);
      if nWord >= limit { Monotone(limit, nWord, Pow2(e)); } else { Monotone(nWord, limit, Pow2(e)); }
      if nSize == 34 { assert limit == 256; }
      else if nSize == 33 { assert limit == 65536; }
      else { Pow2Monotone(24, 256 - e); }
    }
  }

  /** A size of at most three bytes: the word is cut, and nothing can be too large. */
  lemma SmallWord(nSize: nat, nWord: nat)
    requires nSize <= 3 && nWord < SIGN
    ensures var w := Quotient(nWord, Pow2(8 * (3 - nSize)));
            w <= nWord < Pow2(256) && !OverflowFlag(nSize, w) && w % Pow2(256) == w
  {
    hide Pow2;
    Pow2Values();
    Pow2Monotone(23, 256);
    QuotientAtMost(nWord, Pow2(8 * (3 - nSize)));
    var w := Quotient(nWord, Pow2(8 * (3 - nSize)));
    ModuloIs(w, Pow2(256), 0, w);
  }

  /** A larger size: zero exactly for the word zero. */
  lemma LargeWord(nSize: nat, nWord: nat)
    requires nSize > 3 && nWord < SIGN
    ensures var v := Times(nWord, Pow2(8 * (nSize - 3)));
            (OverflowFlag(nSize, nWord) <==> v >= Pow2(256)) && (v == 0 <==> nWord == 0) && v == nWord * Pow2(8 * (nSize - 3))
  {
    hide Pow2;
    OverflowIsExact(nSize, nWord);
    if nWord > 0 { Monotone(1, nWord, Pow2(8 * (nSize - 3))); }
  }

  lemma CompactValueIs(c: nat)
    ensures var nSize, nWord := c / SIZE_UNIT, c % SIGN;
            CompactValue(c) == if nSize <= 3 then Quotient(nWord, Pow2(8 * (3 - nSize))) else Times(nWord, Pow2(8 * (nSize - 3)))
  {
    hide Pow2, Quotient, Times;
  }

  method AssignWord(pn: array<Limb>, w: Limb)
    requires pn.Length == WIDTH
    modifies pn
    ensures Value(pn[..]) == w
  {
    hide Value, Weight;
    Clear(pn);
    ghost var s := pn[..];
    pn[0] := w;
    ValueUpdate(s, 0, w);
    assert pn[..] == s[0 := w];
    assert Weight(0) == 1 by { NoLimbs(s); }
  }

  method SetCompact(pn: array<Limb>, nCompact: Limb) returns (fNegative: bool, fOverflow: bool)
    requires pn.Length == WIDTH
    modifies pn
    ensures Value(pn[..]) == CompactValue(nCompact) % Pow2(256)
    ensures fOverflow <==> CompactValue(nCompact) >= Pow2(256)
    ensures fNegative <==> CompactValue(nCompact) != 0 && SignBit(nCompact)
  {
    hide Value, Weight, Pow2, CompactValue, Quotient, Times;
    assert Weight(WIDTH) == Pow2(256) by { WeightIsPow2(WIDTH); }
    CompactValueIs(nCompact);
    var nSize: nat, nWord: nat := nCompact / SIZE_UNIT, nCompact % SIGN;
    if nSize <= 3 {
      SmallWord(nSize, nWord);
      nWord := Quotient(nWord, Pow2(8 * (3 - nSize)));
      AssignWord(pn, nWord);
    } else {
      LargeWord(nSize, nWord);
      AssignWord(pn, nWord);
      ShiftLeftAssign(pn, 8 * (nSize - 3));
    }
    fNegative := nWord != 0 && nCompact / SIGN % 2 == 1;
    fOverflow := nWord != 0 && (nSize > 34 || (nWord > 0xff && nSize > 33) || (nWord > 0xffff && nSize > 32));
    assert fOverflow == OverflowFlag(nSize, nWord);
  }

  // ---- Encoding ----

  lemma MantissaBounds(x: nat)
    ensures var m := Mantissa(x, SizeInBytes(x)); m < SIZE_UNIT && (x > 0 ==> m >= 0x1_0000)
    ensures x == 0 ==> SizeInBytes(x) == 0
    ensures x < Pow2(256) ==> SizeInBytes(x) <= 32
  {
    hide Pow2, BitLength;
    var n, size := BitLength(x), SizeInBytes(x);
    Pow2Values();
    if x > 0 {
      BitLengthIs(x);
      Pow2Monotone(n, 8 * size);
      Pow2Monotone(8 * (size - 1), n - 1);
      if size <= 3 {
        var p := Pow2(8 * (3 - size));
        Pow2Add(8 * size, 8 * (3 - size));
        Pow2Add(8 * (size - 1), 8 * (3 - size));
        Monotone(x + 1, Pow2(8 * size), p);
        Distribute(x, 1, p);
        Monotone(Pow2(8 * (size - 1)), x, p);
      } else {
        var p := Pow2(8 * (size - 3));
        Pow2Add(24, 8 * (size - 3));
        Pow2Add(16, 8 * (size - 3));
        QuotientBounds(x, p, 0x1_0000, SIZE_UNIT);
      }
      if x < Pow2(256) && size > 32 { Pow2Monotone(256, n - 1); }
    }
  }

  lemma QuotientBounds(x: nat, p: nat, low: nat, high: nat)
    requires p > 0 && low * p <= x < high * p
    ensures low <= x / p < high
  {
    var q := x / p;
    assert x == q * p + x % p;
    if q < low { Monotone(q + 1, low, p); Distribute(q, 1, p); }
    if q >= high { Monotone(high, q, p); }
  }

  lemma SmallValue(s: seq<Limb>)
    requires |s| > 0 && Value(s) < BASE
    ensures s[0] == Value(s) && forall i :: 0 < i < |s| ==> s[i] == 0
  {
    hide Value, Weight;
    ValueSplit(s, 1);
    LowestLimb(s);
    var high := Value(s[1..]);
    assert high * BASE < BASE && high == 0;
    forall i | 0 < i < |s| ensures s[i] == 0 {
      ZeroValue(s[1..], i - 1);
      assert s[1..][i - 1] == s[i];
    }
  }

  lemma LowestLimb(s: seq<Limb>)
    requires |s| > 0
    ensures Value(s[..1]) == s[0] && Weight(1) == BASE
  {
    ValueNext(s, 0);
    assert Weight(0) == 1;
  }

  method MantissaAndSize(pn: array<Limb>) returns (nCompact: nat, nSize: nat)
    requires pn.Length == WIDTH
    ensures nSize == SizeInBytes(Value(pn[..])) <= 32 && nCompact == Mantissa(Value(pn[..]), nSize) < SIZE_UNIT
  {
    hide Value, Weight, Pow2, BitLength, Mantissa, Times, Quotient;
    ghost var x := Value(pn[..]);
    ValueBound(pn[..]);
    assert Weight(WIDTH) == Pow2(256) by { WeightIsPow2(WIDTH); }
    MantissaBounds(x);
    var bits := Bits(pn);
    assert BitLength(x) == bits by { if bits > 0 { BitLengthUnique(x, bits); } else { } }
    nSize := (bits + 7) / 8;
    MantissaIs(x, nSize);
    if nSize <= 3 {
      SmallValue(pn[..]);
      nCompact := Times(pn[0], Pow2(8 * (3 - nSize)));
    } else {
      var bn := CopyOf(pn);
      ShiftRightAssign(bn, 8 * (nSize - 3));
      SmallValue(bn[..]);
      nCompact := bn[0];
    }
  }

  /** Size and sign are put beside the mantissa, bit by bit. */
  method Pack(word: nat, nSize: nat, fNegative: bool) returns (c: Limb)
    requires word < SIGN && nSize < 256
    ensures c == Packed(word, nSize, fNegative)
  {
    Pow2Values();
    OrDisjoint(nSize, word, 24);
    var nCompact := BitOr(word, nSize * SIZE_UNIT);
    ModuloIs(nCompact, SIGN, 2 * nSize, word);
    if fNegative && nCompact % SIGN != 0 {
      SignFits(nSize, word);
      nCompact := BitOr(nCompact, SIGN);
    }
    c := nCompact;
  }

  method GetCompact(pn: array<Limb>, fNegative: bool) returns (c: Limb)
    requires pn.Length == WIDTH
    ensures c == ToCompact(Value(pn[..]), fNegative)
  {
    hide Value, Mantissa, SizeInBytes, Packed;
    var nCompact, nSize := MantissaAndSize(pn);
    if SignBit(nCompact) {
      nCompact := nCompact / 256;
      nSize := nSize + 1;
    }
    assert nCompact < SIGN && nSize < 256;   // the assertions of the source
    c := Pack(nCompact, nSize, fNegative);
  }

  lemma MantissaIs(x: nat, nSize: nat)
    requires Mantissa(x, nSize) < SIZE_UNIT
    ensures nSize <= 3 ==> Mantissa(x, nSize) == Times(x, Pow2(8 * (3 - nSize))) && x < SIZE_UNIT
    ensures nSize > 3 ==> Mantissa(x, nSize) == x / Pow2(8 * (nSize - 3))
  {
    hide Pow2;
    if nSize <= 3 { Monotone(1, Pow2(8 * (3 - nSize)), x); }
  }

  /** The sign bit lies between the mantissa and the size, and meets neither. */
  lemma SignFits(nSize: nat, word: nat)
    requires word < SIGN
    ensures BitOr(word + nSize * SIZE_UNIT, SIGN) == word + nSize * SIZE_UNIT + SIGN
  {
    Pow2Values();
    OrSplit(nSize, word, 23);
  }

  lemma {:induction false} OrSplit(h: nat, low: nat, s: nat)
    requires low < Pow2(s)
    ensures h * (2 * Pow2(s)) >= 0 && BitOr(low + h * (2 * Pow2(s)), Pow2(s)) == low + h * (2 * Pow2(s)) + Pow2(s)
    decreases s
  {
    hide BitOr;
    Monotone(0, h, 2 * Pow2(s));
    if s == 0 {
      assert Pow2(0) == 1 && low == 0;
      OrStep(h, 0, 0, 1);
      OrZero(h);
    } else {
      var p := Pow2(s - 1);
      Associate(h, 2, 2 * p);
      var k := h * (2 * p);
      OrSplit(h, low / 2, s - 1);
      OrStep(low / 2 + k, p, low % 2, 0);
    }
  }

  // ---- What the compact form keeps ----

  /** Dropping low bits from a number of at least fifteen more. */
  lemma Truncated(x: nat, e: nat)
    requires x / Pow2(e) >= 0x8000
    ensures var v := x / Pow2(e) * Pow2(e); v <= x && (x - v) * 0x8000 < x
  {
    hide Pow2;
    var p := Pow2(e);
    var q, r := x / p, x % p;
    assert x == q * p + r && 0 <= r < p;
    Monotone(0x8000, q, p);
  }

  lemma DivTwice(x: nat, e: nat)
    ensures x / Pow2(e) / 256 == x / Pow2(e + 8)
  {
    Pow2Values();
    Pow2Add(8, e);
    DivBoth(x, Pow2(e), x / Pow2(e), x % Pow2(e));
  }

  lemma DivBoth(x: nat, p: nat, q: nat, r: nat)
    requires p > 0 && x == q * p + r && r < p
    ensures q / 256 == x / (256 * p)
  {
    var h, low := q / 256, q % 256;
    Distribute(h * 256, low, p);
    Associate(h, 256, p);
    Monotone(low + 1, 256, p);
    Distribute(low, 1, p);
    DivisionIs(x, 256 * p, h, low * p + r);
  }

  lemma ExactDiv(x: nat, p: nat)
    requires p > 0
    ensures x * p / p == x
  {
    DivisionIs(x * p, p, x, 0);
  }

  lemma Decoded(word: nat, size: nat)
    requires word < SIGN
    ensures var c := word + size * SIZE_UNIT;
            c / SIZE_UNIT == size && c % SIGN == word && !SignBit(c)
            && CompactValue(c) == Expand(word, size)
  {
    var c := word + size * SIZE_UNIT;
    DivisionIs(c, SIZE_UNIT, size, word);
    DivisionIs(c, SIGN, 2 * size, word);
  }

  /** Decoding what was encoded: never more, and less by under one part in 2^15; zero only for zero. */
  lemma CompactLosesLittle(x: nat)
    ensures var v := CompactValue(ToCompact(x, false));
            && v <= x && (x > 0 ==> (x - v) * 0x8000 < x) && (v == 0 <==> x == 0)
    ensures !SignBit(ToCompact(x, false))
  {
    hide Mantissa, SizeInBytes, CompactValue;
    var nSize := SizeInBytes(x);
    var m := Mantissa(x, nSize);
    MantissaBounds(x);
    SignBitIs(m);
    if SignBit(m) { Decoded(m / 256, nSize + 1); } else { Decoded(m, nSize); }
    hide SignBit, Packed;
    if x == 0 {
      NothingToEncode(nSize);
    } else if nSize > 3 {
      LargeLosesLittle(x, nSize, m);
    } else {
      SmallLosesLittle(x, nSize, m);
    }
  }

  ghost function Expand(word: nat, size: nat): nat
  {
    if size <= 3 then Quotient(word, Pow2(8 * (3 - size))) else Times(word, Pow2(8 * (size - 3)))
  }

  lemma NothingToEncode(nSize: nat)
    ensures Mantissa(0, nSize) == 0 && Expand(0, nSize) == 0
  {
    QuotientAtMost(0, Pow2(8 * (if nSize <= 3 then 3 - nSize else nSize - 3)));
  }

  lemma LargeLosesLittle(x: nat, nSize: nat, m: nat)
    requires nSize > 3 && m == Mantissa(x, nSize) && m >= 0x1_0000
    ensures var v := if m >= SIGN then Expand(m / 256, nSize + 1) else Expand(m, nSize);
            0 < v <= x && (x - v) * 0x8000 < x
  {
    hide Pow2;
    var e := 8 * (nSize - 3);
    if m >= SIGN {
      DivTwice(x, e);
      Truncated(x, e + 8);
      Monotone(1, m / 256, Pow2(e + 8));
    } else {
      Truncated(x, e);
      Monotone(1, m, Pow2(e));
    }
  }

  lemma SmallLosesLittle(x: nat, nSize: nat, m: nat)
    requires nSize <= 3 && m == Mantissa(x, nSize) && x > 0
    ensures var v := if m >= SIGN then Expand(m / 256, nSize + 1) else Expand(m, nSize);
            0 < v <= x && (x - v) * 0x8000 < x
  {
    hide Pow2;
    if m >= SIGN { SmallAndSigned(x, nSize); } else { ExactDiv(x, Pow2(8 * (3 - nSize))); }
  }

  lemma SignBitIs(m: nat)
    requires m < SIZE_UNIT
    ensures SignBit(m) <==> m >= SIGN
  {
  }

  lemma SmallAndSigned(x: nat, nSize: nat)
    requires nSize <= 3 && x * Pow2(8 * (3 - nSize)) >= SIGN
    ensures var word := x * Pow2(8 * (3 - nSize)) / 256;
            var v := if nSize + 1 <= 3 then word / Pow2(8 * (3 - (nSize + 1))) else word * Pow2(8 * (nSize + 1 - 3));
            v <= x && (x - v) * 0x8000 < x && v > 0
  {
    hide Pow2;
    Pow2Values();
    PowZero();
    if nSize < 3 {
      var p := Pow2(8 * (2 - nSize));
      Pow2Add(8, 8 * (2 - nSize));
      Associate(x, 256, p);
      ExactDiv(x * p, 256);
      ExactDiv(x, p);
      assert x > 0;
    } else {
      Truncated(x, 8);
    }
  }
}
