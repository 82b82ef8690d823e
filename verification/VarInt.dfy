/**
  Variable-length integers and compressed amounts, the numbers inside a serialized coin record.
 */
module VarInt {
  import opened Basics
  import opened Arithmetic

  type Parsed<T> = Option<(T, seq<Byte>)>

  // ---- Variable-length integers ----

  /** The bytes of a number that others follow: all have the high bit. */
  function Continued(n: nat): seq<Byte>
  {
    (if n <= 0x7f then [] else Continued(n / 128 - 1)) + [n % 128 + 128]
  }

  function VarIntBytes(n: nat): (r: seq<Byte>)
    ensures |r| > 0
  {
    (if n <= 0x7f then [] else Continued(n / 128 - 1)) + [n % 128]
  }

  /** A signed number is written like an unsigned one; one below zero leaves only its low seven bits. */
  function SignedBytes(n: int): (r: seq<Byte>) { if n < 0 then [n % 128] else VarIntBytes(n) }

  function ReadFrom(n: nat, s: seq<Byte>): Parsed<nat>
    decreases |s|
  {
    if s == [] then None else
      var n' := n * 128 + s[0] % 128;
      if s[0] >= 128 then ReadFrom(n' + 1, s[1..]) else Some((n', s[1..]))
  }

  function ReadVarInt(s: seq<Byte>): Parsed<nat> { ReadFrom(0, s) }

  lemma {:induction false} ReadsContinued(n: nat, rest: seq<Byte>)
    ensures ReadFrom(0, Continued(n) + rest) == ReadFrom(n + 1, rest)
  {
    if n <= 0x7f {
      assert (Continued(n) + rest)[1..] == rest;
    } else {
      var m, b := n / 128 - 1, n % 128 + 128;
      assert Continued(n) + rest == Continued(m) + ([b] + rest);
      ReadsContinued(m, [b] + rest);
      assert ([b] + rest)[1..] == rest;
    }
  }

  /** Reading what was written, whatever follows. */
  lemma ReadsVarInt(n: nat, rest: seq<Byte>)
    ensures ReadVarInt(VarIntBytes(n) + rest) == Some((n, rest))
  {
    var b := n % 128;
    assert ([b] + rest)[1..] == rest;
    if n > 0x7f {
      var m := n / 128 - 1;
      assert VarIntBytes(n) + rest == Continued(m) + ([b] + rest);
      ReadsContinued(m, [b] + rest);
    } else {
      assert VarIntBytes(n) + rest == [b] + rest;
    }
  }

  function Before(n: nat): seq<Byte> { if n == 0 then [] else Continued(n - 1) }

  lemma OneMoreByte(n: nat, b: Byte)
    ensures var m := n * 128 + b % 128;
            (b >= 128 ==> Continued(m) == Before(n) + [b]) && (b < 128 ==> VarIntBytes(m) == Before(n) + [b])
  {
    var m := n * 128 + b % 128;
    DivisionIs(m, 128, n, b % 128);
    assert m <= 0x7f <==> n == 0;
  }

  lemma Reassociated(a: seq<Byte>, s: seq<Byte>)
    requires s != []
    ensures a + s == (a + [s[0]]) + s[1..]
  {
  }

  lemma {:induction false} UniqueFrom(n: nat, s: seq<Byte>)
    requires ReadFrom(n, s).Some?
    ensures var (m, rest) := ReadFrom(n, s).value; Before(n) + s == VarIntBytes(m) + rest
    decreases |s|
  {
    OneMoreByte(n, s[0]);
    Reassociated(Before(n), s);
    hide Continued, VarIntBytes;
    if s[0] >= 128 { UniqueFrom(n * 128 + s[0] % 128 + 1, s[1..]); }
  }

  /** Every number has exactly one encoding: what reads as a number is what is written for it. */
  lemma EncodingIsUnique(s: seq<Byte>, n: nat, rest: seq<Byte>)
    ensures ReadVarInt(s) == Some((n, rest)) <==> s == VarIntBytes(n) + rest
  {
    ReadsVarInt(n, rest);
    if ReadVarInt(s).Some? {
      UniqueFrom(0, s);
      assert [] + s == s;
    }
  }

  lemma ReadsSigned(n: int, rest: seq<Byte>)
    ensures ReadVarInt(SignedBytes(n) + rest) == Some((if n < 0 then n % 128 else n, rest))
  {
    if n < 0 {
      assert (SignedBytes(n) + rest)[1..] == rest;
    } else {
      ReadsVarInt(n, rest);
    }
  }

  lemma Unrolled(n: nat, rest: seq<Byte>)
    ensures Continued(n) + rest == (if n <= 0x7f then [] else Continued(n / 128 - 1)) + ([n % 128 + 128] + rest)
    ensures VarIntBytes(n) == (if n <= 0x7f then [] else Continued(n / 128 - 1)) + [n % 128]
  {
  }

  /** The loop writes into a buffer from the last byte to the first, and out in reverse. */
  method WriteVarInt(value: int) returns (os: seq<Byte>)
    ensures os == SignedBytes(value)
  {
    hide Continued, VarIntBytes;
    os := [];
    var n := value;
    while true
      invariant n >= 0 || os == []
      invariant os == [] ==> n == value
      invariant os != [] ==> value >= 0 && n >= 0 && SignedBytes(value) == Continued(n) + os
      decreases if n < 0 then 0 else n
    {
      var tmp := n % 128 + if os == [] then 0 else 128;
      if n >= 0 { Unrolled(n, os); }
      if n <= 0x7f {
        os := [tmp] + os;
        break;
      }
      os := [tmp] + os;
      n := n / 128 - 1;
    }
  }

  method ParseVarInt(input: seq<Byte>) returns (r: Parsed<nat>)
    ensures r == ReadVarInt(input)
  {
    var n: nat, s := 0, input;
    while true
      invariant ReadFrom(n, s) == ReadVarInt(input)
      decreases |s|
    {
      if s == [] { return None; }
      var chData := s[0];
      s := s[1..];
      n := n * 128 + chData % 128;
      if chData >= 128 { n := n + 1; } else { return Some((n, s)); }
    }
  }

  /** Up to 127 one byte, up to 16511 two, up to 2113663 three. */
  lemma VarIntSizes(n: nat)
    ensures |VarIntBytes(n)| == 1 <==> n <= 127
    ensures |VarIntBytes(n)| == 2 <==> 128 <= n <= 16511
    ensures |VarIntBytes(n)| == 3 <==> 16512 <= n <= 2113663
  {
    if n > 127 {
      var m := n / 128 - 1;
      assert |VarIntBytes(n)| == |Continued(m)| + 1;
      if m > 127 {
        var k := m / 128 - 1;
        assert |Continued(m)| == |Continued(k)| + 1 && |Continued(k)| > 0;
        if k > 127 { assert |Continued(k)| == |Continued(k / 128 - 1)| + 1 && |Continued(k / 128 - 1)| > 0; }
      }
    }
  }

  lemma KnownVarInts()
    ensures VarIntBytes(0) == [0x00] && VarIntBytes(127) == [0x7f] && VarIntBytes(128) == [0x80, 0x00] && VarIntBytes(255) == [0x80, 0x7f]
    ensures VarIntBytes(256) == [0x81, 0x00] && VarIntBytes(16383) == [0xfe, 0x7f] && VarIntBytes(16384) == [0xff, 0x00]
    ensures VarIntBytes(16511) == [0xff, 0x7f] && VarIntBytes(65535) == [0x82, 0xfe, 0x7f]
  {
    hide VarIntBytes, Continued;
    SmallVarInt(0);
    SmallVarInt(127);
    TwoBytes(0, 0);
    TwoBytes(0, 127);
    TwoBytes(1, 0);
    TwoBytes(126, 127);
    TwoBytes(127, 0);
    TwoBytes(127, 127);
    ThreeBytes(2, 126, 127);
  }

  lemma SmallVarInt(n: nat)
    requires n < 128
    ensures VarIntBytes(n) == [n] && Continued(n) == [n + 128]
  {
  }

  lemma TwoBytes(a: nat, b: nat)
    requires a < 128 && b < 128
    ensures VarIntBytes(128 * (a + 1) + b) == [a + 128, b] && Continued(128 * (a + 1) + b) == [a + 128, b + 128]
  {
    var n := 128 * (a + 1) + b;
    DivisionIs(n, 128, a + 1, b);
    SmallVarInt(a);
  }

  lemma ThreeBytes(a: nat, b: nat, c: nat)
    requires a < 128 && b < 128 && c < 128
    ensures var m := 128 * (a + 1) + b; VarIntBytes(128 * (m + 1) + c) == [a + 128, b + 128, c]
  {
    var m := 128 * (a + 1) + b;
    DivisionIs(128 * (m + 1) + c, 128, m + 1, c);
    TwoBytes(a, b);
  }

  // ---- Amounts ----

  const WORD64 := 0x1_0000_0000_0000_0000

  function Pow10(e: nat): (p: nat)
    ensures p > 0
  {
    if e == 0 then 1 else 10 * Pow10(e - 1)
  }

  /** Zeros taken off the end, nine at most. */
  function Trimmed(n: nat, e: nat): (r: (nat, nat))
    requires n > 0 && e <= 9
    ensures 0 < r.0 <= n && e <= r.1 <= 9
    ensures r.1 < 9 ==> r.0 % 10 != 0
  {
    if n % 10 == 0 && e < 9 then Trimmed(n / 10, e + 1) else (n, e)
  }

  function Compressed(n: nat): nat
  {
    if n == 0 then 0 else
      var (m, e) := Trimmed(n, 0);
      if e < 9 then 1 + (m / 10 * 9 + m % 10 - 1) * 10 + e else 1 + (m - 1) * 10 + 9
  }

  function Mantissa(x: nat): nat
    requires x > 0
  {
    var y := (x - 1) / 10;
    if (x - 1) % 10 < 9 then y / 9 * 10 + y % 9 + 1 else y + 1
  }

  function Decompressed(x: nat): nat { if x == 0 then 0 else Mantissa(x) * Pow10((x - 1) % 10) }

  lemma {:induction false} TrimmedValue(n: nat, e: nat)
    requires n > 0 && e <= 9
    ensures var (m, f) := Trimmed(n, e); m * Pow10(f) == n * Pow10(e)
    decreases n
  {
    if n % 10 == 0 && e < 9 {
      TrimmedValue(n / 10, e + 1);
      ShiftTen(n / 10, Pow10(e));
    }
  }

  lemma ShiftTen(m: nat, p: nat)
    ensures m * (10 * p) == (10 * m) * p
  {
  }

  /** Compression is undone exactly, for every amount. */
  lemma DecompressCompressed(n: nat)
    ensures Decompressed(Compressed(n)) == n
  {
    if n > 0 {
      var (m, e) := Trimmed(n, 0);
      TrimmedValue(n, 0);
      assert n * Pow10(0) == n;
      MantissaBack(m, e, Compressed(n));
    }
  }

  lemma MantissaBack(m: nat, e: nat, x: nat)
    requires m > 0 && e <= 9 && (e < 9 ==> m % 10 != 0)
    requires x == if e < 9 then 1 + (m / 10 * 9 + m % 10 - 1) * 10 + e else 1 + (m - 1) * 10 + 9
    ensures x > 0 && (x - 1) % 10 == e && Mantissa(x) == m
  {
    var y := if e < 9 then m / 10 * 9 + (m % 10 - 1) else m - 1;
    DivisionIs(x - 1, 10, y, e);
    if e < 9 { DivisionIs(y, 9, m / 10, m % 10 - 1); }
  }

  lemma {:induction false} TrimmedOf(m: nat, e: nat, k: nat)
    requires m > 0 && k <= e <= 9 && (e < 9 ==> m % 10 != 0)
    ensures m * Pow10(e - k) > 0 && Trimmed(m * Pow10(e - k), k) == (m, e)
    decreases e - k
  {
    if k < e {
      TrimmedOf(m, e, k + 1);
      var n := m * Pow10(e - k - 1);
      ShiftTen(m, Pow10(e - k - 1));
      TenTimes(m, Pow10(e - k - 1));
      DivisionIs(10 * n, 10, n, 0);
      assert m * Pow10(e - k) == 10 * n;
    }
  }

  lemma TenTimes(m: nat, p: nat)
    ensures (10 * m) * p == 10 * (m * p)
  {
  }

  /** Every number is the compressed form of the amount it stands for. */
  lemma CompressDecompressed(x: nat)
    ensures Compressed(Decompressed(x)) == x
  {
    if x > 0 {
      var e, y, m := (x - 1) % 10, (x - 1) / 10, Mantissa(x);
      if e < 9 {
        assert y == y / 9 * 9 + y % 9;
        DivisionIs(m, 10, y / 9, y % 9 + 1);
      }
      hide Pow10, Mantissa, Trimmed;
      TrimmedOf(m, e, 0);
    }
  }

  /** Amounts with few digits become small numbers. */
  lemma KnownAmounts()
    ensures Compressed(0) == 0 && Compressed(1) == 1 && Compressed(1_000_000) == 7 && Compressed(100_000_000) == 9
    ensures Compressed(5_000_000_000) == 0x32 && Compressed(2_100_000_000_000_000) == 0x1406f40
  {
    KnownAmount(0x7, 1_000_000);
    KnownAmount(0x9, 100_000_000);
    KnownAmount(0x32, 5_000_000_000);
    KnownAmount(0x1406f40, 2_100_000_000_000_000);
  }

  lemma KnownAmount(x: nat, n: nat)
    requires Decompressed(x) == n
    ensures Compressed(n) == x
  {
    CompressDecompressed(x);
  }

  /** A compressed amount is at most nine times the amount. */
  lemma CompressedAtMost(n: nat)
    ensures Compressed(n) <= 9 * n
  {
    if n > 0 {
      var (m, e) := Trimmed(n, 0);
      TrimmedValue(n, 0);
      assert n * Pow10(0) == n;
      if e > 0 {
        AtLeastTen(e);
        Monotone(10, Pow10(e), m);
      }
    }
  }

  lemma AtLeastTen(e: nat)
    requires e > 0
    ensures Pow10(e) >= 10
  {
  }

  /** Nothing is cut off below a ninth of what 64 bits hold, which the money limits of all networks are. */
  lemma AmountFits(n: nat)
    requires n <= WORD64 / 9
    ensures Compressed(n) < WORD64 && Decompressed(Compressed(n)) == n
  {
    CompressedAtMost(n);
    DecompressCompressed(n);
  }

  lemma WrapTen(u: nat)
    ensures (u % WORD64 * 10) % WORD64 == (u * 10) % WORD64
  {
    var q, r := u / WORD64, u % WORD64;
    var q', r' := (r * 10) / WORD64, (r * 10) % WORD64;
    DivisionIs(u * 10, WORD64, 10 * q + q', r');
  }

  /** Zeros are counted and taken off. */
  method TrimZeros(amount: nat) returns (n: nat, e: nat)
    requires amount > 0
    ensures (n, e) == Trimmed(amount, 0)
  {
    n, e := amount, 0;
    while n % 10 == 0 && e < 9
      invariant n > 0 && 0 <= e <= 9 && Trimmed(n, e) == Trimmed(amount, 0)
      decreases 9 - e
    {
      n, e := n / 10, e + 1;
    }
  }

  lemma WrappedIs(amount: nat)
    ensures amount <= WORD64 / 9 ==> Compressed(amount) % WORD64 == Compressed(amount)
    ensures Compressed(0) == 0
  {
    hide Compressed;
    if amount <= WORD64 / 9 {
      AmountFits(amount);
      ModuloIs(Compressed(amount), WORD64, 0, Compressed(amount));
    }
    CompressedAtMost(0);
  }

  lemma TrimmedIs(amount: nat)
    requires amount > 0
    ensures var (n, e) := Trimmed(amount, 0);
            && n > 0 && e <= 9 && (e < 9 ==> 1 <= n % 10)
            && Compressed(amount) == if e < 9 then 1 + (n / 10 * 9 + n % 10 - 1) * 10 + e else 1 + (n - 1) * 10 + 9
  {
  }

  /** For any 64-bit amount; unsigned arithmetic wraps around. */
  method CompressAmount(amount: nat) returns (x: nat)
    requires amount < WORD64
    ensures x == Compressed(amount) % WORD64
    ensures amount <= WORD64 / 9 ==> x == Compressed(amount)
  {
    hide Compressed, Trimmed;
    WrappedIs(amount);
    if amount == 0 { return 0; }
    var n, e := TrimZeros(amount);
    TrimmedIs(amount);
    if e < 9 {
      var d := n % 10;
      assert 1 <= d <= 9;   // the assertion of the source
      n := n / 10;
      x := (1 + (n * 9 + d - 1) * 10 + e) % WORD64;
    } else {
      x := (1 + (n - 1) * 10 + 9) % WORD64;
    }
  }

  method DecompressAmount(compressed: nat) returns (n: nat)
    requires compressed < WORD64
    ensures n == Decompressed(compressed) % WORD64
  {
    hide Pow10;
    if compressed == 0 { return 0; }
    var x := compressed - 1;
    var e := x % 10;
    x := x / 10;
    if e < 9 {
      var d := x % 9 + 1;
      x := x / 9;
      n := x * 10 + d;
    } else {
      n := x + 1;
    }
    ghost var u := n;
    assert u == Mantissa(compressed) && u < WORD64;
    while e > 0
      invariant 0 <= e <= 9 && n == u % WORD64 && u * Pow10(e) == Decompressed(compressed)
    {
      TenMore(u, e);
      WrapTen(u);
      n, e := n * 10 % WORD64, e - 1;
      u := u * 10;
    }
    TenMore(u, 1);
  }

  lemma TenMore(u: nat, e: nat)
    requires e > 0
    ensures u * Pow10(e) == (u * 10) * Pow10(e - 1) && u * Pow10(0) == u
  {
    ShiftTen(u, Pow10(e - 1));
  }
}
