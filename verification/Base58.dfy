/**
  Base58 strings and byte vectors. The conversions work in place on digit buffers of a fixed size;
  the specification says what they compute, and the sizes are proved to be enough.
 */
module Base58 {
  import opened Basics
  import opened Arithmetic
  import opened Positional

  // ---- The alphabet ----

  predicate IsSpace(c: char) { c == ' ' || '\t' <= c <= '\r' }

  /** All alphanumeric characters except 0, I, O and l. */
  predicate InAlphabet(c: char)
  {
    '1' <= c <= '9' || 'A' <= c <= 'H' || 'J' <= c <= 'N' || 'P' <= c <= 'Z' || 'a' <= c <= 'k' || 'm' <= c <= 'z'
  }

  function DigitOf(c: char): (d: nat)
    requires InAlphabet(c)
    ensures d < 58
  {
    if c <= '9' then c as int - '1' as int
    else if c <= 'H' then c as int - 'A' as int + 9
    else if c <= 'N' then c as int - 'J' as int + 17
    else if c <= 'Z' then c as int - 'P' as int + 22
    else if c <= 'k' then c as int - 'a' as int + 33
    else c as int - 'm' as int + 44
  }

  function CharOf(d: nat): (c: char)
    requires d < 58
    ensures InAlphabet(c) && DigitOf(c) == d && !IsSpace(c) && (c == '1' <==> d == 0)
  {
    if d < 9 then ('1' as int + d) as char
    else if d < 17 then ('A' as int + d - 9) as char
    else if d < 22 then ('J' as int + d - 17) as char
    else if d < 33 then ('P' as int + d - 22) as char
    else if d < 44 then ('a' as int + d - 33) as char
    else ('m' as int + d - 44) as char
  }

  lemma CharOfDigit(c: char)
    requires InAlphabet(c)
    ensures CharOf(DigitOf(c)) == c
  {
  }

  const ALPHABET: string := DIGITS + UPPER_A + UPPER_J + UPPER_P + LOWER_A + LOWER_M
  const DIGITS: string := "123456789"
  const UPPER_A: string := "ABCDEFGH"
  const UPPER_J: string := "JKLMN"
  const UPPER_P: string := "PQRSTUVWXYZ"
  const LOWER_A: string := "abcdefghijk"
  const LOWER_M: string := "mnopqrstuvwxyz"

  /** The digits in order, and nothing else is a digit. */
  lemma AlphabetIs(c: char, d: nat)
    requires d < 58
    ensures |ALPHABET| == 58 && CharOf(d) == ALPHABET[d]
    ensures InAlphabet(c) <==> c in ALPHABET
  {
    assert forall k: nat :: k < 9 ==> CharOf(k) == DIGITS[k];
    assert forall k: nat :: k < 8 ==> CharOf(9 + k) == UPPER_A[k];
    assert forall k: nat :: k < 5 ==> CharOf(17 + k) == UPPER_J[k];
    assert forall k: nat :: k < 11 ==> CharOf(22 + k) == UPPER_P[k];
    assert forall k: nat :: k < 11 ==> CharOf(33 + k) == LOWER_A[k];
    assert forall k: nat :: k < 14 ==> CharOf(44 + k) == LOWER_M[k];
  }

  function Chars(ds: seq<nat>): (s: string)
    requires AreDigits(58, ds)
    ensures |s| == |ds| && forall i :: 0 <= i < |s| ==> s[i] == CharOf(ds[i])
  {
    seq(|ds|, i requires 0 <= i < |ds| => CharOf(ds[i]))
  }

  predicate AllInAlphabet(s: string) { forall i :: 0 <= i < |s| ==> InAlphabet(s[i]) }

  function DigitsOf(s: string): (ds: seq<nat>)
    requires AllInAlphabet(s)
    ensures |ds| == |s| && AreDigits(58, ds) && forall i :: 0 <= i < |s| ==> ds[i] == DigitOf(s[i])
  {
    seq(|s|, i requires 0 <= i < |s| => DigitOf(s[i]))
  }

  // ---- What the conversions compute ----

  /** A one for every leading zero byte, then the number in base 58. */
  function Encoded(b: seq<nat>): string
    requires AreDigits(256, b)
  {
    seq(LeadingZeros(b), _ => '1') + Chars(Digits(58, Val(256, b)))
  }

  /** Two encodings. */
  lemma KnownEncodings()
    ensures Encoded([0x61]) == "2g" && Encoded([0x62, 0x62, 0x62]) == "a3gV"
  {
    hide Val, Encoded, LeadingZeros;
    KnownValues();
    KnownEncoding([0x61], 97, [1, 39]);
    KnownEncoding([0x62, 0x62, 0x62], 6447714, [33, 2, 39, 28]);
    assert Chars([1, 39]) == "2g";
    assert Chars([33, 2, 39, 28]) == "a3gV";
  }

  lemma KnownValues()
    ensures Val(256, [0x61]) == 97 == Val(58, [1, 39]) && Val(256, [0x62, 0x62, 0x62]) == 6447714 == Val(58, [33, 2, 39, 28])
  {
    hide Val;
    One(256, 0x61);
    Two(58, 1, 39);
    Two(256, 0x62, 0x62);
    More(256, [0x62, 0x62], 0x62);
    Two(58, 33, 2);
    More(58, [33, 2], 39);
    More(58, [33, 2, 39], 28);
    assert [33, 2] + [39] == [33, 2, 39] && [33, 2, 39] + [28] == [33, 2, 39, 28] && [0x62, 0x62] + [0x62] == [0x62, 0x62, 0x62];
  }

  lemma Two(base: nat, a: nat, b: nat)
    ensures Val(base, [a, b]) == a * base + b
  {
    assert [a, b] == [a] + [b] && [a] == [] + [a];
    One(base, a);
    More(base, [a], b);
  }

  lemma One(base: nat, a: nat)
    ensures Val(base, [a]) == a
  {
    assert [a][..0] == [];
    assert Val(base, []) == 0 && 0 * base == 0;
  }

  lemma More(base: nat, s: seq<nat>, d: nat)
    ensures Val(base, s + [d]) == Val(base, s) * base + d
  {
    assert (s + [d])[..|s|] == s;
  }

  lemma KnownEncoding(b: seq<nat>, v: nat, ds: seq<nat>)
    requires AreDigits(256, b) && AreDigits(58, ds) && |b| > 0 && b[0] != 0 && Val(256, b) == v
    requires (|ds| > 0 ==> ds[0] != 0) && Val(58, ds) == v
    ensures Encoded(b) == Chars(ds)
  {
    DigitsVal(58, ds);
    assert LeadingZeros(b) == 0;
    assert seq(0, _ => '1') + Chars(ds) == Chars(ds);
  }

  function SkipSpaces(s: string): (r: string)
    ensures |r| > 0 ==> !IsSpace(r[0])
  {
    if s != [] && IsSpace(s[0]) then SkipSpaces(s[1..]) else s
  }

  /** How many characters come before the first space. */
  function WordLength(s: string): (n: nat)
    ensures n <= |s| && (forall i :: 0 <= i < n ==> !IsSpace(s[i])) && (n < |s| ==> IsSpace(s[n]))
  {
    if s == [] || IsSpace(s[0]) then 0 else 1 + WordLength(s[1..])
  }

  predicate AllSpaces(s: string) { forall i :: 0 <= i < |s| ==> IsSpace(s[i]) }

  /** The string without the spaces around it, if there are none inside. */
  function Word(s: string): string { var t := SkipSpaces(s); t[..WordLength(t)] }

  /** One word of the alphabet, with spaces around it. */
  predicate WellFormed(s: string)
  {
    var t := SkipSpaces(s);
    AllInAlphabet(Word(s)) && AllSpaces(t[WordLength(t)..])
  }

  function Ones(s: string): (n: nat)
    ensures n <= |s| && (forall i :: 0 <= i < n ==> s[i] == '1') && (n < |s| ==> s[n] != '1')
  {
    if s != [] && s[0] == '1' then 1 + Ones(s[1..]) else 0
  }

  /** A zero byte for every leading one, then the number in base 256. */
  function Decoded(s: string): Option<seq<nat>>
  {
    if !WellFormed(s) then None else
      var w := Word(s);
      Some(seq(Ones(w), _ => 0) + Digits(256, Val(58, DigitsOf(w))))
  }

  // ---- Values and digits ----

  lemma {:induction false} ValCons(base: nat, s: seq<nat>)
    requires s != []
    ensures Val(base, s) == s[0] * Pow(base, |s| - 1) + Val(base, s[1..])
    decreases |s|
  {
    var n := |s| - 1;
    if n > 0 {
      ValCons(base, s[..n]);
      assert s[..n][1..] == s[1..][..n - 1];
      Distribute(s[0] * Pow(base, n - 1), Val(base, s[1..][..n - 1]), base);
      Associate(s[0], Pow(base, n - 1), base);
    } else {
      assert s[..0] == [] && s[1..] == [];
      assert Pow(base, 0) == 1;
    }
  }

  lemma {:induction false} ValBound(base: nat, s: seq<nat>)
    requires AreDigits(base, s) && base > 0
    ensures Val(base, s) < Pow(base, |s|)
  {
    if s != [] {
      var n := |s| - 1;
      ValBound(base, s[..n]);
      Monotone(Val(base, s[..n]) + 1, Pow(base, n), base);
      Distribute(Val(base, s[..n]), 1, base);
    }
  }

  lemma Appended(base: nat, s: seq<nat>, d: nat)
    ensures Val(base, s + [d]) == Val(base, s) * base + d
  {
    assert (s + [d])[..|s|] == s;
  }

  lemma DigitsNext(base: nat, v: nat)
    requires base > 1
    ensures Digits(base, 0) == [] && Val(base, []) == 0
    ensures v > 0 ==> v / base >= 0 && Digits(base, v) == Digits(base, v / base) + [v % base]
  {
    QuotientAtMost(v, base);
  }

  lemma {:induction false} ValDigits(base: nat, v: nat)
    requires base > 1
    ensures Val(base, Digits(base, v)) == v
    decreases v
  {
    hide Val, Digits;
    DigitsNext(base, v);
    if v > 0 {
      QuotientAtMost(v, base);
      var q, r := v / base, v % base;
      ValDigits(base, q);
      assert v == q * base + r;
      Appended(base, Digits(base, q), r);
    }
  }

  /** Digits without leading zeros are the digits of their value. */
  lemma {:induction false} DigitsVal(base: nat, s: seq<nat>)
    requires base > 1 && AreDigits(base, s) && (|s| > 0 ==> s[0] != 0)
    ensures Digits(base, Val(base, s)) == s
  {
    if s != [] {
      var n := |s| - 1;
      DigitsVal(base, s[..n]);
      var v := Val(base, s[..n]);
      DivisionIs(Val(base, s), base, v, s[n]);
      if n > 0 {
        assert Digits(base, v) != [];
        Monotone(1, v, base);
      }
      assert s == s[..n] + [s[n]];
    }
  }

  lemma {:induction false} ValZeros(base: nat, s: seq<nat>)
    ensures Val(base, s) == Val(base, Strip(s))
    decreases |s|
  {
    if s != [] && s[0] == 0 {
      ValCons(base, s);
      ValZeros(base, s[1..]);
      assert Strip(s) == Strip(s[1..]);
    } else {
      assert Strip(s) == s;
    }
  }

  lemma StripIsDigits(base: nat, s: seq<nat>)
    requires base > 1 && AreDigits(base, s)
    ensures Digits(base, Val(base, s)) == Strip(s)
  {
    ValZeros(base, s);
    DigitsVal(base, Strip(s));
  }

  lemma ZerosAndStrip(s: seq<nat>)
    ensures seq(LeadingZeros(s), _ => 0) + Strip(s) == s
  {
  }

  // ---- Round trips ----

  lemma OnesUnique(s: string, n: nat)
    requires n <= |s| && (forall i :: 0 <= i < n ==> s[i] == '1') && (n < |s| ==> s[n] != '1')
    ensures Ones(s) == n
  {
    var k := Ones(s);
  }

  lemma LeadingZerosUnique(s: seq<nat>, n: nat)
    requires n <= |s| && (forall i :: 0 <= i < n ==> s[i] == 0) && (n < |s| ==> s[n] != 0)
    ensures LeadingZeros(s) == n
  {
    var k := LeadingZeros(s);
  }

  /** A word of the alphabet has no spaces to skip. */
  lemma WordOfWord(s: string)
    requires AllInAlphabet(s)
    ensures Word(s) == s && WellFormed(s)
  {
    assert forall i :: 0 <= i < |s| ==> !IsSpace(s[i]);
    assert SkipSpaces(s) == s;
    assert WordLength(s) == |s|;
  }

  lemma ZeroDigits(z: nat, ds: seq<nat>)
    requires |ds| > 0 ==> ds[0] != 0
    ensures var s := seq(z, _ => 0) + ds; LeadingZeros(s) == z && Strip(s) == ds
  {
    var s := seq(z, _ => 0) + ds;
    LeadingZerosUnique(s, z);
  }

  /** Decoding an encoding gives the bytes back. */
  lemma DecodeEncoded(b: seq<nat>)
    requires AreDigits(256, b)
    ensures Decoded(Encoded(b)) == Some(b)
  {
    hide Val, Pow;
    var z, ds := LeadingZeros(b), Digits(58, Val(256, b));
    var s := Encoded(b);
    forall i | 0 <= i < |s| ensures InAlphabet(s[i]) && DigitOf(s[i]) == (seq(z, _ => 0) + ds)[i] {
      if i >= z { assert s[i] == CharOf(ds[i - z]); }
    }
    WordOfWord(s);
    OnesUnique(s, z);
    assert DigitsOf(s) == seq(z, _ => 0) + ds;
    ZeroDigits(z, ds);
    ValZeros(58, DigitsOf(s));
    ValDigits(58, Val(256, b));
    StripIsDigits(256, b);
    ZerosAndStrip(b);
  }

  lemma OnesAreZeros(w: string)
    requires AllInAlphabet(w)
    ensures LeadingZeros(DigitsOf(w)) == Ones(w)
  {
    var ds := DigitsOf(w);
    forall i | 0 <= i < |w| ensures ds[i] == 0 <==> w[i] == '1' { CharOfDigit(w[i]); }
    hide DigitsOf, DigitOf;
    LeadingZerosUnique(ds, Ones(w));
  }

  lemma CharsBack(w: string)
    requires AllInAlphabet(w)
    ensures |DigitsOf(w)| == |w| && forall i :: 0 <= i < |w| ==> DigitsOf(w)[i] < 58 && CharOf(DigitsOf(w)[i]) == w[i]
  {
    forall i | 0 <= i < |w| ensures CharOf(DigitsOf(w)[i]) == w[i] { CharOfDigit(w[i]); }
  }

  lemma OnesAreOnes(w: string)
    ensures Ones(w) <= |w| && forall i :: 0 <= i < Ones(w) ==> w[i] == '1'
  {
  }

  lemma CharsOfRest(w: string, ds: seq<nat>, z: nat)
    requires z <= |w| == |ds| && forall i :: 0 <= i < |w| ==> ds[i] < 58 && CharOf(ds[i]) == w[i]
    ensures AreDigits(58, ds[z..]) && Chars(ds[z..]) == w[z..]
  {
    hide CharOf;
    assert forall i :: 0 <= i < |ds[z..]| ==> ds[z..][i] == ds[z + i];
  }

  lemma StripIs(ds: seq<nat>)
    ensures LeadingZeros(ds) <= |ds| && Strip(ds) == ds[LeadingZeros(ds)..]
  {
  }

  lemma WordFromDigits(w: string)
    requires AllInAlphabet(w)
    ensures AreDigits(58, Strip(DigitsOf(w))) && seq(Ones(w), _ => '1') + Chars(Strip(DigitsOf(w))) == w
  {
    hide *;
    OnesAreZeros(w);
    CharsBack(w);
    OnesAreOnes(w);
    StripIs(DigitsOf(w));
    CharsOfRest(w, DigitsOf(w), Ones(w));
    assert seq(Ones(w), _ => '1') == w[..Ones(w)];
  }

  lemma DecodedIs(s: string)
    requires Decoded(s).Some?
    ensures var w := Word(s);
            AllInAlphabet(w) && Decoded(s).value == seq(Ones(w), _ => 0) + Digits(256, Val(58, DigitsOf(w)))
  {
    hide Val, Word, Digits, DigitsOf, Ones;
  }

  lemma EncodedIs(z: nat, v: nat)
    ensures var b := seq(z, _ => 0) + Digits(256, v);
            AreDigits(256, b) && Encoded(b) == seq(z, _ => '1') + Chars(Digits(58, v))
  {
    var bytes := Digits(256, v);
    var b := seq(z, _ => 0) + bytes;
    ZeroDigits(z, bytes);
    ValZeros(256, b);
    ValDigits(256, v);
    hide Val, Digits, LeadingZeros, Strip;
  }

  /** Encoding what was decoded gives the word back. */
  lemma EncodeDecoded(s: string)
    requires Decoded(s).Some?
    ensures AreDigits(256, Decoded(s).value) && Encoded(Decoded(s).value) == Word(s)
  {
    hide *;
    DecodedIs(s);
    var w := Word(s);
    assert AreDigits(58, DigitsOf(w)) by { DigitsAreDigits(w); }
    EncodedIs(Ones(w), Val(58, DigitsOf(w)));
    StripIsDigits(58, DigitsOf(w));
    WordFromDigits(w);
  }

  lemma DigitsAreDigits(w: string)
    requires AllInAlphabet(w)
    ensures AreDigits(58, DigitsOf(w))
  {
  }

  // ---- The conversions in place ----

  lemma CarryStep(base: nat, a: nat, factor: nat, carry: nat, r: nat, carry': nat, low: nat, old': nat, digit: nat, w: nat)
    requires carry + factor * a == base * carry' + r && low + carry * w == old' * factor + digit
    ensures (r * w + low) + carry' * (base * w) == (a * w + old') * factor + digit
  {
    Distribute(carry, factor * a, w);
    Distribute(base * carry', r, w);
    Distribute(a * w, old', factor);
    Associate(carry', base, w);
    Associate(factor, a, w);
  }

  /** The carry of a digit times the factor stays below the factor. */
  lemma CarryBound(base: nat, a: nat, factor: nat, carry: nat)
    requires base > 0 && a < base && carry < factor
    ensures 0 <= factor * a && (carry + factor * a) / base < factor && 0 <= (carry + factor * a) % base < base
  {
    Monotone(0, factor, a);
    Monotone(a + 1, base, factor);
    Distribute(a, 1, factor);
    var n := carry + factor * a;
    var q := n / base;
    assert n == q * base + n % base;
    if q >= factor { Monotone(factor, q, base); }
  }

  /** One place of the pass over the buffer: the digit there, and the carry into the next. */
  lemma MulAddStep(base: nat, factor: nat, digit: nat, carry: nat, d: nat, low: seq<nat>, was: seq<nat>)
    requires base > 1 && d < base && carry < factor && |low| == |was|
    requires Val(base, low) + carry * Pow(base, |low|) == Val(base, was) * factor + digit
    ensures var sum := carry + factor * d;
            && 0 <= sum && 0 <= sum % base < base && 0 <= sum / base < factor
            && Val(base, [sum % base] + low) + sum / base * Pow(base, |low| + 1) == Val(base, [d] + was) * factor + digit
  {
    hide Val, Pow;
    CarryBound(base, d, factor, carry);
    var sum := carry + factor * d;
    QuotientAtMost(sum, base);
    var r, q := sum % base, sum / base;
    assert sum == q * base + r;
    MulAddSum(base, factor, digit, carry, d, low, was, r, q);
  }

  lemma MulAddSum(base: nat, factor: nat, digit: nat, carry: nat, d: nat, low: seq<nat>, was: seq<nat>, r: nat, q: nat)
    requires base > 1 && |low| == |was| && carry + factor * d == q * base + r
    requires Val(base, low) + carry * Pow(base, |low|) == Val(base, was) * factor + digit
    ensures Val(base, [r] + low) + q * Pow(base, |low| + 1) == Val(base, [d] + was) * factor + digit
  {
    hide Val, Pow;
    Prepended(base, r, low);
    Prepended(base, d, was);
    PowNext(base, |low|);
    CarryStep(base, d, factor, carry, r, q, Val(base, low), Val(base, was), digit, Pow(base, |low|));
  }

  /** The number in the buffer times the factor, plus a digit; what does not fit is left over. */
  method MulAdd(buf: array<nat>, base: nat, factor: nat, digit: nat) returns (carry: nat)
    requires base > 1 && digit < factor && AreDigits(base, buf[..])
    modifies buf
    ensures AreDigits(base, buf[..])
    ensures Val(base, buf[..]) + carry * Pow(base, buf.Length) == old(Val(base, buf[..])) * factor + digit
  {
    hide Val, Pow;
    ghost var a, n := buf[..], buf.Length;
    carry := digit;
    var j := buf.Length;
    assert Val(base, buf[j..]) == 0 && Val(base, a[j..]) == 0 && Pow(base, 0) == 1 by { NoDigits(base, a); }
    while j > 0
      invariant 0 <= j <= n && carry < factor
      invariant AreDigits(base, buf[..]) && forall i :: 0 <= i < j ==> buf[i] == a[i]
      invariant Val(base, buf[j..]) + carry * Pow(base, n - j) == Val(base, a[j..]) * factor + digit
    {
      j := j - 1;
      ghost var low := buf[j + 1..];
      MulAddStep(base, factor, digit, carry, buf[j], low, a[j + 1..]);
      var sum := carry + factor * buf[j];
      buf[j] := sum % base;
      assert buf[j..] == [sum % base] + low && a[j..] == [a[j]] + a[j + 1..];
      carry := sum / base;
    }
    assert buf[0..] == buf[..] && a[0..] == a;
  }

  lemma NoDigits(base: nat, a: seq<nat>)
    ensures Val(base, a[|a|..]) == 0 && Pow(base, 0) == 1
  {
  }

  lemma PowNext(base: nat, n: nat)
    ensures Pow(base, n + 1) == base * Pow(base, n)
  {
  }

  lemma Prepended(base: nat, d: nat, s: seq<nat>)
    ensures Val(base, [d] + s) == d * Pow(base, |s|) + Val(base, s)
  {
    ValCons(base, [d] + s);
    assert ([d] + s)[1..] == s;
  }

  method NewBuffer(n: nat, base: nat) returns (buf: array<nat>)
    requires base > 0
    ensures fresh(buf) && buf.Length == n && AreDigits(base, buf[..]) && Val(base, buf[..]) == 0
  {
    buf := new nat[n](_ => 0);
    AllZeros(base, buf[..]);
  }

  lemma {:induction false} AllZeros(base: nat, s: seq<nat>)
    requires forall i :: 0 <= i < |s| ==> s[i] == 0
    ensures Val(base, s) == 0
  {
    if s != [] { AllZeros(base, s[..|s| - 1]); }
  }

  /** Reads the digits into a buffer of another base that is large enough for all of them. */
  method Convert(ds: seq<nat>, base: nat, target: nat, size: nat) returns (buf: array<nat>)
    requires base > 1 && target > 1 && AreDigits(base, ds) && Pow(base, |ds|) <= Pow(target, size)
    ensures fresh(buf) && AreDigits(target, buf[..]) && Val(target, buf[..]) == Val(base, ds)
  {
    hide Val, Pow;
    buf := NewBuffer(size, target);
    var k := 0;
    assert Val(base, ds[..0]) == 0 by { AllZeros(base, ds[..0]); }
    while k < |ds|
      invariant 0 <= k <= |ds| && buf.Length == size && AreDigits(target, buf[..])
      invariant fresh(buf) && Val(target, buf[..]) == Val(base, ds[..k])
    {
      ReadPrefix(base, ds, k);
      var carry := MulAdd(buf, target, base, ds[k]);
      assert carry == 0;   // the assertion of the source
      k := k + 1;
    }
    assert ds[..k] == ds;
  }

  lemma ReadPrefix(base: nat, ds: seq<nat>, k: nat)
    requires base > 1 && AreDigits(base, ds) && k < |ds|
    ensures Val(base, ds[..k + 1]) == Val(base, ds[..k]) * base + ds[k] < Pow(base, |ds|)
  {
    assert ds[..k + 1][..k] == ds[..k];
    ValBound(base, ds[..k + 1]);
    PowLonger(base, k + 1, |ds|);
  }

  method CountZeros(s: seq<nat>) returns (n: nat)
    ensures n == LeadingZeros(s)
  {
    n := 0;
    while n < |s| && s[n] == 0
      invariant n <= |s| && forall i :: 0 <= i < n ==> s[i] == 0
    {
      n := n + 1;
    }
    LeadingZerosUnique(s, n);
  }

  method EncodeBase58(b: seq<nat>) returns (str: string)
    requires AreDigits(256, b)
    ensures str == Encoded(b)
  {
    hide Val, Pow, Chars, CharOf;
    var zeroes := CountZeros(b);
    var rest := b[zeroes..];
    EncodingFits(|rest|);
    var b58 := Convert(rest, 256, 58, |rest| * 138 / 100 + 1);
    ValZeros(256, b);
    StripIsDigits(58, b58[..]);
    var it := CountZeros(b58[..]);
    var tail := Translate(b58[it..]);
    str := seq(zeroes, _ => '1') + tail;
  }

  method Translate(ds: seq<nat>) returns (str: string)
    requires AreDigits(58, ds)
    ensures str == Chars(ds)
  {
    hide CharOf;
    str := [];
    for i := 0 to |ds|
      invariant str == Chars(ds[..i])
    {
      str := str + [CharOf(ds[i])];
    }
    assert ds[..|ds|] == ds;
  }

  /** Spaces, ones, digits, spaces: the number of ones, the digits, and the length on which the buffer is sized. */
  method SkipLeading(psz: string) returns (s: string)
    ensures s == SkipSpaces(psz)
  {
    s := psz;
    while s != [] && IsSpace(s[0])
      invariant SkipSpaces(s) == SkipSpaces(psz)
      decreases |s|
    {
      s := s[1..];
    }
  }

  /** What the scan has seen: ones, other characters of the alphabet up to k, and their digits. */
  ghost predicate Scanned(s: string, zeroes: nat, ds: seq<nat>, k: nat)
  {
    && zeroes <= k <= |s| && |ds| == k - zeroes && AreDigits(58, ds)
    && (forall i :: 0 <= i < zeroes ==> s[i] == '1') && (zeroes < |s| ==> s[zeroes] != '1')
    && (forall i :: zeroes <= i < k ==> !IsSpace(s[i]) && InAlphabet(s[i]) && ds[i - zeroes] == DigitOf(s[i]))
  }

  lemma ScannedFits(s: string, zeroes: nat, ds: seq<nat>, k: nat)
    requires Scanned(s, zeroes, ds, k)
    ensures zeroes <= k <= |s| && |ds| == k - zeroes && AreDigits(58, ds)
  {
  }

  method CountOnes(s: string) returns (zeroes: nat)
    ensures Scanned(s, zeroes, [], zeroes)
  {
    zeroes := 0;
    while zeroes < |s| && s[zeroes] == '1'
      invariant 0 <= zeroes <= |s| && forall i :: 0 <= i < zeroes ==> s[i] == '1'
    {
      zeroes := zeroes + 1;
    }
  }

  lemma ScannedMore(s: string, zeroes: nat, ds: seq<nat>, k: nat)
    requires Scanned(s, zeroes, ds, k) && k < |s| && !IsSpace(s[k]) && InAlphabet(s[k])
    ensures Scanned(s, zeroes, ds + [DigitOf(s[k])], k + 1)
  {
    hide IsSpace, InAlphabet;
  }

  /** The word ends where the scan stopped. */
  lemma ScannedWord(psz: string, s: string, zeroes: nat, ds: seq<nat>, k: nat)
    requires s == SkipSpaces(psz) && Scanned(s, zeroes, ds, k) && (k < |s| ==> IsSpace(s[k]))
    ensures Word(psz) == s[..k] && AllInAlphabet(Word(psz)) && zeroes == Ones(Word(psz))
    ensures DigitsOf(Word(psz)) == seq(zeroes, _ => 0) + ds
    ensures WellFormed(psz) <==> AllSpaces(s[k..])
  {
    hide SkipSpaces;
    assert WordLength(s) == k by { OneIsNoSpace(); hide InAlphabet, DigitOf; }
    hide IsSpace;
  }

  lemma OneIsNoSpace()
    ensures !IsSpace('1') && InAlphabet('1')
  {
  }

  lemma BadCharacter(psz: string, s: string, zeroes: nat, ds: seq<nat>, k: nat)
    requires s == SkipSpaces(psz) && Scanned(s, zeroes, ds, k) && k < |s| && !IsSpace(s[k]) && !InAlphabet(s[k])
    ensures !WellFormed(psz)
  {
    hide SkipSpaces;
    assert WordLength(s) > k by { OneIsNoSpace(); hide InAlphabet, DigitOf; }
    hide IsSpace, WordLength;
    assert Word(psz)[k] == s[k];
  }

  method ScanWord(psz: string) returns (ok: bool, zeroes: nat, ds: seq<nat>, n: nat)
    ensures ok == WellFormed(psz)
    ensures ok ==> |ds| <= n && AreDigits(58, ds) && zeroes == Ones(Word(psz)) && DigitsOf(Word(psz)) == seq(zeroes, _ => 0) + ds
  {
    hide SkipSpaces, Word, WellFormed, Scanned, DigitsOf, Ones;
    var s := SkipLeading(psz);
    zeroes := CountOnes(s);
    assert zeroes <= |s| by { ScannedFits(s, zeroes, [], zeroes); }
    n := |s| - zeroes;
    ds := [];
    var k := zeroes;
    while k < |s| && !IsSpace(s[k])
      invariant Scanned(s, zeroes, ds, k) && zeroes <= k <= |s| && |ds| == k - zeroes && AreDigits(58, ds)
    {
      if !InAlphabet(s[k]) {
        BadCharacter(psz, s, zeroes, ds, k);
        return false, zeroes, ds, n;
      }
      ScannedMore(s, zeroes, ds, k);
      ds := ds + [DigitOf(s[k])];
      k := k + 1;
    }
    ScannedWord(psz, s, zeroes, ds, k);
    var j := k;
    while j < |s| && IsSpace(s[j])
      invariant k <= j <= |s| && forall i :: k <= i < j ==> IsSpace(s[i])
    {
      j := j + 1;
    }
    ok := j == |s|;
    if !ok { assert s[k..][j - k] == s[j]; }
  }

  method DecodeBase58(psz: string) returns (ok: bool, vch: seq<nat>)
    ensures ok == Decoded(psz).Some?
    ensures ok ==> vch == Decoded(psz).value
  {
    hide Val, Pow, Word, WellFormed, DigitsOf;
    var zeroes, ds, n;
    ok, zeroes, ds, n := ScanWord(psz);
    if !ok { return false, []; }
    DecodingFits(n);
    Shorter(|ds|, n);
    var b256 := Convert(ds, 58, 256, n * 733 / 1000 + 1);
    DropZeros(zeroes, ds);
    StripIsDigits(256, b256[..]);
    var it := CountZeros(b256[..]);
    vch := seq(zeroes, _ => 0) + b256[it..];
  }

  lemma Shorter(k: nat, n: nat)
    requires k <= n
    ensures Pow(58, k) <= Pow(58, n)
  {
    PowLonger(58, k, n);
  }

  lemma DropZeros(z: nat, ds: seq<nat>)
    ensures Val(58, seq(z, _ => 0) + ds) == Val(58, ds)
  {
    hide Val;
    var s := seq(z, _ => 0) + ds;
    ValZeros(58, s);
    ValZeros(58, ds);
    LeadingZerosUnique(s, z + LeadingZeros(ds));
    assert Strip(s) == Strip(ds);
  }
}
