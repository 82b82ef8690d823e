/**
  The stored form of a coin record: version, a code with the flags, a bit mask of the unspent
  outputs, the outputs with compressed amounts and scripts, and the height.
 */
module CoinsCodec {
  import opened Basics
  import opened Arithmetic
  import opened Coins
  import opened VarInt

  // ---- Scripts ----

  const OP_DUP: bv8 := 0x76
  const OP_HASH160: bv8 := 0xa9
  const OP_EQUALVERIFY: bv8 := 0x88
  const OP_EQUAL: bv8 := 0x87
  const OP_CHECKSIG: bv8 := 0xac
  const SPECIAL_SCRIPTS := 6

  /** The curve: which uncompressed keys are valid, and how a compressed one is expanded. */
  datatype Curve = Curve(valid: Script -> bool, expand: (bool, Script) -> Option<Script>) {
    /** Expanding the compressed form of a valid key gives the key. */
    ghost predicate Sound()
    {
      forall k: Script :: valid(k) && |k| == 65 && k[0] == 4 ==> expand(IsOdd(k[64]), k[1..33]) == Some(k)
    }
  }

  predicate IsOdd(b: bv8) { b & 1 != 0 }

  function ToBytes(s: Script): (r: seq<Byte>)
    ensures |r| == |s|
  {
    seq(|s|, i requires 0 <= i < |s| => s[i] as int)
  }

  function FromBytes(s: seq<Byte>): (r: Script)
    ensures |r| == |s|
  {
    seq(|s|, i requires 0 <= i < |s| => s[i] as bv8)
  }

  lemma BytesBack(s: Script)
    ensures FromBytes(ToBytes(s)) == s
  {
  }

  predicate IsToKeyID(s: Script)
  {
    |s| == 25 && s[0] == OP_DUP && s[1] == OP_HASH160 && s[2] == 20 && s[23] == OP_EQUALVERIFY && s[24] == OP_CHECKSIG
  }

  predicate IsToScriptID(s: Script) { |s| == 23 && s[0] == OP_HASH160 && s[1] == 20 && s[22] == OP_EQUAL }

  predicate IsToCompressedKey(s: Script) { |s| == 35 && s[0] == 33 && s[34] == OP_CHECKSIG && (s[1] == 2 || s[1] == 3) }

  predicate IsToFullKey(curve: Curve, s: Script)
  {
    |s| == 67 && s[0] == 65 && s[66] == OP_CHECKSIG && s[1] == 4 && curve.valid(s[1..66])
  }

  /** The special forms: a tag and what varies. */
  function Compress(curve: Curve, s: Script): Option<(nat, Script)>
  {
    if IsToKeyID(s) then Some((0, s[3..23]))
    else if IsToScriptID(s) then Some((1, s[2..22]))
    else if IsToCompressedKey(s) then Some((if s[1] == 2 then 2 else 3, s[2..34]))
    else if IsToFullKey(curve, s) then Some((if IsOdd(s[65]) then 5 else 4, s[2..34]))
    else None
  }

  /** Which script gets which tag: a key hash, a script hash, a compressed key, a full key by the parity of its last byte. */
  lemma SpecialTags(curve: Curve, h: Script, x: Script, y: Script)
    requires |h| == 20 && |x| == 32 && |y| == 32
    ensures Compress(curve, [0x76, 0xa9, 20] + h + [0x88, 0xac]) == Some((0, h))
    ensures Compress(curve, [0xa9, 20] + h + [0x87]) == Some((1, h))
    ensures Compress(curve, [33, 2] + x + [0xac]) == Some((2, x)) && Compress(curve, [33, 3] + x + [0xac]) == Some((3, x))
    ensures var key := [4] + x + y;
            curve.valid(key) ==> Compress(curve, [65] + key + [0xac]) == Some((if y[31] & 1 == 1 then 5 else 4, x))
  {
    var a, b, c, d := [0x76, 0xa9, 20] + h + [0x88, 0xac], [0xa9, 20] + h + [0x87], [33, 2] + x + [0xac], [33, 3] + x + [0xac];
    assert a[3..23] == h && b[2..22] == h && c[2..34] == x && d[2..34] == x;
    var key := [4] + x + y;
    var e := [65] + key + [0xac];
    assert e[1..66] == key && e[2..34] == x && e[65] == y[31];
    OneBit(y[31]);
  }

  lemma OneBit(b: bv8)
    ensures b & 1 != 0 <==> b & 1 == 1
  {
  }

  function SpecialSize(tag: nat): nat { if tag <= 1 then 20 else if tag <= 5 then 32 else 0 }

  /** A full key that does not expand leaves the script as it was: empty. */
  function Decompress(curve: Curve, tag: nat, x: Script): Script
    requires tag < SPECIAL_SCRIPTS && |x| == SpecialSize(tag)
  {
    if tag == 0 then [OP_DUP, OP_HASH160, 20] + x + [OP_EQUALVERIFY, OP_CHECKSIG]
    else if tag == 1 then [OP_HASH160, 20] + x + [OP_EQUAL]
    else if tag <= 3 then [33, if tag == 2 then 2 else 3] + x + [OP_CHECKSIG]
    else
      var key := curve.expand(tag == 5, x);
      if key.None? then [] else [65] + key.value + [OP_CHECKSIG]
  }

  lemma DecompressCompress(curve: Curve, s: Script)
    requires curve.Sound() && Compress(curve, s).Some?
    ensures var (tag, x) := Compress(curve, s).value;
            tag < SPECIAL_SCRIPTS && |x| == SpecialSize(tag) && Decompress(curve, tag, x) == s
  {
    if IsToKeyID(s) || IsToScriptID(s) || IsToCompressedKey(s) {
    } else {
      var k := s[1..66];
      SliceOfSlice(s, 1, 66, 1, 33);
      assert k[0] == s[1] && k[64] == s[65];
      assert s == [65] + k + [OP_CHECKSIG];
    }
  }

  lemma SliceOfSlice(s: Script, a: nat, b: nat, i: nat, j: nat)
    requires a <= b <= |s| && i <= j <= b - a
    ensures s[a..b][i..j] == s[a + i..a + j]
  {
    var t := s[a..b];
    forall k | 0 <= k < j - i ensures t[i..j][k] == s[a + i..a + j][k] { assert t[i + k] == s[a + (i + k)]; }
  }

  function ScriptBytes(curve: Curve, s: Script): seq<Byte>
  {
    var c := Compress(curve, s);
    if c.Some? then [c.value.0] + ToBytes(c.value.1)
    else VarIntBytes(|s| + SPECIAL_SCRIPTS) + ToBytes(s)
  }

  function Take(s: seq<Byte>, n: nat): Parsed<seq<Byte>> { if |s| < n then None else Some((s[..n], s[n..])) }

  function ReadScript(curve: Curve, s: seq<Byte>): Parsed<Script>
  {
    var size := ReadVarInt(s);
    if size.None? then None else
      var (n, rest) := size.value;
      if n < SPECIAL_SCRIPTS then
        var x := Take(rest, SpecialSize(n));
        if x.None? then None else Some((Decompress(curve, n, FromBytes(x.value.0)), x.value.1))
      else
        var x := Take(rest, n - SPECIAL_SCRIPTS);
        if x.None? then None else Some((FromBytes(x.value.0), x.value.1))
  }

  lemma TakesFirst(a: seq<Byte>, rest: seq<Byte>)
    ensures Take(a + rest, |a|) == Some((a, rest))
  {
  }

  /** Scripts are read back, whether they have a special form or not. */
  lemma ReadsScript(curve: Curve, s: Script, rest: seq<Byte>)
    requires curve.Sound()
    ensures ReadScript(curve, ScriptBytes(curve, s) + rest) == Some((s, rest))
  {
    hide Compress, Decompress, Curve.Sound, ReadVarInt, ToBytes, FromBytes, Take;
    var c := Compress(curve, s);
    if c.Some? {
      DecompressCompress(curve, s);
      var (tag, x) := c.value;
      assert ScriptBytes(curve, s) + rest == VarIntBytes(tag) + (ToBytes(x) + rest);
      ReadsVarInt(tag, ToBytes(x) + rest);
      TakesFirst(ToBytes(x), rest);
      BytesBack(x);
    } else {
      assert ScriptBytes(curve, s) + rest == VarIntBytes(|s| + SPECIAL_SCRIPTS) + (ToBytes(s) + rest);
      ReadsVarInt(|s| + SPECIAL_SCRIPTS, ToBytes(s) + rest);
      TakesFirst(ToBytes(s), rest);
      BytesBack(s);
    }
  }

  // ---- Outputs ----

  predicate Storable(out: TxOut) { 0 <= out.nValue <= WORD64 / 9 }

  function OutBytes(curve: Curve, out: TxOut): seq<Byte>
    requires Storable(out)
  {
    VarIntBytes(Compressed(out.nValue)) + ScriptBytes(curve, out.scriptPubKey)
  }

  function ReadOut(curve: Curve, s: seq<Byte>): Parsed<TxOut>
  {
    var amount := ReadVarInt(s);
    if amount.None? then None else
      var script := ReadScript(curve, amount.value.1);
      if script.None? then None else Some((TxOut(Decompressed(amount.value.0), script.value.0), script.value.1))
  }

  /** Six hundred coins for a key hash: the compressed amount, the tag, the hash. */
  lemma KnownOutput(curve: Curve, h: Script)
    requires |h| == 20
    ensures OutBytes(curve, TxOut(60_000_000_000, [0x76, 0xa9, 20] + h + [0x88, 0xac])) == [0x83, 0x58, 0x00] + ToBytes(h)
  {
    hide Compress, Compressed, VarIntBytes;
    SpecialTags(curve, h, seq(32, _ => 0), seq(32, _ => 0));
    SixHundredCoins();
    assert [0x83, 0x58] + ([0x00] + ToBytes(h)) == [0x83, 0x58, 0x00] + ToBytes(h);
  }

  lemma SixHundredCoins()
    ensures Compressed(60_000_000_000) == 600 && VarIntBytes(600) == [0x83, 0x58]
  {
    NineZeros();
    assert Decompressed(600) == 60 * Pow10(9);
    hide Compressed, Decompressed, Pow10, VarIntBytes;
    CompressDecompressed(600);
    TwoBytes(3, 88);
  }

  lemma NineZeros()
    ensures Pow10(9) == 1_000_000_000
  {
    assert Pow10(2) == 100 && Pow10(4) == 100 * Pow10(2) && Pow10(6) == 100 * Pow10(4) && Pow10(8) == 100 * Pow10(6);
  }

  lemma ReadsOut(curve: Curve, out: TxOut, rest: seq<Byte>)
    requires curve.Sound() && Storable(out)
    ensures ReadOut(curve, OutBytes(curve, out) + rest) == Some((out, rest))
  {
    hide ReadVarInt, ScriptBytes, ReadScript, Compressed, Decompressed, Curve.Sound;
    assert OutBytes(curve, out) + rest == VarIntBytes(Compressed(out.nValue)) + (ScriptBytes(curve, out.scriptPubKey) + rest);
    ReadsVarInt(Compressed(out.nValue), ScriptBytes(curve, out.scriptPubKey) + rest);
    ReadsScript(curve, out.scriptPubKey, rest);
    DecompressCompressed(out.nValue);
  }

  // ---- The mask ----

  predicate Flag(vout: seq<TxOut>, i: nat) { i < |vout| && !vout[i].IsNull() }

  function Flags(vout: seq<TxOut>, first: nat, n: nat): (r: seq<bool>)
    ensures |r| == n && forall i :: 0 <= i < n ==> r[i] == Flag(vout, first + i)
  {
    seq(n, i requires 0 <= i < n => Flag(vout, first + i))
  }

  function ByteOf(bits: seq<bool>): nat { if bits == [] then 0 else (if bits[0] then 1 else 0) + 2 * ByteOf(bits[1..]) }

  /** The n lowest bits, lowest first. */
  function BitsOf(x: nat, n: nat): (r: seq<bool>)
    ensures |r| == n
  {
    if n == 0 then [] else [x % 2 == 1] + BitsOf(x / 2, n - 1)
  }

  predicate NoneSet(bits: seq<bool>) { forall i :: 0 <= i < |bits| ==> !bits[i] }

  lemma {:induction false} ByteBits(bits: seq<bool>)
    ensures ByteOf(bits) < Pow2(|bits|) && BitsOf(ByteOf(bits), |bits|) == bits
    ensures ByteOf(bits) == 0 <==> NoneSet(bits)
  {
    if bits != [] {
      ByteBits(bits[1..]);
      assert ByteOf(bits) / 2 == ByteOf(bits[1..]);
      assert forall i :: 0 <= i < |bits[1..]| ==> bits[1..][i] == bits[i + 1];
      assert bits == [bits[0]] + bits[1..];
    }
  }

  /** The b-th byte of the mask; the first two outputs are not in it. */
  function MaskByte(vout: seq<TxOut>, b: nat): Byte
  {
    ByteBits(Flags(vout, 2 + 8 * b, 8));
    assert Pow2(8) == 256;
    ByteOf(Flags(vout, 2 + 8 * b, 8))
  }

  /** How many bytes it takes to cover all outputs. */
  function Cover(vout: seq<TxOut>): nat { if |vout| <= 2 then 0 else (|vout| - 2 + 7) / 8 }

  function LastUsed(vout: seq<TxOut>, n: nat): (r: nat)
    ensures r <= n && (r > 0 ==> MaskByte(vout, r - 1) != 0)
  {
    if n == 0 || MaskByte(vout, n - 1) != 0 then n else LastUsed(vout, n - 1)
  }

  function NonzeroBytes(vout: seq<TxOut>, n: nat): (r: nat)
    ensures r <= n
  {
    if n == 0 then 0 else NonzeroBytes(vout, n - 1) + if MaskByte(vout, n - 1) != 0 then 1 else 0
  }

  function Mask(vout: seq<TxOut>, b: nat, n: nat): (r: seq<Byte>)
    requires b <= n
    ensures |r| == n - b
    decreases n - b
  {
    if b == n then [] else [MaskByte(vout, b)] + Mask(vout, b + 1, n)
  }

  /** Reads bytes until so many of them were not zero. */
  function ReadMask(s: seq<Byte>, nMaskCode: nat): Parsed<seq<bool>>
  {
    if nMaskCode == 0 then Some(([], s))
    else if s == [] then None
    else
      var more := ReadMask(s[1..], if s[0] != 0 then nMaskCode - 1 else nMaskCode);
      if more.None? then None else Some((BitsOf(s[0], 8) + more.value.0, more.value.1))
  }

  lemma {:induction false} NonzeroGrows(vout: seq<TxOut>, b: nat, n: nat)
    requires b <= n
    ensures NonzeroBytes(vout, b) <= NonzeroBytes(vout, n)
    ensures b < n && MaskByte(vout, n - 1) != 0 ==> NonzeroBytes(vout, b) < NonzeroBytes(vout, n)
  {
    hide MaskByte;
    if b < n { NonzeroGrows(vout, b, n - 1); }
  }

  /** The loop stops right after the last byte that is not zero, whatever zero bytes come before. */
  lemma {:induction false} ReadsMask(vout: seq<TxOut>, b: nat, n: nat, rest: seq<Byte>)
    requires b <= n && (n > 0 ==> MaskByte(vout, n - 1) != 0)
    ensures NonzeroBytes(vout, b) <= NonzeroBytes(vout, n)
    ensures ReadMask(Mask(vout, b, n) + rest, NonzeroBytes(vout, n) - NonzeroBytes(vout, b)) == Some((Flags(vout, 2 + 8 * b, 8 * (n - b)), rest))
    decreases n - b
  {
    hide MaskByte, BitsOf, Flags, Mask, ReadMask, NonzeroBytes;
    NonzeroGrows(vout, b, n);
    if b == n {
      MaskEnds(vout, n, rest);
    } else {
      NonzeroNext(vout, b);
      NonzeroGrows(vout, b + 1, n);
      ReadsMask(vout, b + 1, n, rest);
      MaskNext(vout, b, n, rest);
      ReadMaskNext(MaskByte(vout, b), Mask(vout, b + 1, n) + rest, NonzeroBytes(vout, n) - NonzeroBytes(vout, b));
      MaskBits(vout, b);
      FlagsConcat(vout, 2 + 8 * b, 8, 8 * (n - b - 1));
      assert 2 + 8 * b + 8 == 2 + 8 * (b + 1) && 8 + 8 * (n - b - 1) == 8 * (n - b) && n - (b + 1) == n - b - 1;
    }
  }

  lemma MaskEnds(vout: seq<TxOut>, n: nat, rest: seq<Byte>)
    ensures Mask(vout, n, n) + rest == rest && Flags(vout, 2 + 8 * n, 8 * (n - n)) == [] && ReadMask(rest, 0) == Some(([], rest))
  {
  }

  lemma NonzeroNext(vout: seq<TxOut>, b: nat)
    ensures NonzeroBytes(vout, b + 1) == NonzeroBytes(vout, b) + if MaskByte(vout, b) != 0 then 1 else 0
  {
  }

  lemma MaskNext(vout: seq<TxOut>, b: nat, n: nat, rest: seq<Byte>)
    requires b < n
    ensures Mask(vout, b, n) + rest == [MaskByte(vout, b)] + (Mask(vout, b + 1, n) + rest)
  {
    hide MaskByte;
  }

  lemma ReadMaskNext(x: Byte, s: seq<Byte>, k: nat)
    requires k > 0
    ensures ReadMask([x] + s, k)
         == var more := ReadMask(s, if x != 0 then k - 1 else k);
            if more.None? then None else Some((BitsOf(x, 8) + more.value.0, more.value.1))
  {
    assert ([x] + s)[1..] == s;
  }

  lemma FlagsConcat(vout: seq<TxOut>, first: nat, m: nat, n: nat)
    ensures Flags(vout, first, m) + Flags(vout, first + m, n) == Flags(vout, first, m + n)
  {
  }

  lemma MaskBits(vout: seq<TxOut>, b: nat)
    ensures BitsOf(MaskByte(vout, b), 8) == Flags(vout, 2 + 8 * b, 8)
    ensures MaskByte(vout, b) == 0 <==> NoneSet(Flags(vout, 2 + 8 * b, 8))
  {
    hide ByteOf, BitsOf;
    ByteBits(Flags(vout, 2 + 8 * b, 8));
  }

  // ---- The outputs that the mask announces ----

  predicate AllStorable(vout: seq<TxOut>) { forall i :: 0 <= i < |vout| ==> vout[i].IsNull() || Storable(vout[i]) }

  function OutsFrom(curve: Curve, vout: seq<TxOut>, i: nat): seq<Byte>
    requires AllStorable(vout)
    decreases |vout| - i
  {
    if i >= |vout| then [] else (if vout[i].IsNull() then [] else OutBytes(curve, vout[i])) + OutsFrom(curve, vout, i + 1)
  }

  function ReadOuts(curve: Curve, s: seq<Byte>, flags: seq<bool>): Parsed<seq<TxOut>>
    decreases |flags|
  {
    if flags == [] then Some(([], s))
    else if !flags[0] then
      var more := ReadOuts(curve, s, flags[1..]);
      if more.None? then None else Some(([NULL_OUT] + more.value.0, more.value.1))
    else
      var out := ReadOut(curve, s);
      if out.None? then None else
        var more := ReadOuts(curve, out.value.1, flags[1..]);
        if more.None? then None else Some(([out.value.0] + more.value.0, more.value.1))
  }

  function Nulls(n: nat): seq<TxOut> { seq(n, _ => NULL_OUT) }

  /** The outputs from i on, with null outputs up to n. */
  function Padded(vout: seq<TxOut>, i: nat, n: nat): seq<TxOut>
    requires i <= n
  {
    if i >= |vout| then Nulls(n - i) else if n <= |vout| then vout[i..n] else vout[i..] + Nulls(n - |vout|)
  }

  lemma {:induction false} ReadsOuts(curve: Curve, vout: seq<TxOut>, i: nat, n: nat, rest: seq<Byte>)
    requires curve.Sound() && AllStorable(vout) && i <= n && |vout| <= n
    requires forall o <- vout :: o.IsNull() ==> o == NULL_OUT
    ensures ReadOuts(curve, OutsFrom(curve, vout, i) + rest, Flags(vout, i, n - i)) == Some((Padded(vout, i, n), rest))
    decreases n - i
  {
    hide OutBytes, ReadOut, Curve.Sound, Storable, Padded, OutsFrom, Flags;
    var s, flags := OutsFrom(curve, vout, i) + rest, Flags(vout, i, n - i);
    if i < n {
      PaddedNext(vout, i, n);
      OutsNext(curve, vout, i, rest);
      FlagsNext(vout, i, n - i);
      ReadsOuts(curve, vout, i + 1, n, rest);
      if Flag(vout, i) { ReadsOut(curve, vout[i], OutsFrom(curve, vout, i + 1) + rest); }
    } else {
      NoOuts(curve, vout, i, rest);
    }
  }

  lemma PaddedNext(vout: seq<TxOut>, i: nat, n: nat)
    requires i < n && |vout| <= n && forall o <- vout :: o.IsNull() ==> o == NULL_OUT
    ensures Padded(vout, i, n) == [if Flag(vout, i) then vout[i] else NULL_OUT] + Padded(vout, i + 1, n)
  {
  }

  lemma OutsNext(curve: Curve, vout: seq<TxOut>, i: nat, rest: seq<Byte>)
    requires AllStorable(vout)
    ensures OutsFrom(curve, vout, i) + rest
         == if Flag(vout, i) then OutBytes(curve, vout[i]) + (OutsFrom(curve, vout, i + 1) + rest) else OutsFrom(curve, vout, i + 1) + rest
  {
    hide OutBytes;
  }

  lemma FlagsNext(vout: seq<TxOut>, i: nat, n: nat)
    requires n > 0
    ensures Flags(vout, i, n)[0] == Flag(vout, i) && Flags(vout, i, n)[1..] == Flags(vout, i + 1, n - 1)
  {
  }

  lemma NoOuts(curve: Curve, vout: seq<TxOut>, n: nat, rest: seq<Byte>)
    requires AllStorable(vout) && |vout| <= n
    ensures OutsFrom(curve, vout, n) + rest == rest && Padded(vout, n, n) == [] && Flags(vout, n, 0) == []
  {
  }

  // ---- The record ----

  function Bit(b: bool): nat { if b then 1 else 0 }

  function HeaderCode(c: Coins, nonzero: nat): nat
    requires Flag(c.vout, 0) || Flag(c.vout, 1) || nonzero > 0
  {
    16 * (nonzero - Bit(!Flag(c.vout, 0) && !Flag(c.vout, 1))) + Bit(c.fCoinBase) + 2 * Bit(c.fCoinStake)
    + 4 * Bit(Flag(c.vout, 0)) + 8 * Bit(Flag(c.vout, 1))
  }

  /** What a record must satisfy to be stored: something unspent, amounts within the limit. */
  predicate Stored(c: Coins) { !c.IsPruned() && AllStorable(c.vout) }

  /** Whatever is unspent shows in the first two flags or in the mask. */
  lemma SomethingShows(c: Coins)
    requires !c.IsPruned()
    ensures Flag(c.vout, 0) || Flag(c.vout, 1) || NonzeroBytes(c.vout, Cover(c.vout)) > 0
  {
    hide MaskByte, NonzeroBytes;
    var i :| 0 <= i < |c.vout| && !c.vout[i].IsNull();
    if i >= 2 {
      var b := (i - 2) / 8;
      assert Flags(c.vout, 2 + 8 * b, 8)[i - 2 - 8 * b];
      MaskBits(c.vout, b);
      NonzeroGrows(c.vout, b, b + 1);
      NonzeroGrows(c.vout, b + 1, Cover(c.vout));
    }
  }

  function Serialized(curve: Curve, c: Coins): seq<Byte>
    requires Stored(c)
  {
    SomethingShows(c);
    var n := LastUsed(c.vout, Cover(c.vout));
    SignedBytes(c.nVersion)
    + (VarIntBytes(HeaderCode(c, NonzeroBytes(c.vout, Cover(c.vout))))
       + (Mask(c.vout, 0, n)
          + (OutsFrom(curve, c.vout, 0)
             + SignedBytes(c.nHeight))))
  }

  /** The numbers of the header: flags, the first two outputs, and how many mask bytes are not zero. */
  function Unserialized(curve: Curve, s: seq<Byte>): Parsed<Coins>
  {
    var version := ReadVarInt(s);
    if version.None? then None else
      var code := ReadVarInt(version.value.1);
      if code.None? then None else
        var n := code.value.0;
        var avail := [n / 4 % 2 == 1, n / 8 % 2 == 1];
        var mask := ReadMask(code.value.1, n / 16 + Bit(!avail[0] && !avail[1]));
        if mask.None? then None else
          var outs := ReadOuts(curve, mask.value.1, avail + mask.value.0);
          if outs.None? then None else
            var height := ReadVarInt(outs.value.1);
            if height.None? then None else
              Some((Cleanup(Coins(n % 2 == 1, n / 2 % 2 == 1, outs.value.0, height.value.0, version.value.0)), height.value.1))
  }

  lemma HeaderBits(c: Coins, nonzero: nat)
    requires Flag(c.vout, 0) || Flag(c.vout, 1) || nonzero > 0
    ensures var n := HeaderCode(c, nonzero);
            && (n % 2 == 1 <==> c.fCoinBase) && (n / 2 % 2 == 1 <==> c.fCoinStake)
            && (n / 4 % 2 == 1 <==> Flag(c.vout, 0)) && (n / 8 % 2 == 1 <==> Flag(c.vout, 1))
            && n / 16 + Bit(!Flag(c.vout, 0) && !Flag(c.vout, 1)) == nonzero
  {
    hide Flag;
    Nibble(nonzero - Bit(!Flag(c.vout, 0) && !Flag(c.vout, 1)), Bit(c.fCoinBase), Bit(c.fCoinStake), Bit(Flag(c.vout, 0)), Bit(Flag(c.vout, 1)));
  }

  /** Four bits below a number: none of them gets in the way of another. */
  lemma Nibble(k: nat, b0: nat, b1: nat, b2: nat, b3: nat)
    requires b0 <= 1 && b1 <= 1 && b2 <= 1 && b3 <= 1
    ensures var n := 16 * k + b0 + 2 * b1 + 4 * b2 + 8 * b3;
            n % 2 == b0 && n / 2 % 2 == b1 && n / 4 % 2 == b2 && n / 8 % 2 == b3 && n / 16 == k
  {
    var n := 16 * k + b0 + 2 * b1 + 4 * b2 + 8 * b3;
    DivisionIs(n, 2, 8 * k + b1 + 2 * b2 + 4 * b3, b0);
    DivisionIs(n, 4, 4 * k + b2 + 2 * b3, b0 + 2 * b1);
    DivisionIs(n, 8, 2 * k + b3, b0 + 2 * b1 + 4 * b2);
    DivisionIs(n, 16, k, b0 + 2 * b1 + 4 * b2 + 8 * b3);
    DivisionIs(n / 2, 2, 4 * k + b2 + 2 * b3, b1);
    DivisionIs(n / 4, 2, 2 * k + b3, b2);
    DivisionIs(n / 8, 2, k, b3);
  }

  /** A record that ends in an unspent output has a mask that covers it. */
  lemma MaskCovers(vout: seq<TxOut>)
    requires |vout| > 0 && !vout[|vout| - 1].IsNull()
    ensures LastUsed(vout, Cover(vout)) == Cover(vout) && |vout| <= 2 + 8 * Cover(vout)
  {
    hide MaskByte;
    var n := Cover(vout);
    if n > 0 {
      var b, j := n - 1, |vout| - 1 - (2 + 8 * (n - 1));
      MaskBits(vout, b);
      assert 0 <= j < 8 && Flags(vout, 2 + 8 * b, 8)[j] == Flag(vout, 2 + 8 * b + j);
    }
  }

  function Kept(n: int): nat { if n < 0 then n % 128 else n }

  /** Reading back a stored record: exact, except that a version or height below zero comes back changed. */
  lemma UnserializeSerialized(curve: Curve, c: Coins, rest: seq<Byte>)
    requires curve.Sound() && Stored(c) && c.Tidy()
    ensures Unserialized(curve, Serialized(curve, c) + rest) == Some((c.(nVersion := Kept(c.nVersion), nHeight := Kept(c.nHeight)), rest))
  {
    hide *;
    TidyEnds(c);
    SomethingShows(c);
    MaskCovers(c.vout);
    var n := Cover(c.vout);
    var nonzero := NonzeroBytes(c.vout, n);
    var tail3 := SignedBytes(c.nHeight) + rest;
    var tail2 := OutsFrom(curve, c.vout, 0) + tail3;
    var tail1 := Mask(c.vout, 0, n) + tail2;
    SerializedIs(curve, c, rest);
    KeptIs(c.nVersion);
    KeptIs(c.nHeight);
    ReadsSigned(c.nVersion, VarIntBytes(HeaderCode(c, nonzero)) + tail1);
    ReadsVarInt(HeaderCode(c, nonzero), tail1);
    HeaderBits(c, nonzero);
    ReadsMask(c.vout, 0, n, tail2);
    ReadsOuts(curve, c.vout, 0, 2 + 8 * n, tail3);
    ReadsSigned(c.nHeight, rest);
    CleanedUp(c, 2 + 8 * n);
    ParsedWhole(curve, c, rest, n, nonzero);
  }

  lemma KeptIs(n: int)
    ensures Kept(n) == if n < 0 then n % 128 else n
  {
  }

  lemma TidyEnds(c: Coins)
    requires Stored(c) && c.Tidy()
    ensures !c.IsPruned() && AllStorable(c.vout) && |c.vout| > 0 && !c.vout[|c.vout| - 1].IsNull()
    ensures forall o <- c.vout :: o.IsNull() ==> o == NULL_OUT
  {
  }

  lemma SerializedIs(curve: Curve, c: Coins, rest: seq<Byte>)
    requires Stored(c) && AllStorable(c.vout) && LastUsed(c.vout, Cover(c.vout)) == Cover(c.vout)
    requires Flag(c.vout, 0) || Flag(c.vout, 1) || NonzeroBytes(c.vout, Cover(c.vout)) > 0
    ensures Serialized(curve, c) + rest
         == SignedBytes(c.nVersion) + (VarIntBytes(HeaderCode(c, NonzeroBytes(c.vout, Cover(c.vout))))
            + (Mask(c.vout, 0, Cover(c.vout)) + (OutsFrom(curve, c.vout, 0) + (SignedBytes(c.nHeight) + rest))))
  {
    hide SignedBytes, VarIntBytes, Mask, OutsFrom, HeaderCode, NonzeroBytes, LastUsed, Cover, Flag, Stored, AllStorable;
    var a, b, m, o, h := SignedBytes(c.nVersion), VarIntBytes(HeaderCode(c, NonzeroBytes(c.vout, Cover(c.vout)))),
      Mask(c.vout, 0, Cover(c.vout)), OutsFrom(curve, c.vout, 0), SignedBytes(c.nHeight);
  }

  lemma CleanedUp(c: Coins, n: nat)
    requires |c.vout| > 0 && !c.vout[|c.vout| - 1].IsNull() && |c.vout| <= n
    ensures DropNulls(Padded(c.vout, 0, n)) == c.vout
  {
    DropNullsUnique(Padded(c.vout, 0, n), c.vout);
  }

  lemma ParsedWhole(curve: Curve, c: Coins, rest: seq<Byte>, n: nat, nonzero: nat)
    requires Stored(c) && AllStorable(c.vout) && n == Cover(c.vout) && nonzero == NonzeroBytes(c.vout, n) && NonzeroBytes(c.vout, 0) == 0
    requires Flag(c.vout, 0) || Flag(c.vout, 1) || nonzero > 0
    requires var tail3 := SignedBytes(c.nHeight) + rest;
             var tail2 := OutsFrom(curve, c.vout, 0) + tail3;
             var tail1 := Mask(c.vout, 0, n) + tail2;
             var code := HeaderCode(c, nonzero);
             && Serialized(curve, c) + rest == SignedBytes(c.nVersion) + (VarIntBytes(code) + tail1)
             && ReadVarInt(SignedBytes(c.nVersion) + (VarIntBytes(code) + tail1)) == Some((Kept(c.nVersion), VarIntBytes(code) + tail1))
             && ReadVarInt(VarIntBytes(code) + tail1) == Some((code, tail1))
             && (code % 2 == 1 <==> c.fCoinBase) && (code / 2 % 2 == 1 <==> c.fCoinStake)
             && (code / 4 % 2 == 1 <==> Flag(c.vout, 0)) && (code / 8 % 2 == 1 <==> Flag(c.vout, 1))
             && code / 16 + Bit(!Flag(c.vout, 0) && !Flag(c.vout, 1)) == nonzero
             && ReadMask(tail1, nonzero) == Some((Flags(c.vout, 2 + 8 * 0, 8 * (n - 0)), tail2))
             && ReadOuts(curve, tail2, Flags(c.vout, 0, 2 + 8 * n - 0)) == Some((Padded(c.vout, 0, 2 + 8 * n), tail3))
             && ReadVarInt(tail3) == Some((Kept(c.nHeight), rest))
    requires [Flag(c.vout, 0), Flag(c.vout, 1)] + Flags(c.vout, 2 + 8 * 0, 8 * (n - 0)) == Flags(c.vout, 0, 2 + 8 * n - 0)
    requires DropNulls(Padded(c.vout, 0, 2 + 8 * n)) == c.vout
    ensures Unserialized(curve, Serialized(curve, c) + rest) == Some((c.(nVersion := Kept(c.nVersion), nHeight := Kept(c.nHeight)), rest))
  {
    hide SignedBytes, VarIntBytes, Mask, OutsFrom, HeaderCode, NonzeroBytes, Cover, Flag, Flags, Stored, AllStorable, Serialized,
      ReadVarInt, ReadMask, ReadOuts, Padded, DropNulls, Kept;
  }

  /** The record comes back as it was exactly if its version and height are not below zero. */
  lemma StoredRoundTrip(curve: Curve, c: Coins, rest: seq<Byte>)
    requires curve.Sound() && Stored(c) && c.Tidy()
    ensures Unserialized(curve, Serialized(curve, c) + rest) == Some((c, rest)) <==> c.nVersion >= 0 && c.nHeight >= 0
  {
    hide Unserialized, Serialized, Stored, Curve.Sound;
    UnserializeSerialized(curve, c, rest);
  }

  const NEGATIVE := Coins(false, false, [TxOut(5, [])], 3, -1)

  lemma NegativeIsStored()
    ensures Stored(NEGATIVE) && NEGATIVE.Tidy()
  {
    assert NEGATIVE.vout[0] in NEGATIVE.vout;
    assert forall o <- NEGATIVE.vout :: o == TxOut(5, []);
  }

  /** A record of version -1 comes back with version 127. */
  lemma NegativeVersionIsLost(curve: Curve, rest: seq<Byte>)
    requires curve.Sound() && Stored(NEGATIVE)
    ensures Unserialized(curve, Serialized(curve, NEGATIVE) + rest) == Some((NEGATIVE.(nVersion := 127), rest))
  {
    hide Unserialized, Serialized, Stored, Curve.Sound, Coins.Tidy;
    NegativeIsStored();
    UnserializeSerialized(curve, NEGATIVE, rest);
  }

  // ---- The loops ----

  /** Whether a mask byte is zero: the inner loop over its bits. */
  method ByteIsZero(vout: seq<TxOut>, b: nat) returns (fZero: bool)
    ensures fZero == (MaskByte(vout, b) == 0)
  {
    hide MaskByte;
    fZero := true;
    ghost var fs := Flags(vout, 2 + 8 * b, 8);
    var i := 0;
    while i < 8 && 2 + b * 8 + i < |vout|
      invariant 0 <= i <= 8 && (fZero <==> forall k :: 0 <= k < i ==> !fs[k])
    {
      if !vout[2 + b * 8 + i].IsNull() {
        assert fs[i];
        fZero := false;
      }
      i := i + 1;
    }
    assert forall k :: i <= k < 8 ==> !fs[k];
    MaskBits(vout, b);
  }

  method CalcMaskSize(vout: seq<TxOut>) returns (nBytes: nat, nNonzeroBytes: nat)
    ensures nBytes == LastUsed(vout, Cover(vout)) && nNonzeroBytes == NonzeroBytes(vout, Cover(vout))
  {
    hide MaskByte;
    nBytes, nNonzeroBytes := 0, 0;
    var b := 0;
    while 2 + b * 8 < |vout|
      invariant 0 <= b <= Cover(vout) && nBytes == LastUsed(vout, b) && nNonzeroBytes == NonzeroBytes(vout, b)
    {
      var fZero := ByteIsZero(vout, b);
      if !fZero {
        nBytes := b + 1;
        nNonzeroBytes := nNonzeroBytes + 1;
      }
      b := b + 1;
    }
  }

  /** One byte of the mask: its bits are set one by one. */
  method WriteMaskByte(vout: seq<TxOut>, b: nat) returns (chAvail: Byte)
    ensures chAvail == MaskByte(vout, b)
  {
    hide Flags;
    var bits: seq<bool> := [];
    var i := 0;
    ghost var fs := Flags(vout, 2 + 8 * b, 8);
    while i < 8
      invariant 0 <= i <= 8 && bits == fs[..i]
    {
      bits := bits + [2 + b * 8 + i < |vout| && !vout[2 + b * 8 + i].IsNull()];
      i := i + 1;
    }
    assert bits == fs;
    ByteBits(bits);
    assert Pow2(8) == 256;
    chAvail := ByteOf(bits);
  }

  method Serialize(curve: Curve, c: Coins) returns (s: seq<Byte>)
    requires Stored(c)
    ensures s == Serialized(curve, c)
  {
    hide MaskByte, LastUsed, Mask, NonzeroBytes, SignedBytes, VarIntBytes, OutsFrom, Coins.IsPruned;
    SomethingShows(c);
    var nMaskSize, nMaskCode := CalcMaskSize(c.vout);
    var fFirst, fSecond := |c.vout| > 0 && !c.vout[0].IsNull(), |c.vout| > 1 && !c.vout[1].IsNull();
    assert fFirst || fSecond || nMaskCode > 0;   // the assertion of the source
    var nCode := 16 * (nMaskCode - Bit(!fFirst && !fSecond)) + Bit(c.fCoinBase) + 2 * Bit(c.fCoinStake) + 4 * Bit(fFirst) + 8 * Bit(fSecond);
    var version := WriteVarInt(c.nVersion);
    var code := WriteVarInt(nCode);
    assert code == VarIntBytes(nCode) by { NotNegative(nCode); }
    var mask := WriteMask(c.vout, nMaskSize);
    var outs := WriteOuts(curve, c.vout);
    var height := WriteVarInt(c.nHeight);
    s := version + (code + (mask + (outs + height)));
  }

  lemma NotNegative(n: nat)
    ensures SignedBytes(n) == VarIntBytes(n)
  {
  }

  method WriteMask(vout: seq<TxOut>, n: nat) returns (s: seq<Byte>)
    ensures s == Mask(vout, 0, n)
  {
    hide MaskByte;
    s := [];
    var b := 0;
    while b < n
      invariant 0 <= b <= n && s + Mask(vout, b, n) == Mask(vout, 0, n)
    {
      var ch := WriteMaskByte(vout, b);
      s := s + [ch];
      b := b + 1;
    }
  }

  method WriteOuts(curve: Curve, vout: seq<TxOut>) returns (s: seq<Byte>)
    requires AllStorable(vout)
    ensures s == OutsFrom(curve, vout, 0)
  {
    hide OutBytes;
    s := [];
    var i := 0;
    while i < |vout|
      invariant 0 <= i <= |vout| && s + OutsFrom(curve, vout, i) == OutsFrom(curve, vout, 0)
    {
      if !vout[i].IsNull() { s := s + OutBytes(curve, vout[i]); }
      i := i + 1;
    }
  }

  /** Reads mask bytes while some that are not zero are still to come. */
  method ParseMask(input: seq<Byte>, count: nat) returns (r: Parsed<seq<bool>>)
    ensures r == ReadMask(input, count)
  {
    hide BitsOf;
    var vAvail: seq<bool>, s, nMaskCode: nat := [], input, count;
    ghost var all := ReadMask(input, count);
    if all.Some? { assert [] + all.value.0 == all.value.0; }
    while nMaskCode > 0
      invariant var more := ReadMask(s, nMaskCode); all == if more.None? then None else Some((vAvail + more.value.0, more.value.1))
      decreases |s|
    {
      if s == [] { return None; }
      var chAvail := s[0];
      ghost var more := ReadMask(s[1..], if chAvail != 0 then nMaskCode - 1 else nMaskCode);
      if more.Some? { assert vAvail + (BitsOf(chAvail, 8) + more.value.0) == (vAvail + BitsOf(chAvail, 8)) + more.value.0; }
      vAvail := vAvail + BitsOf(chAvail, 8);
      s := s[1..];
      if chAvail != 0 { nMaskCode := nMaskCode - 1; }
    }
    assert vAvail + [] == vAvail;
    return Some((vAvail, s));
  }

  method ParseOuts(curve: Curve, input: seq<Byte>, vAvail: seq<bool>) returns (r: Parsed<seq<TxOut>>)
    ensures r == ReadOuts(curve, input, vAvail)
  {
    hide ReadOut;
    var vout: seq<TxOut>, s := [], input;
    ghost var all := ReadOuts(curve, input, vAvail);
    assert vAvail[0..] == vAvail;
    if all.Some? { assert [] + all.value.0 == all.value.0; }
    var i := 0;
    while i < |vAvail|
      invariant 0 <= i <= |vAvail|
      invariant var more := ReadOuts(curve, s, vAvail[i..]); all == if more.None? then None else Some((vout + more.value.0, more.value.1))
    {
      assert vAvail[i..][1..] == vAvail[i + 1..];
      var out, next := NULL_OUT, s;
      if vAvail[i] {
        var one := ReadOut(curve, s);
        if one.None? { return None; }
        out, next := one.value.0, one.value.1;
      }
      ghost var more := ReadOuts(curve, next, vAvail[i + 1..]);
      if more.Some? { assert vout + ([out] + more.value.0) == (vout + [out]) + more.value.0; }
      vout, s, i := vout + [out], next, i + 1;
    }
    assert vout + [] == vout;
    return Some((vout, s));
  }

  method Unserialize(curve: Curve, s: seq<Byte>) returns (r: Parsed<Coins>)
    ensures r == Unserialized(curve, s)
  {
    hide ReadVarInt, ReadMask, ReadOuts, Cleanup;
    var version := ParseVarInt(s);
    if version.None? { return None; }
    var code := ParseVarInt(version.value.1);
    if code.None? { return None; }
    var nCode := code.value.0;
    var vAvail := [nCode / 4 % 2 == 1, nCode / 8 % 2 == 1];
    var mask := ParseMask(code.value.1, nCode / 16 + Bit(!vAvail[0] && !vAvail[1]));
    if mask.None? { return None; }
    var outs := ParseOuts(curve, mask.value.1, vAvail + mask.value.0);
    if outs.None? { return None; }
    var height := ParseVarInt(outs.value.1);
    if height.None? { return None; }
    r := Some((Cleanup(Coins(nCode % 2 == 1, nCode / 2 % 2 == 1, outs.value.0, height.value.0, version.value.0)), height.value.1));
  }
}
