/**
  Transactions, outputs and the per-transaction coin record (CCoins).

  A coin record keeps the outputs of one transaction that are still unspent, plus the
  metadata of that transaction. A spent output is a null output; null outputs at the end of
  the vector are dropped.
 */
module Coins {

  type TxId = nat          // uint256
  type Script = seq<bv8>
  type Amount = int        // CAmount

  const OP_META: bv8 := 0x6a
  const NULL_INDEX: nat := 0xffff_ffff

  datatype TxOut = TxOut(nValue: Amount, scriptPubKey: Script) {
    predicate IsNull() { nValue == -1 }

    predicate IsEmpty() { nValue == 0 && scriptPubKey == [] }

    predicate IsUnspendable() { |scriptPubKey| > 0 && scriptPubKey[0] == OP_META }
  }

  const NULL_OUT := TxOut(-1, [])

  datatype OutPoint = OutPoint(hash: TxId, n: nat) {
    predicate IsNull() { hash == 0 && n == NULL_INDEX }
  }

  /** The signature and the sequence number of an input play no part in the coin database. */
  datatype Transaction = Transaction(hash: TxId, nVersion: int, vin: seq<OutPoint>, vout: seq<TxOut>) {
    predicate IsCoinBase() { |vin| == 1 && vin[0].IsNull() }

    predicate IsCoinStake() { |vin| > 0 && !vin[0].IsNull() && |vout| >= 2 && vout[0].IsEmpty() }

    /** What CheckTransaction guarantees of every output before a block reaches the coin database. */
    predicate OutputsInRange() { forall o <- vout :: o.nValue >= 0 }
  }

  datatype Coins = Coins(fCoinBase: bool, fCoinStake: bool, vout: seq<TxOut>, nHeight: int, nVersion: int) {
    predicate IsPruned() { forall o <- vout :: o.IsNull() }

    predicate IsAvailable(n: nat) { n < |vout| && !vout[n].IsNull() }

    /** The equality operator of the source: two fully spent records are always equal. */
    predicate Same(that: Coins) { (IsPruned() && that.IsPruned()) || this == that }

    /** Every null output is the canonical one, and the last output is unspent. */
    predicate Tidy() {
      && (forall o <- vout :: o.IsNull() ==> o == NULL_OUT)
      && (|vout| > 0 ==> !vout[|vout| - 1].IsNull())
    }
  }

  const NO_COINS := Coins(false, false, [], 0, 0)

  /** Cleanup: drop the null outputs at the end. */
  function DropNulls(vout: seq<TxOut>): (r: seq<TxOut>)
    ensures r <= vout
    ensures |r| > 0 ==> !r[|r| - 1].IsNull()
    ensures forall i :: |r| <= i < |vout| ==> vout[i].IsNull()
  {
    if |vout| > 0 && vout[|vout| - 1].IsNull() then DropNulls(vout[..|vout| - 1]) else vout
  }

  function Cleanup(c: Coins): (r: Coins) { c.(vout := DropNulls(c.vout)) }

  /** ClearUnspendable: null out what can never be spent, then clean up. */
  function Spendable(vout: seq<TxOut>): (r: seq<TxOut>)
    ensures |r| == |vout|
    ensures forall i :: 0 <= i < |vout| ==> r[i] == if vout[i].IsUnspendable() then NULL_OUT else vout[i]
  {
    seq(|vout|, i requires 0 <= i < |vout| => if vout[i].IsUnspendable() then NULL_OUT else vout[i])
  }

  function ClearUnspendable(c: Coins): (r: Coins) { Cleanup(c.(vout := Spendable(c.vout))) }

  function FromTx(tx: Transaction, nHeight: int): (r: Coins)
  {
    ClearUnspendable(Coins(tx.IsCoinBase(), tx.IsCoinStake(), tx.vout, nHeight, tx.nVersion))
  }

  /** What spending one output leaves behind so that it can be undone. */
  datatype TxInUndo = TxInUndo(txout: TxOut, fCoinBase: bool, fCoinStake: bool, nHeight: int, nVersion: int)

  function SpentCoins(c: Coins, n: nat): (r: Coins)
    requires c.IsAvailable(n)
  {
    Cleanup(c.(vout := c.vout[n := NULL_OUT]))
  }

  /** The metadata is recorded only by the spend that empties the record. */
  function SpendUndo(c: Coins, n: nat): (u: TxInUndo)
    requires c.IsAvailable(n)
  {
    if SpentCoins(c, n).vout == []
    then TxInUndo(c.vout[n], c.fCoinBase, c.fCoinStake, c.nHeight, c.nVersion)
    else TxInUndo(c.vout[n], false, false, 0, 0)
  }

  lemma {:induction false} DropNullsUnique(v: seq<TxOut>, w: seq<TxOut>)
    requires w <= v
    requires |w| > 0 ==> !w[|w| - 1].IsNull()
    requires forall i :: |w| <= i < |v| ==> v[i].IsNull()
    ensures DropNulls(v) == w
  {
    // Whichever of the two is longer would end in an output that the other calls null.
    var r := DropNulls(v);
    assert |w| > 0 ==> w[|w| - 1] == v[|w| - 1];
    assert |r| > 0 ==> r[|r| - 1] == v[|r| - 1];
    assert r == v[..|r|] && w == v[..|w|];
  }

  /** A cleaned-up record is fully spent exactly when its vector is empty. */
  lemma PrunedIffEmpty(c: Coins)
    requires |c.vout| > 0 ==> !c.vout[|c.vout| - 1].IsNull()
    ensures c.IsPruned() <==> c.vout == []
  {
    if |c.vout| > 0 { assert c.vout[|c.vout| - 1] in c.vout; }
  }

  /** A new record is tidy when the outputs of the transaction are in range. */
  lemma FromTxTidy(tx: Transaction, nHeight: int)
    requires tx.OutputsInRange()
    ensures FromTx(tx, nHeight).Tidy()
  {
    var s := Spendable(tx.vout);
    forall o | o in DropNulls(s) && o.IsNull() ensures o == NULL_OUT {
      var i :| 0 <= i < |DropNulls(s)| && DropNulls(s)[i] == o;
      assert s[i] == o;
      assert tx.vout[i] in tx.vout;
    }
  }

  lemma ClearUnspendableIdempotent(tx: Transaction, nHeight: int)
    ensures ClearUnspendable(FromTx(tx, nHeight)) == FromTx(tx, nHeight)
  {
    var v := FromTx(tx, nHeight).vout;
    forall i | 0 <= i < |v| ensures !v[i].IsUnspendable() {
      assert v[i] == Spendable(tx.vout)[i];
    }
    assert Spendable(v) == v;
    DropNullsUnique(v, v);
  }

  lemma SpentCoinsTidy(c: Coins, n: nat)
    requires c.IsAvailable(n) && c.Tidy()
    ensures SpentCoins(c, n).Tidy()
  {
    var v := c.vout[n := NULL_OUT];
    forall o | o in DropNulls(v) && o.IsNull() ensures o == NULL_OUT {
      var i :| 0 <= i < |DropNulls(v)| && DropNulls(v)[i] == o;
      assert v[i] == o;
      if i != n { assert c.vout[i] in c.vout; }
    }
  }

  lemma CleanupTwice(c: Coins)
    ensures Cleanup(Cleanup(c)) == Cleanup(c)
  {
    DropNullsUnique(DropNulls(c.vout), DropNulls(c.vout));
  }

  /** The loop of Cleanup. */
  method PopNulls(vout: seq<TxOut>) returns (r: seq<TxOut>)
    ensures r == DropNulls(vout)
  {
    r := vout;
    while |r| > 0 && r[|r| - 1].IsNull()
      invariant DropNulls(r) == DropNulls(vout)
    {
      r := r[..|r| - 1];
    }
  }

  /** Mark one output spent; refuses an output that is missing or already spent. */
  method Spend(c: Coins, nPos: nat) returns (ok: bool, r: Coins, undo: TxInUndo)
    ensures ok == c.IsAvailable(nPos)
    ensures !ok ==> r == c
    ensures ok ==> r == SpentCoins(c, nPos) && undo == SpendUndo(c, nPos)
  {
    undo := TxInUndo(NULL_OUT, false, false, 0, 0);
    if nPos >= |c.vout| { return false, c, undo; }
    if c.vout[nPos].IsNull() { return false, c, undo; }
    undo := undo.(txout := c.vout[nPos]);
    var vout := PopNulls(c.vout[nPos := NULL_OUT]);
    r := c.(vout := vout);
    if |vout| == 0 {
      undo := TxInUndo(undo.txout, c.fCoinBase, c.fCoinStake, c.nHeight, c.nVersion);
    }
    ok := true;
  }
}
