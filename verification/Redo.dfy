/**
  Taking back what any view holds, with any undo data: if the reversal reports that everything fitted,
  connecting the same block again leads back to the view it started from.
 */
module Redo {
  import opened Coins
  import opened CoinsCache
  import opened UtxoUpdate

  /** An output that is there and can be spent. */
  ghost predicate Plain(o: TxOut) { !o.IsNull() && !o.IsUnspendable() }

  /** What connected views are like: records in canonical form, and nothing kept that no one can spend. */
  ghost predicate PlainView(m: Utxos)
  {
    TidyView(m) && NoneUnspendable(m)
  }

  ghost predicate NoneUnspendable(m: Utxos) { forall id <- m :: forall o <- m[id].vout :: !o.IsUnspendable() }

  ghost predicate PlainUndo(undo: seq<TxInUndo>) { forall u <- undo :: Plain(u.txout) }

  // ---- One input ----

  /** An output put where none is, and spent again. */
  lemma PutAndSpend(v: seq<TxOut>, n: nat, o: TxOut)
    requires (forall x <- v :: x.IsNull() ==> x == NULL_OUT) && (|v| > 0 ==> !v[|v| - 1].IsNull())
    requires !o.IsNull() && (n < |v| ==> v[n].IsNull())
    ensures var w := PutOutput(v, n, o);
            && n < |w| && w[n] == o && !w[|w| - 1].IsNull() && DropNulls(w) == w && DropNulls(w[n := NULL_OUT]) == v
            && forall x <- w :: x == o || x == NULL_OUT || x in v
  {
    var w := PutOutput(v, n, o);
    if n < |v| {
      assert v[n] in v && v[n] == NULL_OUT;
      assert w[n := NULL_OUT] == v;
      DropNullsUnique(v, v);
    } else {
      var gone := w[n := NULL_OUT];
      assert forall i :: |v| <= i < |gone| ==> gone[i] == NULL_OUT;
      assert v <= gone;
      DropNullsUnique(gone, v);
    }
    DropNullsUnique(w, w);
  }

  /** The record after an input has been put back. */
  lemma RecordRestored(c: Coins, n: nat, undo: TxInUndo)
    requires Plain(undo.txout) && RestoredCoins(c, n, undo).1 && c.Tidy() && forall o <- c.vout :: !o.IsUnspendable()
    ensures var r := RestoredCoins(c, n, undo).0;
            && Cleanup(r) == r && r.IsAvailable(n) && r.Tidy() && !r.IsPruned() && (forall o <- r.vout :: !o.IsUnspendable())
            && if c.IsPruned() then SpentCoins(r, n).IsPruned() else SpentCoins(r, n) == c
  {
    var start := if undo.nHeight != 0 then [] else c.vout;
    PutAndSpend(start, n, undo.txout);
    var r := RestoredCoins(c, n, undo).0;
    assert r.vout[n] in r.vout;
    assert !NULL_OUT.IsUnspendable();
    PrunedIffEmpty(c);
  }

  lemma PlainWith(v: Utxos, id: TxId, r: Coins)
    requires PlainView(v) && r.Tidy() && !r.IsPruned() && forall o <- r.vout :: !o.IsUnspendable()
    ensures PlainView(v[id := r])
  {
    hide Coins.Tidy, Coins.IsPruned;
  }

  lemma PlainRecord(v: Utxos, id: TxId)
    requires PlainView(v)
    ensures var c := Lookup(v, id); c.Tidy() && (forall o <- c.vout :: !o.IsUnspendable()) && (c.IsPruned() <==> id !in v)
  {
  }

  lemma RestoreThenSpend(v: Utxos, out: OutPoint, undo: TxInUndo)
    requires PlainView(v) && Plain(undo.txout) && RestoredCoins(Lookup(v, out.hash), out.n, undo).1
    ensures var w := RestoreInput(Reversal(v, true), out, undo).view; PlainView(w) && Available(w, out) && AfterSpend(w, out) == v
  {
    hide RestoredCoins, SpentCoins, Cleanup, Coins.Tidy, Coins.IsPruned, Coins.IsAvailable, PlainView, Plain;
    var c := Lookup(v, out.hash);
    PlainRecord(v, out.hash);
    RecordRestored(c, out.n, undo);
    var r := RestoredCoins(c, out.n, undo).0;
    PlainWith(v, out.hash, r);
    var w := RestoreInput(Reversal(v, true), out, undo).view;
    assert w == v[out.hash := r];
    if out.hash in v {
      assert v[out.hash := r][out.hash := c] == v;
    } else {
      assert v[out.hash := r] - {out.hash} == v;
    }
  }

  // ---- All inputs ----

  lemma {:induction false} CleanFromTheStart(r: Reversal, vin: seq<OutPoint>, undo: seq<TxInUndo>)
    requires |vin| == |undo| && RestoreAll(r, vin, undo).clean
    ensures r.clean
    decreases |vin|
  {
    hide RestoredCoins, Cleanup;
    if vin != [] {
      var n := |vin| - 1;
      CleanFromTheStart(RestoreInput(r, vin[n], undo[n]), vin[..n], undo[..n]);
    }
  }

  lemma {:induction false} RestoreAllThenSpend(v: Utxos, vin: seq<OutPoint>, undo: seq<TxInUndo>)
    requires |vin| == |undo| && PlainView(v) && PlainUndo(undo) && RestoreAll(Reversal(v, true), vin, undo).clean
    ensures var w := RestoreAll(Reversal(v, true), vin, undo).view; PlainView(w) && CanSpendAll(w, vin) && SpendAll(w, vin) == v
    decreases |vin|
  {
    hide PlainView, Plain, RestoredCoins, Available, AfterSpend;
    if vin != [] {
      var n := |vin| - 1;
      var one := RestoreInput(Reversal(v, true), vin[n], undo[n]);
      assert undo[n] in undo && forall u <- undo[..n] :: u in undo;
      CleanFromTheStart(one, vin[..n], undo[..n]);
      RestoreThenSpend(v, vin[n], undo[n]);
      assert one == Reversal(one.view, true);
      RestoreAllThenSpend(one.view, vin[..n], undo[..n]);
    }
  }

  // ---- One transaction ----

  lemma ClearsNothing(c: Coins)
    requires c.Tidy() && forall o <- c.vout :: !o.IsUnspendable()
    ensures ClearUnspendable(c) == c
  {
    assert forall i :: 0 <= i < |c.vout| ==> c.vout[i] in c.vout;
    assert Spendable(c.vout) == c.vout;
    DropNullsUnique(c.vout, c.vout);
  }

  /** The outputs that were found are those of the transaction. */
  lemma FoundIsMade(m: Utxos, tx: Transaction, h: int)
    requires PlainView(m) && tx.nVersion >= 0 && RemoveOutputs(m, tx, h).clean
    ensures Put(m - {tx.hash}, tx.hash, FromTx(tx, h)) == m
  {
    hide FromTx, ClearUnspendable, Coins.Tidy, Coins.IsPruned, PlainView;
    var c := Lookup(m, tx.hash);
    PlainRecord(m, tx.hash);
    ClearsNothing(c);
    if tx.hash in m {
      assert (m - {tx.hash})[tx.hash := m[tx.hash]] == m;
    } else {
      assert m - {tx.hash} == m;
    }
  }

  /** A transaction that was taken back cleanly can be applied again, and gives the view there was. */
  lemma ReverseThenApply(m: Utxos, tx: Transaction, h: int, undo: seq<TxInUndo>)
    requires PlainView(m) && tx.nVersion >= 0 && (!tx.IsCoinBase() ==> |undo| == |tx.vin| && PlainUndo(undo))
    requires ReverseTx(m, tx, h, undo).clean
    ensures var w := ReverseTx(m, tx, h, undo).view; PlainView(w) && CanSpendAll(w, Inputs(tx)) && ApplyTx(w, tx, h) == m
  {
    var v := m - {tx.hash};
    assert PlainView(v);
    hide PlainView, PlainUndo, FromTx, FoundOutputs, Coins.Same, RestoreAll, SpendAll, CanSpendAll;
    if tx.IsCoinBase() {
      FoundIsMade(m, tx, h);
      NothingToSpend(v);
    } else {
      CleanFromTheStart(RemoveOutputs(m, tx, h), tx.vin, undo);
      FoundIsMade(m, tx, h);
      assert RemoveOutputs(m, tx, h) == Reversal(v, true);
      RestoreAllThenSpend(v, tx.vin, undo);
    }
  }

  lemma NothingToSpend(v: Utxos)
    ensures CanSpendAll(v, []) && SpendAll(v, []) == v
  {
  }

  // ---- Connected views are plain ----

  lemma FromTxPlain(tx: Transaction, h: int)
    ensures forall o <- FromTx(tx, h).vout :: !o.IsUnspendable()
  {
    var s := Spendable(tx.vout);
    forall o | o in DropNulls(s) ensures !o.IsUnspendable() {
      var i :| 0 <= i < |DropNulls(s)| && DropNulls(s)[i] == o;
      assert s[i] == o;
    }
  }

  lemma SpentPlain(c: Coins, n: nat)
    requires c.IsAvailable(n) && forall o <- c.vout :: !o.IsUnspendable()
    ensures forall o <- SpentCoins(c, n).vout :: !o.IsUnspendable()
  {
    var w := c.vout[n := NULL_OUT];
    forall o | o in DropNulls(w) ensures !o.IsUnspendable() {
      var i :| 0 <= i < |DropNulls(w)| && DropNulls(w)[i] == o;
      assert w[i] == o;
      if i != n { assert c.vout[i] in c.vout; }
    }
  }

  lemma {:induction false} SpendAllPlain(m: Utxos, vin: seq<OutPoint>)
    requires NoneUnspendable(m) && CanSpendAll(m, vin)
    ensures NoneUnspendable(SpendAll(m, vin))
    decreases |vin|
  {
    if vin != [] {
      var n := |vin| - 1;
      SpendAllPlain(m, vin[..n]);
      var before := SpendAll(m, vin[..n]);
      hide SpentCoins, SpendAll, CanSpendAll;
      SpentPlain(before[vin[n].hash], vin[n].n);
    }
  }

  lemma ApplyPlain(m: Utxos, tx: Transaction, h: int)
    requires NoneUnspendable(m) && CanSpendAll(m, Inputs(tx))
    ensures NoneUnspendable(ApplyTx(m, tx, h))
  {
    hide FromTx, SpendAll, CanSpendAll, Coins.IsPruned;
    SpendAllPlain(m, Inputs(tx));
    FromTxPlain(tx, h);
  }

  lemma {:induction false} ConnectPlain(m: Utxos, txs: seq<Transaction>, h: int)
    requires NoneUnspendable(m) && CanConnect(m, txs, h)
    ensures NoneUnspendable(ConnectAll(m, txs, h))
    decreases |txs|
  {
    hide NoneUnspendable, ApplyTx, CanSpendAll;
    if txs != [] {
      var n := |txs| - 1;
      ConnectPlain(m, txs[..n], h);
      ApplyPlain(ConnectAll(m, txs[..n], h), txs[n], h);
    }
  }

  /** Connecting keeps a view plain, so every view of a chain is. */
  lemma ConnectKeepsPlain(m: Utxos, txs: seq<Transaction>, h: int)
    requires PlainView(m) && InRange(txs) && CanConnect(m, txs, h)
    ensures PlainView(ConnectAll(m, txs, h))
  {
    hide TidyView, InRange, CanConnect, ConnectAll;
    ConnectAllKeeps(m, txs, h);
    ConnectPlain(m, txs, h);
  }

  // ---- One block ----

  lemma {:induction false} CleanAllAlong(r: Reversal, txs: seq<Transaction>, h: int, undo: seq<seq<TxInUndo>>)
    requires UndoFits(txs, undo) && DisconnectAll(r, txs, h, undo).clean
    ensures r.clean
    decreases |txs|
  {
    hide ReverseTx;
    if txs != [] {
      var n := |txs| - 1;
      var one := ReverseTx(r.view, txs[n], h, undo[n]);
      CleanAllAlong(Reversal(one.view, r.clean && one.clean), txs[..n], h, undo[..n]);
    }
  }

  /**
    Whatever the view and the undo data, a block that is taken back cleanly can be connected again on
    what is left, and gives the view that there was.
   */
  lemma {:induction false} DisconnectThenConnect(m: Utxos, txs: seq<Transaction>, h: int, undo: seq<seq<TxInUndo>>)
    requires PlainView(m) && UndoFits(txs, undo) && DisconnectAll(Reversal(m, true), txs, h, undo).clean
    requires forall i :: 0 <= i < |txs| ==> txs[i].nVersion >= 0 && (!txs[i].IsCoinBase() ==> PlainUndo(undo[i]))
    ensures var w := DisconnectAll(Reversal(m, true), txs, h, undo).view;
            PlainView(w) && CanConnect(w, txs, h) && ConnectAll(w, txs, h) == m
    decreases |txs|
  {
    hide PlainView, PlainUndo, ReverseTx, CanSpendAll, ApplyTx;
    if txs != [] {
      var n := |txs| - 1;
      var one := ReverseTx(m, txs[n], h, undo[n]);
      CleanAllAlong(Reversal(one.view, one.clean), txs[..n], h, undo[..n]);
      ReverseThenApply(m, txs[n], h, undo[n]);
      DisconnectThenConnect(one.view, txs[..n], h, undo[..n]);
    }
  }
}
