/**
  Applying transactions and blocks to the coin database and taking them back.

  The first half is on flat maps: applying a transaction spends its inputs, recording how to undo
  each spend, and adds its outputs; reversing takes the outputs away and restores the inputs in
  reverse order. The second half ties the methods on the cache stack to those functions.
 */
module UtxoUpdate {
  import opened Coins
  import opened CoinsCache

  // ---- Applying ----

  ghost predicate Available(m: Utxos, out: OutPoint)
  {
    out.hash in m && m[out.hash].IsAvailable(out.n)
  }

  ghost function AfterSpend(m: Utxos, out: OutPoint): Utxos
    requires Available(m, out)
  {
    Put(m, out.hash, SpentCoins(m[out.hash], out.n))
  }

  /** The inputs can be spent one after the other. */
  ghost predicate CanSpendAll(m: Utxos, vin: seq<OutPoint>)
    decreases |vin|, 0
  {
    vin == [] ||
    (CanSpendAll(m, vin[..|vin| - 1]) && Available(SpendAll(m, vin[..|vin| - 1]), vin[|vin| - 1]))
  }

  ghost function SpendAll(m: Utxos, vin: seq<OutPoint>): Utxos
    requires CanSpendAll(m, vin)
    decreases |vin|, 1
  {
    if vin == [] then m else AfterSpend(SpendAll(m, vin[..|vin| - 1]), vin[|vin| - 1])
  }

  ghost function UndoAll(m: Utxos, vin: seq<OutPoint>): (r: seq<TxInUndo>)
    requires CanSpendAll(m, vin)
    ensures |r| == |vin|
  {
    if vin == [] then [] else
      var before := SpendAll(m, vin[..|vin| - 1]);
      var out := vin[|vin| - 1];
      UndoAll(m, vin[..|vin| - 1]) + [SpendUndo(before[out.hash], out.n)]
  }

  /** The records that lose their last unspent output, as they were just before. */
  ghost function DrainOf(m: Utxos, out: OutPoint): set<(TxId, Coins)>
    requires Available(m, out)
  {
    if SpentCoins(m[out.hash], out.n).vout == [] then {(out.hash, m[out.hash])} else {}
  }

  ghost function Ids(ds: set<(TxId, Coins)>): set<TxId> { set d <- ds :: d.0 }

  lemma IdsUnion(a: set<(TxId, Coins)>, b: set<(TxId, Coins)>)
    ensures Ids(a + b) == Ids(a) + Ids(b)
  {
  }

  /** Height 0 doubles as "no metadata" in undo data. */
  ghost predicate AtGenesis(ds: set<(TxId, Coins)>) { exists d <- ds :: d.1.nHeight == 0 }

  ghost function Drains(m: Utxos, vin: seq<OutPoint>): set<(TxId, Coins)>
    requires CanSpendAll(m, vin)
  {
    if vin == [] then {} else
      Drains(m, vin[..|vin| - 1]) + DrainOf(SpendAll(m, vin[..|vin| - 1]), vin[|vin| - 1])
  }

  ghost function Inputs(tx: Transaction): seq<OutPoint> { if tx.IsCoinBase() then [] else tx.vin }

  ghost function ApplyTx(m: Utxos, tx: Transaction, h: int): Utxos
    requires CanSpendAll(m, Inputs(tx))
  {
    Put(SpendAll(m, Inputs(tx)), tx.hash, FromTx(tx, h))
  }

  // ---- Reversing ----

  datatype TxReversalStatus = ABORT_NO_OTHER_ERRORS | ABORT_WITH_OTHER_ERRORS | CONTINUE_WITH_ERRORS | OK

  datatype Reversal = Reversal(view: Utxos, clean: bool)

  /** The vector grown with null outputs up to index `n`, with the output put back. */
  function PutOutput(vout: seq<TxOut>, n: nat, out: TxOut): (r: seq<TxOut>)
    ensures |r| == if n < |vout| then |vout| else n + 1
  {
    if n < |vout| then vout[n := out]
    else vout + seq(n - |vout|, _ => NULL_OUT) + [out]
  }

  /** The record with one output restored, and whether the undo data fits it. */
  function RestoredCoins(c: Coins, n: nat, undo: TxInUndo): (r: (Coins, bool))
  {
    var fits := if undo.nHeight != 0 then c.IsPruned() else !c.IsPruned();
    var start := if undo.nHeight != 0
                 then NO_COINS.(fCoinBase := undo.fCoinBase, nHeight := undo.nHeight, nVersion := undo.nVersion)
                 else c;
    (start.(vout := PutOutput(start.vout, n, undo.txout)), fits && !start.IsAvailable(n))
  }

  ghost function RestoreInput(r: Reversal, out: OutPoint, undo: TxInUndo): Reversal
  {
    var (c, fits) := RestoredCoins(Lookup(r.view, out.hash), out.n, undo);
    Reversal(Put(r.view, out.hash, Cleanup(c)), r.clean && fits)
  }

  /** The inputs restored from the last one back to the first. */
  ghost function RestoreAll(r: Reversal, vin: seq<OutPoint>, undo: seq<TxInUndo>): Reversal
    requires |vin| == |undo|
    decreases |vin|
  {
    if vin == [] then r else
      var n := |vin| - 1;
      RestoreAll(RestoreInput(r, vin[n], undo[n]), vin[..n], undo[..n])
  }

  /** The record of the transaction as found, with the tolerance for negative versions. */
  function FoundOutputs(c: Coins, tx: Transaction): (r: Coins)
  {
    var outs := ClearUnspendable(c);
    if tx.nVersion < 0 then outs.(nVersion := tx.nVersion) else outs
  }

  ghost function RemoveOutputs(m: Utxos, tx: Transaction, h: int): Reversal
  {
    Reversal(m - {tx.hash}, FoundOutputs(Lookup(m, tx.hash), tx).Same(FromTx(tx, h)))
  }

  ghost function ReverseTx(m: Utxos, tx: Transaction, h: int, undo: seq<TxInUndo>): Reversal
    requires !tx.IsCoinBase() ==> |undo| == |tx.vin|
  {
    if tx.IsCoinBase() then RemoveOutputs(m, tx, h)
    else RestoreAll(RemoveOutputs(m, tx, h), tx.vin, undo)
  }

  // ---- One spend and its undo ----

  /** Reversal cannot restore the coinstake flag of a drained record: the map with those flags cleared. */
  ghost function Forget(m: Utxos, ids: set<TxId>): Utxos
  {
    map id | id in m :: if id in ids then m[id].(fCoinStake := false) else m[id]
  }

  ghost predicate TidyView(m: Utxos) { forall id <- m :: m[id].Tidy() && !m[id].IsPruned() }

  /** Putting back the only output that a drained record had left. */
  lemma PutBackLast(v: seq<TxOut>, n: nat)
    requires n < |v| && !v[n].IsNull() && DropNulls(v[n := NULL_OUT]) == []
    requires forall o <- v :: o.IsNull() ==> o == NULL_OUT
    requires !v[|v| - 1].IsNull()
    ensures PutOutput([], n, v[n]) == v
  {
    var w := v[n := NULL_OUT];
    forall i | 0 <= i < |v| && i != n ensures v[i] == NULL_OUT {
      assert w[i] == v[i] && v[i] in v;
    }
    assert n == |v| - 1;
  }

  /** Putting back an output of a record that still had others. */
  lemma PutBackOne(v: seq<TxOut>, n: nat)
    requires n < |v| && !v[n].IsNull()
    requires forall o <- v :: o.IsNull() ==> o == NULL_OUT
    requires !v[|v| - 1].IsNull()
    ensures var w := DropNulls(v[n := NULL_OUT]);
            PutOutput(w, n, v[n]) == v && (n < |w| ==> w[n].IsNull())
  {
    var w := DropNulls(v[n := NULL_OUT]);
    forall i | 0 <= i < |v| && i != n ensures i < |w| ==> w[i] == v[i] {
    }
    if n >= |w| {
      forall i | |w| <= i < n ensures v[i] == NULL_OUT {
        assert v[n := NULL_OUT][i] == v[i] && v[i] in v;
      }
      assert n == |v| - 1;
    }
  }

  /** Restoring the record of one spent output: exact, but for the lost flag and the height sentinel. */
  lemma RestoreSpent(c: Coins, n: nat, stake: bool)
    requires c.Tidy() && c.IsAvailable(n)
    ensures SpentCoins(c, n).vout != [] ==>
              RestoredCoins(SpentCoins(c, n).(fCoinStake := stake), n, SpendUndo(c, n)) == (c.(fCoinStake := stake), true)
    ensures SpentCoins(c, n).vout == [] && c.nHeight != 0 ==>
              RestoredCoins(NO_COINS, n, SpendUndo(c, n)) == (c.(fCoinStake := false), true)
    ensures SpentCoins(c, n).vout == [] && c.nHeight == 0 ==>
              !RestoredCoins(NO_COINS, n, SpendUndo(c, n)).1
    ensures SpentCoins(c, n).IsPruned() <==> SpentCoins(c, n).vout == []
    ensures SpentCoins(c, n).fCoinStake == c.fCoinStake
  {
    hide DropNulls, PutOutput;
    PrunedIffEmpty(SpentCoins(c, n));
    PrunedIffEmpty(SpentCoins(c, n).(fCoinStake := stake));
    if SpentCoins(c, n).vout == [] { PutBackLast(c.vout, n); } else { PutBackOne(c.vout, n); }
  }

  lemma ForgetPut(m: Utxos, id: TxId, c: Coins, ids: set<TxId>, ids': set<TxId>)
    requires id in m && !m[id].IsPruned()
    requires ids <= ids' <= ids + {id}
    ensures Put(Forget(Put(m, id, c), ids), id, m[id].(fCoinStake := m[id].fCoinStake && id !in ids')) == Forget(m, ids')
  {
    hide Coins.IsPruned;
    var back := m[id].(fCoinStake := m[id].fCoinStake && id !in ids');
    assert back.IsPruned() == m[id].IsPruned() by { PrunedByOutputs(back, m[id]); }
    assert Put(Forget(Put(m, id, c), ids), id, back) == Forget(m, ids');
  }

  lemma PrunedByOutputs(c: Coins, d: Coins)
    requires c.vout == d.vout
    ensures c.IsPruned() == d.IsPruned()
  {
  }

  lemma RestoreDrained(m: Utxos, out: OutPoint, ids: set<TxId>)
    requires TidyView(m) && Available(m, out) && SpentCoins(m[out.hash], out.n).vout == []
    ensures var r := RestoreInput(Reversal(Forget(AfterSpend(m, out), ids), true), out, SpendUndo(m[out.hash], out.n));
            if m[out.hash].nHeight == 0 then !r.clean
            else r == Reversal(Forget(m, ids + {out.hash}), true)
  {
    var c := m[out.hash];
    var view := Forget(AfterSpend(m, out), ids);
    RestoreSpent(c, out.n, false);
    hide RestoredCoins, SpendUndo, SpentCoins, Coins.IsPruned, Cleanup;
    assert Lookup(view, out.hash) == NO_COINS;
    if c.nHeight != 0 {
      ForgetPut(m, out.hash, SpentCoins(c, out.n), ids, ids + {out.hash});
    }
  }

  lemma RestoreKept(m: Utxos, out: OutPoint, ids: set<TxId>)
    requires TidyView(m) && Available(m, out) && SpentCoins(m[out.hash], out.n).vout != []
    ensures RestoreInput(Reversal(Forget(AfterSpend(m, out), ids), true), out, SpendUndo(m[out.hash], out.n))
            == Reversal(Forget(m, ids), true)
  {
    var c := m[out.hash];
    var view := Forget(AfterSpend(m, out), ids);
    var stake := c.fCoinStake && out.hash !in ids;
    RestoreSpent(c, out.n, stake);
    ForgetPut(m, out.hash, SpentCoins(c, out.n), ids, ids);
    hide RestoredCoins, SpendUndo, SpentCoins, Coins.IsPruned, Cleanup;
    assert Lookup(view, out.hash) == SpentCoins(c, out.n).(fCoinStake := stake);
  }

  /** One input, on a view where some flags have already been forgotten. */
  lemma RestoreInputInverts(m: Utxos, out: OutPoint, ids: set<TxId>)
    requires TidyView(m) && Available(m, out)
    ensures var r := RestoreInput(Reversal(Forget(AfterSpend(m, out), ids), true), out, SpendUndo(m[out.hash], out.n));
            if AtGenesis(DrainOf(m, out)) then !r.clean
            else r == Reversal(Forget(m, ids + Ids(DrainOf(m, out))), true)
  {
    hide RestoreInput, Forget, SpendUndo, SpentCoins, AfterSpend, Ids, DrainOf, AtGenesis, TidyView;
    DrainIs(m, out, ids);
    if SpentCoins(m[out.hash], out.n).vout == [] { RestoreDrained(m, out, ids); } else { RestoreKept(m, out, ids); }
  }

  lemma DrainIs(m: Utxos, out: OutPoint, ids: set<TxId>)
    requires Available(m, out)
    ensures out.hash in m
    ensures var drained := SpentCoins(m[out.hash], out.n).vout == [];
            && (AtGenesis(DrainOf(m, out)) <==> drained && m[out.hash].nHeight == 0)
            && ids + Ids(DrainOf(m, out)) == if drained then ids + {out.hash} else ids
  {
    hide SpentCoins;
    var c := m[out.hash];
    if SpentCoins(c, out.n).vout == [] {
      assert (out.hash, c) in DrainOf(m, out);
      assert Ids(DrainOf(m, out)) == {out.hash};
    } else {
      assert Ids(DrainOf(m, out)) == {};
    }
  }

  // ---- One transaction ----

  predicate SameMeta(c: Coins, d: Coins)
  {
    c.fCoinBase == d.fCoinBase && c.fCoinStake == d.fCoinStake && c.nHeight == d.nHeight && c.nVersion == d.nVersion
  }

  /** Spending keeps the view tidy, adds no record and changes no metadata. */
  lemma {:induction false} SpendAllKeeps(m: Utxos, vin: seq<OutPoint>)
    requires TidyView(m) && CanSpendAll(m, vin)
    ensures TidyView(SpendAll(m, vin))
    ensures forall id <- SpendAll(m, vin) :: id in m && SameMeta(SpendAll(m, vin)[id], m[id])
    ensures forall d <- Drains(m, vin) :: d.0 in m && SameMeta(d.1, m[d.0])
    decreases |vin|
  {
    if vin != [] {
      var before, out := SpendAll(m, vin[..|vin| - 1]), vin[|vin| - 1];
      SpendAllKeeps(m, vin[..|vin| - 1]);
      SpentCoinsTidy(before[out.hash], out.n);
      hide DropNulls;
      assert SameMeta(SpentCoins(before[out.hash], out.n), before[out.hash]);
    }
  }

  lemma {:induction false} RestoreAllUnclean(r: Reversal, vin: seq<OutPoint>, undo: seq<TxInUndo>)
    requires |vin| == |undo| && !r.clean
    ensures !RestoreAll(r, vin, undo).clean
    decreases |vin|
  {
    if vin != [] {
      var n := |vin| - 1;
      RestoreAllUnclean(RestoreInput(r, vin[n], undo[n]), vin[..n], undo[..n]);
    }
  }

  lemma {:induction false} RestoreAllInverts(m: Utxos, vin: seq<OutPoint>, ids: set<TxId>)
    requires TidyView(m) && CanSpendAll(m, vin)
    ensures var r := RestoreAll(Reversal(Forget(SpendAll(m, vin), ids), true), vin, UndoAll(m, vin));
            if AtGenesis(Drains(m, vin)) then !r.clean
            else r == Reversal(Forget(m, ids + Ids(Drains(m, vin))), true)
    decreases |vin|
  {
    hide Forget, RestoreInput, SpendUndo, AfterSpend, DrainOf;
    if vin == [] {
      assert ids + Ids(Drains(m, vin)) == ids;
    } else {
      var n := |vin| - 1;
      var before, out := SpendAll(m, vin[..n]), vin[n];
      var undo := UndoAll(m, vin);
      SpendAllKeeps(m, vin[..n]);
      RestoreInputInverts(before, out, ids);
      assert undo[..n] == UndoAll(m, vin[..n]);
      var first := RestoreInput(Reversal(Forget(SpendAll(m, vin), ids), true), out, undo[n]);
      assert RestoreAll(Reversal(Forget(SpendAll(m, vin), ids), true), vin, undo) == RestoreAll(first, vin[..n], undo[..n]);
      if AtGenesis(DrainOf(before, out)) {
        RestoreAllUnclean(first, vin[..n], undo[..n]);
      } else {
        RestoreAllInverts(m, vin[..n], ids + Ids(DrainOf(before, out)));
        assert ids + Ids(Drains(m, vin)) == ids + Ids(DrainOf(before, out)) + Ids(Drains(m, vin[..n]));
      }
    }
  }

  /** A coinstake whose outputs were all spent and restored no longer looks like the one in the block. */
  ghost predicate LosesStake(tx: Transaction, h: int)
  {
    tx.IsCoinStake() && !FromTx(tx, h).IsPruned()
  }

  lemma NothingFound(tx: Transaction)
    ensures FoundOutputs(NO_COINS, tx).IsPruned()
  {
    assert Spendable([]) == [];
  }

  lemma ForgetRemove(m: Utxos, id: TxId, c: Coins, ids: set<TxId>)
    requires id !in m
    ensures Forget(Put(m, id, c), ids) - {id} == Forget(m, ids)
    ensures Lookup(Forget(Put(m, id, c), ids), id)
         == if c.IsPruned() then NO_COINS else c.(fCoinStake := c.fCoinStake && id !in ids)
  {
    hide Coins.IsPruned;
    assert (Forget(Put(m, id, c), ids) - {id}).Keys == m.Keys;
  }

  lemma RemoveOutputsInverts(m: Utxos, tx: Transaction, h: int, ids: set<TxId>)
    requires tx.hash !in m
    ensures var r := RemoveOutputs(Forget(Put(m, tx.hash, FromTx(tx, h)), ids), tx, h);
            r == Reversal(Forget(m, ids), !(tx.hash in ids && LosesStake(tx, h)))
  {
    ForgetRemove(m, tx.hash, FromTx(tx, h), ids);
    NothingFound(tx);
    assert FromTx(tx, h).fCoinStake == tx.IsCoinStake();
    if !FromTx(tx, h).IsPruned() { }
    hide FoundOutputs, FromTx, Coins.IsPruned, Transaction.IsCoinStake, Forget, Put, Lookup;
  }

  ghost predicate ReversibleTx(m: Utxos, tx: Transaction, h: int, ids: set<TxId>)
    requires CanSpendAll(m, Inputs(tx))
  {
    !AtGenesis(Drains(m, Inputs(tx))) && !(tx.hash in ids && LosesStake(tx, h))
  }

  /** One transaction applied and reversed, on a view where the flags of `ids` are already forgotten. */
  lemma ReverseTxInverts(m: Utxos, tx: Transaction, h: int, ids: set<TxId>)
    requires TidyView(m) && CanSpendAll(m, Inputs(tx)) && tx.hash !in m
    ensures var r := ReverseTx(Forget(ApplyTx(m, tx, h), ids), tx, h, UndoAll(m, Inputs(tx)));
            && r.clean == ReversibleTx(m, tx, h, ids)
            && (r.clean ==> r.view == Forget(m, ids + Ids(Drains(m, Inputs(tx)))))
  {
    hide Forget, RemoveOutputs, RestoreInput, LosesStake, Put, SpendUndo, FromTx;
    var spent := SpendAll(m, Inputs(tx));
    SpendAllKeeps(m, Inputs(tx));
    RemoveOutputsInverts(spent, tx, h, ids);
    var removed := RemoveOutputs(Forget(ApplyTx(m, tx, h), ids), tx, h);
    if tx.IsCoinBase() {
      assert ids + Ids(Drains(m, Inputs(tx))) == ids;
    } else if !removed.clean {
      RestoreAllUnclean(removed, tx.vin, UndoAll(m, tx.vin));
    } else {
      RestoreAllInverts(m, tx.vin, ids);
    }
  }

  // ---- Blocks ----

  ghost predicate CanConnect(m: Utxos, txs: seq<Transaction>, h: int)
    decreases |txs|, 0
  {
    txs == [] ||
    (CanConnect(m, txs[..|txs| - 1], h) && CanSpendAll(ConnectAll(m, txs[..|txs| - 1], h), Inputs(txs[|txs| - 1])))
  }

  ghost function ConnectAll(m: Utxos, txs: seq<Transaction>, h: int): Utxos
    requires CanConnect(m, txs, h)
    decreases |txs|, 1
  {
    if txs == [] then m else ApplyTx(ConnectAll(m, txs[..|txs| - 1], h), txs[|txs| - 1], h)
  }

  ghost function BlockUndo(m: Utxos, txs: seq<Transaction>, h: int): (r: seq<seq<TxInUndo>>)
    requires CanConnect(m, txs, h)
    ensures |r| == |txs|
    decreases |txs|
  {
    if txs == [] then [] else
      BlockUndo(m, txs[..|txs| - 1], h) + [UndoAll(ConnectAll(m, txs[..|txs| - 1], h), Inputs(txs[|txs| - 1]))]
  }

  /** The records emptied by the block, as they were just before their last spend. */
  ghost function BlockDrains(m: Utxos, txs: seq<Transaction>, h: int): set<(TxId, Coins)>
    requires CanConnect(m, txs, h)
    decreases |txs|
  {
    if txs == [] then {} else
      BlockDrains(m, txs[..|txs| - 1], h) + Drains(ConnectAll(m, txs[..|txs| - 1], h), Inputs(txs[|txs| - 1]))
  }

  ghost predicate UndoFits(txs: seq<Transaction>, undo: seq<seq<TxInUndo>>)
  {
    |undo| == |txs| && forall i :: 0 <= i < |txs| && !txs[i].IsCoinBase() ==> |undo[i]| == |txs[i].vin|
  }

  /** The block taken back, last transaction first. */
  ghost function DisconnectAll(r: Reversal, txs: seq<Transaction>, h: int, undo: seq<seq<TxInUndo>>): Reversal
    requires UndoFits(txs, undo)
    decreases |txs|
  {
    if txs == [] then r else
      var n := |txs| - 1;
      var one := ReverseTx(r.view, txs[n], h, undo[n]);
      DisconnectAll(Reversal(one.view, r.clean && one.clean), txs[..n], h, undo[..n])
  }

  /** The transaction ids of the block are new and distinct. */
  ghost predicate FreshIds(m: Utxos, txs: seq<Transaction>)
  {
    && (forall tx <- txs :: tx.hash !in m)
    && (forall i, j :: 0 <= i < j < |txs| ==> txs[i].hash != txs[j].hash)
  }

  ghost predicate InRange(txs: seq<Transaction>) { forall tx <- txs :: tx.OutputsInRange() }

  /** Where a record of the connected view comes from. */
  ghost predicate FromView(m: Utxos, id: TxId, c: Coins) { id in m && SameMeta(c, m[id]) }

  ghost predicate FromBlock(txs: seq<Transaction>, h: int, id: TxId, c: Coins)
  {
    exists tx <- txs :: tx.hash == id && c.nHeight == h && c.fCoinStake == tx.IsCoinStake() && !FromTx(tx, h).IsPruned()
  }

  lemma PrefixOk(m: Utxos, txs: seq<Transaction>)
    requires txs != [] && InRange(txs)
    ensures InRange(txs[..|txs| - 1]) && txs[|txs| - 1].OutputsInRange()
    ensures FreshIds(m, txs) ==> FreshIds(m, txs[..|txs| - 1])
  {
    hide Transaction.OutputsInRange;
    var n := |txs| - 1;
    assert txs[n] in txs;
    assert forall t <- txs[..n] :: t in txs;
  }

  /** What one transaction leaves in the view: its own outputs, and records it did not create. */
  lemma ApplyTxKeeps(m: Utxos, tx: Transaction, h: int)
    requires TidyView(m) && tx.OutputsInRange() && CanSpendAll(m, Inputs(tx))
    ensures TidyView(ApplyTx(m, tx, h))
    ensures forall id <- ApplyTx(m, tx, h) ::
              FromView(m, id, ApplyTx(m, tx, h)[id]) || FromBlock([tx], h, id, ApplyTx(m, tx, h)[id])
  {
    SpendAllKeeps(m, Inputs(tx));
    FromTxTidy(tx, h);
    assert FromTx(tx, h).nHeight == h && FromTx(tx, h).fCoinStake == tx.IsCoinStake();
    assert tx in [tx];
    hide FromTx, Coins.IsPruned, Coins.Tidy, SpendAll, CanSpendAll;
  }

  lemma FromBlockGrows(txs: seq<Transaction>, more: seq<Transaction>, h: int, id: TxId, c: Coins, d: Coins)
    requires FromBlock(txs, h, id, c) && SameMeta(c, d) && (forall tx <- txs :: tx in more)
    ensures FromBlock(more, h, id, d)
  {
    hide FromTx, Coins.IsPruned, Transaction.IsCoinStake;
    var tx :| tx in txs && tx.hash == id && c.nHeight == h && c.fCoinStake == tx.IsCoinStake() && !FromTx(tx, h).IsPruned();
    assert tx in more;
  }

  lemma {:induction false} ConnectAllKeeps(m: Utxos, txs: seq<Transaction>, h: int)
    requires TidyView(m) && InRange(txs) && CanConnect(m, txs, h)
    ensures TidyView(ConnectAll(m, txs, h))
    ensures forall id <- ConnectAll(m, txs, h) ::
              FromView(m, id, ConnectAll(m, txs, h)[id]) || FromBlock(txs, h, id, ConnectAll(m, txs, h)[id])
    decreases |txs|
  {
    hide TidyView, FromBlock, ApplyTx, InRange, CanSpendAll;
    if txs != [] {
      var n := |txs| - 1;
      var before, tx := ConnectAll(m, txs[..n], h), txs[n];
      PrefixOk(m, txs);
      ConnectAllKeeps(m, txs[..n], h);
      ApplyTxKeeps(before, tx, h);
      var after := ConnectAll(m, txs, h);
      forall id | id in after
        ensures FromView(m, id, after[id]) || FromBlock(txs, h, id, after[id])
      {
        if FromBlock([tx], h, id, after[id]) {
          FromBlockGrows([tx], txs, h, id, after[id], after[id]);
        } else if FromBlock(txs[..n], h, id, before[id]) {
          FromBlockGrows(txs[..n], txs, h, id, before[id], after[id]);
        }
      }
    }
  }

  lemma FreshAtItsTurn(m: Utxos, txs: seq<Transaction>, h: int)
    requires txs != [] && TidyView(m) && InRange(txs) && FreshIds(m, txs) && CanConnect(m, txs, h)
    ensures txs[|txs| - 1].hash !in ConnectAll(m, txs[..|txs| - 1], h)
  {
    var n := |txs| - 1;
    PrefixOk(m, txs);
    ConnectAllKeeps(m, txs[..n], h);
    hide TidyView, InRange, ConnectAll, CanConnect, FromTx;
    assert txs[n] in txs;
  }

  ghost predicate ReversibleFrom(m: Utxos, txs: seq<Transaction>, h: int, ids: set<TxId>)
    requires CanConnect(m, txs, h)
    decreases |txs|
  {
    txs == [] ||
    (var n := |txs| - 1;
     var before := ConnectAll(m, txs[..n], h);
     && ReversibleTx(before, txs[n], h, ids)
     && ReversibleFrom(m, txs[..n], h, ids + Ids(Drains(before, Inputs(txs[n])))))
  }

  lemma {:induction false} DisconnectUnclean(r: Reversal, txs: seq<Transaction>, h: int, undo: seq<seq<TxInUndo>>)
    requires UndoFits(txs, undo) && !r.clean
    ensures !DisconnectAll(r, txs, h, undo).clean
    decreases |txs|
  {
    if txs != [] {
      var n := |txs| - 1;
      DisconnectUnclean(Reversal(ReverseTx(r.view, txs[n], h, undo[n]).view, false), txs[..n], h, undo[..n]);
    }
  }

  lemma {:induction false} BlockUndoFits(m: Utxos, txs: seq<Transaction>, h: int)
    requires CanConnect(m, txs, h)
    ensures UndoFits(txs, BlockUndo(m, txs, h))
    decreases |txs|
  {
    hide CanSpendAll, ConnectAll, CanConnect, BlockUndo, UndoAll;
    UndoNext(m, txs, h);
    if txs != [] { BlockUndoFits(m, txs[..|txs| - 1], h); }
  }

  lemma UndoNext(m: Utxos, txs: seq<Transaction>, h: int)
    requires CanConnect(m, txs, h)
    ensures |BlockUndo(m, txs, h)| == |txs|
    ensures txs != [] ==>
              && CanConnect(m, txs[..|txs| - 1], h)
              && BlockUndo(m, txs, h)[..|txs| - 1] == BlockUndo(m, txs[..|txs| - 1], h)
              && |BlockUndo(m, txs, h)[|txs| - 1]| == |Inputs(txs[|txs| - 1])|
  {
    hide CanSpendAll;
  }

  lemma UnfoldBlock(m: Utxos, txs: seq<Transaction>, h: int, ids: set<TxId>)
    requires txs != [] && CanConnect(m, txs, h)
    ensures var n := |txs| - 1;
            && CanConnect(m, txs[..n], h)
            && var before := ConnectAll(m, txs[..n], h);
               && CanSpendAll(before, Inputs(txs[n]))
               && ConnectAll(m, txs, h) == ApplyTx(before, txs[n], h)
               && BlockUndo(m, txs, h) == BlockUndo(m, txs[..n], h) + [UndoAll(before, Inputs(txs[n]))]
               && BlockDrains(m, txs, h) == BlockDrains(m, txs[..n], h) + Drains(before, Inputs(txs[n]))
               && ReversibleFrom(m, txs, h, ids)
                  == (ReversibleTx(before, txs[n], h, ids)
                      && ReversibleFrom(m, txs[..n], h, ids + Ids(Drains(before, Inputs(txs[n])))))
  {
  }

  lemma UnfoldDisconnect(r: Reversal, txs: seq<Transaction>, h: int, undo: seq<seq<TxInUndo>>, last: seq<TxInUndo>)
    requires txs != [] && UndoFits(txs, undo + [last])
    ensures txs[|txs| - 1].IsCoinBase() || |last| == |txs[|txs| - 1].vin|
    ensures var n := |txs| - 1;
            var one := ReverseTx(r.view, txs[n], h, last);
            && UndoFits(txs[..n], undo)
            && DisconnectAll(r, txs, h, undo + [last])
               == DisconnectAll(Reversal(one.view, r.clean && one.clean), txs[..n], h, undo)
  {
    hide ReverseTx;
    assert (undo + [last])[..|txs| - 1] == undo;
  }

  lemma DisconnectNothing(m: Utxos, h: int, ids: set<TxId>)
    ensures BlockUndo(m, [], h) == [] && UndoFits([], [])
    ensures var r := DisconnectAll(Reversal(Forget(ConnectAll(m, [], h), ids), true), [], h, []);
            && r.clean == ReversibleFrom(m, [], h, ids)
            && r.view == Forget(m, ids + Ids(BlockDrains(m, [], h)))
  {
    assert ids + Ids(BlockDrains(m, [], h)) == ids;
  }

  lemma {:induction false} DisconnectInverts(m: Utxos, txs: seq<Transaction>, h: int, ids: set<TxId>)
    requires TidyView(m) && InRange(txs) && FreshIds(m, txs) && CanConnect(m, txs, h)
    ensures UndoFits(txs, BlockUndo(m, txs, h))
    ensures var r := DisconnectAll(Reversal(Forget(ConnectAll(m, txs, h), ids), true), txs, h, BlockUndo(m, txs, h));
            && r.clean == ReversibleFrom(m, txs, h, ids)
            && (r.clean ==> r.view == Forget(m, ids + Ids(BlockDrains(m, txs, h))))
    decreases |txs|
  {
    hide *;
    BlockUndoFits(m, txs, h);
    if txs == [] {
      DisconnectNothing(m, h, ids);
    } else {
      var n := |txs| - 1;
      UnfoldBlock(m, txs, h, ids);
      var before, tx := ConnectAll(m, txs[..n], h), txs[n];
      var last := UndoAll(before, Inputs(tx));
      PrefixOk(m, txs);
      ConnectAllKeeps(m, txs[..n], h);
      FreshAtItsTurn(m, txs, h);
      ReverseTxInverts(before, tx, h, ids);
      var start := Reversal(Forget(ConnectAll(m, txs, h), ids), true);
      UnfoldDisconnect(start, txs, h, BlockUndo(m, txs[..n], h), last);
      var one := ReverseTx(start.view, tx, h, last);
      if one.clean {
        DisconnectInverts(m, txs[..n], h, ids + Ids(Drains(before, Inputs(tx))));
        IdsUnion(BlockDrains(m, txs[..n], h), Drains(before, Inputs(tx)));
        assert ids + (Ids(BlockDrains(m, txs[..n], h)) + Ids(Drains(before, Inputs(tx))))
            == ids + Ids(Drains(before, Inputs(tx))) + Ids(BlockDrains(m, txs[..n], h));
      } else {
        DisconnectUnclean(one, txs[..n], h, BlockUndo(m, txs[..n], h));
      }
    }
  }

  /** The two ways in which emptying a record spoils the reversal. */
  ghost predicate BadDrain(d: (TxId, Coins), h: int)
  {
    d.1.nHeight == 0 || (d.1.fCoinStake && d.1.nHeight == h)
  }

  ghost predicate HeightsBelow(m: Utxos, h: int) { forall id <- m :: m[id].nHeight < h }

  ghost predicate StakeOfBlock(txs: seq<Transaction>, h: int, id: TxId)
  {
    exists tx <- txs :: tx.hash == id && LosesStake(tx, h)
  }

  lemma StakeOrigin(m: Utxos, txs: seq<Transaction>, h: int, id: TxId, c: Coins)
    requires FromView(m, id, c) || FromBlock(txs, h, id, c)
    requires FreshIds(m, txs) && HeightsBelow(m, h)
    ensures (c.fCoinStake && c.nHeight == h) <==> StakeOfBlock(txs, h, id)
  {
    hide FromTx, Coins.IsPruned, Transaction.IsCoinStake;
    if FromBlock(txs, h, id, c) {
      var tx :| tx in txs && tx.hash == id && c.nHeight == h && c.fCoinStake == tx.IsCoinStake() && !FromTx(tx, h).IsPruned();
      if t :| t in txs && t.hash == id && LosesStake(t, h) {
        SameTransaction(m, txs, t, tx);
      }
    }
  }

  lemma SameTransaction(m: Utxos, txs: seq<Transaction>, t: Transaction, u: Transaction)
    requires FreshIds(m, txs) && t in txs && u in txs && t.hash == u.hash
    ensures t == u
  {
  }

  lemma BlockStakeDrained(m: Utxos, txs: seq<Transaction>, h: int, vin: seq<OutPoint>)
    requires TidyView(m) && InRange(txs) && FreshIds(m, txs) && CanConnect(m, txs, h) && HeightsBelow(m, h)
    requires CanSpendAll(ConnectAll(m, txs, h), vin)
    ensures forall d <- Drains(ConnectAll(m, txs, h), vin) ::
              (d.1.fCoinStake && d.1.nHeight == h) <==> StakeOfBlock(txs, h, d.0)
  {
    var view := ConnectAll(m, txs, h);
    ConnectAllKeeps(m, txs, h);
    SpendAllKeeps(view, vin);
    hide *;
    forall d | d in Drains(view, vin)
      ensures (d.1.fCoinStake && d.1.nHeight == h) <==> StakeOfBlock(txs, h, d.0)
    {
      StakeOrigin(m, txs, h, d.0, view[d.0]);
      SameMetaFields(d.1, view[d.0]);
    }
  }

  lemma SameMetaFields(c: Coins, d: Coins)
    requires SameMeta(c, d)
    ensures c.fCoinStake == d.fCoinStake && c.nHeight == d.nHeight
  {
  }

  ghost predicate StakesUntouched(txs: seq<Transaction>, h: int, ids: set<TxId>)
  {
    forall tx <- txs :: tx.hash in ids ==> !LosesStake(tx, h)
  }

  lemma StakesUntouchedGrows(txs: seq<Transaction>, h: int, ids: set<TxId>, ds: set<(TxId, Coins)>)
    ensures StakesUntouched(txs, h, ids + Ids(ds))
       <==> StakesUntouched(txs, h, ids) && (forall d <- ds :: !StakeOfBlock(txs, h, d.0))
  {
    hide LosesStake;
  }

  lemma StakesUntouchedSnoc(txs: seq<Transaction>, h: int, ids: set<TxId>)
    requires txs != []
    ensures StakesUntouched(txs, h, ids) <==>
              && StakesUntouched(txs[..|txs| - 1], h, ids)
              && !(txs[|txs| - 1].hash in ids && LosesStake(txs[|txs| - 1], h))
  {
    hide LosesStake;
    var n := |txs| - 1;
    assert txs == txs[..n] + [txs[n]];
    assert forall t :: t in txs <==> t in txs[..n] || t == txs[n];
  }

  ghost predicate NoBadDrain(ds: set<(TxId, Coins)>, h: int) { forall d <- ds :: !BadDrain(d, h) }

  lemma {:induction false} ReversibleIff(m: Utxos, txs: seq<Transaction>, h: int, ids: set<TxId>)
    requires TidyView(m) && InRange(txs) && FreshIds(m, txs) && CanConnect(m, txs, h) && HeightsBelow(m, h)
    ensures ReversibleFrom(m, txs, h, ids)
       <==> NoBadDrain(BlockDrains(m, txs, h), h) && StakesUntouched(txs, h, ids)
    decreases |txs|
  {
    if txs != [] {
      var n := |txs| - 1;
      UnfoldBlock(m, txs, h, ids);
      PrefixOk(m, txs);
      var before, tx := ConnectAll(m, txs[..n], h), txs[n];
      var ds := Drains(before, Inputs(tx));
      BlockStakeDrained(m, txs[..n], h, Inputs(tx));
      ReversibleIff(m, txs[..n], h, ids + Ids(ds));
      StakesUntouchedGrows(txs[..n], h, ids, ds);
      StakesUntouchedSnoc(txs, h, ids);
      hide Drains, ConnectAll, CanConnect, CanSpendAll, ReversibleFrom, BlockDrains, TidyView, InRange, FreshIds,
        LosesStake, Ids, HeightsBelow, StakesUntouched, StakeOfBlock;
      assert NoBadDrain(ds, h) <==> !AtGenesis(ds) && forall d <- ds :: !StakeOfBlock(txs[..n], h, d.0);
    }
  }

  /**
    Connecting a block and disconnecting it with the recorded undo data reports clean exactly when
    the block empties no record of height 0 and no coinstake of its own. The view is then the
    original one, except that the records that were emptied have lost their coinstake flag.
   */
  lemma BlockRoundTrip(m: Utxos, txs: seq<Transaction>, h: int)
    requires TidyView(m) && InRange(txs) && FreshIds(m, txs) && CanConnect(m, txs, h) && HeightsBelow(m, h)
    ensures UndoFits(txs, BlockUndo(m, txs, h))
    ensures var r := DisconnectAll(Reversal(ConnectAll(m, txs, h), true), txs, h, BlockUndo(m, txs, h));
            && (r.clean <==> NoBadDrain(BlockDrains(m, txs, h), h))
            && (r.clean ==> r.view == Forget(m, Ids(BlockDrains(m, txs, h))))
  {
    ForgetNothing(ConnectAll(m, txs, h));
    DisconnectInverts(m, txs, h, {});
    ReversibleIff(m, txs, h, {});
    assert StakesUntouched(txs, h, {});
    hide *;
    assert {} + Ids(BlockDrains(m, txs, h)) == Ids(BlockDrains(m, txs, h));
  }

  lemma ForgetNothing(m: Utxos)
    ensures Forget(m, {}) == m
  {
  }

  /** Nothing at all is lost exactly when no record that was emptied is a coinstake. */
  lemma ForgetIsIdentity(m: Utxos, ids: set<TxId>)
    ensures Forget(m, ids) == m <==> forall id <- ids :: id in m ==> !m[id].fCoinStake
  {
    if forall id <- ids :: id in m ==> !m[id].fCoinStake {
      assert forall id <- m :: Forget(m, ids)[id] == m[id];
    } else {
      var id :| id in ids && id in m && m[id].fCoinStake;
      assert Forget(m, ids)[id] != m[id];
    }
  }

  /** The transactions of the genesis block are not applied, so no record has its height. */
  ghost predicate AfterGenesis(m: Utxos) { forall id <- m :: m[id].nHeight >= 1 }

  lemma ConnectKeepsHeights(m: Utxos, txs: seq<Transaction>, h: int)
    requires TidyView(m) && InRange(txs) && CanConnect(m, txs, h) && AfterGenesis(m) && HeightsBelow(m, h) && h >= 1
    ensures AfterGenesis(ConnectAll(m, txs, h)) && HeightsBelow(ConnectAll(m, txs, h), h + 1)
  {
    ConnectAllKeeps(m, txs, h);
    hide TidyView, InRange, ConnectAll, CanConnect;
    forall id | id in ConnectAll(m, txs, h) ensures 1 <= ConnectAll(m, txs, h)[id].nHeight <= h {
      if FromView(m, id, ConnectAll(m, txs, h)[id]) { assert id in m; }
    }
  }

  lemma OneSpendBlock(c: Coins, tx: Transaction, h: int)
    requires c.Tidy() && |c.vout| == 1 && tx.vin == [OutPoint(7, 0)]
    ensures var m: Utxos := map[7 := c];
            TidyView(m) && CanConnect(m, [tx], h) && BlockDrains(m, [tx], h) == {(7, c)}
  {
    var m: Utxos := map[7 := c];
    assert [tx][..0] == [] && tx.vin[..0] == [];
    assert c.IsAvailable(0);
    assert c.vout[0] in c.vout;
    assert CanSpendAll(m, []) && CanSpendAll(m, tx.vin);
    assert CanConnect(m, [], h);
    assert c.vout[0 := NULL_OUT] == [NULL_OUT] && DropNulls([NULL_OUT]) == [];
    assert DrainOf(m, OutPoint(7, 0)) == {(7, c)};
    assert Drains(m, tx.vin) == Drains(m, []) + DrainOf(m, OutPoint(7, 0));
    assert BlockDrains(m, [tx], h) == BlockDrains(m, [], h) + Drains(m, tx.vin);
  }

  const STAKE := Transaction(7, 1, [OutPoint(5, 0)], [TxOut(0, []), TxOut(5, [])])
  const SPEND := Transaction(9, 1, [OutPoint(7, 0)], [TxOut(0, [])])

  /** A coinstake whose payment has been spent keeps its empty first output. */
  lemma StakeLeftover()
    ensures STAKE.IsCoinStake() && FromTx(STAKE, 3).IsAvailable(1)
    ensures SpentCoins(FromTx(STAKE, 3), 1) == Coins(false, true, [TxOut(0, [])], 3, 1)
  {
    assert Spendable(STAKE.vout) == STAKE.vout;
    assert FromTx(STAKE, 3) == Coins(false, true, STAKE.vout, 3, 1);
    assert STAKE.vout[1 := NULL_OUT] == [TxOut(0, []), NULL_OUT];
    assert [TxOut(0, []), NULL_OUT][..1] == [TxOut(0, [])];
    assert DropNulls([TxOut(0, []), NULL_OUT]) == [TxOut(0, [])];
  }

  lemma SpendLosesFlag(c: Coins, tx: Transaction, h: int)
    requires c.Tidy() && |c.vout| == 1 && c.fCoinStake && 0 < c.nHeight < h
    requires tx.vin == [OutPoint(7, 0)] && tx.OutputsInRange() && tx.hash != 7
    ensures var m: Utxos := map[7 := c];
            && CanConnect(m, [tx], h) && UndoFits([tx], BlockUndo(m, [tx], h))
            && var r := DisconnectAll(Reversal(ConnectAll(m, [tx], h), true), [tx], h, BlockUndo(m, [tx], h));
               r.clean && r.view != m
  {
    var m: Utxos := map[7 := c];
    OneSpendBlock(c, tx, h);
    BlockRoundTrip(m, [tx], h);
    hide ConnectAll, CanConnect, BlockDrains, DisconnectAll, BlockUndo, UndoFits, TidyView, Forget, Coins.Tidy;
    assert (7, c) in BlockDrains(m, [tx], h);
    ForgetIsIdentity(m, Ids(BlockDrains(m, [tx], h)));
  }

  /** When that output is spent too, a hundred blocks later, reversing reports clean and loses the flag. */
  lemma StakeFlagIsLost()
    ensures STAKE.IsCoinStake() && FromTx(STAKE, 3).IsAvailable(1)
    ensures var m: Utxos := map[7 := SpentCoins(FromTx(STAKE, 3), 1)];
            && CanConnect(m, [SPEND], 103) && UndoFits([SPEND], BlockUndo(m, [SPEND], 103))
            && var r := DisconnectAll(Reversal(ConnectAll(m, [SPEND], 103), true), [SPEND], 103, BlockUndo(m, [SPEND], 103));
               r.clean && r.view != m
  {
    hide ConnectAll, CanConnect, DisconnectAll, BlockUndo, UndoFits, SpentCoins, FromTx;
    StakeLeftover();
    SpendLosesFlag(Coins(false, true, [TxOut(0, [])], 3, 1), SPEND, 103);
  }

  /** A record of height 0 would make the reversal fail; only views that never arise hold one. */
  lemma GenesisSpendIsUnclean()
    ensures var m: Utxos := map[7 := Coins(false, false, [TxOut(0, [])], 0, 1)];
            && !AfterGenesis(m) && CanConnect(m, [SPEND], 10)
            && UndoFits([SPEND], BlockUndo(m, [SPEND], 10))
            && !DisconnectAll(Reversal(ConnectAll(m, [SPEND], 10), true), [SPEND], 10, BlockUndo(m, [SPEND], 10)).clean
  {
    var c := Coins(false, false, [TxOut(0, [])], 0, 1);
    var m: Utxos := map[7 := c];
    OneSpendBlock(c, SPEND, 10);
    BlockRoundTrip(m, [SPEND], 10);
    hide ConnectAll, CanConnect, BlockDrains, DisconnectAll, BlockUndo, UndoFits, TidyView, Forget;
    assert (7, c) in BlockDrains(m, [SPEND], 10) && BadDrain((7, c), 10);
  }

  // ---- Checked inputs can be spent ----

  lemma SpendKeepsOthers(c: Coins, n: nat, k: nat)
    requires c.IsAvailable(n) && k != n
    ensures SpentCoins(c, n).IsAvailable(k) == c.IsAvailable(k)
    ensures SpentCoins(c, n).IsAvailable(k) ==> !SpentCoins(c, n).IsPruned() && SpentCoins(c, n).vout[k] == c.vout[k]
  {
    var r := SpentCoins(c, n);
    assert k < |c.vout| ==> c.vout[n := NULL_OUT][k] == c.vout[k];
    if r.IsAvailable(k) { assert r.vout[k] in r.vout; }
  }

  /** What is available and not among the spent inputs stays available. */
  lemma {:induction false} SpendAllKeepsOthers(m: Utxos, vin: seq<OutPoint>, out: OutPoint)
    requires CanSpendAll(m, vin) && out !in vin && Available(m, out)
    ensures Available(SpendAll(m, vin), out)
    ensures SpendAll(m, vin)[out.hash].vout[out.n] == m[out.hash].vout[out.n]
    decreases |vin|
  {
    if vin != [] {
      var n := |vin| - 1;
      assert vin[n] in vin && forall o <- vin[..n] :: o in vin;
      SpendAllKeepsOthers(m, vin[..n], out);
      var before := SpendAll(m, vin[..n]);
      if out.hash == vin[n].hash { SpendKeepsOthers(before[out.hash], vin[n].n, out.n); }
    }
  }

  ghost predicate HaveInputs(m: Utxos, vin: seq<OutPoint>) { forall out <- vin :: Available(m, out) }

  ghost predicate Distinct(vin: seq<OutPoint>) { forall i, j :: 0 <= i < j < |vin| ==> vin[i] != vin[j] }

  /** Once all inputs have been checked against one view, spending them one by one cannot fail. */
  lemma {:induction false} CheckedInputsCanBeSpent(m: Utxos, vin: seq<OutPoint>)
    requires HaveInputs(m, vin) && Distinct(vin)
    ensures CanSpendAll(m, vin)
    decreases |vin|
  {
    if vin != [] {
      var n := |vin| - 1;
      assert vin[n] in vin && forall o <- vin[..n] :: o in vin;
      CheckedInputsCanBeSpent(m, vin[..n]);
      SpendAllKeepsOthers(m, vin[..n], vin[n]);
    }
  }
}
