/**
  The methods that connect and disconnect blocks on a stack of coin caches, proved against the
  functions on flat maps: input checks, supply records, undo records and their order.
 */
module BlockConnection {
  import opened Coins
  import opened CoinsCache
  import opened UtxoUpdate
  import opened MoneySupply

  // ---- Applying one transaction ----

  method UpdateCoinsWithTransaction(tx: Transaction, inputs: CoinsViewCache, nHeight: int) returns (txundo: seq<TxInUndo>)
    requires inputs.Valid() && !inputs.hasModifier
    requires CanSpendAll(inputs.Visible(), Inputs(tx))
    modifies inputs.Repr
    ensures inputs.Valid() && !inputs.hasModifier && inputs.Lower() == old(inputs.Lower())
    ensures inputs.Visible() == ApplyTx(old(inputs.Visible()), tx, nHeight)
    ensures txundo == UndoAll(old(inputs.Visible()), Inputs(tx))
  {
    ghost var start := inputs.Visible();
    txundo := [];
    if !tx.IsCoinBase() {
      txundo := SpendInputs(tx.vin, inputs);
    }
    var c := inputs.ModifyCoins(tx.hash);
    hide *;
    inputs.Release(tx.hash, FromTx(tx, nHeight));
  }

  method SpendInput(out: OutPoint, inputs: CoinsViewCache) returns (undo: TxInUndo)
    requires inputs.Valid() && !inputs.hasModifier
    requires Available(inputs.Visible(), out)
    modifies inputs.Repr
    ensures inputs.Valid() && !inputs.hasModifier && inputs.Lower() == old(inputs.Lower())
    ensures inputs.Visible() == Put(old(inputs.Visible()), out.hash, SpentCoins(old(inputs.Visible())[out.hash], out.n))
    ensures undo == SpendUndo(old(inputs.Visible())[out.hash], out.n)
  {
    var c := inputs.ModifyCoins(out.hash);
    hide *;
    var ret, spent, one := Spend(c, out.n);
    assert ret;   // the assertion of the source
    CleanupTwice(c.(vout := c.vout[out.n := NULL_OUT]));
    inputs.Release(out.hash, spent);
    undo := one;
  }

  method SpendInputs(vin: seq<OutPoint>, inputs: CoinsViewCache) returns (undo: seq<TxInUndo>)
    requires inputs.Valid() && !inputs.hasModifier
    requires CanSpendAll(inputs.Visible(), vin)
    modifies inputs.Repr
    ensures inputs.Valid() && !inputs.hasModifier && inputs.Lower() == old(inputs.Lower())
    ensures inputs.Visible() == SpendAll(old(inputs.Visible()), vin)
    ensures undo == UndoAll(old(inputs.Visible()), vin)
  {
    hide *;
    ghost var start := inputs.Visible();
    undo := [];
    var i := 0;
    SpendPrefix(start, vin, 0);
    while i < |vin|
      invariant 0 <= i <= |vin|
      invariant inputs.Valid() && !inputs.hasModifier && inputs.Lower() == old(inputs.Lower())
      invariant CanSpendAll(start, vin[..i])
      invariant inputs.Visible() == SpendAll(start, vin[..i])
      invariant undo == UndoAll(start, vin[..i])
    {
      SpendPrefix(start, vin, i);
      var one := SpendInput(vin[i], inputs);
      undo := undo + [one];
      i := i + 1;
    }
    assert vin[..i] == vin;
  }

  /** Prefixes of a list of inputs that can be spent can be spent, and the next input is there. */
  lemma {:induction false} SpendPrefix(m: Utxos, vin: seq<OutPoint>, i: nat)
    requires CanSpendAll(m, vin) && i <= |vin|
    ensures CanSpendAll(m, vin[..i])
    ensures i == 0 ==> SpendAll(m, vin[..i]) == m && UndoAll(m, vin[..i]) == []
    ensures i < |vin| ==>
              && Available(SpendAll(m, vin[..i]), vin[i])
              && CanSpendAll(m, vin[..i + 1])
              && SpendAll(m, vin[..i + 1]) == Put(SpendAll(m, vin[..i]), vin[i].hash, SpentCoins(SpendAll(m, vin[..i])[vin[i].hash], vin[i].n))
              && UndoAll(m, vin[..i + 1]) == UndoAll(m, vin[..i]) + [SpendUndo(SpendAll(m, vin[..i])[vin[i].hash], vin[i].n)]
    decreases |vin|
  {
    hide SpentCoins, SpendUndo, Put;
    if i == |vin| {
      assert vin[..i] == vin;
    } else {
      var p := vin[..|vin| - 1];
      assert p[..i] == vin[..i];
      SpendPrefix(m, p, i);
      if i < |p| {
        assert p[..i + 1] == vin[..i + 1];
      } else {
        assert vin[..i + 1] == vin;
      }
    }
  }

  // ---- Reversing one transaction ----

  method RemoveTxOutputsFromCache(tx: Transaction, nHeight: int, view: CoinsViewCache) returns (outputsAvailable: bool)
    requires view.Valid() && !view.hasModifier
    modifies view.Repr
    ensures view.Valid() && !view.hasModifier && view.Lower() == old(view.Lower())
    ensures Reversal(view.Visible(), outputsAvailable) == RemoveOutputs(old(view.Visible()), tx, nHeight)
  {
    var outs := view.ModifyCoins(tx.hash);
    hide *;
    outputsAvailable := FoundOutputs(outs, tx).Same(FromTx(tx, nHeight));
    PutNothing(view.Visible(), tx.hash);
    view.Release(tx.hash, NO_COINS);
  }

  lemma PutNothing(m: Utxos, id: TxId)
    ensures Put(m, id, Cleanup(NO_COINS)) == m - {id}
  {
  }

  method RestoreOne(out: OutPoint, undo: TxInUndo, inputs: CoinsViewCache) returns (fits: bool)
    requires inputs.Valid() && !inputs.hasModifier
    modifies inputs.Repr
    ensures inputs.Valid() && !inputs.hasModifier && inputs.Lower() == old(inputs.Lower())
    ensures fits == RestoreInput(Reversal(old(inputs.Visible()), true), out, undo).clean
    ensures fits ==> inputs.Visible() == RestoreInput(Reversal(old(inputs.Visible()), true), out, undo).view
  {
    CoinsViewCache.VisibleUnspent(inputs);
    var coins := inputs.ModifyCoins(out.hash);
    assert Clean(Lookup(inputs.Visible(), out.hash));
    hide *;
    var restored := RestoredCoins(coins, out.n, undo);
    inputs.Release(out.hash, restored.0);
    fits := restored.1;
  }

  lemma RestoreAllStep(r: Reversal, vin: seq<OutPoint>, undo: seq<TxInUndo>, i: nat)
    requires |vin| == |undo| && 0 < i <= |vin|
    ensures RestoreAll(r, vin[..i], undo[..i])
         == RestoreAll(RestoreInput(r, vin[i - 1], undo[i - 1]), vin[..i - 1], undo[..i - 1])
  {
    assert vin[..i][..i - 1] == vin[..i - 1] && undo[..i][..i - 1] == undo[..i - 1];
  }

  /** Restores the inputs from the last one to the first. */
  method RestoreInputs(vin: seq<OutPoint>, undo: seq<TxInUndo>, inputs: CoinsViewCache, clean: bool) returns (fClean: bool)
    requires inputs.Valid() && !inputs.hasModifier && |vin| == |undo|
    modifies inputs.Repr
    ensures inputs.Valid() && !inputs.hasModifier && inputs.Lower() == old(inputs.Lower())
    ensures var r := RestoreAll(Reversal(old(inputs.Visible()), clean), vin, undo);
            fClean == r.clean && (fClean ==> inputs.Visible() == r.view)
  {
    fClean := clean;
    var i := |vin|;
    assert vin[..i] == vin && undo[..i] == undo;
    ghost var r := Reversal(inputs.Visible(), clean);
    while i > 0
      invariant 0 <= i <= |vin|
      invariant inputs.Valid() && !inputs.hasModifier && inputs.Lower() == old(inputs.Lower())
      invariant fClean == r.clean && (fClean ==> inputs.Visible() == r.view)
      invariant RestoreAll(r, vin[..i], undo[..i]) == RestoreAll(Reversal(old(inputs.Visible()), clean), vin, undo)
    {
      hide *;
      RestoreAllStep(r, vin, undo, i);
      i := i - 1;
      var fits := RestoreOne(vin[i], undo[i], inputs);
      fClean := fClean && fits;
      r := RestoreInput(r, vin[i], undo[i]);
    }
  }

  method UpdateCoinsReversingTransaction(tx: Transaction, nHeight: int, inputs: CoinsViewCache, txundo: seq<TxInUndo>)
    returns (status: TxReversalStatus)
    requires inputs.Valid() && !inputs.hasModifier
    modifies inputs.Repr
    ensures inputs.Valid() && !inputs.hasModifier && inputs.Lower() == old(inputs.Lower())
    ensures var fits := tx.IsCoinBase() || |txundo| == |tx.vin|;
            && (fits ==> var r := ReverseTx(old(inputs.Visible()), tx, nHeight, txundo);
                         && status == (if r.clean then OK else CONTINUE_WITH_ERRORS)
                         && (r.clean ==> inputs.Visible() == r.view))
            && (!fits ==> status == (if RemoveOutputs(old(inputs.Visible()), tx, nHeight).clean
                                     then ABORT_NO_OTHER_ERRORS else ABORT_WITH_OTHER_ERRORS))
  {
    hide RestoreAll, RemoveOutputs;
    var fClean := RemoveTxOutputsFromCache(tx, nHeight, inputs);
    if tx.IsCoinBase() {
      return if fClean then OK else CONTINUE_WITH_ERRORS;
    }
    if |txundo| != |tx.vin| {
      return if fClean then ABORT_NO_OTHER_ERRORS else ABORT_WITH_OTHER_ERRORS;
    }
    fClean := RestoreInputs(tx.vin, txundo, inputs, fClean);
    return if fClean then OK else CONTINUE_WITH_ERRORS;
  }

  // ---- Disconnecting a block ----

  function CheckTxReversalStatus(status: TxReversalStatus, fClean: bool): (r: (bool, bool))
    ensures r.0 <==> status.OK? || status.CONTINUE_WITH_ERRORS?
    ensures r.1 <==> fClean && (status.OK? || status.ABORT_NO_OTHER_ERRORS?)
  {
    match status
    case ABORT_NO_OTHER_ERRORS => (false, fClean)
    case ABORT_WITH_OTHER_ERRORS => (false, false)
    case CONTINUE_WITH_ERRORS => (true, false)
    case OK => (true, fClean)
  }

  lemma DisconnectStep(r: Reversal, txs: seq<Transaction>, h: int, undo: seq<seq<TxInUndo>>, i: nat)
    requires 0 < i <= |txs| && i <= |undo| && UndoFits(txs[..i], undo[..i])
    ensures UndoFits(txs[..i - 1], undo[..i - 1])
    ensures txs[i - 1].IsCoinBase() || |undo[i - 1]| == |txs[i - 1].vin|
    ensures var one := ReverseTx(r.view, txs[i - 1], h, undo[i - 1]);
            DisconnectAll(r, txs[..i], h, undo[..i])
            == DisconnectAll(Reversal(one.view, r.clean && one.clean), txs[..i - 1], h, undo[..i - 1])
  {
    assert txs[..i][..i - 1] == txs[..i - 1] && undo[..i][..i - 1] == undo[..i - 1];
    assert txs[..i][i - 1] == txs[i - 1] && undo[..i][i - 1] == undo[i - 1];
    hide ReverseTx;
  }

  /**
    Takes the transactions back from the last to the first. Succeeds exactly when there is one undo
    record per transaction after the first and each of them has one entry per input.
   */
  method DisconnectBlock(vtx: seq<Transaction>, vtxundo: seq<seq<TxInUndo>>, nHeight: int, view: CoinsViewCache)
    returns (ok: bool, fClean: bool)
    requires view.Valid() && !view.hasModifier
    requires |vtx| > 0 && vtx[0].IsCoinBase()
    modifies view.Repr
    ensures view.Valid() && !view.hasModifier && view.Lower() == old(view.Lower())
    ensures ok <==> UndoFits(vtx, [[]] + vtxundo)
    ensures ok ==> var r := DisconnectAll(Reversal(old(view.Visible()), true), vtx, nHeight, [[]] + vtxundo);
                   fClean == r.clean && (fClean ==> view.Visible() == r.view)
  {
    hide *;
    if |vtxundo| + 1 != |vtx| {
      WrongNumber(vtx, [[]] + vtxundo);
      return false, false;
    }
    fClean := true;
    ghost var undos := [[]] + vtxundo;
    ghost var r := Reversal(view.Visible(), true);
    var i := |vtx|;
    assert vtx[..i] == vtx && undos[..i] == undos;
    while i > 0
      invariant 0 <= i <= |vtx| == |undos|
      invariant view.Valid() && !view.hasModifier && view.Lower() == old(view.Lower())
      invariant fClean == r.clean && (fClean ==> view.Visible() == r.view)
      invariant forall k :: i <= k < |vtx| ==> vtx[k].IsCoinBase() || |undos[k]| == |vtx[k].vin|
      invariant UndoFits(vtx, undos) ==>
                  && UndoFits(vtx[..i], undos[..i])
                  && DisconnectAll(r, vtx[..i], nHeight, undos[..i])
                     == DisconnectAll(Reversal(old(view.Visible()), true), vtx, nHeight, undos)
    {
      UndoFitsAt(vtx, undos, i - 1);
      if UndoFits(vtx, undos) { DisconnectStep(r, vtx, nHeight, undos, i); }
      i := i - 1;
      var undo := if i > 0 then vtxundo[i - 1] else [];
      assert undo == undos[i];
      var go, clean := ReverseOne(vtx[i], nHeight, view, undo, fClean, r);
      fClean := clean;
      if !go { return false, fClean; }
      ghost var one := ReverseTx(r.view, vtx[i], nHeight, undo);
      r := Reversal(one.view, r.clean && one.clean);
    }
    DisconnectDone(r, vtx, nHeight, undos);
    ok := true;
  }

  /** One turn of the loop; `r` is where the reversal stands on flat maps. */
  method ReverseOne(tx: Transaction, nHeight: int, view: CoinsViewCache, undo: seq<TxInUndo>, clean: bool, ghost r: Reversal)
    returns (go: bool, fClean: bool)
    requires view.Valid() && !view.hasModifier
    requires clean == r.clean && (clean ==> view.Visible() == r.view)
    modifies view.Repr
    ensures view.Valid() && !view.hasModifier && view.Lower() == old(view.Lower())
    ensures go <==> tx.IsCoinBase() || |undo| == |tx.vin|
    ensures go ==> var one := ReverseTx(r.view, tx, nHeight, undo);
                   fClean == (r.clean && one.clean) && (fClean ==> view.Visible() == one.view)
  {
    hide ReverseTx, RemoveOutputs;
    var status := UpdateCoinsReversingTransaction(tx, nHeight, view, undo);
    var verdict := CheckTxReversalStatus(status, clean);
    return verdict.0, verdict.1;
  }

  lemma WrongNumber(txs: seq<Transaction>, undo: seq<seq<TxInUndo>>)
    requires |txs| != |undo|
    ensures !UndoFits(txs, undo)
  {
  }

  lemma DisconnectDone(r: Reversal, txs: seq<Transaction>, h: int, undo: seq<seq<TxInUndo>>)
    requires |txs| == |undo| && forall k :: 0 <= k < |txs| ==> txs[k].IsCoinBase() || |undo[k]| == |txs[k].vin|
    ensures UndoFits(txs, undo)
    ensures UndoFits(txs[..0], undo[..0]) && DisconnectAll(r, txs[..0], h, undo[..0]) == r
  {
  }

  lemma UndoFitsAt(txs: seq<Transaction>, undo: seq<seq<TxInUndo>>, i: nat)
    requires i < |txs| == |undo|
    ensures UndoFits(txs, undo) ==> txs[i].IsCoinBase() || |undo[i]| == |txs[i].vin|
  {
  }

  // ---- Checking inputs ----

  datatype Rules = Rules(maturity: int, maxMoney: Amount)

  predicate MoneyRange(v: Amount, maxMoney: Amount) { 0 <= v <= maxMoney }

  ghost predicate MatureAndInRange(m: Utxos, out: OutPoint, h: int, rules: Rules)
    requires Available(m, out)
  {
    var c := m[out.hash];
    && (c.fCoinBase || c.fCoinStake ==> h - c.nHeight >= rules.maturity)
    && MoneyRange(c.vout[out.n].nValue, rules.maxMoney)
  }

  ghost predicate SumsInRange(m: Utxos, vin: seq<OutPoint>, h: int, rules: Rules)
    requires HaveInputs(m, vin)
  {
    vin == [] ||
    (var n := |vin| - 1;
     assert vin[n] in vin && forall o <- vin[..n] :: o in vin;
     && SumsInRange(m, vin[..n], h, rules)
     && MatureAndInRange(m, vin[n], h, rules)
     && MoneyRange(InputValue(m, vin), rules.maxMoney))
  }

  /** What the input check accepts. */
  ghost predicate Acceptable(m: Utxos, tx: Transaction, h: int, rules: Rules)
  {
    !tx.IsCoinBase() ==>
      && HaveInputs(m, tx.vin)
      && SumsInRange(m, tx.vin, h, rules)
      && (!tx.IsCoinStake() ==> MoneyRange(InputValue(m, tx.vin) - ValueOut(tx), rules.maxMoney))
  }

  method HaveAllInputs(vin: seq<OutPoint>, inputs: CoinsViewCache) returns (have: bool)
    requires inputs.Valid() && !inputs.hasModifier
    modifies inputs.Repr
    ensures inputs.Valid() && !inputs.hasModifier
    ensures inputs.Visible() == old(inputs.Visible()) && inputs.Lower() == old(inputs.Lower())
    ensures have == HaveInputs(inputs.Visible(), vin)
  {
    hide *;
    for i := 0 to |vin|
      invariant inputs.Valid() && !inputs.hasModifier
      invariant inputs.Visible() == old(inputs.Visible()) && inputs.Lower() == old(inputs.Lower())
      invariant forall k :: 0 <= k < i ==> Available(inputs.Visible(), vin[k])
    {
      ghost var m := inputs.Visible();
      var found, c := inputs.GetCoins(vin[i].hash);
      GotRecord(m, vin[i], found, c);
      if !found || !c.IsAvailable(vin[i].n) {
        MissingInput(m, vin, i);
        return false;
      }
    }
    AllInputs(inputs.Visible(), vin);
    return true;
  }

  lemma GotRecord(m: Utxos, out: OutPoint, found: bool, c: Coins)
    requires !found ==> out.hash !in m
    requires found ==> if c.IsPruned() then out.hash !in m else out.hash in m && m[out.hash] == c
    ensures Available(m, out) <==> found && c.IsAvailable(out.n)
  {
    if c.IsAvailable(out.n) { assert c.vout[out.n] in c.vout; }
  }

  lemma AllInputs(m: Utxos, vin: seq<OutPoint>)
    requires forall k :: 0 <= k < |vin| ==> Available(m, vin[k])
    ensures HaveInputs(m, vin)
  {
  }

  lemma MissingInput(m: Utxos, vin: seq<OutPoint>, i: nat)
    requires i < |vin| && !Available(m, vin[i])
    ensures !HaveInputs(m, vin)
  {
    assert vin[i] in vin;
  }

  lemma SumsPrefix(m: Utxos, vin: seq<OutPoint>, i: nat, h: int, rules: Rules)
    requires HaveInputs(m, vin) && i < |vin|
    ensures HaveInputs(m, vin[..i]) && HaveInputs(m, vin[..i + 1]) && Available(m, vin[i])
    ensures InputValue(m, vin[..i + 1]) == InputValue(m, vin[..i]) + m[vin[i].hash].vout[vin[i].n].nValue
    ensures SumsInRange(m, vin[..i + 1], h, rules) <==>
              && SumsInRange(m, vin[..i], h, rules) && MatureAndInRange(m, vin[i], h, rules)
              && MoneyRange(InputValue(m, vin[..i + 1]), rules.maxMoney)
    ensures i == 0 ==> InputValue(m, vin[..i]) == 0 && SumsInRange(m, vin[..i], h, rules)
  {
    assert forall o <- vin[..i + 1] :: o in vin;
    assert forall o <- vin[..i] :: o in vin;
    assert vin[i] in vin;
    assert vin[..i + 1][..i] == vin[..i];
  }

  lemma {:induction false} SumsWhole(m: Utxos, vin: seq<OutPoint>, i: nat, h: int, rules: Rules)
    requires HaveInputs(m, vin) && i <= |vin| && HaveInputs(m, vin[..i])
    requires !SumsInRange(m, vin[..i], h, rules)
    ensures !SumsInRange(m, vin, h, rules)
    decreases |vin| - i
  {
    hide InputValue, MatureAndInRange;
    if i == |vin| {
      assert vin[..i] == vin;
    } else {
      SumsPrefix(m, vin, i, h, rules);
      SumsWhole(m, vin, i + 1, h, rules);
    }
  }

  lemma RecordValue(m: Utxos, out: OutPoint, c: Coins)
    requires Available(m, out) && (if c.IsPruned() then out.hash !in m else out.hash in m && m[out.hash] == c)
    ensures c == m[out.hash] && out.n < |c.vout|
  {
  }

  lemma NoSums(m: Utxos, h: int, rules: Rules)
    ensures HaveInputs(m, []) && SumsInRange(m, [], h, rules) && InputValue(m, []) == 0
  {
  }

  lemma MatureIs(m: Utxos, out: OutPoint, h: int, rules: Rules)
    requires Available(m, out)
    ensures out.hash in m && out.n < |m[out.hash].vout|
    ensures var c := m[out.hash];
            MatureAndInRange(m, out, h, rules) <==>
              && (c.fCoinBase || c.fCoinStake ==> h - c.nHeight >= rules.maturity)
              && MoneyRange(c.vout[out.n].nValue, rules.maxMoney)
  {
  }

  /** The loop over the inputs: maturity, range of each value, range of the running sum. */
  method SumInputs(vin: seq<OutPoint>, inputs: CoinsViewCache, nSpendHeight: int, rules: Rules)
    returns (ok: bool, nValueIn: Amount)
    requires inputs.Valid() && !inputs.hasModifier && HaveInputs(inputs.Visible(), vin)
    modifies inputs.Repr
    ensures inputs.Valid() && !inputs.hasModifier
    ensures inputs.Visible() == old(inputs.Visible()) && inputs.Lower() == old(inputs.Lower())
    ensures ok == SumsInRange(inputs.Visible(), vin, nSpendHeight, rules)
    ensures ok ==> nValueIn == InputValue(inputs.Visible(), vin)
  {
    hide CoinsViewCache.Valid, CoinsViewCache.Lower, CoinsViewCache.Visible, CoinsViewCache.Shape, HaveInputs, SumsInRange, InputValue,
      Overlay, Available, MatureAndInRange;
    nValueIn := 0;
    ghost var m := inputs.Visible();
    NoInputs(m);
    NoSums(m, nSpendHeight, rules);
    assert vin[..0] == [];
    var i := 0;
    while i < |vin|
      invariant 0 <= i <= |vin|
      invariant inputs.Valid() && !inputs.hasModifier
      invariant inputs.Visible() == m && inputs.Lower() == old(inputs.Lower())
      invariant HaveInputs(m, vin[..i])
      invariant SumsInRange(m, vin[..i], nSpendHeight, rules) && nValueIn == InputValue(m, vin[..i])
    {
      SumsPrefix(m, vin, i, nSpendHeight, rules);
      MatureIs(m, vin[i], nSpendHeight, rules);
      var found, coins := inputs.GetCoins(vin[i].hash);
      assert vin[i].hash in m by { AvailableInMap(m, vin[i]); }
      assert found;   // the assertion of the source
      RecordValue(m, vin[i], coins);
      var bad := (coins.fCoinBase || coins.fCoinStake) && nSpendHeight - coins.nHeight < rules.maturity;
      nValueIn := nValueIn + coins.vout[vin[i].n].nValue;
      if bad || !MoneyRange(coins.vout[vin[i].n].nValue, rules.maxMoney) || !MoneyRange(nValueIn, rules.maxMoney) {
        SumsWhole(m, vin, i + 1, nSpendHeight, rules);
        return false, nValueIn;
      }
      i := i + 1;
    }
    assert vin[..i] == vin;
    ok := true;
  }

  lemma AvailableInMap(m: Utxos, out: OutPoint)
    requires Available(m, out)
    ensures out.hash in m
  {
  }

  /** The value part of the input check: accepts exactly what is acceptable, and reports fee and input value. */
  method CheckInputs(tx: Transaction, inputs: CoinsViewCache, nSpendHeight: int, rules: Rules)
    returns (ok: bool, nFees: Amount, nValueIn: Amount)
    requires inputs.Valid() && !inputs.hasModifier
    modifies inputs.Repr
    ensures inputs.Valid() && !inputs.hasModifier
    ensures inputs.Visible() == old(inputs.Visible()) && inputs.Lower() == old(inputs.Lower())
    ensures ok == Acceptable(inputs.Visible(), tx, nSpendHeight, rules)
    ensures ok ==> && HaveInputs(inputs.Visible(), Inputs(tx))
                   && nValueIn == InputValue(inputs.Visible(), Inputs(tx))
                   && nFees == TxFee(inputs.Visible(), tx)
  {
    nFees, nValueIn := 0, 0;
    NoInputs(inputs.Visible());
    hide CoinsViewCache.Valid, HaveInputs, SumsInRange, SumOutputs, Overlay;
    if !tx.IsCoinBase() {
      var have := HaveAllInputs(tx.vin, inputs);
      if !have { return false, nFees, nValueIn; }
      var good, sum := SumInputs(tx.vin, inputs, nSpendHeight, rules);
      nValueIn := sum;
      if !good { return false, nFees, nValueIn; }
      if !tx.IsCoinStake() {
        if nValueIn < ValueOut(tx) { return false, nFees, nValueIn; }
        nFees := nFees + (nValueIn - ValueOut(tx));
        if !MoneyRange(nFees, rules.maxMoney) { return false, nFees, nValueIn; }
      }
    }
    ok := true;
  }

  lemma NoInputs(m: Utxos)
    ensures HaveInputs(m, [])
  {
  }

  // ---- Connecting a block ----

  /** What a block has passed before its transactions are applied: see CheckTransaction and the duplicate check. */
  ghost predicate WellFormedBlock(m: Utxos, txs: seq<Transaction>)
  {
    InRange(txs) && FreshIds(m, txs) && forall tx <- txs :: Distinct(tx.vin)
  }

  /**
    Every transaction is acceptable on the view that those before it leave. `verdict` is what the
    remaining checks (scripts, signature operations, the vault rule) say of each transaction,
    whatever they look at.
   */
  ghost predicate AllAccepted(m: Utxos, txs: seq<Transaction>, h: int, rules: Rules, verdict: nat -> bool)
    decreases |txs|
  {
    txs == [] ||
    (var n := |txs| - 1;
     && AllAccepted(m, txs[..n], h, rules, verdict)
     && CanConnect(m, txs[..n], h)
     && Acceptable(ConnectAll(m, txs[..n], h), txs[n], h, rules)
     && verdict(n))
  }

  lemma WellFormedPrefix(m: Utxos, txs: seq<Transaction>, i: nat)
    requires WellFormedBlock(m, txs) && i <= |txs|
    ensures WellFormedBlock(m, txs[..i])
    ensures i < |txs| ==> Distinct(Inputs(txs[i])) && txs[i].OutputsInRange()
  {
    hide Transaction.OutputsInRange, Distinct;
    assert forall t <- txs[..i] :: t in txs;
    assert i < |txs| ==> txs[i] in txs;
    assert Distinct([]) by { NoneDistinct(); }
  }

  lemma NoneDistinct()
    ensures Distinct([])
  {
  }

  lemma CanGoOn(m: Utxos, txs: seq<Transaction>, i: nat, h: int)
    requires TidyView(m) && WellFormedBlock(m, txs) && i < |txs|
    requires CanApplyAll(m, txs[..i], h) && CanConnect(m, txs[..i], h)
    requires HaveInputs(ConnectAll(m, txs[..i], h), Inputs(txs[i]))
    ensures CanConnect(m, txs[..i + 1], h) && CanApplyAll(m, txs[..i + 1], h)
  {
    hide *;
    var view, p := ConnectAll(m, txs[..i], h), txs[..i + 1];
    WellFormedPrefix(m, txs, i);
    WellFormedPrefix(m, txs, i + 1);
    CheckedInputsCanBeSpent(view, Inputs(txs[i]));
    assert p[..i] == txs[..i] && p[i] == txs[i];
    CanConnectIs(m, p, h);
    WellFormedIs(m, p);
    FreshAtItsTurn(m, p, h);
    CanApplyIs(view, txs[i]);
    CanApplyAllIs(m, p, h);
  }

  lemma WellFormedIs(m: Utxos, txs: seq<Transaction>)
    requires WellFormedBlock(m, txs)
    ensures InRange(txs) && FreshIds(m, txs)
  {
  }

  lemma CanConnectIs(m: Utxos, txs: seq<Transaction>, h: int)
    requires txs != []
    ensures CanConnect(m, txs, h) <==>
              && CanConnect(m, txs[..|txs| - 1], h)
              && CanSpendAll(ConnectAll(m, txs[..|txs| - 1], h), Inputs(txs[|txs| - 1]))
  {
    hide CanSpendAll, ConnectAll;
  }

  lemma CanApplyAllIs(m: Utxos, txs: seq<Transaction>, h: int)
    requires txs != []
    ensures CanApplyAll(m, txs, h) <==>
              && CanApplyAll(m, txs[..|txs| - 1], h)
              && CanConnect(m, txs[..|txs| - 1], h)
              && CanApply(ConnectAll(m, txs[..|txs| - 1], h), txs[|txs| - 1])
  {
    hide CanApply, CanConnect, ConnectAll;
  }

  lemma CanApplyIs(m: Utxos, tx: Transaction)
    requires HaveInputs(m, Inputs(tx)) && Distinct(Inputs(tx)) && tx.hash !in m
    ensures CanApply(m, tx)
  {
  }

  lemma UnfoldSupply(s: Supply, m: Utxos, txs: seq<Transaction>, h: int)
    requires txs != [] && CanApplyAll(m, txs, h) && CanConnect(m, txs[..|txs| - 1], h)
    ensures CanApplyAll(m, txs[..|txs| - 1], h)
    ensures HaveInputs(ConnectAll(m, txs[..|txs| - 1], h), Inputs(txs[|txs| - 1]))
    ensures var n := |txs| - 1;
            var view := ConnectAll(m, txs[..n], h);
            var before := SupplyAfter(s, m, txs[..n], h);
            SupplyAfter(s, m, txs, h)
            == Supply(before.nMoneySupply + Minting(view, txs[n]), before.nMint + Minting(view, txs[n]) + TxFee(view, txs[n]))
  {
    hide ConnectAll, Distinct, HaveInputs, Minting, TxFee;
  }

  /** One more transaction: the view, the undo data and the supply records after the first i + 1. */
  lemma ConnectStep(s: Supply, m: Utxos, txs: seq<Transaction>, i: nat, h: int)
    requires TidyView(m) && WellFormedBlock(m, txs) && i < |txs|
    requires CanApplyAll(m, txs[..i], h) && CanConnect(m, txs[..i], h)
    requires HaveInputs(ConnectAll(m, txs[..i], h), Inputs(txs[i]))
    ensures var view := ConnectAll(m, txs[..i], h);
            var before := SupplyAfter(s, m, txs[..i], h);
            && CanSpendAll(view, Inputs(txs[i]))
            && CanApplyAll(m, txs[..i + 1], h) && CanConnect(m, txs[..i + 1], h)
            && ConnectAll(m, txs[..i + 1], h) == ApplyTx(view, txs[i], h)
            && BlockUndo(m, txs[..i + 1], h) == BlockUndo(m, txs[..i], h) + [UndoAll(view, Inputs(txs[i]))]
            && SupplyAfter(s, m, txs[..i + 1], h)
               == Supply(before.nMoneySupply + Minting(view, txs[i]), before.nMint + Minting(view, txs[i]) + TxFee(view, txs[i]))
  {
    hide *;
    CanGoOn(m, txs, i, h);
    var p := txs[..i + 1];
    assert p[..i] == txs[..i] && p[i] == txs[i];
    UnfoldBlock(m, p, h, {});
    UnfoldSupply(s, m, p, h);
  }

  lemma AcceptedStep(m: Utxos, txs: seq<Transaction>, i: nat, h: int, rules: Rules, verdict: nat -> bool)
    requires i < |txs|
    ensures AllAccepted(m, txs[..i + 1], h, rules, verdict) <==>
              && AllAccepted(m, txs[..i], h, rules, verdict)
              && CanConnect(m, txs[..i], h)
              && Acceptable(ConnectAll(m, txs[..i], h), txs[i], h, rules)
              && verdict(i)
  {
    hide Acceptable;
    assert txs[..i + 1][..i] == txs[..i];
  }

  lemma {:induction false} NotAccepted(m: Utxos, txs: seq<Transaction>, i: nat, h: int, rules: Rules, verdict: nat -> bool)
    requires i <= |txs| && !AllAccepted(m, txs[..i], h, rules, verdict)
    ensures !AllAccepted(m, txs, h, rules, verdict)
    decreases |txs| - i
  {
    hide AllAccepted;
    if i == |txs| {
      assert txs[..i] == txs;
    } else {
      AcceptedStep(m, txs, i, h, rules, verdict);
      NotAccepted(m, txs, i + 1, h, rules, verdict);
    }
  }

  lemma NothingYet(s: Supply, m: Utxos, h: int, rules: Rules, verdict: nat -> bool)
    ensures AllAccepted(m, [], h, rules, verdict) && CanApplyAll(m, [], h) && CanConnect(m, [], h)
    ensures ConnectAll(m, [], h) == m && BlockUndo(m, [], h) == [] && SupplyAfter(s, m, [], h) == s
  {
  }

  /** The slots of the transactions applied so far, counted from the second one, are filled; the rest are empty. */
  ghost predicate SlotsFilled(slots: seq<seq<TxInUndo>>, undos: seq<seq<TxInUndo>>, n: nat)
  {
    && |slots| == n - 1 && |undos| <= n
    && (|undos| > 0 ==> undos[0] == [])
    && forall k :: 0 <= k < n - 1 ==> slots[k] == if k + 1 < |undos| then undos[k + 1] else []
  }

  lemma NoSlots(slots: seq<seq<TxInUndo>>, n: nat)
    requires |slots| == n - 1 && forall k :: 0 <= k < n - 1 ==> slots[k] == []
    ensures SlotsFilled(slots, [], n)
  {
  }

  lemma AllSlots(slots: seq<seq<TxInUndo>>, undos: seq<seq<TxInUndo>>, n: nat)
    requires SlotsFilled(slots, undos, n) && |undos| == n
    ensures undos == [[]] + slots
  {
  }

  lemma FillSlot(slots: seq<seq<TxInUndo>>, undos: seq<seq<TxInUndo>>, n: nat, txundo: seq<TxInUndo>)
    requires SlotsFilled(slots, undos, n) && |undos| < n && (|undos| == 0 ==> txundo == [])
    ensures var slot := if |undos| > 0 then |undos| - 1 else 0;
            SlotsFilled(if slot < |slots| then slots[slot := slots[slot] + txundo] else slots, undos + [txundo], n)
  {
  }

  /** One turn of the loop over the transactions. */
  method CheckAndApply(tx: Transaction, view: CoinsViewCache, nHeight: int, rules: Rules, verdict: bool, s: Supply)
    returns (ok: bool, supply: Supply, txundo: seq<TxInUndo>)
    requires view.Valid() && !view.hasModifier
    requires Distinct(Inputs(tx))
    modifies view.Repr
    ensures view.Valid() && !view.hasModifier && view.Lower() == old(view.Lower())
    ensures ok == (Acceptable(old(view.Visible()), tx, nHeight, rules) && verdict)
    ensures !ok ==> view.Visible() == old(view.Visible())
    ensures ok ==>
              var m := old(view.Visible());
              && HaveInputs(m, Inputs(tx)) && CanSpendAll(m, Inputs(tx))
              && view.Visible() == ApplyTx(m, tx, nHeight)
              && txundo == UndoAll(m, Inputs(tx))
              && supply == Supply(s.nMoneySupply + Minting(m, tx), s.nMint + Minting(m, tx) + TxFee(m, tx))
  {
    supply, txundo := s, [];
    var good, txFees, txInputAmount := CheckInputs(tx, view, nHeight, rules);
    if !good || !verdict { return false, supply, txundo; }
    ghost var m := view.Visible();
    CheckedInputsCanBeSpent(m, Inputs(tx));
    hide Acceptable, CanSpendAll, HaveInputs, Distinct, ApplyTx, UndoAll, CoinsViewCache.Valid, InputValue, SumOutputs, Overlay;
    var mintingMinusBurn := ValueOut(tx) - txInputAmount;
    supply := Supply(s.nMoneySupply + mintingMinusBurn, s.nMint + mintingMinusBurn + txFees);
    txundo := UpdateCoinsWithTransaction(tx, view, nHeight);
    ok := true;
  }

  /**
    The loop of BlockTransactionChecker::Check. The first transaction has no undo slot of its own;
    it is passed the slot of the second one and, being a coinbase, leaves it alone. In a block of one
    transaction the source takes a reference to slot 0 of an empty vector; nothing is written to it,
    and here no slot is taken.
   */
  method Check(vtx: seq<Transaction>, view: CoinsViewCache, nHeight: int, nMoneySupplyPrev: Amount, rules: Rules,
               verdict: nat -> bool)
    returns (ok: bool, supply: Supply, vtxundo: seq<seq<TxInUndo>>)
    requires view.Valid() && !view.hasModifier
    requires TidyView(view.Visible()) && WellFormedBlock(view.Visible(), vtx)
    requires |vtx| > 0 && vtx[0].IsCoinBase()
    modifies view.Repr
    ensures view.Valid() && !view.hasModifier && view.Lower() == old(view.Lower())
    ensures ok == AllAccepted(old(view.Visible()), vtx, nHeight, rules, verdict)
    ensures ok ==>
              var m := old(view.Visible());
              && CanApplyAll(m, vtx, nHeight) && CanConnect(m, vtx, nHeight)
              && view.Visible() == ConnectAll(m, vtx, nHeight)
              && [[]] + vtxundo == BlockUndo(m, vtx, nHeight)
              && supply == SupplyAfter(Supply(nMoneySupplyPrev, 0), m, vtx, nHeight)
  {
    hide *;
    supply := Supply(nMoneySupplyPrev, 0);
    vtxundo := seq(|vtx| - 1, _ => []);
    ghost var m, start := view.Visible(), supply;
    ghost var undos: seq<seq<TxInUndo>> := [];
    NothingYet(start, m, nHeight, rules, verdict);
    NoSlots(vtxundo, |vtx|);
    var i := 0;
    while i < |vtx|
      invariant 0 <= i <= |vtx|
      invariant view.Valid() && !view.hasModifier && view.Lower() == old(view.Lower())
      invariant AllAccepted(m, vtx[..i], nHeight, rules, verdict)
      invariant CanApplyAll(m, vtx[..i], nHeight) && CanConnect(m, vtx[..i], nHeight)
      invariant view.Visible() == ConnectAll(m, vtx[..i], nHeight)
      invariant undos == BlockUndo(m, vtx[..i], nHeight) && SlotsFilled(vtxundo, undos, |vtx|)
      invariant supply == SupplyAfter(start, m, vtx[..i], nHeight)
    {
      WellFormedPrefix(m, vtx, i);
      AcceptedStep(m, vtx, i, nHeight, rules, verdict);
      var good, next, txundo := CheckAndApply(vtx[i], view, nHeight, rules, verdict(i), supply);
      if !good {
        NotAccepted(m, vtx, i + 1, nHeight, rules, verdict);
        return false, supply, vtxundo;
      }
      ConnectStep(start, m, vtx, i, nHeight);
      CoinbaseUndo(ConnectAll(m, vtx[..i], nHeight), vtx[i]);
      FillSlot(vtxundo, undos, |vtx|, txundo);
      var slot := if i > 0 then i - 1 else 0;
      if slot < |vtxundo| { vtxundo := vtxundo[slot := vtxundo[slot] + txundo]; }
      undos := undos + [txundo];
      supply := next;
      i := i + 1;
    }
    assert vtx[..i] == vtx;
    AllSlots(vtxundo, undos, |vtx|);
    ok := true;
  }

  lemma CoinbaseUndo(m: Utxos, tx: Transaction)
    requires CanSpendAll(m, Inputs(tx))
    ensures tx.IsCoinBase() ==> UndoAll(m, Inputs(tx)) == []
  {
  }

  // ---- Accepted blocks can be taken back ----

  lemma {:induction false} InputIsMature(m: Utxos, vin: seq<OutPoint>, h: int, rules: Rules, out: OutPoint)
    requires HaveInputs(m, vin) && SumsInRange(m, vin, h, rules) && out in vin
    ensures out.hash in m && (m[out.hash].fCoinBase || m[out.hash].fCoinStake ==> h - m[out.hash].nHeight >= rules.maturity)
    decreases |vin|
  {
    hide InputValue;
    var n := |vin| - 1;
    assert forall o <- vin[..n] :: o in vin;
    assert vin == vin[..n] + [vin[n]];
    if out in vin[..n] { InputIsMature(m, vin[..n], h, rules, out); }
  }

  lemma {:induction false} DrainIsInput(m: Utxos, vin: seq<OutPoint>, d: (TxId, Coins))
    requires CanSpendAll(m, vin) && d in Drains(m, vin)
    ensures exists out <- vin :: out.hash == d.0
    decreases |vin|
  {
    hide SpendAll, SpentCoins, Available;
    var n := |vin| - 1;
    assert vin[n] in vin && forall o <- vin[..n] :: o in vin;
    if d in Drains(m, vin[..n]) { DrainIsInput(m, vin[..n], d); }
  }

  /** What an accepted transaction empties was there before the block or is no coinstake. */
  lemma AcceptedEmptiesNothingBad(m: Utxos, tx: Transaction, h: int, rules: Rules)
    requires TidyView(m) && AfterGenesis(m) && rules.maturity >= 1
    requires Acceptable(m, tx, h, rules) && CanSpendAll(m, Inputs(tx))
    ensures NoBadDrain(Drains(m, Inputs(tx)), h)
  {
    SpendAllKeeps(m, Inputs(tx));
    hide Drains, CanSpendAll, TidyView, SumsInRange, HaveInputs, InputValue, SumOutputs, Coins.IsAvailable;
    forall d | d in Drains(m, Inputs(tx)) ensures !BadDrain(d, h) {
      DrainIsInput(m, Inputs(tx), d);
      var out :| out in Inputs(tx) && out.hash == d.0;
      InputIsMature(m, tx.vin, h, rules, out);
      assert d.0 in m && SameMeta(d.1, m[d.0]);
    }
  }

  lemma {:induction false} AcceptedBlockIsReversible(m: Utxos, txs: seq<Transaction>, h: int, rules: Rules, verdict: nat -> bool)
    requires TidyView(m) && AfterGenesis(m) && HeightsBelow(m, h) && h >= 1 && rules.maturity >= 1
    requires InRange(txs) && CanConnect(m, txs, h) && AllAccepted(m, txs, h, rules, verdict)
    ensures NoBadDrain(BlockDrains(m, txs, h), h)
    decreases |txs|
  {
    hide NoBadDrain, Drains, TidyView, AfterGenesis, HeightsBelow, InRange, Acceptable, CanSpendAll, ApplyTx, BadDrain;
    if txs == [] {
      NoDrains(m, h);
    } else {
      var n := |txs| - 1;
      var before := ConnectAll(m, txs[..n], h);
      PrefixOk(m, txs);
      AcceptedBlockIsReversible(m, txs[..n], h, rules, verdict);
      ConnectKeepsHeights(m, txs[..n], h);
      ConnectAllKeeps(m, txs[..n], h);
      AcceptedEmptiesNothingBad(before, txs[n], h, rules);
      DrainsTogether(BlockDrains(m, txs[..n], h), Drains(before, Inputs(txs[n])), h);
    }
  }

  lemma NoDrains(m: Utxos, h: int)
    ensures CanConnect(m, [], h) && NoBadDrain(BlockDrains(m, [], h), h)
  {
  }

  lemma DrainsTogether(a: set<(TxId, Coins)>, b: set<(TxId, Coins)>, h: int)
    requires NoBadDrain(a, h) && NoBadDrain(b, h)
    ensures NoBadDrain(a + b, h)
  {
    hide BadDrain;
  }

  // ---- Whole chains ----

  /** The blocks can be connected one after the other on the empty view, the first at height 1. */
  ghost predicate IsChain(blocks: seq<seq<Transaction>>, rules: Rules, verdicts: nat -> nat -> bool)
    decreases |blocks|, 0
  {
    blocks == [] ||
    (var n := |blocks| - 1;
     && IsChain(blocks[..n], rules, verdicts)
     && WellFormedBlock(ChainView(blocks[..n], rules, verdicts), blocks[n])
     && AllAccepted(ChainView(blocks[..n], rules, verdicts), blocks[n], |blocks|, rules, verdicts(n))
     && CanConnect(ChainView(blocks[..n], rules, verdicts), blocks[n], |blocks|))
  }

  ghost function ChainView(blocks: seq<seq<Transaction>>, rules: Rules, verdicts: nat -> nat -> bool): Utxos
    requires IsChain(blocks, rules, verdicts)
    decreases |blocks|, 1
  {
    if blocks == [] then map[]
    else ConnectAll(ChainView(blocks[..|blocks| - 1], rules, verdicts), blocks[|blocks| - 1], |blocks|)
  }

  lemma {:induction false} ChainViewOk(blocks: seq<seq<Transaction>>, rules: Rules, verdicts: nat -> nat -> bool)
    requires IsChain(blocks, rules, verdicts)
    ensures var m := ChainView(blocks, rules, verdicts); TidyView(m) && AfterGenesis(m) && HeightsBelow(m, |blocks| + 1)
    decreases |blocks|
  {
    if blocks != [] {
      var n := |blocks| - 1;
      var m := ChainView(blocks[..n], rules, verdicts);
      ChainViewOk(blocks[..n], rules, verdicts);
      hide TidyView, AfterGenesis, HeightsBelow, ConnectAll, CanConnect, AllAccepted, WellFormedBlock;
      WellFormedIs(m, blocks[n]);
      ConnectAllKeeps(m, blocks[n], |blocks|);
      ConnectKeepsHeights(m, blocks[n], |blocks|);
    }
  }

  /** The last block of every chain can be taken back: the reversal is clean and only coinstake flags can be lost. */
  lemma TipCanBeDisconnected(blocks: seq<seq<Transaction>>, rules: Rules, verdicts: nat -> nat -> bool)
    requires IsChain(blocks, rules, verdicts) && blocks != [] && rules.maturity >= 1
    ensures var n, h := |blocks| - 1, |blocks|;
            && IsChain(blocks[..n], rules, verdicts)
            && var m := ChainView(blocks[..n], rules, verdicts);
               && CanConnect(m, blocks[n], h) && UndoFits(blocks[n], BlockUndo(m, blocks[n], h))
               && DisconnectAll(Reversal(ChainView(blocks, rules, verdicts), true), blocks[n], h, BlockUndo(m, blocks[n], h))
                  == Reversal(Forget(m, Ids(BlockDrains(m, blocks[n], h))), true)
  {
    var n, h := |blocks| - 1, |blocks|;
    var m := ChainView(blocks[..n], rules, verdicts);
    ChainViewOk(blocks[..n], rules, verdicts);
    hide TidyView, AfterGenesis, HeightsBelow, ConnectAll, CanConnect, AllAccepted, WellFormedBlock, NoBadDrain, BlockDrains,
      DisconnectAll, BlockUndo, UndoFits, Forget, Ids;
    WellFormedIs(m, blocks[n]);
    AcceptedBlockIsReversible(m, blocks[n], h, rules, verdicts(n));
    BlockRoundTrip(m, blocks[n], h);
  }

  /** A block that passes the checks is connected and taken back again, on any stack of caches. */
  method ConnectAndDisconnect(vtx: seq<Transaction>, view: CoinsViewCache, nHeight: int, nMoneySupplyPrev: Amount, rules: Rules,
                              verdict: nat -> bool)
    returns (connected: bool, fClean: bool)
    requires view.Valid() && !view.hasModifier
    requires TidyView(view.Visible()) && WellFormedBlock(view.Visible(), vtx) && HeightsBelow(view.Visible(), nHeight)
    requires |vtx| > 0 && vtx[0].IsCoinBase()
    modifies view.Repr
    ensures view.Valid() && !view.hasModifier && view.Lower() == old(view.Lower())
    ensures connected == AllAccepted(old(view.Visible()), vtx, nHeight, rules, verdict)
    ensures connected ==>
              var m := old(view.Visible());
              && CanConnect(m, vtx, nHeight)
              && (fClean <==> NoBadDrain(BlockDrains(m, vtx, nHeight), nHeight))
              && (AfterGenesis(m) && nHeight >= 1 && rules.maturity >= 1 ==> fClean)
              && (fClean ==> view.Visible() == Forget(m, Ids(BlockDrains(m, vtx, nHeight))))
  {
    hide *;
    ghost var m := view.Visible();
    WellFormedIs(m, vtx);
    var supply, vtxundo;
    connected, supply, vtxundo := Check(vtx, view, nHeight, nMoneySupplyPrev, rules, verdict);
    fClean := false;
    if connected {
      BlockRoundTrip(m, vtx, nHeight);
      if AfterGenesis(m) && nHeight >= 1 && rules.maturity >= 1 {
        AcceptedBlockIsReversible(m, vtx, nHeight, rules, verdict);
      }
      var ok;
      ok, fClean := DisconnectBlock(vtx, vtxundo, nHeight, view);
    }
  }
}
