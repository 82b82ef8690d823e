/**
  The value of the unspent outputs, and the law that ties it to the supply records of a block.
 */
module MoneySupply {
  import opened Coins
  import opened CoinsCache
  import opened UtxoUpdate

  function OutputValue(o: TxOut): Amount { if o.IsNull() then 0 else o.nValue }

  function SumOutputs(vout: seq<TxOut>): Amount
  {
    if vout == [] then 0 else SumOutputs(vout[..|vout| - 1]) + OutputValue(vout[|vout| - 1])
  }

  /** The value that one record still holds. */
  function UnspentValue(c: Coins): Amount { SumOutputs(c.vout) }

  /** The value of all unspent outputs of a view. */
  ghost function TotalValue(m: Utxos): Amount
    decreases |m|
  {
    if m == map[] then 0 else
      var id :| id in m;
      UnspentValue(m[id]) + TotalValue(m - {id})
  }

  /** GetValueOut, for outputs in range. */
  function ValueOut(tx: Transaction): Amount { SumOutputs(tx.vout) }

  /** The value of the outputs that no one can ever spend. */
  function UnspendableValue(vout: seq<TxOut>): Amount
  {
    if vout == [] then 0 else
      var o := vout[|vout| - 1];
      UnspendableValue(vout[..|vout| - 1]) + if o.IsUnspendable() then OutputValue(o) else 0
  }

  ghost function InputValue(m: Utxos, vin: seq<OutPoint>): Amount
    requires HaveInputs(m, vin)
  {
    if vin == [] then 0 else
      var n := |vin| - 1;
      assert vin[n] in vin && forall o <- vin[..n] :: o in vin;
      InputValue(m, vin[..n]) + m[vin[n].hash].vout[vin[n].n].nValue
  }

  // ---- Sums ----

  /** The sum does not depend on which record is taken out first. */
  lemma {:induction false} TotalWithout(m: Utxos, id: TxId)
    requires id in m
    ensures TotalValue(m) == UnspentValue(m[id]) + TotalValue(m - {id})
    decreases |m|
  {
    var k :| k in m && TotalValue(m) == UnspentValue(m[k]) + TotalValue(m - {k});
    if k != id {
      TotalWithout(m - {k}, id);
      TotalWithout(m - {id}, k);
      assert m - {k} - {id} == m - {id} - {k};
    }
  }

  lemma TotalPut(m: Utxos, id: TxId, c: Coins)
    ensures TotalValue(Put(m, id, c)) == TotalValue(m - {id}) + UnspentValue(c)
  {
    if c.IsPruned() {
      SumNulls(c.vout);
    } else {
      TotalWithout(m[id := c], id);
      assert m[id := c] - {id} == m - {id};
    }
  }

  lemma {:induction false} SumNulls(vout: seq<TxOut>)
    requires forall o <- vout :: o.IsNull()
    ensures SumOutputs(vout) == 0
  {
    if vout != [] {
      assert vout[|vout| - 1] in vout;
      SumNulls(vout[..|vout| - 1]);
    }
  }

  lemma {:induction false} SumDropNulls(vout: seq<TxOut>)
    ensures SumOutputs(DropNulls(vout)) == SumOutputs(vout)
  {
    if |vout| > 0 && vout[|vout| - 1].IsNull() { SumDropNulls(vout[..|vout| - 1]); }
  }

  lemma {:induction false} SumUpdate(vout: seq<TxOut>, n: nat, o: TxOut)
    requires n < |vout|
    ensures SumOutputs(vout[n := o]) == SumOutputs(vout) - OutputValue(vout[n]) + OutputValue(o)
    decreases |vout|
  {
    var k := |vout| - 1;
    if n < k {
      assert vout[n := o][..k] == vout[..k][n := o];
      SumUpdate(vout[..k], n, o);
    } else {
      assert vout[n := o][..k] == vout[..k];
    }
  }

  lemma SpentValue(c: Coins, n: nat)
    requires c.IsAvailable(n)
    ensures UnspentValue(SpentCoins(c, n)) == UnspentValue(c) - c.vout[n].nValue
  {
    SumUpdate(c.vout, n, NULL_OUT);
    SumDropNulls(c.vout[n := NULL_OUT]);
  }

  lemma {:induction false} SpendableSum(vout: seq<TxOut>)
    ensures SumOutputs(Spendable(vout)) == SumOutputs(vout) - UnspendableValue(vout)
  {
    if vout != [] {
      var k := |vout| - 1;
      SpendableSum(vout[..k]);
      assert Spendable(vout)[..k] == Spendable(vout[..k]);
    }
  }

  lemma FromTxValue(tx: Transaction, h: int)
    ensures UnspentValue(FromTx(tx, h)) == ValueOut(tx) - UnspendableValue(tx.vout)
  {
    SpendableSum(tx.vout);
    SumDropNulls(Spendable(tx.vout));
  }

  // ---- One transaction, one block ----

  lemma {:induction false} SpendAllValue(m: Utxos, vin: seq<OutPoint>)
    requires HaveInputs(m, vin) && Distinct(vin) && CanSpendAll(m, vin)
    ensures TotalValue(SpendAll(m, vin)) == TotalValue(m) - InputValue(m, vin)
    decreases |vin|
  {
    if vin != [] {
      var n := |vin| - 1;
      var out := vin[n];
      assert out in vin && forall o <- vin[..n] :: o in vin;
      SpendAllValue(m, vin[..n]);
      SpendAllKeepsOthers(m, vin[..n], out);
      var before := SpendAll(m, vin[..n]);
      hide SpentCoins, UnspentValue;
      SpentValue(before[out.hash], out.n);
      TotalWithout(before, out.hash);
      TotalPut(before, out.hash, SpentCoins(before[out.hash], out.n));
    }
  }

  /** Everything that the input check of one transaction has to accept before it is applied. */
  ghost predicate CanApply(m: Utxos, tx: Transaction)
  {
    HaveInputs(m, Inputs(tx)) && Distinct(Inputs(tx)) && tx.hash !in m
  }

  /** What one transaction adds to the money supply: its outputs less its inputs. */
  ghost function Minting(m: Utxos, tx: Transaction): Amount
    requires HaveInputs(m, Inputs(tx))
  {
    ValueOut(tx) - InputValue(m, Inputs(tx))
  }

  /** The fee that the input check reports; none for a coinbase or a coinstake. */
  ghost function TxFee(m: Utxos, tx: Transaction): Amount
    requires HaveInputs(m, Inputs(tx))
  {
    if tx.IsCoinBase() || tx.IsCoinStake() then 0 else InputValue(m, tx.vin) - ValueOut(tx)
  }

  lemma ApplyTxValue(m: Utxos, tx: Transaction, h: int)
    requires TidyView(m) && CanApply(m, tx)
    ensures CanSpendAll(m, Inputs(tx))
    ensures TotalValue(ApplyTx(m, tx, h)) == TotalValue(m) + Minting(m, tx) - UnspendableValue(tx.vout)
  {
    CheckedInputsCanBeSpent(m, Inputs(tx));
    SpendAllKeeps(m, Inputs(tx));
    SpendAllValue(m, Inputs(tx));
    var spent := SpendAll(m, Inputs(tx));
    assert spent - {tx.hash} == spent;
    FromTxValue(tx, h);
    TotalPut(spent, tx.hash, FromTx(tx, h));
    hide FromTx, UnspentValue, SpendAll, InputValue, TidyView, HaveInputs, Distinct, CanSpendAll, TotalValue, Put, SameMeta;
  }

  /** Each transaction of the block passes the checks on the view left by those before it. */
  ghost predicate CanApplyAll(m: Utxos, txs: seq<Transaction>, h: int)
    decreases |txs|, 0
  {
    txs == [] ||
    (var n := |txs| - 1;
     && CanApplyAll(m, txs[..n], h)
     && CanConnect(m, txs[..n], h)
     && CanApply(ConnectAll(m, txs[..n], h), txs[n]))
  }

  /** The supply records of a block: the change of the money supply, and the newly minted amount. */
  datatype Supply = Supply(nMoneySupply: Amount, nMint: Amount)

  ghost function SupplyAfter(s: Supply, m: Utxos, txs: seq<Transaction>, h: int): Supply
    requires CanApplyAll(m, txs, h)
    decreases |txs|
  {
    if txs == [] then s else
      var n := |txs| - 1;
      var view := ConnectAll(m, txs[..n], h);
      var before := SupplyAfter(s, m, txs[..n], h);
      Supply(before.nMoneySupply + Minting(view, txs[n]), before.nMint + Minting(view, txs[n]) + TxFee(view, txs[n]))
  }

  ghost function UnspendableTotal(txs: seq<Transaction>): Amount
  {
    if txs == [] then 0 else UnspendableTotal(txs[..|txs| - 1]) + UnspendableValue(txs[|txs| - 1].vout)
  }

  /** What the coinbase and coinstake transactions of the block create. */
  ghost function RewardsCreated(m: Utxos, txs: seq<Transaction>, h: int): Amount
    requires CanApplyAll(m, txs, h)
    decreases |txs|
  {
    if txs == [] then 0 else
      var n := |txs| - 1;
      RewardsCreated(m, txs[..n], h)
      + if txs[n].IsCoinBase() || txs[n].IsCoinStake() then Minting(ConnectAll(m, txs[..n], h), txs[n]) else 0
  }

  lemma {:induction false} AppliesConnects(m: Utxos, txs: seq<Transaction>, h: int)
    requires CanApplyAll(m, txs, h)
    ensures CanConnect(m, txs, h)
  {
    if txs != [] {
      var n := |txs| - 1;
      CheckedInputsCanBeSpent(ConnectAll(m, txs[..n], h), Inputs(txs[n]));
    }
  }

  /**
    Across a block the total unspent value changes by exactly the change of the money supply less
    what became unspendable, and the minted amount is what coinbase and coinstake transactions
    alone create: every other transaction cancels against its own fee.
   */
  lemma {:induction false} ValueIsConserved(s: Supply, m: Utxos, txs: seq<Transaction>, h: int)
    requires TidyView(m) && InRange(txs) && CanApplyAll(m, txs, h)
    ensures CanConnect(m, txs, h)
    ensures TotalValue(ConnectAll(m, txs, h)) - TotalValue(m)
         == SupplyAfter(s, m, txs, h).nMoneySupply - s.nMoneySupply - UnspendableTotal(txs)
    ensures SupplyAfter(s, m, txs, h).nMint == s.nMint + RewardsCreated(m, txs, h)
    decreases |txs|
  {
    AppliesConnects(m, txs, h);
    if txs != [] {
      var n := |txs| - 1;
      var view := ConnectAll(m, txs[..n], h);
      PrefixOk(m, txs);
      ValueIsConserved(s, m, txs[..n], h);
      ConnectAllKeeps(m, txs[..n], h);
      hide TidyView, InRange, ApplyTx, TotalValue, InputValue, CanSpendAll;
      ApplyTxValue(view, txs[n], h);
    }
  }
}
