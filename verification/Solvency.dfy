/**
  What accepted transactions, blocks and chains may create: no transaction but a coinbase or a
  coinstake adds value, and the money that is there never exceeds what those two have created.
 */
module Solvency {
  import opened Coins
  import opened CoinsCache
  import opened UtxoUpdate
  import opened MoneySupply
  import opened BlockConnection

  // ---- One transaction ----

  /** An input that may be spent at the given height. */
  ghost predicate InputOk(m: Utxos, out: OutPoint, h: int, rules: Rules)
  {
    && out.hash in m && out.n < |m[out.hash].vout|
    && (m[out.hash].fCoinBase || m[out.hash].fCoinStake ==> m[out.hash].nHeight + rules.maturity <= h)
    && 0 <= m[out.hash].vout[out.n].nValue <= rules.maxMoney
  }

  lemma InputOkIs(m: Utxos, out: OutPoint, h: int, rules: Rules)
    ensures InputOk(m, out, h, rules) <==> Available(m, out) && MatureAndInRange(m, out, h, rules)
  {
  }

  lemma {:induction false} InputsAddUp(m: Utxos, vin: seq<OutPoint>, h: int, rules: Rules)
    requires HaveInputs(m, vin) && forall i :: 0 <= i < |vin| ==> InputOk(m, vin[i], h, rules)
    ensures InputValue(m, vin) >= 0
  {
    hide InputOk, Available;
    if vin != [] {
      var n := |vin| - 1;
      assert forall o <- vin[..n] :: o in vin;
      InputsAddUp(m, vin[..n], h, rules);
      assert InputOk(m, vin[n], h, rules);
      InputNotNegative(m, vin[n], h, rules);
    }
  }

  lemma InputNotNegative(m: Utxos, out: OutPoint, h: int, rules: Rules)
    requires InputOk(m, out, h, rules)
    ensures out.hash in m && out.n < |m[out.hash].vout| && m[out.hash].vout[out.n].nValue >= 0
  {
  }

  lemma {:induction false} SumsIff(m: Utxos, vin: seq<OutPoint>, h: int, rules: Rules)
    requires HaveInputs(m, vin)
    ensures SumsInRange(m, vin, h, rules)
       <==> (forall i :: 0 <= i < |vin| ==> InputOk(m, vin[i], h, rules)) && (vin == [] || InputValue(m, vin) <= rules.maxMoney)
  {
    hide InputOk, Available, MatureAndInRange;
    if vin != [] {
      var n := |vin| - 1;
      assert vin[n] in vin && forall o <- vin[..n] :: o in vin;
      SumsIff(m, vin[..n], h, rules);
      InputOkIs(m, vin[n], h, rules);
      assert (forall i :: 0 <= i < |vin| ==> InputOk(m, vin[i], h, rules))
        <==> (forall i :: 0 <= i < n ==> InputOk(m, vin[..n][i], h, rules)) && InputOk(m, vin[n], h, rules);
      if forall i :: 0 <= i < |vin| ==> InputOk(m, vin[i], h, rules) {
        InputsAddUp(m, vin[..n], h, rules);
        InputsAddUp(m, vin, h, rules);
        InputNotNegative(m, vin[n], h, rules);
      }
    }
  }

  /** What the input check accepts, input by input and in the whole. */
  lemma AcceptableIff(m: Utxos, tx: Transaction, h: int, rules: Rules)
    ensures Acceptable(m, tx, h, rules)
       <==> || tx.IsCoinBase()
            || (&& HaveInputs(m, tx.vin) && (forall i :: 0 <= i < |tx.vin| ==> InputOk(m, tx.vin[i], h, rules))
                && InputValue(m, tx.vin) <= rules.maxMoney
                && (tx.IsCoinStake() || ValueOut(tx) <= InputValue(m, tx.vin) <= ValueOut(tx) + rules.maxMoney))
  {
    hide InputOk, HaveInputs, SumsInRange, InputValue, ValueOut;
    if HaveInputs(m, tx.vin) {
      SumsIff(m, tx.vin, h, rules);
      if tx.vin == [] { NoSums(m, h, rules); }
    }
  }

  /** An accepted transaction that is neither coinbase nor coinstake creates nothing; what it leaves is its fee. */
  lemma AcceptedCreatesNothing(m: Utxos, tx: Transaction, h: int, rules: Rules)
    requires Acceptable(m, tx, h, rules) && !tx.IsCoinBase() && !tx.IsCoinStake()
    ensures HaveInputs(m, Inputs(tx)) && Minting(m, tx) <= 0 && 0 <= TxFee(m, tx) <= rules.maxMoney
  {
    hide SumsInRange, HaveInputs, InputValue, SumOutputs, Transaction.IsCoinBase, Transaction.IsCoinStake;
  }

  // ---- One block ----

  lemma AcceptedHasInputs(m: Utxos, tx: Transaction, h: int, rules: Rules)
    requires Acceptable(m, tx, h, rules)
    ensures HaveInputs(m, Inputs(tx))
  {
    hide SumsInRange, InputValue, SumOutputs;
  }

  /** A block that is accepted can be applied. */
  lemma {:induction false} AcceptedCanApply(m: Utxos, txs: seq<Transaction>, i: nat, h: int, rules: Rules, verdict: nat -> bool)
    requires TidyView(m) && WellFormedBlock(m, txs) && i <= |txs| && AllAccepted(m, txs[..i], h, rules, verdict)
    ensures CanApplyAll(m, txs[..i], h) && CanConnect(m, txs[..i], h)
    decreases i
  {
    hide *;
    if i == 0 {
      assert txs[..0] == [];
      NothingYet(Supply(0, 0), m, h, rules, verdict);
    } else {
      AcceptedStep(m, txs, i - 1, h, rules, verdict);
      AcceptedCanApply(m, txs, i - 1, h, rules, verdict);
      AcceptedHasInputs(ConnectAll(m, txs[..i - 1], h), txs[i - 1], h, rules);
      CanGoOn(m, txs, i - 1, h);
    }
  }

  ghost function FeesPaid(m: Utxos, txs: seq<Transaction>, h: int): Amount
    requires CanApplyAll(m, txs, h)
    decreases |txs|
  {
    if txs == [] then 0 else
      var n := |txs| - 1;
      FeesPaid(m, txs[..n], h) + TxFee(ConnectAll(m, txs[..n], h), txs[n])
  }

  lemma {:induction false} UnspendableNotNegative(vout: seq<TxOut>)
    requires forall o <- vout :: o.nValue >= 0
    ensures UnspendableValue(vout) >= 0
  {
    if vout != [] {
      var n := |vout| - 1;
      assert vout[n] in vout && forall o <- vout[..n] :: o in vout;
      UnspendableNotNegative(vout[..n]);
    }
  }

  lemma {:induction false} DroppedNotNegative(txs: seq<Transaction>)
    requires InRange(txs)
    ensures UnspendableTotal(txs) >= 0
  {
    hide UnspendableValue;
    if txs != [] {
      var n := |txs| - 1;
      assert txs[n] in txs && forall t <- txs[..n] :: t in txs;
      DroppedNotNegative(txs[..n]);
      UnspendableNotNegative(txs[n].vout);
    }
  }

  /** The change of the money supply is what rewards create less what fees pay, and fees are never negative. */
  lemma {:induction false} SupplyIsRewardsLessFees(s: Supply, m: Utxos, txs: seq<Transaction>, h: int, rules: Rules, verdict: nat -> bool)
    requires CanApplyAll(m, txs, h) && AllAccepted(m, txs, h, rules, verdict)
    ensures FeesPaid(m, txs, h) >= 0
    ensures SupplyAfter(s, m, txs, h).nMoneySupply == s.nMoneySupply + RewardsCreated(m, txs, h) - FeesPaid(m, txs, h)
    decreases |txs|
  {
    hide Acceptable, CanConnect, ConnectAll, HaveInputs, Distinct, InputValue, SumOutputs, Transaction.IsCoinBase, Transaction.IsCoinStake;
    if txs != [] {
      var n := |txs| - 1;
      SupplyIsRewardsLessFees(s, m, txs[..n], h, rules, verdict);
      var view, tx := ConnectAll(m, txs[..n], h), txs[n];
      if !tx.IsCoinBase() && !tx.IsCoinStake() { AcceptedCreatesNothing(view, tx, h, rules); }
    }
  }

  /**
    An accepted block changes the value of the unspent outputs by what its coinbase and coinstake
    create, less its fees and less what no one can spend; neither of these is negative.
   */
  lemma NoInflation(m: Utxos, txs: seq<Transaction>, h: int, rules: Rules, verdict: nat -> bool)
    requires TidyView(m) && WellFormedBlock(m, txs) && AllAccepted(m, txs, h, rules, verdict)
    ensures CanApplyAll(m, txs, h) && CanConnect(m, txs, h)
    ensures FeesPaid(m, txs, h) >= 0 && UnspendableTotal(txs) >= 0
    ensures TotalValue(ConnectAll(m, txs, h)) == TotalValue(m) + RewardsCreated(m, txs, h) - FeesPaid(m, txs, h) - UnspendableTotal(txs)
    ensures TotalValue(ConnectAll(m, txs, h)) <= TotalValue(m) + RewardsCreated(m, txs, h)
  {
    hide *;
    var s := Supply(0, 0);
    assert txs[..|txs|] == txs;
    AcceptedCanApply(m, txs, |txs|, h, rules, verdict);
    WellFormedIs(m, txs);
    ValueIsConserved(s, m, txs, h);
    SupplyIsRewardsLessFees(s, m, txs, h, rules, verdict);
    DroppedNotNegative(txs);
  }

  // ---- Whole chains ----

  /** What is known of the last block of a chain. */
  lemma LastBlock(blocks: seq<seq<Transaction>>, rules: Rules, verdicts: nat -> nat -> bool)
    requires IsChain(blocks, rules, verdicts) && blocks != []
    ensures var n, h := |blocks| - 1, |blocks|;
            && IsChain(blocks[..n], rules, verdicts)
            && var m := ChainView(blocks[..n], rules, verdicts);
               && TidyView(m) && WellFormedBlock(m, blocks[n]) && AllAccepted(m, blocks[n], h, rules, verdicts(n))
               && CanApplyAll(m, blocks[n], h) && CanConnect(m, blocks[n], h)
               && ChainView(blocks, rules, verdicts) == ConnectAll(m, blocks[n], h)
  {
    hide TidyView, AfterGenesis, HeightsBelow, ConnectAll, CanConnect, CanApplyAll, AllAccepted, WellFormedBlock;
    var n := |blocks| - 1;
    var m := ChainView(blocks[..n], rules, verdicts);
    ChainViewOk(blocks[..n], rules, verdicts);
    assert blocks[n][..|blocks[n]|] == blocks[n];
    AcceptedCanApply(m, blocks[n], |blocks[n]|, |blocks|, rules, verdicts(n));
  }

  /** What all coinbases and coinstakes of the chain have created. */
  ghost function ChainRewards(blocks: seq<seq<Transaction>>, rules: Rules, verdicts: nat -> nat -> bool): Amount
    requires IsChain(blocks, rules, verdicts)
    decreases |blocks|
  {
    if blocks == [] then 0 else
      LastBlock(blocks, rules, verdicts);
      var n := |blocks| - 1;
      ChainRewards(blocks[..n], rules, verdicts) + RewardsCreated(ChainView(blocks[..n], rules, verdicts), blocks[n], |blocks|)
  }

  /** The money supply that the last block of the chain records: each block starts from the record of the one before. */
  ghost function RecordedSupply(blocks: seq<seq<Transaction>>, rules: Rules, verdicts: nat -> nat -> bool): Amount
    requires IsChain(blocks, rules, verdicts)
    decreases |blocks|
  {
    if blocks == [] then 0 else
      LastBlock(blocks, rules, verdicts);
      var n := |blocks| - 1;
      SupplyAfter(Supply(RecordedSupply(blocks[..n], rules, verdicts), 0), ChainView(blocks[..n], rules, verdicts), blocks[n], |blocks|).nMoneySupply
  }

  ghost function ChainUnspendable(blocks: seq<seq<Transaction>>): Amount
  {
    if blocks == [] then 0 else ChainUnspendable(blocks[..|blocks| - 1]) + UnspendableTotal(blocks[|blocks| - 1])
  }

  /**
    On every chain of accepted blocks the recorded money supply is the value of all unspent outputs
    and of those that no one can spend, and it is at most what coinbases and coinstakes have created.
   */
  lemma {:induction false} ChainIsSolvent(blocks: seq<seq<Transaction>>, rules: Rules, verdicts: nat -> nat -> bool)
    requires IsChain(blocks, rules, verdicts)
    ensures RecordedSupply(blocks, rules, verdicts) == TotalValue(ChainView(blocks, rules, verdicts)) + ChainUnspendable(blocks)
    ensures RecordedSupply(blocks, rules, verdicts) <= ChainRewards(blocks, rules, verdicts) && ChainUnspendable(blocks) >= 0
    decreases |blocks|
  {
    if blocks == [] {
      assert TotalValue(map[]) == 0;
    } else {
      hide IsChain, ChainView, TidyView, WellFormedBlock, AllAccepted, CanApplyAll, CanConnect, ConnectAll, SupplyAfter, RewardsCreated, TotalValue,
        UnspendableTotal, FeesPaid;
      var n, h := |blocks| - 1, |blocks|;
      LastBlock(blocks, rules, verdicts);
      var m := ChainView(blocks[..n], rules, verdicts);
      ChainIsSolvent(blocks[..n], rules, verdicts);
      var s := Supply(RecordedSupply(blocks[..n], rules, verdicts), 0);
      WellFormedIs(m, blocks[n]);
      ValueIsConserved(s, m, blocks[n], h);
      SupplyIsRewardsLessFees(s, m, blocks[n], h, rules, verdicts(n));
      DroppedNotNegative(blocks[n]);
    }
  }
}
