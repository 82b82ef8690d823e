/**
  Taking back several blocks of a chain, last first, as a reorganisation does. Each block that is
  taken back loses the coinstake flags of the records it had emptied, and an earlier block that made
  such a coinstake no longer finds its own outputs.
 */
module Reorganisation {
  import opened Coins
  import opened CoinsCache
  import opened UtxoUpdate
  import opened MoneySupply
  import opened BlockConnection

  type Blocks = seq<seq<Transaction>>
  type Verdicts = nat -> nat -> bool

  lemma {:induction false} ChainPrefix(blocks: Blocks, j: nat, rules: Rules, verdicts: Verdicts)
    requires IsChain(blocks, rules, verdicts) && j <= |blocks|
    ensures IsChain(blocks[..j], rules, verdicts)
    decreases |blocks|
  {
    hide WellFormedBlock, AllAccepted, CanConnect, ChainView;
    if j < |blocks| {
      ChainPrefix(blocks[..|blocks| - 1], j, rules, verdicts);
      assert blocks[..|blocks| - 1][..j] == blocks[..j];
    } else {
      assert blocks[..j] == blocks;
    }
  }

  /** The view on which block j of the chain was connected. */
  ghost function ViewBefore(blocks: Blocks, j: nat, rules: Rules, verdicts: Verdicts): Utxos
    requires IsChain(blocks, rules, verdicts) && j <= |blocks|
  {
    ChainPrefix(blocks, j, rules, verdicts);
    ChainView(blocks[..j], rules, verdicts)
  }

  /** What is known of each block where it stands. */
  lemma BlockAt(blocks: Blocks, j: nat, rules: Rules, verdicts: Verdicts)
    requires IsChain(blocks, rules, verdicts) && j < |blocks|
    ensures var m := ViewBefore(blocks, j, rules, verdicts);
            && TidyView(m) && AfterGenesis(m) && HeightsBelow(m, j + 1)
            && WellFormedBlock(m, blocks[j]) && AllAccepted(m, blocks[j], j + 1, rules, verdicts(j)) && CanConnect(m, blocks[j], j + 1)
            && ViewBefore(blocks, j + 1, rules, verdicts) == ConnectAll(m, blocks[j], j + 1)
  {
    hide WellFormedBlock, AllAccepted, CanConnect, ConnectAll, TidyView, AfterGenesis, HeightsBelow;
    ChainPrefix(blocks, j, rules, verdicts);
    ChainPrefix(blocks, j + 1, rules, verdicts);
    var p := blocks[..j + 1];
    assert p[..j] == blocks[..j] && p[j] == blocks[j];
    ChainViewOk(blocks[..j], rules, verdicts);
  }

  /** The ids of the records that block j emptied. */
  ghost function EmptiedBy(blocks: Blocks, j: nat, rules: Rules, verdicts: Verdicts): set<TxId>
    requires IsChain(blocks, rules, verdicts) && j < |blocks|
  {
    BlockAt(blocks, j, rules, verdicts);
    Ids(BlockDrains(ViewBefore(blocks, j, rules, verdicts), blocks[j], j + 1))
  }

  lemma UndoOfBlockFits(blocks: Blocks, j: nat, rules: Rules, verdicts: Verdicts)
    requires IsChain(blocks, rules, verdicts) && j < |blocks|
    ensures var m := ViewBefore(blocks, j, rules, verdicts);
            CanConnect(m, blocks[j], j + 1) && UndoFits(blocks[j], BlockUndo(m, blocks[j], j + 1))
  {
    hide *;
    BlockAt(blocks, j, rules, verdicts);
    BlockUndoFits(ViewBefore(blocks, j, rules, verdicts), blocks[j], j + 1);
  }

  /** The blocks from the n-th back to block `to`, taken back one after the other. */
  ghost function TakeBack(r: Reversal, blocks: Blocks, n: nat, to: nat, rules: Rules, verdicts: Verdicts): Reversal
    requires IsChain(blocks, rules, verdicts) && to <= n <= |blocks|
    decreases n
  {
    if n == to then r else
      UndoOfBlockFits(blocks, n - 1, rules, verdicts);
      var m := ViewBefore(blocks, n - 1, rules, verdicts);
      TakeBack(DisconnectAll(r, blocks[n - 1], n, BlockUndo(m, blocks[n - 1], n)), blocks, n - 1, to, rules, verdicts)
  }

  lemma {:induction false} TakeBackUnclean(r: Reversal, blocks: Blocks, n: nat, to: nat, rules: Rules, verdicts: Verdicts)
    requires IsChain(blocks, rules, verdicts) && to <= n <= |blocks| && !r.clean
    ensures !TakeBack(r, blocks, n, to, rules, verdicts).clean
    decreases n
  {
    hide IsChain, DisconnectAll, BlockUndo, ViewBefore, UndoFits, CanConnect;
    if to < n {
      UndoOfBlockFits(blocks, n - 1, rules, verdicts);
      var m := ViewBefore(blocks, n - 1, rules, verdicts);
      DisconnectUnclean(r, blocks[n - 1], n, BlockUndo(m, blocks[n - 1], n));
      TakeBackUnclean(DisconnectAll(r, blocks[n - 1], n, BlockUndo(m, blocks[n - 1], n)), blocks, n - 1, to, rules, verdicts);
    }
  }

  ghost function EmptiedFrom(blocks: Blocks, n: nat, to: nat, rules: Rules, verdicts: Verdicts): set<TxId>
    requires IsChain(blocks, rules, verdicts) && to <= n <= |blocks|
    decreases n
  {
    if n == to then {} else EmptiedBy(blocks, n - 1, rules, verdicts) + EmptiedFrom(blocks, n - 1, to, rules, verdicts)
  }

  /** No coinstake of these blocks is among the forgotten ids when its block is reached. */
  ghost predicate Untouched(blocks: Blocks, n: nat, to: nat, ids: set<TxId>, rules: Rules, verdicts: Verdicts)
    requires IsChain(blocks, rules, verdicts) && to <= n <= |blocks|
    decreases n
  {
    n == to ||
    (StakesUntouched(blocks[n - 1], n, ids)
     && Untouched(blocks, n - 1, to, ids + EmptiedBy(blocks, n - 1, rules, verdicts), rules, verdicts))
  }

  /** One block, from a view that has forgotten some flags. */
  lemma TakeBackOne(blocks: Blocks, j: nat, ids: set<TxId>, rules: Rules, verdicts: Verdicts)
    requires IsChain(blocks, rules, verdicts) && j < |blocks| && rules.maturity >= 1
    ensures var m := ViewBefore(blocks, j, rules, verdicts);
            && CanConnect(m, blocks[j], j + 1) && UndoFits(blocks[j], BlockUndo(m, blocks[j], j + 1))
            && var r := DisconnectAll(Reversal(Forget(ViewBefore(blocks, j + 1, rules, verdicts), ids), true), blocks[j], j + 1,
                                      BlockUndo(m, blocks[j], j + 1));
               && (r.clean <==> StakesUntouched(blocks[j], j + 1, ids))
               && (r.clean ==> r.view == Forget(m, ids + EmptiedBy(blocks, j, rules, verdicts)))
  {
    hide *;
    var m := ViewBefore(blocks, j, rules, verdicts);
    BlockAt(blocks, j, rules, verdicts);
    WellFormedIs(m, blocks[j]);
    EmptiedByIs(blocks, j, rules, verdicts);
    DisconnectInverts(m, blocks[j], j + 1, ids);
    ReversibleIff(m, blocks[j], j + 1, ids);
    AcceptedBlockIsReversible(m, blocks[j], j + 1, rules, verdicts(j));
  }

  lemma EmptiedByIs(blocks: Blocks, j: nat, rules: Rules, verdicts: Verdicts)
    requires IsChain(blocks, rules, verdicts) && j < |blocks|
    ensures var m := ViewBefore(blocks, j, rules, verdicts);
            CanConnect(m, blocks[j], j + 1) && EmptiedBy(blocks, j, rules, verdicts) == Ids(BlockDrains(m, blocks[j], j + 1))
  {
    hide IsChain, CanConnect, Ids, BlockDrains, ViewBefore;
    BlockAt(blocks, j, rules, verdicts);
  }

  lemma {:induction false} TakeBackInverts(blocks: Blocks, n: nat, to: nat, ids: set<TxId>, rules: Rules, verdicts: Verdicts)
    requires IsChain(blocks, rules, verdicts) && to <= n <= |blocks| && rules.maturity >= 1
    ensures var r := TakeBack(Reversal(Forget(ViewBefore(blocks, n, rules, verdicts), ids), true), blocks, n, to, rules, verdicts);
            && (r.clean <==> Untouched(blocks, n, to, ids, rules, verdicts))
            && (r.clean ==> r.view == Forget(ViewBefore(blocks, to, rules, verdicts), ids + EmptiedFrom(blocks, n, to, rules, verdicts)))
    decreases n
  {
    hide IsChain, DisconnectAll, BlockUndo, ViewBefore, UndoFits, CanConnect, Forget, StakesUntouched, EmptiedBy;
    if n == to {
      assert ids + EmptiedFrom(blocks, n, to, rules, verdicts) == ids;
    } else {
      TakeBackOne(blocks, n - 1, ids, rules, verdicts);
      var m, gone := ViewBefore(blocks, n - 1, rules, verdicts), EmptiedBy(blocks, n - 1, rules, verdicts);
      var start := Reversal(Forget(ViewBefore(blocks, n, rules, verdicts), ids), true);
      var r := DisconnectAll(start, blocks[n - 1], n, BlockUndo(m, blocks[n - 1], n));
      if r.clean {
        assert r == Reversal(Forget(m, ids + gone), true);
        TakeBackInverts(blocks, n - 1, to, ids + gone, rules, verdicts);
        assert ids + gone + EmptiedFrom(blocks, n - 1, to, rules, verdicts) == ids + EmptiedFrom(blocks, n, to, rules, verdicts);
      } else {
        TakeBackUnclean(r, blocks, n - 1, to, rules, verdicts);
      }
    }
  }

  // ---- The condition, block against block ----

  /** A coinstake made in block i that block j empties. */
  ghost predicate MadeAndEmptied(blocks: Blocks, i: nat, j: nat, tx: Transaction, rules: Rules, verdicts: Verdicts)
    requires IsChain(blocks, rules, verdicts) && i < j < |blocks|
  {
    tx in blocks[i] && LosesStake(tx, i + 1) && tx.hash in EmptiedBy(blocks, j, rules, verdicts)
  }

  /** No coinstake is made and emptied within the blocks from `to` up to the n-th. */
  ghost predicate NoneMadeAndEmptied(blocks: Blocks, n: nat, to: nat, rules: Rules, verdicts: Verdicts)
    requires IsChain(blocks, rules, verdicts) && n <= |blocks|
  {
    forall i: nat, j: nat, tx :: to <= i < j < n ==> !MadeAndEmptied(blocks, i, j, tx, rules, verdicts)
  }

  ghost predicate AllUntouched(blocks: Blocks, n: nat, to: nat, ids: set<TxId>)
    requires n <= |blocks|
  {
    forall i: nat :: to <= i < n ==> StakesUntouched(blocks[i], i + 1, ids)
  }

  lemma AllUntouchedGrows(blocks: Blocks, j: nat, to: nat, ids: set<TxId>, rules: Rules, verdicts: Verdicts)
    requires IsChain(blocks, rules, verdicts) && to <= j < |blocks|
    ensures var gone := EmptiedBy(blocks, j, rules, verdicts);
            AllUntouched(blocks, j, to, ids + gone)
            <==> AllUntouched(blocks, j, to, ids)
                 && forall i: nat, tx :: to <= i < j ==> !MadeAndEmptied(blocks, i, j, tx, rules, verdicts)
  {
    hide IsChain, EmptiedBy, LosesStake;
    var gone := EmptiedBy(blocks, j, rules, verdicts);
    forall i: nat | to <= i < j
      ensures StakesUntouched(blocks[i], i + 1, ids + gone)
         <==> StakesUntouched(blocks[i], i + 1, ids) && forall tx :: !MadeAndEmptied(blocks, i, j, tx, rules, verdicts)
    {
      if !StakesUntouched(blocks[i], i + 1, ids + gone) && StakesUntouched(blocks[i], i + 1, ids) {
        var tx :| tx in blocks[i] && tx.hash in ids + gone && LosesStake(tx, i + 1);
        assert MadeAndEmptied(blocks, i, j, tx, rules, verdicts);
      }
    }
    hide StakesUntouched, MadeAndEmptied;
    if AllUntouched(blocks, j, to, ids + gone) {
      forall i: nat | to <= i < j
        ensures StakesUntouched(blocks[i], i + 1, ids) && forall tx :: !MadeAndEmptied(blocks, i, j, tx, rules, verdicts)
      {
        assert StakesUntouched(blocks[i], i + 1, ids + gone);
      }
    }
  }

  lemma {:induction false} UntouchedIff(blocks: Blocks, n: nat, to: nat, ids: set<TxId>, rules: Rules, verdicts: Verdicts)
    requires IsChain(blocks, rules, verdicts) && to <= n <= |blocks|
    ensures Untouched(blocks, n, to, ids, rules, verdicts)
       <==> AllUntouched(blocks, n, to, ids) && NoneMadeAndEmptied(blocks, n, to, rules, verdicts)
    decreases n
  {
    hide IsChain, EmptiedBy, StakesUntouched, MadeAndEmptied;
    if to < n {
      UntouchedIff(blocks, n - 1, to, ids + EmptiedBy(blocks, n - 1, rules, verdicts), rules, verdicts);
      AllUntouchedGrows(blocks, n - 1, to, ids, rules, verdicts);
    }
  }

  lemma NothingForgotten(blocks: Blocks, n: nat, to: nat, m: Utxos)
    requires n <= |blocks|
    ensures AllUntouched(blocks, n, to, {}) && Forget(m, {}) == m
  {
    ForgetNothing(m);
  }

  /**
    Taking back the last blocks of a chain is clean if and only if no coinstake made in them is
    emptied by a later one of them. The view is then the one before them, but for lost flags.
   */
  lemma ReorganisationIff(blocks: Blocks, k: nat, rules: Rules, verdicts: Verdicts)
    requires IsChain(blocks, rules, verdicts) && k <= |blocks| && rules.maturity >= 1
    ensures var n := |blocks|;
            var r := TakeBack(Reversal(ChainView(blocks, rules, verdicts), true), blocks, n, n - k, rules, verdicts);
            && (r.clean <==> NoneMadeAndEmptied(blocks, n, n - k, rules, verdicts))
            && (r.clean ==> r.view == Forget(ViewBefore(blocks, n - k, rules, verdicts), EmptiedFrom(blocks, n, n - k, rules, verdicts)))
  {
    hide IsChain, TakeBack, Untouched, NoneMadeAndEmptied, AllUntouched, EmptiedFrom, ChainView, Forget;
    var n := |blocks|;
    assert blocks[..n] == blocks;
    NothingForgotten(blocks, n, n - k, ViewBefore(blocks, n, rules, verdicts));
    TakeBackInverts(blocks, n, n - k, {}, rules, verdicts);
    UntouchedIff(blocks, n, n - k, {}, rules, verdicts);
    assert {} + EmptiedFrom(blocks, n, n - k, rules, verdicts) == EmptiedFrom(blocks, n, n - k, rules, verdicts);
  }

  // ---- No deeper than the maturity ----

  lemma {:induction false} SpendsElsewhere(m: Utxos, vin: seq<OutPoint>, id: TxId)
    requires CanSpendAll(m, vin) && id in m && forall out <- vin :: out.hash != id
    ensures id in SpendAll(m, vin) && SpendAll(m, vin)[id] == m[id]
    decreases |vin|
  {
    if vin != [] {
      var n := |vin| - 1;
      assert vin[n] in vin && forall o <- vin[..n] :: o in vin;
      SpendsElsewhere(m, vin[..n], id);
      hide SpentCoins, Available;
    }
  }

  /** Made by a coinbase or a coinstake that is not yet deep enough. */
  ghost predicate Immature(c: Coins, h: int, rules: Rules) { (c.fCoinBase || c.fCoinStake) && h < c.nHeight + rules.maturity }

  /** An accepted transaction spends nothing of an immature reward. */
  lemma SpendsNoImmature(m: Utxos, tx: Transaction, h: int, rules: Rules, id: TxId)
    requires Acceptable(m, tx, h, rules) && CanSpendAll(m, Inputs(tx))
    requires id in m && Immature(m[id], h, rules) && tx.hash != id
    ensures forall out <- Inputs(tx) :: out.hash != id
    ensures id in ApplyTx(m, tx, h) && ApplyTx(m, tx, h)[id] == m[id] && forall d <- Drains(m, Inputs(tx)) :: d.0 != id
  {
    hide Drains, CanSpendAll, SumsInRange, HaveInputs, InputValue, SumOutputs, FromTx, SpendAll;
    forall out | out in Inputs(tx) ensures out.hash != id { InputIsMature(m, tx.vin, h, rules, out); }
    SpendsElsewhere(m, Inputs(tx), id);
    forall d | d in Drains(m, Inputs(tx)) ensures d.0 != id { DrainIsInput(m, Inputs(tx), d); }
  }

  /** A block leaves an immature reward alone. */
  lemma {:induction false} BlockKeepsImmature(m: Utxos, txs: seq<Transaction>, h: int, rules: Rules, verdict: nat -> bool, id: TxId)
    requires CanConnect(m, txs, h) && AllAccepted(m, txs, h, rules, verdict) && forall tx <- txs :: tx.hash != id
    requires id in m && Immature(m[id], h, rules)
    ensures forall tx <- txs :: forall out <- Inputs(tx) :: out.hash != id
    ensures id in ConnectAll(m, txs, h) && ConnectAll(m, txs, h)[id] == m[id] && forall d <- BlockDrains(m, txs, h) :: d.0 != id
    decreases |txs|
  {
    hide Acceptable, CanSpendAll, ApplyTx, Drains;
    if txs != [] {
      var n := |txs| - 1;
      assert txs[n] in txs && forall t <- txs[..n] :: t in txs;
      BlockKeepsImmature(m, txs[..n], h, rules, verdict, id);
      SpendsNoImmature(ConnectAll(m, txs[..n], h), txs[n], h, rules, id);
    }
  }

  /** A coinbase or a coinstake with outputs. */
  ghost predicate IsReward(tx: Transaction, h: int) { (tx.IsCoinBase() || tx.IsCoinStake()) && !FromTx(tx, h).IsPruned() }

  lemma RewardRecord(m: Utxos, tx: Transaction, h: int)
    requires IsReward(tx, h) && CanSpendAll(m, Inputs(tx))
    ensures FromTx(tx, h).fCoinBase == tx.IsCoinBase() && FromTx(tx, h).fCoinStake == tx.IsCoinStake() && FromTx(tx, h).nHeight == h
    ensures tx.hash in ApplyTx(m, tx, h) && ApplyTx(m, tx, h)[tx.hash] == FromTx(tx, h)
  {
    hide SpendAll, CanSpendAll, Coins.IsPruned, DropNulls, Spendable;
  }

  lemma OtherId(m: Utxos, txs: seq<Transaction>, n: nat, tx: Transaction)
    requires FreshIds(m, txs) && n < |txs| && tx in txs[..n]
    ensures txs[n].hash != tx.hash
  {
    var i :| 0 <= i < n && txs[..n][i] == tx;
    assert txs[i] == tx;
  }

  /** A reward with outputs is in the view at the end of its own block. */
  lemma {:induction false} RewardIsAdded(m: Utxos, txs: seq<Transaction>, h: int, rules: Rules, verdict: nat -> bool, tx: Transaction)
    requires CanConnect(m, txs, h) && AllAccepted(m, txs, h, rules, verdict) && InRange(txs) && FreshIds(m, txs)
    requires rules.maturity >= 1 && tx in txs && IsReward(tx, h)
    ensures tx.hash in ConnectAll(m, txs, h) && ConnectAll(m, txs, h)[tx.hash] == FromTx(tx, h)
    ensures FromTx(tx, h).fCoinBase == tx.IsCoinBase() && FromTx(tx, h).fCoinStake == tx.IsCoinStake() && FromTx(tx, h).nHeight == h
    ensures (tx.IsCoinBase() || tx.IsCoinStake()) && forall g :: g < h + rules.maturity ==> Immature(FromTx(tx, h), g, rules)
    decreases |txs|
  {
    hide Acceptable, CanSpendAll, ApplyTx, FromTx, InRange, FreshIds;
    var n := |txs| - 1;
    var before := ConnectAll(m, txs[..n], h);
    if txs[n] == tx {
      RewardRecord(before, tx, h);
    } else {
      assert txs == txs[..n] + [txs[n]];
      PrefixOk(m, txs);
      RewardIsAdded(m, txs[..n], h, rules, verdict, tx);
      OtherId(m, txs, n, tx);
      SpendsNoImmature(before, txs[n], h, rules, tx.hash);
    }
  }

  /** It stays there, whole, as long as it is immature. */
  lemma {:induction false} RewardStays(blocks: Blocks, i: nat, j: nat, tx: Transaction, rules: Rules, verdicts: Verdicts)
    requires IsChain(blocks, rules, verdicts) && i < j <= |blocks| && rules.maturity >= 1
    requires tx in blocks[i] && IsReward(tx, i + 1) && j - i <= rules.maturity
    ensures var m := ViewBefore(blocks, j, rules, verdicts);
            && tx.hash in m && m[tx.hash] == FromTx(tx, i + 1) && m[tx.hash].nHeight == i + 1
            && m[tx.hash].fCoinBase == tx.IsCoinBase() && m[tx.hash].fCoinStake == tx.IsCoinStake()
            && forall g :: g < i + 1 + rules.maturity ==> Immature(m[tx.hash], g, rules)
    decreases j
  {
    hide IsChain, ViewBefore, ConnectAll, CanConnect, AllAccepted, TidyView, AfterGenesis, HeightsBelow, IsReward, FromTx, Immature;
    var m := ViewBefore(blocks, j - 1, rules, verdicts);
    BlockAt(blocks, j - 1, rules, verdicts);
    WellFormedIs(m, blocks[j - 1]);
    if i == j - 1 {
      RewardIsAdded(m, blocks[i], j, rules, verdicts(i), tx);
    } else {
      RewardStays(blocks, i, j - 1, tx, rules, verdicts);
      assert forall t <- blocks[j - 1] :: t.hash != tx.hash;
      BlockKeepsImmature(m, blocks[j - 1], j, rules, verdicts(j - 1), tx.hash);
    }
  }

  /** No transaction of a later block spends a reward that is not yet deep enough. */
  lemma RewardIsNotSpent(blocks: Blocks, i: nat, j: nat, tx: Transaction, spender: Transaction, rules: Rules, verdicts: Verdicts)
    requires IsChain(blocks, rules, verdicts) && i < j < |blocks| && rules.maturity >= 1 && j - i < rules.maturity
    requires tx in blocks[i] && IsReward(tx, i + 1) && spender in blocks[j]
    ensures forall out <- Inputs(spender) :: out.hash != tx.hash
  {
    hide IsChain, ViewBefore, ConnectAll, CanConnect, AllAccepted, TidyView, AfterGenesis, HeightsBelow, IsReward, FromTx, Immature, Inputs;
    var m := ViewBefore(blocks, j, rules, verdicts);
    RewardStays(blocks, i, j, tx, rules, verdicts);
    BlockAt(blocks, j, rules, verdicts);
    WellFormedIs(m, blocks[j]);
    assert forall t <- blocks[j] :: t.hash != tx.hash;
    BlockKeepsImmature(m, blocks[j], j + 1, rules, verdicts(j), tx.hash);
  }

  lemma ImmatureIsNotEmptied(blocks: Blocks, i: nat, j: nat, tx: Transaction, rules: Rules, verdicts: Verdicts)
    requires IsChain(blocks, rules, verdicts) && i < j < |blocks| && rules.maturity >= 1 && j - i < rules.maturity
    ensures !MadeAndEmptied(blocks, i, j, tx, rules, verdicts)
  {
    hide IsChain, ViewBefore, ConnectAll, CanConnect, AllAccepted, TidyView, AfterGenesis, HeightsBelow, LosesStake, EmptiedBy, BlockDrains,
      IsReward, Immature, FromTx, Inputs;
    if tx in blocks[i] && LosesStake(tx, i + 1) {
      var m := ViewBefore(blocks, j, rules, verdicts);
      StakeIsReward(tx, i + 1);
      RewardStays(blocks, i, j, tx, rules, verdicts);
      BlockAt(blocks, j, rules, verdicts);
      WellFormedIs(m, blocks[j]);
      assert forall t <- blocks[j] :: t.hash != tx.hash;
      BlockKeepsImmature(m, blocks[j], j + 1, rules, verdicts(j), tx.hash);
      EmptiedByIs(blocks, j, rules, verdicts);
    }
  }

  lemma StakeIsReward(tx: Transaction, h: int)
    requires LosesStake(tx, h)
    ensures IsReward(tx, h)
  {
  }

  /** So a reorganisation no deeper than the maturity is always clean. */
  lemma ShallowReorganisationIsClean(blocks: Blocks, k: nat, rules: Rules, verdicts: Verdicts)
    requires IsChain(blocks, rules, verdicts) && k <= |blocks| && 1 <= rules.maturity && k <= rules.maturity
    ensures var n := |blocks|;
            TakeBack(Reversal(ChainView(blocks, rules, verdicts), true), blocks, n, n - k, rules, verdicts)
            == Reversal(Forget(ViewBefore(blocks, n - k, rules, verdicts), EmptiedFrom(blocks, n, n - k, rules, verdicts)), true)
  {
    hide IsChain, TakeBack, EmptiedFrom, ChainView, Forget, ViewBefore, MadeAndEmptied;
    var n := |blocks|;
    ReorganisationIff(blocks, k, rules, verdicts);
    forall i: nat, j: nat, tx | n - k <= i < j < n ensures !MadeAndEmptied(blocks, i, j, tx, rules, verdicts) {
      ImmatureIsNotEmptied(blocks, i, j, tx, rules, verdicts);
    }
  }

  // ---- One block deeper than the maturity ----

  const COINBASE_IN := [OutPoint(0, NULL_INDEX)]
  const PAID := Transaction(1, 1, COINBASE_IN, [TxOut(10, [])])
  const MARK2 := Transaction(2, 1, COINBASE_IN, [TxOut(0, [])])
  const STAKED := Transaction(7, 1, [OutPoint(1, 0)], [TxOut(0, []), TxOut(10, [])])
  const MARK3 := Transaction(3, 1, COINBASE_IN, [TxOut(0, [])])
  const SPENT := Transaction(9, 1, [OutPoint(7, 0), OutPoint(7, 1)], [TxOut(10, [])])

  /** A coinbase, a coinstake that spends it, and a payment that spends both outputs of the coinstake. */
  const THREE: Blocks := [[PAID], [MARK2, STAKED], [MARK3, SPENT]]

  ghost const VIEW1: Utxos := map[1 := Coins(true, false, [TxOut(10, [])], 1, 1)]
  ghost const VIEW2: Utxos := map[2 := Coins(true, false, [TxOut(0, [])], 2, 1), 7 := Coins(false, true, STAKED.vout, 2, 1)]

  ghost predicate Ordinary(tx: Transaction) { |tx.vout| > 0 && forall o <- tx.vout :: o.nValue >= 0 && o.scriptPubKey == [] }

  lemma RecordIs(tx: Transaction, h: int)
    requires Ordinary(tx)
    ensures FromTx(tx, h) == Coins(tx.IsCoinBase(), tx.IsCoinStake(), tx.vout, h, tx.nVersion) && !FromTx(tx, h).IsPruned()
    ensures tx.OutputsInRange()
  {
    assert forall i :: 0 <= i < |tx.vout| ==> tx.vout[i] in tx.vout;
    assert Spendable(tx.vout) == tx.vout;
    assert DropNulls(tx.vout) == tx.vout;
  }

  lemma CoinbaseAdds(m: Utxos, tx: Transaction, h: int, rules: Rules)
    requires tx.vin == COINBASE_IN && Ordinary(tx)
    ensures tx.IsCoinBase() && CanSpendAll(m, Inputs(tx)) && Acceptable(m, tx, h, rules) && Drains(m, Inputs(tx)) == {}
    ensures ApplyTx(m, tx, h) == m[tx.hash := Coins(true, false, tx.vout, h, tx.nVersion)]
  {
    RecordIs(tx, h);
  }

  /** A block of one transaction, and one of two. */
  lemma OneTx(m: Utxos, a: Transaction, h: int, rules: Rules, verdict: nat -> bool)
    requires verdict(0) && CanSpendAll(m, Inputs(a)) && Acceptable(m, a, h, rules)
    ensures CanConnect(m, [a], h) && ConnectAll(m, [a], h) == ApplyTx(m, a, h)
    ensures AllAccepted(m, [a], h, rules, verdict) && BlockDrains(m, [a], h) == Drains(m, Inputs(a))
  {
    hide CanSpendAll, Acceptable, ApplyTx, Drains;
    assert [a][..0] == [];
    assert CanConnect(m, [], h) && ConnectAll(m, [], h) == m && AllAccepted(m, [], h, rules, verdict) && BlockDrains(m, [], h) == {};
  }

  lemma TwoTxs(m: Utxos, a: Transaction, b: Transaction, h: int, rules: Rules, verdict: nat -> bool)
    requires verdict(0) && verdict(1) && CanSpendAll(m, Inputs(a)) && Acceptable(m, a, h, rules)
    requires var v := ApplyTx(m, a, h); CanSpendAll(v, Inputs(b)) && Acceptable(v, b, h, rules)
    ensures var v := ApplyTx(m, a, h);
            && CanConnect(m, [a, b], h) && ConnectAll(m, [a, b], h) == ApplyTx(v, b, h)
            && AllAccepted(m, [a, b], h, rules, verdict)
            && BlockDrains(m, [a, b], h) == Drains(m, Inputs(a)) + Drains(v, Inputs(b))
  {
    hide CanSpendAll, Acceptable, ApplyTx, Drains;
    OneTx(m, a, h, rules, verdict);
    assert [a, b][..1] == [a];
  }

  lemma SpendOnly(v: Utxos, out: OutPoint)
    requires out.hash in v && out.n == 0 && |v[out.hash].vout| == 1 && !v[out.hash].vout[0].IsNull()
    ensures CanSpendAll(v, [out]) && SpendAll(v, [out]) == v - {out.hash}
    ensures HaveInputs(v, [out]) && InputValue(v, [out]) == v[out.hash].vout[0].nValue
  {
    var c := v[out.hash];
    assert [out][..0] == [];
    assert Available(v, out) && CanSpendAll(v, []) && SpendAll(v, []) == v && HaveInputs(v, []) && InputValue(v, []) == 0;
    assert c.vout[0 := NULL_OUT] == [NULL_OUT] && DropNulls([NULL_OUT]) == [];
    assert SpentCoins(c, 0).IsPruned();
  }

  lemma StakeStep()
    ensures var v := VIEW1[2 := Coins(true, false, [TxOut(0, [])], 2, 1)];
            && CanSpendAll(v, Inputs(STAKED)) && Acceptable(v, STAKED, 2, Rules(1, 100)) && ApplyTx(v, STAKED, 2) == VIEW2
  {
    var v := VIEW1[2 := Coins(true, false, [TxOut(0, [])], 2, 1)];
    var out := OutPoint(1, 0);
    RecordIs(STAKED, 2);
    SpendOnly(v, out);
    assert STAKED.vin == [out] && STAKED.vin[..0] == [] && HaveInputs(v, []) && SumsInRange(v, [], 2, Rules(1, 100));
    hide FromTx, SpendAll, CanSpendAll, InputValue, Coins.IsPruned;
    assert (v - {1})[7 := Coins(false, true, STAKED.vout, 2, 1)] == VIEW2;
  }

  lemma SpendStep()
    ensures var v := VIEW2[3 := Coins(true, false, [TxOut(0, [])], 3, 1)];
            && CanSpendAll(v, Inputs(SPENT)) && Acceptable(v, SPENT, 3, Rules(1, 100)) && 7 in Ids(Drains(v, Inputs(SPENT)))
  {
    var v := VIEW2[3 := Coins(true, false, [TxOut(0, [])], 3, 1)];
    var a, b := OutPoint(7, 0), OutPoint(7, 1);
    var vin := SPENT.vin;
    assert vin == [a, b] && vin[..1] == [a] && [a][..0] == [];
    assert Available(v, a) && Available(v, b);
    assert HaveInputs(v, []) && HaveInputs(v, [a]) && HaveInputs(v, vin) && Distinct(vin);
    CheckedInputsCanBeSpent(v, vin);
    assert InputValue(v, []) == 0 && InputValue(v, [a]) == 0 && InputValue(v, vin) == 10;
    assert SumsInRange(v, [], 3, Rules(1, 100)) && SumsInRange(v, [a], 3, Rules(1, 100)) && SumsInRange(v, vin, 3, Rules(1, 100));
    SpendBoth(v);
  }

  lemma SpendBoth(v: Utxos)
    requires 7 in v && v[7] == Coins(false, true, STAKED.vout, 2, 1) && CanSpendAll(v, SPENT.vin)
    ensures 7 in Ids(Drains(v, SPENT.vin))
  {
    var a, b := OutPoint(7, 0), OutPoint(7, 1);
    assert SPENT.vin[..1] == [a] && [a][..0] == [];
    assert CanSpendAll(v, [a]) && SpendAll(v, []) == v;
    var half := SpendAll(v, [a]);
    assert half == AfterSpend(v, a);
    assert v[7].vout[0 := NULL_OUT] == [NULL_OUT, TxOut(10, [])] && DropNulls([NULL_OUT, TxOut(10, [])]) == [NULL_OUT, TxOut(10, [])];
    var c := SpentCoins(v[7], 0);
    assert c.vout[1] in c.vout && !c.IsPruned();
    assert half[7] == c;
    assert c.vout[1 := NULL_OUT] == [NULL_OUT, NULL_OUT] && [NULL_OUT, NULL_OUT][..1] == [NULL_OUT] && [NULL_OUT][..0] == [];
    assert DropNulls([NULL_OUT]) == [] && DropNulls([NULL_OUT, NULL_OUT]) == [];
    assert (7, c) in DrainOf(half, b);
    assert (7, c) in Drains(v, SPENT.vin);
  }

  lemma AllOrdinary()
    ensures Ordinary(PAID) && Ordinary(MARK2) && Ordinary(STAKED) && Ordinary(MARK3) && Ordinary(SPENT) && STAKED.IsCoinStake()
  {
  }

  lemma WellFormedTwo(m: Utxos, a: Transaction, b: Transaction)
    requires Ordinary(a) && Ordinary(b) && a.hash != b.hash && a.hash !in m && b.hash !in m && Distinct(a.vin) && Distinct(b.vin)
    ensures WellFormedBlock(m, [a, b]) && WellFormedBlock(m, [a])
  {
    hide Distinct;
    RecordIs(a, 0);
    RecordIs(b, 0);
    hide FromTx, Ordinary, Transaction.OutputsInRange;
  }

  ghost const YES: Verdicts := _ => _ => true

  lemma BlockAdded(blocks: Blocks, block: seq<Transaction>, m: Utxos, rules: Rules, verdicts: Verdicts)
    requires IsChain(blocks, rules, verdicts) && ChainView(blocks, rules, verdicts) == m && WellFormedBlock(m, block)
    requires AllAccepted(m, block, |blocks| + 1, rules, verdicts(|blocks|)) && CanConnect(m, block, |blocks| + 1)
    ensures IsChain(blocks + [block], rules, verdicts)
    ensures ChainView(blocks + [block], rules, verdicts) == ConnectAll(m, block, |blocks| + 1)
  {
    hide CanConnect, ConnectAll, AllAccepted, WellFormedBlock;
    assert (blocks + [block])[..|blocks|] == blocks && (blocks + [block])[|blocks|] == block;
  }

  lemma FirstBlock()
    ensures IsChain([[PAID]], Rules(1, 100), YES) && ChainView([[PAID]], Rules(1, 100), YES) == VIEW1
  {
    hide *;
    var rules := Rules(1, 100);
    AllOrdinary();
    ConstsAre();
    CoinbaseAdds(map[], PAID, 1, rules);
    OneTx(map[], PAID, 1, rules, YES(0));
    WellFormedTwo(map[], PAID, MARK2);
    NoBlocks(rules);
    BlockAdded([], [PAID], map[], rules, YES);
    assert [] + [[PAID]] == [[PAID]];
  }

  lemma NoBlocks(rules: Rules)
    ensures IsChain([], rules, YES) && ChainView([], rules, YES) == map[]
  {
  }

  lemma ConstsAre()
    ensures PAID.vin == MARK2.vin == MARK3.vin == COINBASE_IN && Distinct(COINBASE_IN) && Distinct(STAKED.vin) && Distinct(SPENT.vin)
    ensures PAID.hash == 1 && MARK2.hash == 2 && MARK3.hash == 3 && STAKED.hash == 7 && SPENT.hash == 9
    ensures YES(0)(0) && YES(1)(0) && YES(1)(1) && YES(2)(0) && YES(2)(1)
    ensures map[][1 := Coins(true, false, PAID.vout, 1, PAID.nVersion)] == VIEW1 && VIEW1.Keys == {1} && VIEW2.Keys == {2, 7}
    ensures MARK2.vout == MARK3.vout == [TxOut(0, [])] && MARK2.nVersion == MARK3.nVersion == 1
  {
  }

  lemma SecondBlock()
    ensures var c := [[PAID]] + [[MARK2, STAKED]]; IsChain(c, Rules(1, 100), YES) && ChainView(c, Rules(1, 100), YES) == VIEW2
  {
    hide *;
    var rules := Rules(1, 100);
    AllOrdinary();
    ConstsAre();
    FirstBlock();
    CoinbaseAdds(VIEW1, MARK2, 2, rules);
    StakeStep();
    TwoTxs(VIEW1, MARK2, STAKED, 2, rules, YES(1));
    WellFormedTwo(VIEW1, MARK2, STAKED);
    BlockAdded([[PAID]], [MARK2, STAKED], VIEW1, rules, YES);
  }

  lemma ThirdBlock()
    ensures IsChain(THREE, Rules(1, 100), YES) && 7 in EmptiedBy(THREE, 2, Rules(1, 100), YES)
  {
    hide *;
    var rules := Rules(1, 100);
    var c := [[PAID]] + [[MARK2, STAKED]];
    AllOrdinary();
    ConstsAre();
    SecondBlock();
    CoinbaseAdds(VIEW2, MARK3, 3, rules);
    SpendStep();
    TwoTxs(VIEW2, MARK3, SPENT, 3, rules, YES(2));
    WellFormedTwo(VIEW2, MARK3, SPENT);
    BlockAdded(c, [MARK3, SPENT], VIEW2, rules, YES);
    ThreeIs(c);
    EmptiedByIs(THREE, 2, rules, YES);
    ViewIs(THREE, 2, c, rules);
    IdsUnion(Drains(VIEW2, Inputs(MARK3)), Drains(ApplyTx(VIEW2, MARK3, 3), Inputs(SPENT)));
  }

  lemma ThreeIs(c: Blocks)
    requires c == [[PAID]] + [[MARK2, STAKED]]
    ensures THREE == c + [[MARK3, SPENT]] && THREE[..2] == c && THREE[2] == [MARK3, SPENT] && |THREE| == 3 && |c| == 2
  {
  }

  lemma ViewIs(blocks: Blocks, j: nat, c: Blocks, rules: Rules)
    requires IsChain(blocks, rules, YES) && j <= |blocks| && blocks[..j] == c && IsChain(c, rules, YES)
    ensures ViewBefore(blocks, j, rules, YES) == ChainView(c, rules, YES)
  {
  }

  /** With maturity one, as on the test network, taking back two blocks fails. */
  lemma DeepReorganisationFails()
    ensures IsChain(THREE, Rules(1, 100), YES)
    ensures !TakeBack(Reversal(ChainView(THREE, Rules(1, 100), YES), true), THREE, 3, 1, Rules(1, 100), YES).clean
  {
    AllOrdinary();
    ThirdBlock();
    RecordIs(STAKED, 2);
    hide IsChain, TakeBack, ChainView, EmptiedBy, ViewBefore, FromTx, EmptiedFrom, Forget;
    assert MadeAndEmptied(THREE, 1, 2, STAKED, Rules(1, 100), YES);
    ReorganisationIff(THREE, 2, Rules(1, 100), YES);
  }
}
