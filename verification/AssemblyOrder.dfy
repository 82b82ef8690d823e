/**
  What the rounds of block assembly say about the block: nothing is taken up twice, better entries
  come first, the ordering by fee is never left, and without ties the block is determined.
 */
module AssemblyOrder {
  import opened Coins
  import opened CoinsCache
  import opened UtxoUpdate
  import opened BlockConnection
  import opened BlockAssembly

  /** No entry comes up twice. */
  lemma SettledOnce(env: Env, m: Utxos, h: int, first: seq<TxPriority>, waiting: Orphans, log: seq<Round>, i: nat, j: nat)
    requires Greedy(env, m, h, first, waiting, log) && i < j < |log|
    ensures log[i].entry.tx.hash != log[j].entry.tx.hash
  {
    hide Ready, FeeOrder, Passes, Less, Chosen;
    assert RoundOk(env, m, h, first, waiting, log[..j], log[j]);
    assert log[..j][i] == log[i];
    assert log[i].entry.tx.hash in Settled(log[..j]);
  }

  lemma NotYetSettled(env: Env, m: Utxos, h: int, first: seq<TxPriority>, waiting: Orphans, log: seq<Round>, i: nat, j: nat)
    requires Greedy(env, m, h, first, waiting, log) && i <= j < |log|
    ensures log[j].entry.tx.hash !in Settled(log[..i])
  {
    hide Greedy;
    forall k | 0 <= k < i ensures log[..i][k].entry.tx.hash != log[j].entry.tx.hash {
      SettledOnce(env, m, h, first, waiting, log, k, j);
    }
  }

  /** What comes up later was not ready yet, or does not beat what came up before it. */
  lemma BestComesFirst(env: Env, m: Utxos, h: int, first: seq<TxPriority>, waiting: Orphans, log: seq<Round>, i: nat, j: nat)
    requires Greedy(env, m, h, first, waiting, log) && i < j < |log|
    requires Ready(first, waiting, Chosen(log[..i]), log[j].entry)
    ensures !Less(log[i].byFee, log[i].entry, log[j].entry)
  {
    hide Ready, FeeOrder, Passes, Less, Chosen, Settled;
    assert RoundOk(env, m, h, first, waiting, log[..i], log[i]);
    NotYetSettled(env, m, h, first, waiting, log, i, j);
    assert Open(first, waiting, log[..i], log[j].entry);
  }

  lemma FeeOrderStays(env: Env, m: Utxos, h: int, log: seq<Round>, i: nat, j: nat)
    requires i <= j <= |log| && FeeOrder(env, m, h, log[..i])
    ensures FeeOrder(env, m, h, log[..j])
  {
    hide Switches, Chosen;
    if env.blockPrioritySize > 0 {
      var k :| 0 <= k < i && Switches(env, m, h, Chosen(log[..i][..k]), log[..i][k].entry);
      assert log[..i][..k] == log[..j][..k] && log[..i][k] == log[..j][k];
    }
  }

  /**
    Once the ordering by fee begins it stays. An entry that comes up later, and was ready before, has
    no higher fee rate, and no higher priority at the same fee rate.
   */
  lemma FeesComeInOrder(env: Env, m: Utxos, h: int, first: seq<TxPriority>, waiting: Orphans, log: seq<Round>, i: nat, j: nat)
    requires Greedy(env, m, h, first, waiting, log) && i < j < |log| && log[i].byFee
    ensures log[j].byFee
    ensures Ready(first, waiting, Chosen(log[..i]), log[j].entry) ==>
              && log[j].entry.feeRate <= log[i].entry.feeRate
              && (log[j].entry.feeRate == log[i].entry.feeRate ==> log[j].entry.dPriority <= log[i].entry.dPriority)
  {
    hide FeeOrder, Passes, Chosen, Settled, Ready;
    if Ready(first, waiting, Chosen(log[..i]), log[j].entry) { BestComesFirst(env, m, h, first, waiting, log, i, j); }
    assert RoundOk(env, m, h, first, waiting, log[..i], log[i]);
    assert RoundOk(env, m, h, first, waiting, log[..j], log[j]);
    FeeOrderStays(env, m, h, log, i, j);
  }

  /**
    Up to a round that goes by priority all rounds do. An entry that comes up later, and was ready
    before, has no higher priority, and no higher fee rate at the same priority.
   */
  lemma PrioritiesComeInOrder(env: Env, m: Utxos, h: int, first: seq<TxPriority>, waiting: Orphans, log: seq<Round>, i: nat, j: nat)
    requires Greedy(env, m, h, first, waiting, log) && i < j < |log| && !log[j].byFee
    ensures !log[i].byFee
    ensures Ready(first, waiting, Chosen(log[..i]), log[j].entry) ==>
              && log[j].entry.dPriority <= log[i].entry.dPriority
              && (log[j].entry.dPriority == log[i].entry.dPriority ==> log[j].entry.feeRate <= log[i].entry.feeRate)
  {
    hide FeeOrder, Passes, Chosen, Settled, Ready;
    if Ready(first, waiting, Chosen(log[..i]), log[j].entry) { BestComesFirst(env, m, h, first, waiting, log, i, j); }
    assert RoundOk(env, m, h, first, waiting, log[..i], log[i]);
    assert RoundOk(env, m, h, first, waiting, log[..j], log[j]);
    if log[i].byFee { FeeOrderStays(env, m, h, log, i, j); }
  }

  // ---- The part by priority, and free transactions ----

  lemma ChosenNext(log: seq<Round>, k: nat)
    requires k < |log|
    ensures Chosen(log[..k + 1]) == if log[k].chosen then Chosen(log[..k]) + [log[k].entry.tx] else Chosen(log[..k])
  {
    assert log[..k + 1][..k] == log[..k] && log[..k + 1][k] == log[k];
  }

  lemma TotalSizeNext(env: Env, txs: seq<Transaction>, tx: Transaction)
    ensures TotalSize(env, txs + [tx]) == TotalSize(env, txs) + env.size(tx)
  {
    assert (txs + [tx])[..|txs|] == txs;
  }

  lemma NoneSwitched(env: Env, m: Utxos, h: int, log: seq<Round>, n: nat, k: nat)
    requires k < n <= |log| && !FeeOrder(env, m, h, log[..n])
    ensures !Switches(env, m, h, Chosen(log[..k]), log[k].entry)
  {
    hide Switches, Chosen;
    assert log[..n][..k] == log[..k] && log[..n][k] == log[k];
  }

  /**
    While entries go by priority, what has been chosen stays below the size set aside for it, and
    every chosen transaction has the priority to go in free.
   */
  lemma {:induction false} PriorityPartIsBounded(env: Env, m: Utxos, h: int, first: seq<TxPriority>, waiting: Orphans, log: seq<Round>, n: nat)
    requires Greedy(env, m, h, first, waiting, log) && n <= |log| && !FeeOrder(env, m, h, log[..n])
    ensures Chosen(log[..n]) != [] ==> HEADER_SIZE + TotalSize(env, Chosen(log[..n])) < env.blockPrioritySize
    ensures forall k :: 0 <= k < n && log[k].chosen ==> env.allowFree(log[k].entry.dPriority)
    decreases n
  {
    hide Ready, Less, FeeOrder, Open, Chosen, TotalSize, TotalSigOps, ConnectAll, CanConnect, IsFreeTransaction;
    if n == 0 {
      NothingChosen(log);
    } else {
      var k := n - 1;
      ChosenNext(log, k);
      if FeeOrder(env, m, h, log[..k]) { FeeOrderStays(env, m, h, log, k, n); }
      PriorityPartIsBounded(env, m, h, first, waiting, log, k);
      if log[k].chosen {
        var tx := log[k].entry.tx;
        assert RoundOk(env, m, h, first, waiting, log[..k], log[k]);
        NoneSwitched(env, m, h, log, n, k);
        TotalSizeNext(env, Chosen(log[..k]), tx);
        ChosenPassesEarly(env, m, h, Chosen(log[..k]), log[k].entry, log[k].byFee);
      }
    }
  }

  /** Entries go by fee only if the priority part is empty, full, or out of entries with enough priority. */
  lemma FeeOrderHasAReason(env: Env, m: Utxos, h: int, first: seq<TxPriority>, waiting: Orphans, log: seq<Round>, n: nat)
    requires Greedy(env, m, h, first, waiting, log) && n < |log| && log[n].byFee
    ensures || env.blockPrioritySize == 0
            || exists k :: 0 <= k < n && (!env.allowFree(log[k].entry.dPriority)
                 || HEADER_SIZE + TotalSize(env, Chosen(log[..k])) + env.size(log[k].entry.tx) >= env.blockPrioritySize)
  {
    hide Ready, Less, Open, Passes, Chosen, TotalSize, TotalSigOps, CanConnect;
    assert RoundOk(env, m, h, first, waiting, log[..n], log[n]);
    if env.blockPrioritySize > 0 {
      var k :| 0 <= k < n && Switches(env, m, h, Chosen(log[..n][..k]), log[..n][k].entry);
      assert log[..n][..k] == log[..k] && log[..n][k] == log[k];
    }
  }

  lemma NothingChosen(log: seq<Round>)
    ensures Chosen(log[..0]) == []
  {
  }

  lemma ChosenPassesEarly(env: Env, m: Utxos, h: int, txs: seq<Transaction>, p: TxPriority, byFee: bool)
    requires Passes(env, m, h, txs, p, byFee)
    ensures CanConnect(m, txs, h)
    ensures HEADER_SIZE + TotalSize(env, txs) + env.size(p.tx) < env.blockMaxSize
    ensures HEADER_SIGOPS + TotalSigOps(env, m, txs, h) + env.legacySigOps(p.tx) < MAX_BLOCK_SIGOPS
  {
    hide HaveInputs, SpentOuts, Acceptable, CanConnect, ConnectAll, TotalSize, TotalSigOps, IsFreeTransaction;
  }

  /** A transaction below the minimum fee rate, and not favoured by hand, goes in by fee only up to the minimum block size. */
  lemma FreeOnlyUpToMinimum(env: Env, m: Utxos, h: int, first: seq<TxPriority>, waiting: Orphans, log: seq<Round>, k: nat)
    requires Greedy(env, m, h, first, waiting, log) && k < |log| && log[k].chosen && log[k].byFee
    requires var p := log[k].entry; p.feeRate < env.minFeeRate && env.deltas(p.tx.hash).0 <= 0.0 && env.deltas(p.tx.hash).1 <= 0
    ensures HEADER_SIZE + TotalSize(env, Chosen(log[..k + 1])) < env.blockMinSize
  {
    hide Ready, Less, FeeOrder, Open, Chosen, TotalSize, Fits, ConnectAll, CanConnect, TotalSigOps;
    assert RoundOk(env, m, h, first, waiting, log[..k], log[k]);
    ChosenNext(log, k);
    TotalSizeNext(env, Chosen(log[..k]), log[k].entry.tx);
  }

  /** A transaction that pays the minimum fee rate, or comes up by priority, is left out only if it does not fit. */
  lemma PayingIsLeftOutOnlyIfUnfit(env: Env, m: Utxos, h: int, first: seq<TxPriority>, waiting: Orphans, log: seq<Round>, k: nat)
    requires Greedy(env, m, h, first, waiting, log) && k < |log| && !log[k].chosen && CanConnect(m, Chosen(log[..k]), h)
    requires var p := log[k].entry;
             !log[k].byFee || p.feeRate >= env.minFeeRate || env.deltas(p.tx.hash).0 > 0.0 || env.deltas(p.tx.hash).1 > 0
    ensures var txs := Chosen(log[..k]);
            !Fits(env, ConnectAll(m, txs, h), log[k].entry.tx, HEADER_SIZE + TotalSize(env, txs), HEADER_SIGOPS + TotalSigOps(env, m, txs, h), h)
  {
    hide Ready, Less, FeeOrder, Open, Chosen, TotalSize, Fits, ConnectAll, CanConnect, TotalSigOps;
    assert RoundOk(env, m, h, first, waiting, log[..k], log[k]);
  }

  /** Neither coinbases nor coinstakes nor transactions that are not final come up. */
  lemma OnlyFinalComeUp(env: Env, m: Utxos, h: int, pool: seq<Transaction>, first: seq<TxPriority>, waiting: Orphans, log: seq<Round>, k: nat)
    requires Greedy(env, m, h, first, waiting, log) && k < |log| && log[k].entry.tx in pool
    requires forall tx <- pool :: Placed(env, m, pool, tx, first, waiting)
    ensures var tx := log[k].entry.tx; !tx.IsCoinBase() && !tx.IsCoinStake() && env.isFinal(tx)
  {
    hide FeeOrder, Passes, Less, Chosen, Settled, MissingInputs, WaitsFor, Transaction.IsCoinBase, Transaction.IsCoinStake;
    assert RoundOk(env, m, h, first, waiting, log[..k], log[k]);
    assert Placed(env, m, pool, log[k].entry.tx, first, waiting);
    var p := log[k].entry;
    if p in first { assert p.tx.hash in Queued(first); }
  }

  /** Neither ordering leaves two different entries on a par. */
  ghost predicate NoTies(first: seq<TxPriority>, waiting: Orphans)
  {
    forall byFee, p, q :: Comes(first, waiting, p) && Comes(first, waiting, q) && !Less(byFee, p, q) && !Less(byFee, q, p) ==> p == q
  }

  lemma OpenComes(first: seq<TxPriority>, waiting: Orphans, log: seq<Round>, p: TxPriority)
    requires Open(first, waiting, log, p)
    ensures Comes(first, waiting, p)
  {
  }

  lemma NextIsUnique(env: Env, m: Utxos, h: int, first: seq<TxPriority>, waiting: Orphans, before: seq<Round>, a: Round, b: Round)
    requires NoTies(first, waiting)
    requires RoundOk(env, m, h, first, waiting, before, a) && RoundOk(env, m, h, first, waiting, before, b)
    ensures a == b
  {
    hide Open, FeeOrder, Passes, Less, Chosen, Comes;
    OpenComes(first, waiting, before, a.entry);
    OpenComes(first, waiting, before, b.entry);
  }

  lemma {:induction false} RunsAgree(env: Env, m: Utxos, h: int, first: seq<TxPriority>, waiting: Orphans,
                                     a: seq<Round>, b: seq<Round>, n: nat)
    requires NoTies(first, waiting) && Greedy(env, m, h, first, waiting, a) && Greedy(env, m, h, first, waiting, b)
    requires n <= |a| && n <= |b|
    ensures a[..n] == b[..n]
  {
    hide RoundOk, NoTies;
    if n > 0 {
      RunsAgree(env, m, h, first, waiting, a, b, n - 1);
      NextIsUnique(env, m, h, first, waiting, a[..n - 1], a[n - 1], b[n - 1]);
      assert a[..n] == a[..n - 1] + [a[n - 1]] && b[..n] == b[..n - 1] + [b[n - 1]];
    }
  }

  lemma RoundIsOpen(env: Env, m: Utxos, h: int, first: seq<TxPriority>, waiting: Orphans, log: seq<Round>, k: nat)
    requires Greedy(env, m, h, first, waiting, log) && k < |log|
    ensures Open(first, waiting, log[..k], log[k].entry)
  {
    hide Open, FeeOrder, Passes, Less, Chosen;
    assert RoundOk(env, m, h, first, waiting, log[..k], log[k]);
  }

  lemma NoRoundIsLeft(env: Env, m: Utxos, h: int, first: seq<TxPriority>, waiting: Orphans, a: seq<Round>, b: seq<Round>)
    requires Greedy(env, m, h, first, waiting, b) && Exhausted(first, waiting, a) && |a| <= |b| && b[..|a|] == a
    ensures a == b
  {
    hide Greedy, Open;
    if |a| < |b| { RoundIsOpen(env, m, h, first, waiting, b, |a|); }
  }

  /** Without ties there is one run, and so one block. */
  lemma TheBlockIsDetermined(env: Env, m: Utxos, h: int, first: seq<TxPriority>, waiting: Orphans, a: seq<Round>, b: seq<Round>)
    requires NoTies(first, waiting)
    requires Greedy(env, m, h, first, waiting, a) && Exhausted(first, waiting, a)
    requires Greedy(env, m, h, first, waiting, b) && Exhausted(first, waiting, b)
    ensures a == b && Chosen(a) == Chosen(b)
  {
    hide Greedy, Exhausted, NoTies;
    var n := if |a| <= |b| then |a| else |b|;
    RunsAgree(env, m, h, first, waiting, a, b, n);
    assert a[..|a|] == a && b[..|b|] == b;
    if |a| <= |b| {
      NoRoundIsLeft(env, m, h, first, waiting, a, b);
    } else {
      NoRoundIsLeft(env, m, h, first, waiting, b, a);
    }
  }
}
