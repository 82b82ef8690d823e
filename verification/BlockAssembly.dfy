/**
  Choosing the transactions of a new block from the memory pool: a queue ordered by priority or by
  fee, in which a transaction that spends outputs of the pool waits until its parents are in.
 */
module BlockAssembly {
  import opened Coins
  import opened CoinsCache
  import opened UtxoUpdate
  import opened MoneySupply
  import opened BlockConnection

  const MAX_BLOCK_SIGOPS := 40000
  const HEADER_SIZE := 1000      // what a block weighs before the first transaction
  const HEADER_SIGOPS := 100

  /** Sizes, operation counts, scripts and the numbers behind the ordering are arbitrary. */
  datatype Env = Env(
    isFinal: Transaction -> bool,
    size: Transaction -> nat,
    legacySigOps: Transaction -> nat,
    p2shSigOps: (Transaction, seq<TxOut>) -> nat,
    scriptsOk: (Transaction, seq<TxOut>) -> bool,
    priority: (Transaction, real) -> real,
    deltas: TxId -> (real, Amount),
    feeRate: (Amount, nat) -> int,
    allowFree: real -> bool,
    minFeeRate: int,
    blockMaxSize: nat, blockPrioritySize: nat, blockMinSize: nat,
    rules: Rules)

  datatype TxPriority = TxPriority(dPriority: real, feeRate: int, tx: Transaction)

  datatype Orphan = Orphan(tx: Transaction, setDependsOn: set<TxId>, feeRate: int, dPriority: real) {
    function Entry(): TxPriority { TxPriority(dPriority, feeRate, tx) }
  }

  /** Orphans are known by the id of their transaction, of which there is one in the pool. */
  type Orphans = map<TxId, Orphan>
  type Dependents = map<TxId, seq<TxId>>

  predicate Less(byFee: bool, a: TxPriority, b: TxPriority)
  {
    if byFee then
      if a.feeRate == b.feeRate then a.dPriority < b.dPriority else a.feeRate < b.feeRate
    else
      if a.dPriority == b.dPriority then a.feeRate < b.feeRate else a.dPriority < b.dPriority
  }

  // ---- The queue ----

  ghost predicate DistinctIds(vec: seq<TxPriority>) { forall i, j :: 0 <= i < j < |vec| ==> vec[i].tx.hash != vec[j].tx.hash }

  ghost function Queued(vec: seq<TxPriority>): set<TxId> { set i | 0 <= i < |vec| :: vec[i].tx.hash }

  /** The heap gives up an entry that no other entry beats; how it arranges the rest does not matter. */
  method PopHeap(vec: seq<TxPriority>, byFee: bool) returns (top: TxPriority, rest: seq<TxPriority>)
    requires vec != []
    ensures top in vec && forall p <- vec :: !Less(byFee, top, p)
    ensures multiset(vec) == multiset(rest) + multiset{top}
    ensures exists k :: 0 <= k < |vec| && top == vec[k] && rest == vec[..k] + vec[k + 1..]
  {
    var k := 0;
    for i := 1 to |vec|
      invariant 0 <= k < |vec|
      invariant forall j :: 0 <= j < i ==> !Less(byFee, vec[k], vec[j])
    {
      if Less(byFee, vec[k], vec[i]) { k := i; }
    }
    top, rest := vec[k], vec[..k] + vec[k + 1..];
    assert vec == vec[..k] + [vec[k]] + vec[k + 1..];
  }

  /** One place taken out. */
  ghost predicate OneTaken(vec: seq<TxPriority>, k: nat, rest: seq<TxPriority>)
  {
    k < |vec| && |rest| == |vec| - 1 && forall i :: 0 <= i < |rest| ==> rest[i] == vec[if i < k then i else i + 1]
  }

  lemma DistinctWithout(vec: seq<TxPriority>, k: nat, rest: seq<TxPriority>)
    requires DistinctIds(vec) && OneTaken(vec, k, rest)
    ensures DistinctIds(rest) && forall i :: 0 <= i < |rest| ==> rest[i].tx.hash != vec[k].tx.hash
  {
    forall i, j | 0 <= i < j < |rest| ensures rest[i].tx.hash != rest[j].tx.hash {
      var i', j' := if i < k then i else i + 1, if j < k then j else j + 1;
      assert rest[i] == vec[i'] && rest[j] == vec[j'] && i' < j';
    }
  }

  lemma QueuedWithout(vec: seq<TxPriority>, k: nat, rest: seq<TxPriority>, id: TxId)
    requires OneTaken(vec, k, rest)
    ensures id in Queued(vec) <==> id in Queued(rest) || id == vec[k].tx.hash
  {
    if id in Queued(vec) && id != vec[k].tx.hash {
      var i :| 0 <= i < |vec| && vec[i].tx.hash == id;
      assert rest[if i < k then i else i - 1].tx.hash == id;
    }
    if id in Queued(rest) {
      var i :| 0 <= i < |rest| && rest[i].tx.hash == id;
      assert vec[if i < k then i else i + 1].tx.hash == id;
    }
  }

  lemma PoppedIds(vec: seq<TxPriority>, top: TxPriority, rest: seq<TxPriority>)
    requires DistinctIds(vec) && exists k :: 0 <= k < |vec| && top == vec[k] && rest == vec[..k] + vec[k + 1..]
    ensures DistinctIds(rest) && Queued(rest) == Queued(vec) - {top.tx.hash} && top.tx.hash in Queued(vec)
    ensures forall p <- rest :: p in vec
  {
    var k :| 0 <= k < |vec| && top == vec[k] && rest == vec[..k] + vec[k + 1..];
    assert OneTaken(vec, k, rest);
    DistinctWithout(vec, k, rest);
    assert top.tx.hash !in Queued(rest);
    hide DistinctIds, Queued;
    forall id ensures id in Queued(vec) <==> id in Queued(rest) || id == top.tx.hash { QueuedWithout(vec, k, rest, id); }
  }

  // ---- Waiting for parents ----

  /** Every orphan can be found from each parent it waits for, and the lists name orphans only. */
  ghost predicate Linked(orphans: Orphans, deps: Dependents)
  {
    && (forall id <- orphans :: orphans[id].tx.hash == id)
    && (forall id <- orphans, h <- orphans[id].setDependsOn :: h in deps && id in deps[h])
    && (forall h <- deps :: forall i :: 0 <= i < |deps[h]| ==> deps[h][i] in orphans)
  }

  ghost function Without(o: Orphan, hashes: set<TxId>): Orphan { o.(setDependsOn := o.setDependsOn - hashes) }

  ghost function Released(orphans: Orphans, hashes: set<TxId>): Orphans
  {
    map id <- orphans :: Without(orphans[id], hashes)
  }

  /** The orphans among `ids` that wait for `hash` and for nothing else. */
  ghost predicate IsReleased(orphans: Orphans, ids: seq<TxId>, hash: TxId, id: TxId)
  {
    id in ids && id in orphans && orphans[id].setDependsOn == {hash}
  }

  ghost function PartlyReleased(orphans: Orphans, ids: seq<TxId>, hash: TxId): Orphans
  {
    map id <- orphans :: if id in ids then Without(orphans[id], {hash}) else orphans[id]
  }

  lemma PartlyNext(orphans: Orphans, ids: seq<TxId>, hash: TxId, id: TxId)
    requires id in orphans
    ensures var part := PartlyReleased(orphans, ids, hash);
            && PartlyReleased(orphans, ids + [id], hash) == part[id := Without(part[id], {hash})]
            && (part[id].setDependsOn == {} ==> part[id := Without(part[id], {hash})] == part)
  {
    var s := orphans[id].setDependsOn;
    assert (s - {hash}) - {hash} == s - {hash};
    assert s == {} ==> s - {hash} == s;
  }

  lemma QueuedSnoc(vec: seq<TxPriority>, p: TxPriority)
    ensures Queued(vec + [p]) == Queued(vec) + {p.tx.hash}
  {
    forall id | id in Queued(vec) ensures id in Queued(vec + [p]) {
      var i :| 0 <= i < |vec| && vec[i].tx.hash == id;
      assert (vec + [p])[i] == vec[i];
    }
    assert (vec + [p])[|vec|] == p;
  }

  /** Takes one parent off the orphans that wait for it, and queues those that wait for nothing more. */
  method AddDependingTransactionsToPriorityQueue(orphans: Orphans, deps: Dependents, hash: TxId)
    returns (now: Orphans, pushed: seq<TxPriority>)
    requires Linked(orphans, deps)
    ensures now == Released(orphans, {hash})
    ensures DistinctIds(pushed)
    ensures forall id :: id in Queued(pushed) <==> id in orphans && orphans[id].setDependsOn == {hash}
    ensures forall p <- pushed :: p.tx.hash in orphans && p == orphans[p.tx.hash].Entry()
  {
    hide Queued, PartlyReleased, Released;
    now, pushed := orphans, [];
    ghost var all := if hash in deps then deps[hash] else [];
    NonePushed(orphans, hash);
    if hash in deps {
      var ids := deps[hash];
      assert ids[..0] == [];
      for k := 0 to |ids|
        invariant now == PartlyReleased(orphans, ids[..k], hash) && now.Keys == orphans.Keys
        invariant PushedOk(orphans, ids[..k], hash, pushed)
      {
        var id := ids[k];
        assert ids[..k + 1] == ids[..k] + [id] && id in orphans;
        PartlyNext(orphans, ids[..k], hash, id);
        PushedNext(orphans, ids[..k], hash, pushed, id);
        if now[id].setDependsOn != {} {
          var o := now[id].(setDependsOn := now[id].setDependsOn - {hash});
          now := now[id := o];
          if o.setDependsOn == {} { pushed := pushed + [o.Entry()]; }
        }
      }
      assert ids[..|ids|] == ids;
    }
    AllReleased(orphans, deps, hash, all);
  }

  /** What has been queued after looking at some of the orphans. */
  ghost predicate PushedOk(orphans: Orphans, ids: seq<TxId>, hash: TxId, pushed: seq<TxPriority>)
  {
    && DistinctIds(pushed)
    && (forall id :: id in Queued(pushed) <==> IsReleased(orphans, ids, hash, id))
    && (forall p <- pushed :: p.tx.hash in orphans && p == orphans[p.tx.hash].Entry())
  }

  lemma NonePushed(orphans: Orphans, hash: TxId)
    ensures PushedOk(orphans, [], hash, []) && PartlyReleased(orphans, [], hash) == orphans
  {
  }

  lemma PushedNext(orphans: Orphans, ids: seq<TxId>, hash: TxId, pushed: seq<TxPriority>, id: TxId)
    requires PushedOk(orphans, ids, hash, pushed) && id in orphans && orphans[id].tx.hash == id
    ensures var part := PartlyReleased(orphans, ids, hash);
            var frees := part[id].setDependsOn != {} && part[id].setDependsOn - {hash} == {};
            PushedOk(orphans, ids + [id], hash, if frees then pushed + [part[id].Entry()] else pushed)
  {
    hide Queued, DistinctIds;
    var s := orphans[id].setDependsOn;
    QueuedSnoc(pushed, orphans[id].Entry());
    assert (s - {hash}) - {hash} == s - {hash};
    assert s != {} && s - {hash} == {} <==> s == {hash};
    forall other ensures IsReleased(orphans, ids + [id], hash, other)
                    <==> IsReleased(orphans, ids, hash, other) || (other == id && s == {hash}) { }
    if id !in ids && s == {hash} { DistinctSnoc(pushed, orphans[id].Entry()); }
  }

  lemma AllReleased(orphans: Orphans, deps: Dependents, hash: TxId, all: seq<TxId>)
    requires Linked(orphans, deps) && all == if hash in deps then deps[hash] else []
    ensures PartlyReleased(orphans, all, hash) == Released(orphans, {hash})
    ensures all == [] ==> orphans == Released(orphans, {hash})
    ensures forall id :: IsReleased(orphans, all, hash, id) <==> id in orphans && orphans[id].setDependsOn == {hash}
  {
    forall id | id in orphans ensures id !in all ==> hash !in orphans[id].setDependsOn { }
    forall id | id in orphans ensures id !in all ==> Without(orphans[id], {hash}) == orphans[id] {
      if id !in all { assert orphans[id].setDependsOn - {hash} == orphans[id].setDependsOn; }
    }
    forall id | id in orphans && orphans[id].setDependsOn == {hash} ensures id in all {
      assert hash in orphans[id].setDependsOn;
    }
  }

  // ---- What may go into the block ----

  ghost function TotalSize(env: Env, txs: seq<Transaction>): nat
  {
    if txs == [] then 0 else TotalSize(env, txs[..|txs| - 1]) + env.size(txs[|txs| - 1])
  }

  ghost function SpentOuts(m: Utxos, vin: seq<OutPoint>): (r: seq<TxOut>)
    requires HaveInputs(m, vin)
  {
    if vin == [] then [] else
      var n := |vin| - 1;
      assert vin[n] in vin && forall o <- vin[..n] :: o in vin;
      SpentOuts(m, vin[..n]) + [m[vin[n].hash].vout[vin[n].n]]
  }

  ghost function SigOps(env: Env, m: Utxos, tx: Transaction): nat
    requires HaveInputs(m, tx.vin)
  {
    env.legacySigOps(tx) + env.p2shSigOps(tx, SpentOuts(m, tx.vin))
  }

  ghost function TotalSigOps(env: Env, m: Utxos, txs: seq<Transaction>, h: int): nat
    requires CanConnect(m, txs, h)
    decreases |txs|
  {
    if txs == [] then 0 else
      var n := |txs| - 1;
      var view := ConnectAll(m, txs[..n], h);
      TotalSigOps(env, m, txs[..n], h) + if HaveInputs(view, txs[n].vin) then SigOps(env, view, txs[n]) else 0
  }

  /** Free transactions are left out once the block has its minimum size. */
  predicate IsFreeTransaction(env: Env, p: TxPriority, byFee: bool, nBlockSize: nat)
  {
    var deltas := env.deltas(p.tx.hash);
    byFee && deltas.0 <= 0.0 && deltas.1 <= 0 && p.feeRate < env.minFeeRate && nBlockSize + env.size(p.tx) >= env.blockMinSize
  }

  ghost predicate FitsView(env: Env, m: Utxos, tx: Transaction, nBlockSigOps: nat, h: int)
  {
    && HaveInputs(m, tx.vin) && nBlockSigOps + SigOps(env, m, tx) < MAX_BLOCK_SIGOPS
    && Acceptable(m, tx, h, env.rules) && env.scriptsOk(tx, SpentOuts(m, tx.vin))
  }

  /** The checks that a transaction must pass, on the view and the totals that the block so far leaves. */
  ghost predicate Fits(env: Env, m: Utxos, tx: Transaction, nBlockSize: nat, nBlockSigOps: nat, h: int)
  {
    nBlockSize + env.size(tx) < env.blockMaxSize && FitsView(env, m, tx, nBlockSigOps, h)
  }

  /** Whether an entry is chosen after the given transactions, under the given ordering. */
  ghost predicate Passes(env: Env, m: Utxos, h: int, txs: seq<Transaction>, p: TxPriority, byFee: bool)
  {
    CanConnect(m, txs, h) &&
    var size := HEADER_SIZE + TotalSize(env, txs);
    && Fits(env, ConnectAll(m, txs, h), p.tx, size, HEADER_SIGOPS + TotalSigOps(env, m, txs, h), h)
    && !IsFreeTransaction(env, p, byFee, size)
  }

  /** The scripts of every transaction pass on the outputs that it spends where it stands. */
  ghost predicate ScriptsPass(env: Env, m: Utxos, txs: seq<Transaction>, h: int)
    requires CanConnect(m, txs, h)
    decreases |txs|
  {
    txs == [] ||
    (var n := |txs| - 1;
     var view := ConnectAll(m, txs[..n], h);
     ScriptsPass(env, m, txs[..n], h) && HaveInputs(view, txs[n].vin) && env.scriptsOk(txs[n], SpentOuts(view, txs[n].vin)))
  }

  lemma ScriptsSnoc(env: Env, m: Utxos, txs: seq<Transaction>, h: int, tx: Transaction)
    requires CanConnect(m, txs, h) && ScriptsPass(env, m, txs, h) && CanConnect(m, txs + [tx], h)
    requires HaveInputs(ConnectAll(m, txs, h), tx.vin) && env.scriptsOk(tx, SpentOuts(ConnectAll(m, txs, h), tx.vin))
    ensures ScriptsPass(env, m, txs + [tx], h)
  {
    hide CanConnect, ConnectAll, SpentOuts, HaveInputs;
    assert (txs + [tx])[..|txs|] == txs && (txs + [tx])[|txs|] == tx;
  }

  /** What the chosen transactions satisfy. */
  ghost predicate Packed(env: Env, m: Utxos, txs: seq<Transaction>, h: int)
  {
    && CanConnect(m, txs, h)
    && AllAccepted(m, txs, h, env.rules, _ => true) && ScriptsPass(env, m, txs, h)
    && (txs != [] ==> HEADER_SIZE + TotalSize(env, txs) < env.blockMaxSize)
    && (txs != [] ==> HEADER_SIGOPS + TotalSigOps(env, m, txs, h) < MAX_BLOCK_SIGOPS)
  }

  lemma NothingPacked(env: Env, m: Utxos, h: int)
    ensures CanConnect(m, [], h) && Packed(env, m, [], h) && ConnectAll(m, [], h) == m
    ensures TotalSize(env, []) == 0 && TotalSigOps(env, m, [], h) == 0
  {
  }

  lemma PackedNext(env: Env, m: Utxos, txs: seq<Transaction>, h: int, tx: Transaction)
    requires Packed(env, m, txs, h) && !tx.IsCoinBase() && Distinct(tx.vin)
    requires Fits(env, ConnectAll(m, txs, h), tx, HEADER_SIZE + TotalSize(env, txs), HEADER_SIGOPS + TotalSigOps(env, m, txs, h), h)
    ensures CanSpendAll(ConnectAll(m, txs, h), Inputs(tx))
    ensures CanConnect(m, txs + [tx], h) && Packed(env, m, txs + [tx], h)
    ensures ConnectAll(m, txs + [tx], h) == ApplyTx(ConnectAll(m, txs, h), tx, h)
    ensures TotalSize(env, txs + [tx]) == TotalSize(env, txs) + env.size(tx)
    ensures TotalSigOps(env, m, txs + [tx], h) == TotalSigOps(env, m, txs, h) + SigOps(env, ConnectAll(m, txs, h), tx)
  {
    hide Acceptable, AllAccepted, ScriptsPass, SpentOuts, CanSpendAll, ApplyTx, CanConnect, ConnectAll, SpendAll, Transaction.IsCoinBase, Distinct,
      HaveInputs, TotalSize, TotalSigOps, SigOps;
    CheckedInputsCanBeSpent(ConnectAll(m, txs, h), tx.vin);
    ConnectSnoc(m, txs, h, tx);
    AcceptedSnoc(m, txs, h, env.rules, tx);
    ScriptsSnoc(env, m, txs, h, tx);
    TotalsSnoc(env, m, txs, h, tx);
  }

  lemma ConnectSnoc(m: Utxos, txs: seq<Transaction>, h: int, tx: Transaction)
    requires CanConnect(m, txs, h) && CanSpendAll(ConnectAll(m, txs, h), Inputs(tx))
    ensures CanConnect(m, txs + [tx], h) && ConnectAll(m, txs + [tx], h) == ApplyTx(ConnectAll(m, txs, h), tx, h)
  {
    hide CanSpendAll, ApplyTx, SpendAll, Inputs;
    assert (txs + [tx])[..|txs|] == txs && (txs + [tx])[|txs|] == tx;
  }

  lemma AcceptedSnoc(m: Utxos, txs: seq<Transaction>, h: int, rules: Rules, tx: Transaction)
    requires AllAccepted(m, txs, h, rules, _ => true) && CanConnect(m, txs, h) && Acceptable(ConnectAll(m, txs, h), tx, h, rules)
    ensures AllAccepted(m, txs + [tx], h, rules, _ => true)
  {
    hide Acceptable, CanConnect, ConnectAll;
    assert (txs + [tx])[..|txs|] == txs && (txs + [tx])[|txs|] == tx;
  }

  lemma TotalsSnoc(env: Env, m: Utxos, txs: seq<Transaction>, h: int, tx: Transaction)
    requires CanConnect(m, txs, h) && CanConnect(m, txs + [tx], h) && HaveInputs(ConnectAll(m, txs, h), tx.vin)
    ensures TotalSize(env, txs + [tx]) == TotalSize(env, txs) + env.size(tx)
    ensures TotalSigOps(env, m, txs + [tx], h) == TotalSigOps(env, m, txs, h) + SigOps(env, ConnectAll(m, txs, h), tx)
  {
    hide CanConnect, ConnectAll, SigOps, HaveInputs;
    assert (txs + [tx])[..|txs|] == txs && (txs + [tx])[|txs|] == tx;
  }

  // ---- The bookkeeping of the loop ----

  ghost function Hashes(txs: seq<Transaction>): set<TxId> { set i | 0 <= i < |txs| :: txs[i].hash }

  ghost predicate NoRepeats(txs: seq<Transaction>) { forall i, j :: 0 <= i < j < |txs| ==> txs[i].hash != txs[j].hash }

  /** Transactions of the pool that may be queued: not a coinbase, and no input twice. */
  ghost predicate Ordinary(tx: Transaction) { !tx.IsCoinBase() && Distinct(tx.vin) }

  /** The queue, the orphans and the dependency lists as they are handed to the loop. */
  ghost predicate Prioritized(vec: seq<TxPriority>, orphans: Orphans, deps: Dependents)
  {
    && DistinctIds(vec) && Linked(orphans, deps) && Queued(vec) !! orphans.Keys
    && (forall p <- vec :: Ordinary(p.tx)) && (forall id <- orphans :: Ordinary(orphans[id].tx) && orphans[id].setDependsOn != {})
  }

  /** An entry of the queue is one of the first ones or that of an orphan. */
  ghost predicate Comes(vec0: seq<TxPriority>, orphans0: Orphans, p: TxPriority)
  {
    p in vec0 || (p.tx.hash in orphans0 && p == orphans0[p.tx.hash].Entry())
  }

  ghost predicate FromQueue(vec0: seq<TxPriority>, orphans0: Orphans, tx: Transaction)
  {
    (exists p :: p in vec0 && p.tx == tx) || (tx.hash in orphans0 && orphans0[tx.hash].tx == tx)
  }

  /** Every transaction is in exactly one place: waiting, queued, chosen or refused. */
  ghost predicate Progress(vec0: seq<TxPriority>, orphans0: Orphans,
                           vec: seq<TxPriority>, orphans: Orphans, txs: seq<Transaction>, refused: set<TxId>)
  {
    && orphans == Released(orphans0, Hashes(txs))
    && DistinctIds(vec) && NoRepeats(txs) && Hashes(txs) !! refused && Queued(vec) !! Hashes(txs) + refused
    && Queued(vec) + Hashes(txs) + refused == Queued(vec0) + Free(orphans)
    && (forall p <- vec :: Comes(vec0, orphans0, p))
  }

  ghost function Free(orphans: Orphans): set<TxId> { set id <- orphans | orphans[id].setDependsOn == {} }

  lemma ProgressStarts(vec: seq<TxPriority>, orphans: Orphans, deps: Dependents)
    requires Prioritized(vec, orphans, deps)
    ensures Progress(vec, orphans, vec, orphans, [], {})
  {
    hide Linked, Ordinary;
    forall id | id in orphans ensures Without(orphans[id], {}) == orphans[id] {
      assert orphans[id].setDependsOn - {} == orphans[id].setDependsOn;
    }
    assert Hashes([]) == {};
    assert Free(orphans) == {};
  }

  lemma ProgressRefuses(vec0: seq<TxPriority>, orphans0: Orphans, vec: seq<TxPriority>, orphans: Orphans, txs: seq<Transaction>,
                        refused: set<TxId>, top: TxPriority, rest: seq<TxPriority>)
    requires Progress(vec0, orphans0, vec, orphans, txs, refused)
    requires exists k :: 0 <= k < |vec| && top == vec[k] && rest == vec[..k] + vec[k + 1..]
    ensures top.tx.hash !in refused && top.tx.hash !in Hashes(txs) && top.tx.hash in Queued(vec0) + orphans0.Keys
    ensures Progress(vec0, orphans0, rest, orphans, txs, refused + {top.tx.hash})
  {
    hide DistinctIds, NoRepeats, Queued, Hashes, Comes, Without;
    PoppedIds(vec, top, rest);
    assert Free(orphans) <= orphans0.Keys;
  }

  lemma HashesSnoc(txs: seq<Transaction>, tx: Transaction)
    ensures Hashes(txs + [tx]) == Hashes(txs) + {tx.hash}
    ensures NoRepeats(txs) && tx.hash !in Hashes(txs) ==> NoRepeats(txs + [tx])
  {
    var all := txs + [tx];
    forall id | id in Hashes(txs) ensures id in Hashes(all) {
      var i :| 0 <= i < |txs| && txs[i].hash == id;
      assert all[i] == txs[i];
    }
    assert all[|txs|] == tx;
    if NoRepeats(txs) && tx.hash !in Hashes(txs) {
      forall i, j | 0 <= i < j < |all| ensures all[i].hash != all[j].hash {
        if j == |txs| { assert all[i] == txs[i] && txs[i].hash in Hashes(txs); }
      }
    }
  }

  lemma QueuedConcat(a: seq<TxPriority>, b: seq<TxPriority>)
    requires DistinctIds(a) && DistinctIds(b) && Queued(a) !! Queued(b)
    ensures DistinctIds(a + b) && Queued(a + b) == Queued(a) + Queued(b)
  {
    var c := a + b;
    forall id | id in Queued(a) ensures id in Queued(c) {
      var i :| 0 <= i < |a| && a[i].tx.hash == id;
      assert c[i] == a[i];
    }
    forall id | id in Queued(b) ensures id in Queued(c) {
      var i :| 0 <= i < |b| && b[i].tx.hash == id;
      assert c[|a| + i] == b[i];
    }
    forall i, j | 0 <= i < j < |c| ensures c[i].tx.hash != c[j].tx.hash {
      if i < |a| <= j {
        assert c[i].tx.hash in Queued(a);
        assert b[j - |a|].tx.hash in Queued(b);
      }
    }
  }

  lemma ReleasedTwice(orphans: Orphans, a: set<TxId>, b: set<TxId>)
    ensures Released(Released(orphans, a), b) == Released(orphans, a + b)
  {
    forall id | id in orphans ensures Without(Without(orphans[id], a), b) == Without(orphans[id], a + b) {
      assert orphans[id].setDependsOn - a - b == orphans[id].setDependsOn - (a + b);
    }
  }

  /** Releasing sets free exactly those that waited for this parent alone. */
  lemma NewlyFree(orphans: Orphans, hash: TxId)
    ensures Free(Released(orphans, {hash})) == Free(orphans) + (set id <- orphans | orphans[id].setDependsOn == {hash})
  {
    forall id | id in orphans
      ensures orphans[id].setDependsOn - {hash} == {} <==> orphans[id].setDependsOn == {} || orphans[id].setDependsOn == {hash}
    {
      var s := orphans[id].setDependsOn;
      if s - {hash} == {} && s != {} {
        assert forall x <- s :: x == hash || x in s - {hash};
        var x :| x in s;
        assert s == {hash};
      }
    }
  }

  lemma ProgressAccepts(vec0: seq<TxPriority>, orphans0: Orphans, vec: seq<TxPriority>, orphans: Orphans, txs: seq<Transaction>,
                        refused: set<TxId>, top: TxPriority, rest: seq<TxPriority>, pushed: seq<TxPriority>)
    requires Progress(vec0, orphans0, vec, orphans, txs, refused) && Queued(vec0) !! orphans0.Keys
    requires exists k :: 0 <= k < |vec| && top == vec[k] && rest == vec[..k] + vec[k + 1..]
    requires DistinctIds(pushed)
    requires forall id :: id in Queued(pushed) <==> id in orphans && orphans[id].setDependsOn == {top.tx.hash}
    requires forall p <- pushed :: p.tx.hash in orphans && p == orphans[p.tx.hash].Entry()
    ensures top.tx.hash !in Hashes(txs) && top.tx.hash !in refused && top.tx.hash in Queued(vec0) + orphans0.Keys
    ensures Progress(vec0, orphans0, rest + pushed, Released(orphans, {top.tx.hash}), txs + [top.tx], refused)
  {
    hide DistinctIds, NoRepeats, Queued, Hashes, Comes, Without, Released;
    PoppedIds(vec, top, rest);
    HashesSnoc(txs, top.tx);
    ReleasedTwice(orphans0, Hashes(txs), {top.tx.hash});
    NewlyFree(orphans, top.tx.hash);
    ReleasedKeys(orphans0, Hashes(txs));
    assert Queued(pushed) !! Free(orphans);
    assert Queued(pushed) !! Queued(vec0);
    QueuedConcat(rest, pushed);
    forall p | p in rest + pushed ensures Comes(vec0, orphans0, p) {
      if p in pushed { ComesFree(vec0, orphans0, Hashes(txs), p); }
    }
  }

  lemma ReleasedKeys(orphans: Orphans, hashes: set<TxId>)
    ensures Released(orphans, hashes).Keys == orphans.Keys
  {
  }

  lemma ComesFree(vec0: seq<TxPriority>, orphans0: Orphans, hashes: set<TxId>, p: TxPriority)
    requires p.tx.hash in orphans0 && p == Released(orphans0, hashes)[p.tx.hash].Entry()
    ensures Comes(vec0, orphans0, p)
  {
  }

  lemma LinkedReleased(orphans: Orphans, deps: Dependents, hashes: set<TxId>)
    requires Linked(orphans, deps)
    ensures Linked(Released(orphans, hashes), deps)
  {
  }

  /** At the end of the loop whatever is left out was refused or waits for a parent that is left out. */
  lemma ProgressEnds(vec0: seq<TxPriority>, orphans0: Orphans, orphans: Orphans, txs: seq<Transaction>, refused: set<TxId>, id: TxId)
    requires Progress(vec0, orphans0, [], orphans, txs, refused)
    requires id in Queued(vec0) || id in orphans0
    ensures id in Hashes(txs) || id in refused
            || (id in orphans0 && exists parent :: parent in orphans0[id].setDependsOn && parent !in Hashes(txs))
  {
    assert Queued([]) == {};
    if id in orphans && orphans[id].setDependsOn != {} {
      var parent :| parent in orphans[id].setDependsOn;
    } else {
      assert id in Queued(vec0) + Free(orphans);
    }
  }

  // ---- The loop ----

  lemma OutsPrefix(m: Utxos, vin: seq<OutPoint>, i: nat)
    requires HaveInputs(m, vin) && i < |vin|
    ensures HaveInputs(m, vin[..i]) && HaveInputs(m, vin[..i + 1]) && Available(m, vin[i])
    ensures SpentOuts(m, vin[..i + 1]) == SpentOuts(m, vin[..i]) + [m[vin[i].hash].vout[vin[i].n]]
  {
    assert vin[i] in vin && (forall o <- vin[..i] :: o in vin) && forall o <- vin[..i + 1] :: o in vin;
    assert vin[..i + 1][..i] == vin[..i];
  }

  /** The outputs that the transaction spends. */
  method OutputsFor(tx: Transaction, view: CoinsViewCache) returns (outs: seq<TxOut>)
    requires view.Valid() && !view.hasModifier && HaveInputs(view.Visible(), tx.vin)
    modifies view.Repr
    ensures view.Valid() && !view.hasModifier && view.Visible() == old(view.Visible()) && view.Lower() == old(view.Lower())
    ensures outs == SpentOuts(view.Visible(), tx.vin)
  {
    hide CoinsViewCache.Valid, HaveInputs, Overlay, Available;
    ghost var m := view.Visible();
    outs := [];
    assert HaveInputs(m, []) && SpentOuts(m, []) == [] by { NoInputs(m); }
    var i := 0;
    while i < |tx.vin|
      invariant 0 <= i <= |tx.vin|
      invariant view.Valid() && !view.hasModifier && view.Visible() == m && view.Lower() == old(view.Lower())
      invariant HaveInputs(m, tx.vin[..i]) && outs == SpentOuts(m, tx.vin[..i])
    {
      OutsPrefix(m, tx.vin, i);
      var found, coins := view.GetCoins(tx.vin[i].hash);
      assert tx.vin[i].hash in m by { AvailableInMap(m, tx.vin[i]); }
      RecordValue(m, tx.vin[i], coins);
      outs := outs + [coins.vout[tx.vin[i].n]];
      i := i + 1;
    }
    assert tx.vin[..i] == tx.vin;
  }

  /** The checks against the view of the block so far. */
  method CheckAgainstView(env: Env, tx: Transaction, view: CoinsViewCache, nHeight: int, nBlockSigOps: nat)
    returns (ok: bool, nTxSigOps: nat)
    requires view.Valid() && !view.hasModifier && !tx.IsCoinBase()
    modifies view.Repr
    ensures view.Valid() && !view.hasModifier && view.Visible() == old(view.Visible()) && view.Lower() == old(view.Lower())
    ensures ok == FitsView(env, view.Visible(), tx, nBlockSigOps, nHeight)
    ensures ok ==> nTxSigOps == SigOps(env, view.Visible(), tx)
  {
    hide CoinsViewCache.Valid, HaveInputs, Overlay, Available, SpentOuts, Acceptable, Transaction.IsCoinBase;
    nTxSigOps := env.legacySigOps(tx);
    var have := HaveAllInputs(tx.vin, view);
    if !have { return false, nTxSigOps; }
    var outs := OutputsFor(tx, view);
    nTxSigOps := nTxSigOps + env.p2shSigOps(tx, outs);
    if nBlockSigOps + nTxSigOps >= MAX_BLOCK_SIGOPS { return false, nTxSigOps; }
    var good, _, _ := CheckInputs(tx, view, nHeight, env.rules);
    ok := good && env.scriptsOk(tx, outs);
  }

  /** Sort by fee once past the priority size, or out of high-priority transactions. */
  function PrioritizeFeePastPrioritySize(env: Env, byFee: bool, nBlockSize: nat, nTxSize: nat, dPriority: real): bool
  {
    byFee || nBlockSize + nTxSize >= env.blockPrioritySize || !env.allowFree(dPriority)
  }

  // ---- What a run of the loop is ----

  /** One round: the entry taken from the queue, the ordering in force, and whether it was chosen. */
  datatype Round = Round(entry: TxPriority, byFee: bool, chosen: bool)

  ghost function Chosen(log: seq<Round>): seq<Transaction>
  {
    if log == [] then [] else
      var n := |log| - 1;
      Chosen(log[..n]) + if log[n].chosen then [log[n].entry.tx] else []
  }

  ghost function Settled(log: seq<Round>): set<TxId> { set i | 0 <= i < |log| :: log[i].entry.tx.hash }

  ghost function Rejected(log: seq<Round>): set<TxId> { set i | 0 <= i < |log| && !log[i].chosen :: log[i].entry.tx.hash }

  /** An entry that is there from the start, or that of an orphan whose parents have all been chosen. */
  ghost predicate Ready(first: seq<TxPriority>, waiting: Orphans, txs: seq<Transaction>, p: TxPriority)
  {
    p in first || (p.tx.hash in waiting && p == waiting[p.tx.hash].Entry() && waiting[p.tx.hash].setDependsOn <= Hashes(txs))
  }

  ghost predicate Open(first: seq<TxPriority>, waiting: Orphans, log: seq<Round>, p: TxPriority)
  {
    Ready(first, waiting, Chosen(log), p) && p.tx.hash !in Settled(log)
  }

  /** An entry that passes the early tests, and ends the part of the block that goes by priority. */
  ghost predicate Switches(env: Env, m: Utxos, h: int, txs: seq<Transaction>, p: TxPriority)
  {
    CanConnect(m, txs, h) &&
    var size := HEADER_SIZE + TotalSize(env, txs);
    && size + env.size(p.tx) < env.blockMaxSize
    && HEADER_SIGOPS + TotalSigOps(env, m, txs, h) + env.legacySigOps(p.tx) < MAX_BLOCK_SIGOPS
    && PrioritizeFeePastPrioritySize(env, false, size, env.size(p.tx), p.dPriority)
  }

  /** Entries go by fee if there is no such part, or once an entry has ended it. */
  ghost predicate FeeOrder(env: Env, m: Utxos, h: int, log: seq<Round>)
  {
    env.blockPrioritySize <= 0 || exists k :: 0 <= k < |log| && Switches(env, m, h, Chosen(log[..k]), log[k].entry)
  }

  /** A round takes an entry that none of the open ones beats, and chooses it exactly if it passes all checks. */
  ghost predicate RoundOk(env: Env, m: Utxos, h: int, first: seq<TxPriority>, waiting: Orphans, before: seq<Round>, r: Round)
  {
    && Open(first, waiting, before, r.entry)
    && r.byFee == FeeOrder(env, m, h, before)
    && (forall p :: Open(first, waiting, before, p) ==> !Less(r.byFee, r.entry, p))
    && r.chosen == Passes(env, m, h, Chosen(before), r.entry, r.byFee)
  }

  ghost predicate Greedy(env: Env, m: Utxos, h: int, first: seq<TxPriority>, waiting: Orphans, log: seq<Round>)
  {
    forall k :: 0 <= k < |log| ==> RoundOk(env, m, h, first, waiting, log[..k], log[k])
  }

  ghost predicate Exhausted(first: seq<TxPriority>, waiting: Orphans, log: seq<Round>)
  {
    forall p :: !Open(first, waiting, log, p)
  }

  lemma NothingSettled(env: Env, m: Utxos, h: int, first: seq<TxPriority>, waiting: Orphans)
    ensures Greedy(env, m, h, first, waiting, []) && Chosen([]) == [] && Settled([]) == Rejected([]) == Hashes([]) == {}
    ensures FeeOrder(env, m, h, []) == (env.blockPrioritySize <= 0)
  {
  }

  lemma GreedySnoc(env: Env, m: Utxos, h: int, first: seq<TxPriority>, waiting: Orphans, log: seq<Round>, r: Round)
    requires Greedy(env, m, h, first, waiting, log) && RoundOk(env, m, h, first, waiting, log, r)
    ensures Greedy(env, m, h, first, waiting, log + [r])
  {
    hide RoundOk;
    var all := log + [r];
    forall k | 0 <= k < |all| ensures RoundOk(env, m, h, first, waiting, all[..k], all[k]) {
      assert all[..k] == log[..k];
      if k == |log| { assert log[..k] == log; }
    }
  }

  lemma FeeOrderSnoc(env: Env, m: Utxos, h: int, log: seq<Round>, r: Round)
    ensures FeeOrder(env, m, h, log + [r]) <==> FeeOrder(env, m, h, log) || Switches(env, m, h, Chosen(log), r.entry)
  {
    hide Switches, Chosen;
    var all := log + [r];
    assert forall k :: 0 <= k < |log| ==> all[..k] == log[..k] && all[k] == log[k];
    assert all[..|log|] == log && all[|log|] == r;
  }

  lemma LogSnoc(log: seq<Round>, r: Round)
    ensures Chosen(log + [r]) == Chosen(log) + if r.chosen then [r.entry.tx] else []
    ensures Settled(log + [r]) == Settled(log) + {r.entry.tx.hash}
    ensures Rejected(log + [r]) == Rejected(log) + if r.chosen then {} else {r.entry.tx.hash}
  {
    var all := log + [r];
    assert all[..|log|] == log && all[|log|] == r;
    assert forall k :: 0 <= k < |log| ==> all[k] == log[k];
    forall id | id in Settled(log) ensures id in Settled(all) {
      var i :| 0 <= i < |log| && log[i].entry.tx.hash == id;
      assert all[i].entry.tx.hash == id;
    }
    forall id | id in Rejected(log) ensures id in Rejected(all) {
      var i :| 0 <= i < |log| && !log[i].chosen && log[i].entry.tx.hash == id;
      assert all[i].entry.tx.hash == id;
    }
  }

  /** The queue holds exactly the open entries. */
  lemma QueueIsOpen(first: seq<TxPriority>, waiting: Orphans, deps: Dependents,
                    vec: seq<TxPriority>, orphans: Orphans, log: seq<Round>, p: TxPriority)
    requires Prioritized(first, waiting, deps) && Progress(first, waiting, vec, orphans, Chosen(log), Rejected(log))
    requires Settled(log) == Hashes(Chosen(log)) + Rejected(log)
    ensures p in vec <==> Open(first, waiting, log, p)
  {
    hide Linked, Ordinary, Chosen, Settled, Rejected, Hashes, NoRepeats, DistinctIds;
    var id, hashes := p.tx.hash, Hashes(Chosen(log));
    if p in first { assert id in Queued(first); }
    if p in vec { assert id in Queued(vec); }
    if id in waiting { FreeIs(waiting, hashes, id); }
    if Open(first, waiting, log, p) {
      var i :| 0 <= i < |vec| && vec[i].tx.hash == id;
      SameEntry(first, waiting, p, vec[i]);
    }
  }

  lemma FreeIs(orphans: Orphans, hashes: set<TxId>, id: TxId)
    requires id in orphans
    ensures id in Free(Released(orphans, hashes)) <==> orphans[id].setDependsOn <= hashes
  {
    var s := orphans[id].setDependsOn;
    assert Without(orphans[id], hashes).setDependsOn == s - hashes;
    assert forall x <- s :: x in hashes || x in s - hashes;
  }

  /** Entries that come from the queue or the orphans are told apart by their id. */
  lemma SameEntry(first: seq<TxPriority>, waiting: Orphans, p: TxPriority, q: TxPriority)
    requires DistinctIds(first) && Queued(first) !! waiting.Keys
    requires Comes(first, waiting, p) && Comes(first, waiting, q) && p.tx.hash == q.tx.hash
    ensures p == q
  {
    if p in first { assert p.tx.hash in Queued(first); }
    if q in first { assert q.tx.hash in Queued(first); }
  }

  /** What the loop knows about its rounds. */
  ghost predicate Running(env: Env, m: Utxos, h: int, first: seq<TxPriority>, waiting: Orphans,
                          log: seq<Round>, txs: seq<Transaction>, byFee: bool)
  {
    && Greedy(env, m, h, first, waiting, log) && Chosen(log) == txs
    && byFee == FeeOrder(env, m, h, log) && Settled(log) == Hashes(txs) + Rejected(log)
  }

  lemma RoundSettled(env: Env, m: Utxos, h: int, first: seq<TxPriority>, waiting: Orphans, deps: Dependents,
                     vec: seq<TxPriority>, orphans: Orphans, log: seq<Round>, top: TxPriority, byFee: bool, chosen: bool)
    requires Prioritized(first, waiting, deps) && Running(env, m, h, first, waiting, log, Chosen(log), byFee)
    requires Progress(first, waiting, vec, orphans, Chosen(log), Rejected(log))
    requires top in vec && forall p <- vec :: !Less(byFee, top, p)
    requires chosen == Passes(env, m, h, Chosen(log), top, byFee)
    ensures var log' := log + [Round(top, byFee, chosen)];
            var byFee' := byFee || Switches(env, m, h, Chosen(log), top);
            && Running(env, m, h, first, waiting, log', if chosen then Chosen(log) + [top.tx] else Chosen(log), byFee')
            && Rejected(log') == if chosen then Rejected(log) else Rejected(log) + {top.tx.hash}
  {
    hide Prioritized, Progress, Passes, Switches, FeeOrder, Greedy, Chosen, Settled, Rejected, Hashes, Open, Less;
    var r := Round(top, byFee, chosen);
    forall p ensures p in vec <==> Open(first, waiting, log, p) {
      QueueIsOpen(first, waiting, deps, vec, orphans, log, p);
    }
    GreedySnoc(env, m, h, first, waiting, log, r);
    FeeOrderSnoc(env, m, h, log, r);
    LogSnoc(log, r);
    HashesSnoc(Chosen(log), top.tx);
  }

  lemma RunEnds(env: Env, m: Utxos, h: int, first: seq<TxPriority>, waiting: Orphans, deps: Dependents,
                orphans: Orphans, log: seq<Round>, txs: seq<Transaction>, byFee: bool)
    requires Prioritized(first, waiting, deps) && Running(env, m, h, first, waiting, log, txs, byFee)
    requires Progress(first, waiting, [], orphans, txs, Rejected(log))
    ensures txs == Chosen(log) && Greedy(env, m, h, first, waiting, log) && Exhausted(first, waiting, log)
  {
    hide Prioritized, Progress, FeeOrder, Greedy, Chosen, Settled, Rejected, Hashes, Open;
    forall p ensures !Open(first, waiting, log, p) { QueueIsOpen(first, waiting, deps, [], orphans, log, p); }
  }

  lemma RunStarts(env: Env, m: Utxos, h: int, first: seq<TxPriority>, waiting: Orphans)
    ensures Running(env, m, h, first, waiting, [], [], env.blockPrioritySize <= 0) && Rejected([]) == Hashes([]) == {}
  {
    hide Greedy, Chosen, FeeOrder;
    NothingSettled(env, m, h, first, waiting);
  }

  lemma RunTxs(env: Env, m: Utxos, h: int, first: seq<TxPriority>, waiting: Orphans,
               log: seq<Round>, txs: seq<Transaction>, byFee: bool)
    requires Running(env, m, h, first, waiting, log, txs, byFee)
    ensures Chosen(log) == txs
  {
  }

  /** What the tests of one round say about the whole of the checks, and about the ordering from then on. */
  lemma Tests(env: Env, m: Utxos, h: int, txs: seq<Transaction>, p: TxPriority, byFee: bool, nBlockSize: nat, nBlockSigOps: nat)
    requires CanConnect(m, txs, h)
    requires nBlockSize == HEADER_SIZE + TotalSize(env, txs) && nBlockSigOps == HEADER_SIGOPS + TotalSigOps(env, m, txs, h)
    ensures var early := nBlockSize + env.size(p.tx) >= env.blockMaxSize
                         || nBlockSigOps + env.legacySigOps(p.tx) >= MAX_BLOCK_SIGOPS || IsFreeTransaction(env, p, byFee, nBlockSize);
            var view := ConnectAll(m, txs, h);
            && (early ==> !Passes(env, m, h, txs, p, byFee))
            && (!early ==> (Passes(env, m, h, txs, p, byFee) <==> FitsView(env, view, p.tx, nBlockSigOps, h)))
            && (!early && FitsView(env, view, p.tx, nBlockSigOps, h) ==> Fits(env, view, p.tx, nBlockSize, nBlockSigOps, h))
            && (byFee || Switches(env, m, h, txs, p))
               == if early then byFee else PrioritizeFeePastPrioritySize(env, byFee, nBlockSize, env.size(p.tx), p.dPriority)
  {
    hide HaveInputs, SpentOuts, Acceptable, CanConnect, ConnectAll, TotalSize, TotalSigOps;
  }

  /**
    The loop: the chosen transactions can be applied in order, pass the input checks where they
    stand, stay below both limits and do not repeat. Every round settles one transaction: it takes
    the best of those that are ready, by priority or by fee, and chooses it exactly if it passes all
    checks. Nothing that is ready is left; each of the others waits for a parent that is not chosen.
   */
  method PrioritizeTransactions(env: Env, first: seq<TxPriority>, waiting: Orphans, deps: Dependents, view: CoinsViewCache, nHeight: int)
    returns (txs: seq<Transaction>, ghost log: seq<Round>)
    requires view.Valid() && !view.hasModifier && Prioritized(first, waiting, deps)
    modifies view.Repr
    ensures view.Valid() && !view.hasModifier && view.Lower() == old(view.Lower())
    ensures Packed(env, old(view.Visible()), txs, nHeight) && view.Visible() == ConnectAll(old(view.Visible()), txs, nHeight)
    ensures NoRepeats(txs) && Hashes(txs) !! Rejected(log) && forall tx <- txs :: FromQueue(first, waiting, tx)
    ensures txs == Chosen(log) && Greedy(env, old(view.Visible()), nHeight, first, waiting, log) && Exhausted(first, waiting, log)
    ensures forall id :: id in Queued(first) || id in waiting ==>
              id in Hashes(txs) || id in Rejected(log)
              || (id in waiting && exists parent :: parent in waiting[id].setDependsOn && parent !in Hashes(txs))
  {
    hide *;
    ghost var m := view.Visible();
    txs, log := [], [];
    var nBlockSize, nBlockSigOps := HEADER_SIZE, HEADER_SIGOPS;
    var fSortedByFee := env.blockPrioritySize <= 0;
    var vecPriority, orphans := first, waiting;
    NothingPacked(env, m, nHeight);
    Consts();
    RunStarts(env, m, nHeight, first, waiting);
    ProgressStarts(first, waiting, deps);
    PrioritizedParts(first, waiting, deps);
    ghost var all := Queued(first) + waiting.Keys;
    ghost var done: set<TxId> := {};
    while vecPriority != []
      invariant view.Valid() && !view.hasModifier && view.Lower() == old(view.Lower())
      invariant Packed(env, m, txs, nHeight) && CanConnect(m, txs, nHeight) && view.Visible() == ConnectAll(m, txs, nHeight)
      invariant nBlockSize == HEADER_SIZE + TotalSize(env, txs) && nBlockSigOps == HEADER_SIGOPS + TotalSigOps(env, m, txs, nHeight)
      invariant nBlockSize >= 0 && nBlockSigOps >= 0
      invariant Linked(orphans, deps) && Progress(first, waiting, vecPriority, orphans, txs, Rejected(log))
      invariant Running(env, m, nHeight, first, waiting, log, txs, fSortedByFee) && forall tx <- txs :: FromQueue(first, waiting, tx)
      invariant done == Hashes(txs) + Rejected(log) && done <= all
      decreases all - done
    {
      var top, rest := PopHeap(vecPriority, fSortedByFee);
      var tx, nTxSize := top.tx, env.size(top.tx);
      ProgressRefuses(first, waiting, vecPriority, orphans, txs, Rejected(log), top, rest);
      TopOrdinary(first, waiting, deps, vecPriority, orphans, txs, Rejected(log), top);
      RunTxs(env, m, nHeight, first, waiting, log, txs, fSortedByFee);
      Tests(env, m, nHeight, txs, top, fSortedByFee, nBlockSize, nBlockSigOps);
      ghost var chosen := Passes(env, m, nHeight, txs, top, fSortedByFee);
      RoundSettled(env, m, nHeight, first, waiting, deps, vecPriority, orphans, log, top, fSortedByFee, chosen);
      ghost var wasDone := done;
      done := done + {tx.hash};
      assert tx.hash in all - wasDone && tx.hash !in all - done;
      log := log + [Round(top, fSortedByFee, chosen)];
      if nBlockSize + nTxSize >= env.blockMaxSize || nBlockSigOps + env.legacySigOps(tx) >= MAX_BLOCK_SIGOPS
         || IsFreeTransaction(env, top, fSortedByFee, nBlockSize)
      {
        vecPriority := rest;
        continue;
      }
      fSortedByFee := PrioritizeFeePastPrioritySize(env, fSortedByFee, nBlockSize, nTxSize, top.dPriority);
      var ok, nTxSigOps := CheckAgainstView(env, tx, view, nHeight, nBlockSigOps);
      if !ok {
        vecPriority := rest;
        continue;
      }
      PackedNext(env, m, txs, nHeight, tx);
      HashesSnoc(txs, tx);
      var _ := UpdateCoinsWithTransaction(tx, view, nHeight);
      nBlockSize, nBlockSigOps := nBlockSize + nTxSize, nBlockSigOps + nTxSigOps;
      var now, pushed := AddDependingTransactionsToPriorityQueue(orphans, deps, tx.hash);
      ProgressAccepts(first, waiting, vecPriority, orphans, txs, Rejected(log), top, rest, pushed);
      LinkedReleased(orphans, deps, {tx.hash});
      txs, orphans, vecPriority := txs + [tx], now, rest + pushed;
    }
    RunEnds(env, m, nHeight, first, waiting, deps, orphans, log, txs, fSortedByFee);
    AllSettled(first, waiting, orphans, txs, Rejected(log));
    ProgressParts(first, waiting, vecPriority, orphans, txs, Rejected(log));
  }

  lemma AllSettled(vec0: seq<TxPriority>, orphans0: Orphans, orphans: Orphans, txs: seq<Transaction>, refused: set<TxId>)
    requires Progress(vec0, orphans0, [], orphans, txs, refused)
    ensures forall id :: id in Queued(vec0) || id in orphans0 ==>
              id in Hashes(txs) || id in refused
              || (id in orphans0 && exists parent :: parent in orphans0[id].setDependsOn && parent !in Hashes(txs))
  {
    hide Progress, Queued, Hashes;
    forall id | id in Queued(vec0) || id in orphans0
      ensures id in Hashes(txs) || id in refused
              || (id in orphans0 && exists parent :: parent in orphans0[id].setDependsOn && parent !in Hashes(txs))
    {
      ProgressEnds(vec0, orphans0, orphans, txs, refused, id);
    }
  }

  lemma Consts()
    ensures HEADER_SIZE == 1000 && HEADER_SIGOPS == 100
  {
  }

  lemma PrioritizedParts(vec: seq<TxPriority>, orphans: Orphans, deps: Dependents)
    requires Prioritized(vec, orphans, deps)
    ensures Linked(orphans, deps) && Queued(vec) !! orphans.Keys
  {
  }

  lemma TopOrdinary(vec0: seq<TxPriority>, orphans0: Orphans, deps: Dependents,
                    vec: seq<TxPriority>, orphans: Orphans, txs: seq<Transaction>, refused: set<TxId>, top: TxPriority)
    requires Prioritized(vec0, orphans0, deps) && Progress(vec0, orphans0, vec, orphans, txs, refused) && top in vec
    ensures !top.tx.IsCoinBase() && Distinct(top.tx.vin) && FromQueue(vec0, orphans0, top.tx)
  {
  }

  lemma ProgressParts(vec0: seq<TxPriority>, orphans0: Orphans,
                      vec: seq<TxPriority>, orphans: Orphans, txs: seq<Transaction>, refused: set<TxId>)
    requires Progress(vec0, orphans0, vec, orphans, txs, refused)
    ensures NoRepeats(txs) && Hashes(txs) !! refused
  {
  }

  // ---- Filling the queue from the pool ----

  ghost predicate InPool(pool: seq<Transaction>, hash: TxId) { hash in Hashes(pool) }

  /** An output that neither the view nor the pool knows the transaction of. */
  ghost predicate Unknown(m: Utxos, pool: seq<Transaction>, out: OutPoint) { out.hash !in m && !InPool(pool, out.hash) }

  ghost predicate MissingInputs(m: Utxos, pool: seq<Transaction>, vin: seq<OutPoint>)
  {
    exists i :: 0 <= i < |vin| && Unknown(m, pool, vin[i])
  }

  /** The transactions that the first n inputs spend from and that the view does not have. */
  ghost function WaitsFor(m: Utxos, vin: seq<OutPoint>, n: nat): set<TxId>
    requires n <= |vin|
  {
    set i | 0 <= i < n && vin[i].hash !in m :: vin[i].hash
  }

  /** What the pool guarantees: ids are unique, no input twice, outputs that are spent exist. */
  ghost predicate PoolOk(m: Utxos, pool: seq<Transaction>)
  {
    && NoRepeats(pool)
    && (forall tx <- pool :: Distinct(tx.vin))
    && (forall tx <- pool :: forall i :: 0 <= i < |tx.vin| ==> OutputExists(m, pool, tx.vin[i]))
  }

  ghost predicate OutputExists(m: Utxos, pool: seq<Transaction>, out: OutPoint)
  {
    if out.hash in m then out.n < |m[out.hash].vout| else forall tx <- pool :: tx.hash == out.hash ==> out.n < |tx.vout|
  }

  method Lookup(pool: seq<Transaction>, hash: TxId) returns (found: bool, tx: Transaction)
    ensures found == InPool(pool, hash)
    ensures found ==> tx in pool && tx.hash == hash
  {
    tx := Transaction(0, 0, [], []);
    for i := 0 to |pool|
      invariant forall j :: 0 <= j < i ==> pool[j].hash != hash
    {
      if pool[i].hash == hash { return true, pool[i]; }
    }
    return false, tx;
  }

  method RecordOrphanTransaction(orphans: Orphans, deps: Dependents, tx: Transaction, hash: TxId)
    returns (orphans': Orphans, deps': Dependents)
    requires Linked(orphans, deps) && (tx.hash in orphans ==> orphans[tx.hash].tx == tx)
    ensures Linked(orphans', deps')
    ensures orphans' == orphans[tx.hash := (if tx.hash in orphans then orphans[tx.hash] else Orphan(tx, {}, 0, 0.0)).(
              setDependsOn := (if tx.hash in orphans then orphans[tx.hash].setDependsOn else {}) + {hash})]
  {
    var o := if tx.hash in orphans then orphans[tx.hash] else Orphan(tx, {}, 0, 0.0);
    var list := (if hash in deps then deps[hash] else []) + [tx.hash];
    deps' := deps[hash := list];
    orphans' := orphans[tx.hash := o.(setDependsOn := o.setDependsOn + {hash})];
    assert tx.hash in deps'[hash];
    forall id, h | id in orphans' && h in orphans'[id].setDependsOn ensures h in deps' && id in deps'[h] {
      if h == hash && id != tx.hash {
        var i :| 0 <= i < |deps[hash]| && deps[hash][i] == id;
        assert list[i] == id;
      }
    }
  }

  // ---- What the entries are worth ----

  /** The value of an output of the view, or else of a transaction of the pool. */
  ghost function ValueOf(m: Utxos, pool: seq<Transaction>, out: OutPoint): Amount
  {
    if out.hash in m then
      if out.n < |m[out.hash].vout| then m[out.hash].vout[out.n].nValue else 0
    else if exists tx :: tx in pool && tx.hash == out.hash && out.n < |tx.vout| then
      var tx :| tx in pool && tx.hash == out.hash && out.n < |tx.vout|;
      tx.vout[out.n].nValue
    else 0
  }

  /** What the first n inputs bring in. */
  ghost function TotalIn(m: Utxos, pool: seq<Transaction>, vin: seq<OutPoint>, n: nat): Amount
    requires n <= |vin|
  {
    if n == 0 then 0 else TotalIn(m, pool, vin, n - 1) + ValueOf(m, pool, vin[n - 1])
  }

  /** The sum of value times age over those of the first n inputs that the view has. */
  ghost function CoinAge(m: Utxos, pool: seq<Transaction>, vin: seq<OutPoint>, n: nat, h: int): real
    requires n <= |vin|
  {
    if n == 0 then 0.0
    else
      var out := vin[n - 1];
      CoinAge(m, pool, vin, n - 1, h) + if out.hash in m then (ValueOf(m, pool, out) * (h - m[out.hash].nHeight)) as real else 0.0
  }

  /** The entry of a transaction: priority from the age of its inputs, fee rate from what they leave. */
  ghost function Rank(env: Env, m: Utxos, h: int, pool: seq<Transaction>, tx: Transaction): TxPriority
  {
    var deltas, n := env.deltas(tx.hash), |tx.vin|;
    var fee := TotalIn(m, pool, tx.vin, n) + deltas.1 - ValueOut(tx);
    TxPriority(env.priority(tx, CoinAge(m, pool, tx.vin, n, h)) + deltas.0, env.feeRate(fee, env.size(tx)), tx)
  }

  /** An orphan with an input that is nowhere to be found keeps the entry it was created with. */
  ghost predicate Ranked(env: Env, m: Utxos, h: int, pool: seq<Transaction>, vec: seq<TxPriority>, orphans: Orphans)
  {
    && (forall p <- vec :: p == Rank(env, m, h, pool, p.tx))
    && (forall id <- orphans :: orphans[id].Entry() == OrphanRank(env, m, h, pool, orphans[id].tx))
  }

  ghost function OrphanRank(env: Env, m: Utxos, h: int, pool: seq<Transaction>, tx: Transaction): TxPriority
  {
    if MissingInputs(m, pool, tx.vin) then TxPriority(0.0, 0, tx) else Rank(env, m, h, pool, tx)
  }

  /** If the view has all inputs, what they bring in is what the input check counts, so the fee is the same. */
  lemma {:induction false} TotalInIsInputValue(m: Utxos, pool: seq<Transaction>, vin: seq<OutPoint>, n: nat)
    requires n <= |vin| && HaveInputs(m, vin[..n])
    ensures TotalIn(m, pool, vin, n) == InputValue(m, vin[..n])
    decreases n
  {
    if n > 0 {
      assert vin[..n][..n - 1] == vin[..n - 1] && vin[..n][n - 1] == vin[n - 1];
      assert vin[n - 1] in vin[..n] && forall o <- vin[..n - 1] :: o in vin[..n];
      TotalInIsInputValue(m, pool, vin, n - 1);
    }
  }

  /** The fee rate of an entry whose inputs are all in the view is that of its fee and of what was added by hand. */
  lemma RankIsByFee(env: Env, m: Utxos, h: int, pool: seq<Transaction>, tx: Transaction)
    requires !tx.IsCoinBase() && !tx.IsCoinStake() && HaveInputs(m, tx.vin)
    ensures Rank(env, m, h, pool, tx).feeRate == env.feeRate(TxFee(m, tx) + env.deltas(tx.hash).1, env.size(tx))
  {
    assert tx.vin[..|tx.vin|] == tx.vin;
    TotalInIsInputValue(m, pool, tx.vin, |tx.vin|);
  }

  /** What those of the first n inputs bring in that the view has. */
  ghost function ValueInView(m: Utxos, pool: seq<Transaction>, vin: seq<OutPoint>, n: nat): Amount
    requires n <= |vin|
  {
    if n == 0 then 0 else ValueInView(m, pool, vin, n - 1) + if vin[n - 1].hash in m then ValueOf(m, pool, vin[n - 1]) else 0
  }

  /** Priority comes with age: with every block the inputs of the view add their value. */
  lemma {:induction false} AgeGrows(m: Utxos, pool: seq<Transaction>, vin: seq<OutPoint>, n: nat, h: int)
    requires n <= |vin|
    ensures CoinAge(m, pool, vin, n, h + 1) == CoinAge(m, pool, vin, n, h) + ValueInView(m, pool, vin, n) as real
    decreases n
  {
    hide ValueOf;
    if n > 0 {
      AgeGrows(m, pool, vin, n - 1, h);
      var out := vin[n - 1];
      if out.hash in m {
        var v, a := ValueOf(m, pool, out), h - m[out.hash].nHeight;
        OneMore(v, a);
      }
    }
  }

  lemma OneMore(v: int, a: int)
    ensures (v * (a + 1)) as real == (v * a) as real + v as real
  {
    assert v * (a + 1) == v * a + v;
  }

  /** Inputs that are no older than the block to come add nothing. */
  lemma {:induction false} FreshInputsHaveNoAge(m: Utxos, pool: seq<Transaction>, vin: seq<OutPoint>, n: nat, h: int)
    requires n <= |vin| && forall i :: 0 <= i < n && vin[i].hash in m ==> m[vin[i].hash].nHeight == h
    ensures CoinAge(m, pool, vin, n, h) == 0.0
    decreases n
  {
    hide ValueOf;
    if n > 0 { FreshInputsHaveNoAge(m, pool, vin, n - 1, h); }
  }

  lemma ValueIsInView(m: Utxos, pool: seq<Transaction>, tx: Transaction, i: nat)
    requires PoolOk(m, pool) && tx in pool && i < |tx.vin| && tx.vin[i].hash in m
    ensures tx.vin[i].n < |m[tx.vin[i].hash].vout| && ValueOf(m, pool, tx.vin[i]) == m[tx.vin[i].hash].vout[tx.vin[i].n].nValue
  {
    InputExists(m, pool, tx, i);
  }

  lemma ValueInPool(m: Utxos, pool: seq<Transaction>, tx: Transaction, i: nat, from: Transaction)
    requires PoolOk(m, pool) && tx in pool && i < |tx.vin| && tx.vin[i].hash !in m && from in pool && from.hash == tx.vin[i].hash
    ensures tx.vin[i].n < |from.vout| && ValueOf(m, pool, tx.vin[i]) == from.vout[tx.vin[i].n].nValue
  {
    InputExists(m, pool, tx, i);
    hide PoolOk;
    forall t | t in pool && t.hash == from.hash ensures t == from { OnePerId(m, pool, t, from); }
  }

  lemma SumsNext(m: Utxos, pool: seq<Transaction>, vin: seq<OutPoint>, i: nat, h: int)
    requires i < |vin|
    ensures TotalIn(m, pool, vin, i + 1) == TotalIn(m, pool, vin, i) + ValueOf(m, pool, vin[i])
    ensures var out := vin[i];
            CoinAge(m, pool, vin, i + 1, h)
            == CoinAge(m, pool, vin, i, h) + if out.hash in m then (ValueOf(m, pool, out) * (h - m[out.hash].nHeight)) as real else 0.0
  {
    hide ValueOf;
  }

  lemma RankIs(env: Env, m: Utxos, h: int, pool: seq<Transaction>, tx: Transaction, o: Orphan)
    ensures o.Entry() == TxPriority(o.dPriority, o.feeRate, o.tx)
    ensures var deltas, n := env.deltas(tx.hash), |tx.vin|;
            Rank(env, m, h, pool, tx)
            == TxPriority(env.priority(tx, CoinAge(m, pool, tx.vin, n, h)) + deltas.0,
                          env.feeRate(TotalIn(m, pool, tx.vin, n) + deltas.1 - ValueOut(tx), env.size(tx)), tx)
    ensures OrphanRank(env, m, h, pool, tx)
            == if MissingInputs(m, pool, tx.vin) then TxPriority(0.0, 0, tx) else Rank(env, m, h, pool, tx)
  {
  }

  lemma RankedMore(env: Env, m: Utxos, h: int, pool: seq<Transaction>,
                   vec: seq<TxPriority>, orphans: Orphans, p: TxPriority, o: Orphan)
    requires Ranked(env, m, h, pool, vec, orphans)
    ensures p == Rank(env, m, h, pool, p.tx) ==> Ranked(env, m, h, pool, vec + [p], orphans)
    ensures o.Entry() == OrphanRank(env, m, h, pool, o.tx) ==> Ranked(env, m, h, pool, vec, orphans[o.tx.hash := o])
  {
    hide Rank, OrphanRank;
  }

  lemma WaitsForNext(m: Utxos, vin: seq<OutPoint>, n: nat)
    requires n < |vin|
    ensures WaitsFor(m, vin, n + 1) == WaitsFor(m, vin, n) + if vin[n].hash in m then {} else {vin[n].hash}
  {
    if vin[n].hash !in m { assert vin[n].hash in WaitsFor(m, vin, n + 1); }
    forall h | h in WaitsFor(m, vin, n) ensures h in WaitsFor(m, vin, n + 1) {
      var i :| 0 <= i < n && vin[i].hash !in m && vin[i].hash == h;
    }
  }

  /** The orphans with one more, unless it waits for nothing. */
  ghost function WithOrphan(orphans: Orphans, tx: Transaction, waits: set<TxId>): Orphans
  {
    if waits == {} then orphans else orphans[tx.hash := Orphan(tx, waits, 0, 0.0)]
  }

  /** Looks at the inputs one by one, up to one that is nowhere to be found. */
  method ScanInputs(tx: Transaction, pool: seq<Transaction>, view: CoinsViewCache, nHeight: int, orphans: Orphans, deps: Dependents)
    returns (orphans': Orphans, deps': Dependents, fMissingInputs: bool, dPriority: real, nTotalIn: Amount, ghost waits: set<TxId>)
    requires view.Valid() && !view.hasModifier && PoolOk(view.Visible(), pool) && tx in pool
    requires Linked(orphans, deps) && tx.hash !in orphans
    modifies view.Repr
    ensures view.Valid() && !view.hasModifier && view.Visible() == old(view.Visible()) && view.Lower() == old(view.Lower())
    ensures Linked(orphans', deps') && orphans' == WithOrphan(orphans, tx, waits)
    ensures fMissingInputs == MissingInputs(view.Visible(), pool, tx.vin)
    ensures !fMissingInputs ==> waits == WaitsFor(view.Visible(), tx.vin, |tx.vin|)
    ensures !fMissingInputs ==> nTotalIn == TotalIn(view.Visible(), pool, tx.vin, |tx.vin|)
                                && dPriority == CoinAge(view.Visible(), pool, tx.vin, |tx.vin|, nHeight)
    ensures forall h <- waits :: h !in view.Visible() && InPool(pool, h)
  {
    hide *;
    ghost var m := view.Visible();
    orphans', deps', dPriority, nTotalIn, fMissingInputs := orphans, deps, 0.0, 0, false;
    waits := {};
    NoInputsYet(m, pool, tx.vin, nHeight);
    NoOrphanYet(orphans, tx);
    var i := 0;
    while i < |tx.vin|
      invariant 0 <= i <= |tx.vin|
      invariant view.Valid() && !view.hasModifier && view.Visible() == m && view.Lower() == old(view.Lower())
      invariant Linked(orphans', deps') && orphans' == WithOrphan(orphans, tx, waits) && waits == WaitsFor(m, tx.vin, i)
      invariant nTotalIn == TotalIn(m, pool, tx.vin, i) && dPriority == CoinAge(m, pool, tx.vin, i, nHeight)
      invariant forall j :: 0 <= j < i ==> !Unknown(m, pool, tx.vin[j])
      invariant forall h <- waits :: h !in m && InPool(pool, h)
    {
      WaitsForNext(m, tx.vin, i);
      SumsNext(m, pool, tx.vin, i, nHeight);
      var prevout := tx.vin[i];
      InputExists(m, pool, tx, i);
      var have := view.HaveCoins(prevout.hash);
      if !have {
        var found, prevTx := Lookup(pool, prevout.hash);
        if !found {
          fMissingInputs := true;
          IsMissing(m, pool, tx.vin, i);
          return;
        }
        WithOrphanNext(orphans, tx, waits, prevout.hash);
        ValueInPool(m, pool, tx, i, prevTx);
        orphans', deps' := RecordOrphanTransaction(orphans', deps', tx, prevout.hash);
        waits := waits + {prevout.hash};
        nTotalIn := nTotalIn + prevTx.vout[prevout.n].nValue;
      } else {
        var ok, coins := view.GetCoins(prevout.hash);
        assert ok;   // the assertion of the source
        ValueIsInView(m, pool, tx, i);
        nTotalIn := nTotalIn + coins.vout[prevout.n].nValue;
        dPriority := dPriority + (coins.vout[prevout.n].nValue * (nHeight - coins.nHeight)) as real;
      }
      i := i + 1;
    }
    NoneMissing(m, pool, tx.vin);
  }

  lemma InputExists(m: Utxos, pool: seq<Transaction>, tx: Transaction, i: nat)
    requires PoolOk(m, pool) && tx in pool && i < |tx.vin|
    ensures var out := tx.vin[i];
            && (out.hash in m ==> out.n < |m[out.hash].vout|)
            && (out.hash !in m ==> forall t <- pool :: t.hash == out.hash ==> out.n < |t.vout|)
            && (Unknown(m, pool, out) <==> out.hash !in m && !InPool(pool, out.hash))
  {
    hide Distinct, NoRepeats, InPool;
    assert OutputExists(m, pool, tx.vin[i]);
  }

  lemma IsMissing(m: Utxos, pool: seq<Transaction>, vin: seq<OutPoint>, i: nat)
    requires i < |vin| && Unknown(m, pool, vin[i])
    ensures MissingInputs(m, pool, vin)
  {
  }

  lemma NoneMissing(m: Utxos, pool: seq<Transaction>, vin: seq<OutPoint>)
    requires forall i :: 0 <= i < |vin| ==> !Unknown(m, pool, vin[i])
    ensures !MissingInputs(m, pool, vin)
  {
  }

  lemma NoOrphanYet(orphans: Orphans, tx: Transaction)
    ensures WithOrphan(orphans, tx, {}) == orphans
  {
  }

  lemma WithOrphanNext(orphans: Orphans, tx: Transaction, waits: set<TxId>, hash: TxId)
    requires tx.hash !in orphans
    ensures var before := WithOrphan(orphans, tx, waits);
            && (tx.hash in before ==> before[tx.hash].tx == tx)
            && WithOrphan(orphans, tx, waits + {hash})
               == before[tx.hash := (if tx.hash in before then before[tx.hash] else Orphan(tx, {}, 0, 0.0)).(
                    setDependsOn := (if tx.hash in before then before[tx.hash].setDependsOn else {}) + {hash})]
  {
    assert hash in waits + {hash};
    if waits == {} { assert waits + {hash} == {} + {hash}; }
  }

  lemma NoInputsYet(m: Utxos, pool: seq<Transaction>, vin: seq<OutPoint>, h: int)
    ensures WaitsFor(m, vin, 0) == {} && TotalIn(m, pool, vin, 0) == 0 && CoinAge(m, pool, vin, 0, h) == 0.0
  {
  }

  /** Coinbases, coinstakes and transactions that are not final stay out. */
  predicate Skipped(env: Env, tx: Transaction) { tx.IsCoinBase() || tx.IsCoinStake() || !env.isFinal(tx) }

  /** Where a transaction of the pool has been put. */
  ghost predicate Placed(env: Env, m: Utxos, pool: seq<Transaction>, tx: Transaction, vec: seq<TxPriority>, orphans: Orphans)
  {
    if Skipped(env, tx) then tx.hash !in Queued(vec) && tx.hash !in orphans
    else if MissingInputs(m, pool, tx.vin) then tx.hash !in Queued(vec)
    else
      var waits := WaitsFor(m, tx.vin, |tx.vin|);
      && (tx.hash in Queued(vec) <==> waits == {})
      && (tx.hash in orphans <==> waits != {})
      && (waits != {} ==> orphans[tx.hash].tx == tx && orphans[tx.hash].setDependsOn == waits)
  }

  /** Entries and orphans are transactions of the list, and orphans wait for transactions of the pool. */
  ghost predicate Sourced(m: Utxos, pool: seq<Transaction>, k: nat, vec: seq<TxPriority>, orphans: Orphans)
    requires k <= |pool|
  {
    && (forall p <- vec :: p.tx in pool[..k])
    && (forall id <- orphans :: orphans[id].tx in pool[..k] && forall h <- orphans[id].setDependsOn :: h !in m && InPool(pool, h))
  }

  lemma NotYet(m: Utxos, pool: seq<Transaction>, k: nat, vec: seq<TxPriority>, orphans: Orphans, deps: Dependents)
    requires k < |pool| && NoRepeats(pool) && Sourced(m, pool, k, vec, orphans) && Prioritized(vec, orphans, deps)
    ensures pool[k].hash !in Queued(vec) && pool[k].hash !in orphans
  {
    hide Ordinary, DistinctIds, InPool;
    var id := pool[k].hash;
    forall i | 0 <= i < |vec| ensures vec[i].tx.hash != id { assert vec[i] in vec; }
    forall o | o in orphans ensures o != id { assert orphans[o].tx in pool[..k]; }
  }

  /** The next transaction gets its place and the others keep theirs. */
  lemma PlacedNext(env: Env, m: Utxos, pool: seq<Transaction>, tx: Transaction, vec: seq<TxPriority>, orphans: Orphans,
                   vec': seq<TxPriority>, orphans': Orphans, id: TxId)
    requires Placed(env, m, pool, tx, vec, orphans) && tx.hash != id
    requires Queued(vec) <= Queued(vec') <= Queued(vec) + {id} && orphans.Keys <= orphans'.Keys <= orphans.Keys + {id}
    requires forall o <- orphans :: o != id ==> orphans'[o] == orphans[o]
    ensures Placed(env, m, pool, tx, vec', orphans')
  {
    hide Queued, WaitsFor, Skipped, MissingInputs;
  }

  method PrioritizeMempoolTransactions(env: Env, pool: seq<Transaction>, view: CoinsViewCache, nHeight: int)
    returns (vec: seq<TxPriority>, orphans: Orphans, deps: Dependents)
    requires view.Valid() && !view.hasModifier && PoolOk(view.Visible(), pool)
    modifies view.Repr
    ensures view.Valid() && !view.hasModifier && view.Visible() == old(view.Visible()) && view.Lower() == old(view.Lower())
    ensures Prioritized(vec, orphans, deps) && Sourced(view.Visible(), pool, |pool|, vec, orphans)
    ensures forall i :: 0 <= i < |pool| ==> Placed(env, view.Visible(), pool, pool[i], vec, orphans)
    ensures Ranked(env, view.Visible(), nHeight, pool, vec, orphans)
  {
    hide *;
    ghost var m := view.Visible();
    vec, orphans, deps := [], map[], map[];
    NothingPrioritized(m, pool);
    var k := 0;
    while k < |pool|
      invariant 0 <= k <= |pool|
      invariant view.Valid() && !view.hasModifier && view.Visible() == m && view.Lower() == old(view.Lower())
      invariant Prioritized(vec, orphans, deps) && Sourced(m, pool, k, vec, orphans)
      invariant forall i :: 0 <= i < k ==> Placed(env, m, pool, pool[i], vec, orphans)
      invariant Ranked(env, m, nHeight, pool, vec, orphans)
    {
      var tx := pool[k];
      PoolParts(m, pool, k);
      NotYet(m, pool, k, vec, orphans, deps);
      ghost var vec0, orphans0, deps0 := vec, orphans, deps;
      if !Skipped(env, tx) {
        PrioritizedParts(vec, orphans, deps);
        var orphans', deps', fMissingInputs, dPriority, nTotalIn, waits := ScanInputs(tx, pool, view, nHeight, orphans, deps);
        orphans, deps := orphans', deps';
        WithOrphanKeys(orphans0, tx, waits);
        if !fMissingInputs {
          var deltas := env.deltas(tx.hash);
          dPriority, nTotalIn := env.priority(tx, dPriority) + deltas.0, nTotalIn + deltas.1;
          var rate := env.feeRate(nTotalIn - ValueOut(tx), env.size(tx));
          if tx.hash in orphans {
            orphans := orphans[tx.hash := orphans[tx.hash].(dPriority := dPriority, feeRate := rate)];
          } else {
            vec := vec + [TxPriority(dPriority, rate, tx)];
          }
        }
        ghost var p, o := TxPriority(0.0, 0, tx), Orphan(tx, waits, 0, 0.0);
        if !fMissingInputs && waits == {} { p := vec[|vec0|]; }
        if !fMissingInputs && waits != {} { o := orphans[tx.hash]; }
        RankIs(env, m, nHeight, pool, tx, o);
        RankedMore(env, m, nHeight, pool, vec0, orphans0, p, o);
        OnePrioritized(env, m, pool, k, vec0, orphans0, deps0, vec, orphans, deps, waits, p, o);
      } else {
        OneSkipped(env, m, pool, k, vec, orphans);
      }
      forall i | 0 <= i < k ensures Placed(env, m, pool, pool[i], vec, orphans) {
        OthersApart(pool, i, k);
        PlacedNext(env, m, pool, pool[i], vec0, orphans0, vec, orphans, tx.hash);
      }
      k := k + 1;
    }
    assert pool[..k] == pool;
  }

  lemma NothingPrioritized(m: Utxos, pool: seq<Transaction>)
    ensures Prioritized([], map[], map[]) && Sourced(m, pool, 0, [], map[])
    ensures forall env, h :: Ranked(env, m, h, pool, [], map[])
  {
  }

  lemma PoolParts(m: Utxos, pool: seq<Transaction>, k: nat)
    requires PoolOk(m, pool) && k < |pool|
    ensures NoRepeats(pool) && pool[k] in pool && Distinct(pool[k].vin)
  {
    hide OutputExists, Distinct;
    assert pool[k] in pool;
  }

  lemma OthersApart(pool: seq<Transaction>, i: nat, k: nat)
    requires NoRepeats(pool) && i < k < |pool|
    ensures pool[i].hash != pool[k].hash
  {
  }

  lemma WithOrphanKeys(orphans: Orphans, tx: Transaction, waits: set<TxId>)
    requires tx.hash !in orphans
    ensures tx.hash in WithOrphan(orphans, tx, waits) <==> waits != {}
    ensures waits != {} ==> WithOrphan(orphans, tx, waits)[tx.hash] == Orphan(tx, waits, 0, 0.0)
    ensures WithOrphan(orphans, tx, waits) == if waits == {} then orphans else orphans[tx.hash := Orphan(tx, waits, 0, 0.0)]
  {
  }

  lemma SourcedMore(m: Utxos, pool: seq<Transaction>, k: nat, vec: seq<TxPriority>, orphans: Orphans)
    requires k < |pool| && Sourced(m, pool, k, vec, orphans)
    ensures Sourced(m, pool, k + 1, vec, orphans)
  {
    hide InPool;
    assert forall tx <- pool[..k] :: tx in pool[..k + 1];
  }

  lemma OneSkipped(env: Env, m: Utxos, pool: seq<Transaction>, k: nat, vec: seq<TxPriority>, orphans: Orphans)
    requires k < |pool| && Sourced(m, pool, k, vec, orphans) && Skipped(env, pool[k])
    requires pool[k].hash !in Queued(vec) && pool[k].hash !in orphans
    ensures Sourced(m, pool, k + 1, vec, orphans) && Placed(env, m, pool, pool[k], vec, orphans)
  {
    hide Queued, Sourced;
    SourcedMore(m, pool, k, vec, orphans);
  }

  lemma LinkedTouched(orphans: Orphans, deps: Dependents, id: TxId, o: Orphan)
    requires Linked(orphans, deps) && id in orphans && o.tx == orphans[id].tx && o.setDependsOn == orphans[id].setDependsOn
    ensures Linked(orphans[id := o], deps)
  {
  }

  lemma OnePrioritized(env: Env, m: Utxos, pool: seq<Transaction>, k: nat, vec0: seq<TxPriority>, orphans0: Orphans, deps0: Dependents,
                       vec: seq<TxPriority>, orphans: Orphans, deps: Dependents, waits: set<TxId>, p: TxPriority, o: Orphan)
    requires k < |pool| && !Skipped(env, pool[k]) && Distinct(pool[k].vin)
    requires Prioritized(vec0, orphans0, deps0) && Sourced(m, pool, k, vec0, orphans0)
    requires pool[k].hash !in Queued(vec0) && pool[k].hash !in orphans0
    requires Linked(WithOrphan(orphans0, pool[k], waits), deps)
    requires var missing := MissingInputs(m, pool, pool[k].vin);
             && (!missing ==> waits == WaitsFor(m, pool[k].vin, |pool[k].vin|))
             && vec == (if !missing && waits == {} then vec0 + [p] else vec0)
    requires (forall h <- waits :: h !in m && InPool(pool, h)) && p.tx == pool[k]
    requires o.tx == pool[k] && o.setDependsOn == waits && orphans == if waits == {} then orphans0 else orphans0[pool[k].hash := o]
    ensures Prioritized(vec, orphans, deps) && Sourced(m, pool, k + 1, vec, orphans) && Placed(env, m, pool, pool[k], vec, orphans)
    ensures Queued(vec0) <= Queued(vec) <= Queued(vec0) + {pool[k].hash}
    ensures orphans0.Keys <= orphans.Keys <= orphans0.Keys + {pool[k].hash}
    ensures forall id <- orphans0 :: id != pool[k].hash ==> orphans[id] == orphans0[id]
  {
    hide Queued, WaitsFor, MissingInputs, InPool, Distinct, Linked, Sourced;
    var tx := pool[k];
    assert Ordinary(tx);
    QueuedSnoc(vec0, p);
    DistinctSnoc(vec0, p);
    WithOrphanKeys(orphans0, tx, waits);
    if waits != {} { LinkedTouched(WithOrphan(orphans0, tx, waits), deps, tx.hash, o); }
    assert WithOrphan(orphans0, tx, waits)[tx.hash := o] == orphans0[tx.hash := o];
    SourcedMore(m, pool, k, vec0, orphans0);
    SourcedOne(m, pool, k, vec0, orphans0, vec, orphans, p, o);
  }

  lemma DistinctSnoc(vec: seq<TxPriority>, p: TxPriority)
    requires DistinctIds(vec) && p.tx.hash !in Queued(vec)
    ensures DistinctIds(vec + [p])
  {
    forall i | 0 <= i < |vec| ensures vec[i].tx.hash != p.tx.hash { assert vec[i].tx.hash in Queued(vec); }
  }

  lemma SourcedOne(m: Utxos, pool: seq<Transaction>, k: nat, vec0: seq<TxPriority>, orphans0: Orphans,
                   vec: seq<TxPriority>, orphans: Orphans, p: TxPriority, o: Orphan)
    requires k < |pool| && Sourced(m, pool, k + 1, vec0, orphans0) && p.tx == o.tx == pool[k]
    requires vec == vec0 || vec == vec0 + [p]
    requires forall h <- o.setDependsOn :: h !in m && InPool(pool, h)
    requires orphans == orphans0 || orphans == orphans0[pool[k].hash := o]
    ensures Sourced(m, pool, k + 1, vec, orphans)
  {
    hide InPool;
    assert pool[..k + 1][k] == pool[k];
  }

  // ---- The block that comes out ----

  lemma {:induction false} KeysOfConnected(m: Utxos, txs: seq<Transaction>, h: int)
    requires CanConnect(m, txs, h)
    ensures ConnectAll(m, txs, h).Keys <= m.Keys + Hashes(txs)
    decreases |txs|
  {
    hide CanSpendAll, FromTx, SpendAll;
    if txs != [] {
      var n := |txs| - 1;
      KeysOfConnected(m, txs[..n], h);
      SpendKeys(ConnectAll(m, txs[..n], h), Inputs(txs[n]));
      assert txs == txs[..n] + [txs[n]];
      HashesSnoc(txs[..n], txs[n]);
    }
  }

  lemma {:induction false} SpendKeys(m: Utxos, vin: seq<OutPoint>)
    requires CanSpendAll(m, vin)
    ensures SpendAll(m, vin).Keys <= m.Keys
    decreases |vin|
  {
    hide SpentCoins;
    if vin != [] { SpendKeys(m, vin[..|vin| - 1]); }
  }

  lemma {:induction false} ConnectPrefix(m: Utxos, txs: seq<Transaction>, h: int, i: nat)
    requires CanConnect(m, txs, h) && i < |txs|
    ensures CanConnect(m, txs[..i], h) && CanSpendAll(ConnectAll(m, txs[..i], h), Inputs(txs[i]))
    decreases |txs|
  {
    hide CanSpendAll, ApplyTx;
    var n := |txs| - 1;
    if i < n {
      ConnectPrefix(m, txs[..n], h, i);
      assert txs[..n][..i] == txs[..i];
    }
  }

  lemma {:induction false} SpentIsThere(m: Utxos, vin: seq<OutPoint>, j: nat)
    requires CanSpendAll(m, vin) && j < |vin|
    ensures vin[j].hash in m
    decreases |vin|
  {
    hide SpentCoins;
    var n := |vin| - 1;
    if j < n { SpentIsThere(m, vin[..n], j); } else { SpendKeys(m, vin[..n]); }
  }

  /** A transaction of the list that others spend from comes before them. */
  lemma ParentsComeFirst(m: Utxos, txs: seq<Transaction>, h: int, i: nat, j: nat)
    requires CanConnect(m, txs, h) && i < |txs| && j < |Inputs(txs[i])|
    ensures Inputs(txs[i])[j].hash in m || exists p :: 0 <= p < i && txs[p].hash == Inputs(txs[i])[j].hash
  {
    hide CanSpendAll, ConnectAll, CanConnect, Inputs;
    ConnectPrefix(m, txs, h, i);
    KeysOfConnected(m, txs[..i], h);
    SpentIsThere(ConnectAll(m, txs[..i], h), Inputs(txs[i]), j);
    var hash := Inputs(txs[i])[j].hash;
    if hash !in m {
      assert hash in Hashes(txs[..i]);
      var p :| 0 <= p < i && txs[..i][p].hash == hash;
      assert txs[p].hash == hash;
    }
  }

  ghost predicate WaitsForOmitted(m: Utxos, pool: seq<Transaction>, txs: seq<Transaction>, tx: Transaction)
  {
    exists i :: 0 <= i < |tx.vin| && tx.vin[i].hash !in m && InPool(pool, tx.vin[i].hash) && tx.vin[i].hash !in Hashes(txs)
  }

  lemma WaitingIsOmitted(m: Utxos, pool: seq<Transaction>, txs: seq<Transaction>, tx: Transaction, parent: TxId)
    requires parent in WaitsFor(m, tx.vin, |tx.vin|) && InPool(pool, parent) && parent !in Hashes(txs)
    ensures WaitsForOmitted(m, pool, txs, tx)
  {
  }

  /** The transaction was taken from the queue and failed a check, after the first of the chosen ones. */
  ghost predicate RefusedAt(env: Env, m: Utxos, h: int, log: seq<Round>, k: int, tx: Transaction)
  {
    && 0 <= k < |log| && log[k].entry.tx == tx
    && Chosen(log[..k]) <= Chosen(log) && !Passes(env, m, h, Chosen(log[..k]), log[k].entry, log[k].byFee)
  }

  /** Why a transaction of the pool is or is not in the block. */
  ghost predicate Accounted(env: Env, m: Utxos, h: int, pool: seq<Transaction>, log: seq<Round>, tx: Transaction)
  {
    || tx in Chosen(log)
    || Skipped(env, tx)
    || (exists k :: RefusedAt(env, m, h, log, k, tx))
    || MissingInputs(m, pool, tx.vin)
    || WaitsForOmitted(m, pool, Chosen(log), tx)
  }

  /**
    Assembling a block: the transactions come from the pool, apply in order, pass the checks where
    they stand and respect the limits; they are the choice of a greedy run over the entries that the
    pool gives, and each transaction of the pool is accounted for.
   */
  method AddTransactionsToBlockIfPossible(env: Env, pool: seq<Transaction>, view: CoinsViewCache, nHeight: int)
    returns (txs: seq<Transaction>, ghost first: seq<TxPriority>, ghost waiting: Orphans, ghost log: seq<Round>)
    requires view.Valid() && !view.hasModifier && PoolOk(view.Visible(), pool)
    modifies view.Repr
    ensures view.Valid() && !view.hasModifier && view.Lower() == old(view.Lower())
    ensures Packed(env, old(view.Visible()), txs, nHeight) && view.Visible() == ConnectAll(old(view.Visible()), txs, nHeight)
    ensures NoRepeats(txs) && forall tx <- txs :: tx in pool
    ensures forall tx <- pool :: Placed(env, old(view.Visible()), pool, tx, first, waiting)
    ensures Ranked(env, old(view.Visible()), nHeight, pool, first, waiting)
    ensures txs == Chosen(log) && Greedy(env, old(view.Visible()), nHeight, first, waiting, log) && Exhausted(first, waiting, log)
    ensures forall tx <- pool :: Accounted(env, old(view.Visible()), nHeight, pool, log, tx)
  {
    hide *;
    ghost var m := view.Visible();
    var vec, orphans, deps := PrioritizeMempoolTransactions(env, pool, view, nHeight);
    first, waiting := vec, orphans;
    txs, log := PrioritizeTransactions(env, vec, orphans, deps, view, nHeight);
    forall tx | tx in txs ensures tx in pool { ComesFromPool(m, pool, vec, orphans, tx); }
    forall tx | tx in pool ensures Placed(env, m, pool, tx, vec, orphans) {
      var i :| 0 <= i < |pool| && pool[i] == tx;
    }
    forall tx | tx in pool ensures Accounted(env, m, nHeight, pool, log, tx) {
      AccountFor(env, m, nHeight, pool, vec, orphans, log, tx);
    }
  }

  lemma ComesFromPool(m: Utxos, pool: seq<Transaction>, vec: seq<TxPriority>, orphans: Orphans, tx: Transaction)
    requires Sourced(m, pool, |pool|, vec, orphans) && FromQueue(vec, orphans, tx)
    ensures tx in pool
  {
    hide InPool;
    assert pool[..|pool|] == pool;
  }

  /** The pool has one transaction of an id. */
  lemma OnePerId(m: Utxos, pool: seq<Transaction>, a: Transaction, b: Transaction)
    requires PoolOk(m, pool) && a in pool && b in pool && a.hash == b.hash
    ensures a == b
  {
  }

  lemma {:induction false} ChosenPrefix(log: seq<Round>, k: nat)
    requires k <= |log|
    ensures Chosen(log[..k]) <= Chosen(log)
  {
    var n := |log| - 1;
    if k == |log| {
      assert log[..k] == log;
    } else {
      ChosenPrefix(log[..n], k);
      assert log[..n][..k] == log[..k];
    }
  }

  /** Whatever was rejected came up in a round, and failed a check there. */
  lemma RejectedInARound(env: Env, m: Utxos, h: int, pool: seq<Transaction>, vec: seq<TxPriority>, orphans: Orphans,
                         log: seq<Round>, tx: Transaction)
    requires PoolOk(m, pool) && Sourced(m, pool, |pool|, vec, orphans) && Greedy(env, m, h, vec, orphans, log)
    requires tx in pool && tx.hash in Rejected(log)
    ensures exists k :: RefusedAt(env, m, h, log, k, tx)
  {
    hide PoolOk, Sourced, Passes, Chosen, FeeOrder, Less;
    var k :| 0 <= k < |log| && !log[k].chosen && log[k].entry.tx.hash == tx.hash;
    assert RoundOk(env, m, h, vec, orphans, log[..k], log[k]);
    ComesFromPool(m, pool, vec, orphans, log[k].entry.tx);
    OnePerId(m, pool, tx, log[k].entry.tx);
    ChosenPrefix(log, k);
    assert RefusedAt(env, m, h, log, k, tx);
  }

  lemma AccountFor(env: Env, m: Utxos, h: int, pool: seq<Transaction>, vec: seq<TxPriority>, orphans: Orphans,
                   log: seq<Round>, tx: Transaction)
    requires Placed(env, m, pool, tx, vec, orphans) && Sourced(m, pool, |pool|, vec, orphans) && PoolOk(m, pool) && tx in pool
    requires Greedy(env, m, h, vec, orphans, log) && forall t <- Chosen(log) :: t in pool
    requires forall id :: id in Queued(vec) || id in orphans ==>
              id in Hashes(Chosen(log)) || id in Rejected(log)
              || (id in orphans && exists parent :: parent in orphans[id].setDependsOn && parent !in Hashes(Chosen(log)))
    ensures Accounted(env, m, h, pool, log, tx)
  {
    hide Queued, WaitsFor, MissingInputs, Skipped, WaitsForOmitted, InPool, Greedy, Chosen, Rejected, PoolOk;
    if tx.hash in Hashes(Chosen(log)) {
      var i :| 0 <= i < |Chosen(log)| && Chosen(log)[i].hash == tx.hash;
      OnePerId(m, pool, tx, Chosen(log)[i]);
    } else if tx.hash in Rejected(log) {
      RejectedInARound(env, m, h, pool, vec, orphans, log, tx);
    } else if !Skipped(env, tx) && !MissingInputs(m, pool, tx.vin) {
      assert tx.hash in Queued(vec) || tx.hash in orphans;
      var parent :| parent in orphans[tx.hash].setDependsOn && parent !in Hashes(Chosen(log));
      WaitingIsOmitted(m, pool, Chosen(log), tx, parent);
    }
  }
}
