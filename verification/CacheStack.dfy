/**
  Whole runs over stacks of caches: reads, modifications, flushes and nested caches that are
  dropped at the end (forgetting what they have not flushed), in any order and to any depth,
  have exactly the effect of the same operations on flat maps.
 */
module CacheStack {
  import opened Basics
  import opened Coins
  import opened CoinsCache

  datatype Op =
    | Read(id: TxId)
    | Modify(id: TxId, change: Coins -> Coins)
    | FlushOp
    | Nested(ops: seq<Op>)   // run these on a new cache on top, then drop that cache

  /** A modification may not depend on the stale metadata of a fully spent record. */
  ghost predicate Respectful(change: Coins -> Coins)
  {
    forall c: Coins, d: Coins :: c.Same(d) ==> Cleanup(change(c)).Same(Cleanup(change(d)))
  }

  ghost predicate AllRespectful(ops: seq<Op>)
  {
    forall op <- ops ::
      (op.Modify? ==> Respectful(op.change)) && (op.Nested? ==> AllRespectful(op.ops))
  }

  /** Two flat maps: what is seen, and what lies below (what remains if the cache is dropped). */
  datatype Flat = Flat(below: Utxos, visible: Utxos)

  ghost function FlatStep(f: Flat, op: Op): Flat
    decreases op, 0
  {
    match op
    case Read(_) => f
    case Modify(id, change) => f.(visible := Put(f.visible, id, Cleanup(change(Lookup(f.visible, id)))))
    case FlushOp => Flat(f.visible, f.visible)
    case Nested(ops) => f.(visible := FlatRun(Flat(f.visible, f.visible), ops).below)
  }

  ghost function FlatRun(f: Flat, ops: seq<Op>): Flat
    decreases ops, 1
  {
    if ops == [] then f else FlatRun(FlatStep(f, ops[0]), ops[1..])
  }

  ghost function FlatRead(m: Utxos, id: TxId): Option<Coins> { if id in m then Some(m[id]) else None }

  /** The answers that the reads of a run get, in order. */
  ghost function FlatReads(f: Flat, ops: seq<Op>): seq<Option<Coins>>
    decreases ops
  {
    if ops == [] then []
    else (match ops[0]
          case Read(id) => [FlatRead(f.visible, id)]
          case Nested(sub) => FlatReads(Flat(f.visible, f.visible), sub)
          case _ => []) + FlatReads(FlatStep(f, ops[0]), ops[1..])
  }

  lemma PutSameCoins(m: Utxos, id: TxId, c: Coins, d: Coins)
    requires c.Same(d)
    ensures Put(m, id, c) == Put(m, id, d)
  {
  }

  method Step(view: CoinsViewCache, op: Op) returns (answers: seq<Option<Coins>>)
    requires view.Valid() && !view.hasModifier
    requires AllRespectful([op])
    modifies view.Repr
    ensures view.Valid() && !view.hasModifier && view.Lower()[1..] == old(view.Lower())[1..]
    ensures Flat(view.Below(), view.Visible()) == FlatStep(Flat(old(view.Below()), old(view.Visible())), op)
    ensures answers == FlatReads(Flat(old(view.Below()), old(view.Visible())), [op])
    decreases op, 0
  {
    hide Overlay, EntryOk, Put;
    assert op in [op];
    if op.Read? {
      var found, c := view.GetCoins(op.id);
      answers := [if found && !c.IsPruned() then Some(c) else None];
    } else if op.Modify? {
      var c := view.ModifyCoins(op.id);
      view.Release(op.id, op.change(c));
      assert Respectful(op.change);
      PutSameCoins(old(view.Visible()), op.id, Cleanup(op.change(c)),
                   Cleanup(op.change(Lookup(old(view.Visible()), op.id))));
      answers := [];
    } else if op.FlushOp? {
      view.Flush();
      answers := [];
    } else {
      var child := new CoinsViewCache.OnCache(view);
      answers := Run(child, op.ops);
      assert view.Valid() && child.Below() == view.Visible();
    }
  }

  method Run(view: CoinsViewCache, ops: seq<Op>) returns (answers: seq<Option<Coins>>)
    requires view.Valid() && !view.hasModifier
    requires AllRespectful(ops)
    modifies view.Repr
    ensures view.Valid() && !view.hasModifier && view.Lower()[1..] == old(view.Lower())[1..]
    ensures Flat(view.Below(), view.Visible()) == FlatRun(Flat(old(view.Below()), old(view.Visible())), ops)
    ensures answers == FlatReads(Flat(old(view.Below()), old(view.Visible())), ops)
    decreases ops, 1
  {
    hide Overlay, EntryOk, LevelOk, Put, FlatStep, UnspentOnly, Respectful, CoinsViewCache.Valid, FlatRun, FlatReads, AllRespectful;
    answers := [];
    var i := 0;
    ghost var start := Flat(view.Below(), view.Visible());
    assert ops[0..] == ops && [] + FlatReads(start, ops) == FlatReads(start, ops);
    while i < |ops|
      invariant 0 <= i <= |ops|
      invariant view.Valid() && !view.hasModifier && view.Lower()[1..] == old(view.Lower())[1..]
      invariant FlatRun(Flat(view.Below(), view.Visible()), ops[i..]) == FlatRun(start, ops)
      invariant answers + FlatReads(Flat(view.Below(), view.Visible()), ops[i..]) == FlatReads(start, ops)
    {
      ghost var before := Flat(view.Below(), view.Visible());
      OneRespectful(ops, i);
      var now := Step(view, ops[i]);
      assert ops[i..][1..] == ops[i + 1..];
      FlatReadsOne(before, ops[i..]);
      answers := answers + now;
      i := i + 1;
    }
    NothingLeft(Flat(view.Below(), view.Visible()), ops[i..]);
  }

  lemma NothingLeft(f: Flat, ops: seq<Op>)
    requires ops == []
    ensures FlatRun(f, ops) == f && FlatReads(f, ops) == []
  {
  }

  lemma OneRespectful(ops: seq<Op>, i: nat)
    requires AllRespectful(ops) && i < |ops|
    ensures AllRespectful([ops[i]])
  {
    assert ops[i] in ops;
  }

  lemma FlatReadsOne(f: Flat, ops: seq<Op>)
    requires ops != []
    ensures FlatReads(f, ops) == FlatReads(f, [ops[0]]) + FlatReads(FlatStep(f, ops[0]), ops[1..])
    ensures FlatRun(f, ops) == FlatRun(FlatStep(f, ops[0]), ops[1..])
  {
  }
}
