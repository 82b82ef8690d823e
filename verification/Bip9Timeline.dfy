/**
  The state of a deployment without the recursion: a period qualifies if the period before it had
  started, enough of its blocks signalled, and the timeout is not reached. The first period that
  qualifies is locked in and all later ones are active; otherwise time alone decides.
 */
module Bip9Timeline {
  import opened BlockTree
  import opened MedianTime
  import opened Bip9

  /** The period that begins with b is one at whose beginning the deployment can lock in. */
  ghost predicate Qualifies(bip: Deployment, b: BlockIndex)
    requires Rooted(b) && bip.nPeriod > 0
  {
    && b.nHeight >= bip.nPeriod
    && MedianTimePast(Before(bip, b)) >= bip.nStartTime && MedianTimePast(b) < bip.nTimeout
    && |SignalHeights(bip, b.pprev, bip.nPeriod)| >= bip.threshold
  }

  /** Some period before that of b qualifies. */
  ghost predicate QualifiedBefore(bip: Deployment, b: BlockIndex)
    requires Rooted(b) && bip.nPeriod > 0
  {
    exists n: nat :: n > 0 && QualifiesBack(bip, b, n)
  }

  ghost predicate QualifiesBack(bip: Deployment, b: BlockIndex, n: nat)
    requires Rooted(b) && bip.nPeriod > 0
  {
    var q := PeriodsBack(bip, b, n);
    q != null && Qualifies(bip, q)
  }

  lemma BackOnce(bip: Deployment, b: BlockIndex, n: nat)
    requires Rooted(b) && bip.nPeriod > 0 && n > 0
    ensures QualifiesBack(bip, b, n) <==> Before(bip, b) != null && QualifiesBack(bip, Before(bip, b), n - 1)
  {
    hide Qualifies, Before;
    assert PeriodsBack(bip, b, n) == PeriodsBack(bip, Before(bip, b), n - 1);
  }

  lemma BackNone(bip: Deployment, b: BlockIndex)
    requires Rooted(b) && bip.nPeriod > 0
    ensures QualifiesBack(bip, b, 0) <==> Qualifies(bip, b)
  {
    hide Qualifies;
  }

  /** Qualifying before b is qualifying at the period before, or before that. */
  lemma QualifiedBeforeIs(bip: Deployment, b: BlockIndex)
    requires Rooted(b) && bip.nPeriod > 0
    ensures var p := Before(bip, b);
            QualifiedBefore(bip, b) <==> p != null && (Qualifies(bip, p) || QualifiedBefore(bip, p))
  {
    hide Qualifies, Before, QualifiesBack;
    var p := Before(bip, b);
    if QualifiedBefore(bip, b) {
      var n: nat :| n > 0 && QualifiesBack(bip, b, n);
      BackOnce(bip, b, n);
      if n == 1 { BackNone(bip, p); } else { assert QualifiesBack(bip, p, n - 1); }
    }
    if p != null && Qualifies(bip, p) {
      BackNone(bip, p);
      BackOnce(bip, b, 1);
    }
    if p != null && QualifiedBefore(bip, p) {
      var n: nat :| n > 0 && QualifiesBack(bip, p, n);
      BackOnce(bip, b, n + 1);
      assert QualifiesBack(bip, b, n + 1);
    }
  }

  /** The state, told by times and signals alone. */
  ghost function StateByTimes(bip: Deployment, b: BlockIndex): ThresholdState
    requires Rooted(b) && bip.nPeriod > 0
  {
    if QualifiedBefore(bip, b) then ACTIVE
    else if Qualifies(bip, b) then LOCKED_IN
    else if MedianTimePast(b) >= bip.nTimeout then FAILED
    else if MedianTimePast(b) >= bip.nStartTime then STARTED
    else DEFINED
  }

  lemma QualifiesIs(bip: Deployment, b: BlockIndex)
    requires Rooted(b) && bip.nPeriod > 0
    ensures Before(bip, b) == null ==> !Qualifies(bip, b)
    ensures Before(bip, b) != null ==>
              && b.pprev != null
              && (Qualifies(bip, b) <==>
                    && MedianTimePast(Before(bip, b)) >= bip.nStartTime && MedianTimePast(b) < bip.nTimeout && LocksIn(bip, b.pprev))
  {
    hide MedianTimePast, SignalCount, SignalHeights;
    if Before(bip, b) != null { CountIsOfHeights(bip, b.pprev, bip.nPeriod); }
  }

  /** The recursion over all periods gives exactly that state, in every tree with proper times. */
  lemma {:induction false} StateIsByTimes(bip: Deployment, b: BlockIndex, tree: set<BlockIndex>)
    requires TimesOk(tree) && Closed(tree) && b in tree && Rooted(b) && bip.nPeriod > 0
    ensures StateOf(bip, b) == StateByTimes(bip, b)
    decreases b.nHeight
  {
    hide MedianTimePast, TimesOk, Qualifies, QualifiedBefore, LocksIn, Before;
    var p := Before(bip, b);
    QualifiedBeforeIs(bip, b);
    QualifiesIs(bip, b);
    if p != null {
      IsAncestor(bip, b);
      MedianNeverDecreases(b, p.nHeight, tree);
      AncestorStays(b, p.nHeight, tree);
      StateIsByTimes(bip, p, tree);
      QualifiesIs(bip, p);
    }
  }

  lemma IsAncestor(bip: Deployment, b: BlockIndex)
    requires Rooted(b) && bip.nPeriod > 0 && Before(bip, b) != null
    ensures var p := Before(bip, b); 0 <= p.nHeight < b.nHeight && p == Ancestor(b, p.nHeight)
  {
  }

  /** A deployment that has not failed and is not active is before its timeout. */
  lemma UndecidedBeforeTimeout(bip: Deployment, b: BlockIndex)
    requires Rooted(b) && bip.nPeriod > 0 && StateOf(bip, b) in {DEFINED, STARTED, LOCKED_IN}
    ensures MedianTimePast(b) < bip.nTimeout
  {
    hide MedianTimePast, LocksIn;
  }

  /** Locked in exactly after a started period with enough signals, before the timeout. */
  lemma LockedInIff(bip: Deployment, b: BlockIndex)
    requires Rooted(b) && bip.nPeriod > 0
    ensures StateOf(bip, b) == LOCKED_IN
       <==> && b.nHeight >= bip.nPeriod && StateOf(bip, Before(bip, b)) == STARTED && MedianTimePast(b) < bip.nTimeout
            && |SignalHeights(bip, b.pprev, bip.nPeriod)| >= bip.threshold
  {
    hide MedianTimePast, SignalCount, SignalHeights;
    if b.nHeight >= bip.nPeriod { CountIsOfHeights(bip, b.pprev, bip.nPeriod); }
  }
}
