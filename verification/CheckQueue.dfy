/**
  The parallel check queue: one master and any number of workers share a stack of checks under one
  mutex. A step of this state machine is what one thread does between acquiring the mutex and
  giving it up, by waiting on its condition variable, leaving to run a batch, or returning.

  A check is represented by the boolean that running it yields. Thread 0 is the master.
 */
module CheckQueue {
  import opened Basics
  import opened Arithmetic

  /** Where a thread is when it does not hold the mutex. */
  datatype Thread =
    | Outside                                  // not in the loop
    | Waiting(notified: bool)                  // blocked on its condition variable
    | Working(batch: seq<bool>, fOk: bool)     // running a batch, with the verdict it saw when it took it

  datatype State = State(
    queue: seq<bool>, nIdle: int, nTotal: int, fAllOk: bool, nTodo: int, fQuit: bool, nBatchSize: nat,
    threads: seq<Thread>)

  datatype Step =
    | Enter(t: nat)                                // Wait() by the master, Thread() by a worker
    | Finish(t: nat)                               // a batch has been run
    | Wake(t: nat)                                 // the wait returns, notified or not
    | Add(checks: seq<bool>, woken: set<nat>)      // the master pushes checks and notifies workers

  predicate All(bs: seq<bool>) { forall i :: 0 <= i < |bs| ==> bs[i] }

  // ---- The steps ----

  /** How many checks a thread takes: smaller batches towards the end, never none, never more than allowed. */
  function BatchSize(s: State): (n: nat)
    requires s.queue != [] && s.nTotal >= 0 && s.nIdle >= 0
    ensures 1 <= n <= |s.queue|
    ensures n == 1 || n <= s.nBatchSize
  {
    var share := |s.queue| / (s.nTotal + s.nIdle + 1);
    assert share <= |s.queue|;
    var least := if s.nBatchSize < share then s.nBatchSize else share;
    if least < 1 then 1 else least
  }

  /** A batch is larger than one check only within a fair share, and smaller than allowed only if the share is. */
  lemma BatchIsFair(s: State)
    requires s.queue != [] && s.nTotal >= 0 && s.nIdle >= 0
    ensures var n, threads := BatchSize(s), s.nTotal + s.nIdle + 1;
            && (n == 1 || n * threads <= |s.queue|)
            && (n >= s.nBatchSize || |s.queue| < (n + 1) * threads)
  {
    var threads := s.nTotal + s.nIdle + 1;
    var share, rest := |s.queue| / threads, |s.queue| % threads;
    assert |s.queue| == share * threads + rest;
    var n := BatchSize(s);
    if n <= share { Monotone(n, share, threads); }
    if share <= n { Monotone(share, n, threads); }
    Distribute(n, 1, threads);
  }

  function Pops(queue: seq<bool>, n: nat): (batch: seq<bool>)
    requires n <= |queue|
    ensures |batch| == n
  {
    seq(n, i requires 0 <= i < n => queue[|queue| - 1 - i])
  }

  /** The part of the loop after the clean-up: return, wait, or take a batch. */
  function Proceed(s: State, t: nat): (r: (State, Option<bool>))
    requires t < |s.threads| && s.nTotal >= 0 && s.nIdle >= 0
    ensures |r.0.threads| == |s.threads|
  {
    if s.queue == [] then
      if (t == 0 || s.fQuit) && s.nTodo == 0 then
        (s.(nTotal := s.nTotal - 1,
            fAllOk := if t == 0 then true else s.fAllOk,
            threads := s.threads[t := Outside]),
         Some(s.fAllOk))
      else
        (s.(nIdle := s.nIdle + 1, threads := s.threads[t := Waiting(false)]), None)
    else
      var n := BatchSize(s);
      (s.(queue := s.queue[..|s.queue| - n],
          threads := s.threads[t := Working(Pops(s.queue, n), s.fAllOk)]),
       None)
  }

  function NotifyMaster(threads: seq<Thread>): (r: seq<Thread>)
    requires |threads| > 0
    ensures |r| == |threads|
  {
    if threads[0].Waiting? then threads[0 := Waiting(true)] else threads
  }

  function NotifyWorkers(threads: seq<Thread>, woken: set<nat>): (r: seq<Thread>)
    ensures |r| == |threads|
  {
    seq(|threads|, i requires 0 <= i < |threads| =>
      if i in woken && threads[i].Waiting? then Waiting(true) else threads[i])
  }

  /** Adding one check wakes one waiting worker, if there is one; adding more wakes them all. */
  predicate RightWorkers(s: State, checks: seq<bool>, woken: set<nat>)
  {
    && (forall t <- woken :: 0 < t < |s.threads| && s.threads[t].Waiting?)
    && (|checks| == 0 ==> woken == {})
    && (|checks| == 1 ==> |woken| <= 1 && (woken == {} ==> forall t :: 0 < t < |s.threads| ==> !s.threads[t].Waiting?))
    && (|checks| > 1 ==> forall t :: 0 < t < |s.threads| && s.threads[t].Waiting? ==> t in woken)
  }

  predicate Enabled(s: State, step: Step)
  {
    match step
    case Enter(t) => t < |s.threads| && s.threads[t].Outside?
    case Finish(t) => t < |s.threads| && s.threads[t].Working?
    case Wake(t) => t < |s.threads| && s.threads[t].Waiting?
    case Add(checks, woken) => |s.threads| > 0 && s.threads[0].Outside? && RightWorkers(s, checks, woken)
  }

  /** The clean-up after a batch: the verdict, the count, and the signal to the master. */
  function Cleaned(s: State, t: nat): (r: State)
    requires t < |s.threads| && s.threads[t].Working?
    ensures |r.threads| == |s.threads|
  {
    var nNow := |s.threads[t].batch|;
    var todo := s.nTodo - nNow;
    s.(fAllOk := s.fAllOk && (s.threads[t].fOk && All(s.threads[t].batch)),
       nTodo := todo,
       threads := if todo == 0 && t != 0 then NotifyMaster(s.threads) else s.threads)
  }

  /** The next state, and what the thread returns if it leaves the loop. */
  function Next(s: State, step: Step): (r: (State, Option<bool>))
    requires Enabled(s, step) && s.nTotal >= 0 && s.nIdle >= 0 && (step.Wake? ==> s.nIdle > 0)
    ensures |r.0.threads| == |s.threads|
  {
    match step
    case Enter(t) => Proceed(s.(nTotal := s.nTotal + 1), t)
    case Finish(t) => Proceed(Cleaned(s, t), t)
    case Wake(t) => Proceed(s.(nIdle := s.nIdle - 1), t)
    case Add(checks, woken) =>
      (s.(queue := s.queue + checks, nTodo := s.nTodo + |checks|, threads := NotifyWorkers(s.threads, woken)), None)
  }

  function Init(nBatchSize: nat, nThreads: nat): (s: State)
    requires nThreads >= 1
  {
    State([], 0, 0, true, 0, false, nBatchSize, seq(nThreads, _ => Outside))
  }

  predicate IsIdle(s: State) { s.nTotal == s.nIdle && s.nTodo == 0 && s.fAllOk }

  // ---- Counting threads ----

  ghost function Sum(ts: seq<Thread>, f: Thread -> int): int
  {
    if ts == [] then 0 else Sum(ts[..|ts| - 1], f) + f(ts[|ts| - 1])
  }

  ghost function Idle(): Thread -> int { (t: Thread) => if t.Waiting? then 1 else 0 }

  ghost function InLoop(): Thread -> int { (t: Thread) => if t.Outside? then 0 else 1 }

  ghost function Load(): Thread -> int { (t: Thread) => if t.Working? then |t.batch| else 0 }

  ghost function Signalled(): Thread -> int { (t: Thread) => if t.Waiting? && t.notified then 1 else 0 }

  ghost function NotInLoop(): Thread -> int { (t: Thread) => if t.Outside? then 1 else 0 }

  lemma {:induction false} SumUpdate(ts: seq<Thread>, f: Thread -> int, i: nat, t: Thread)
    requires i < |ts|
    ensures Sum(ts[i := t], f) == Sum(ts, f) - f(ts[i]) + f(t)
    decreases |ts|
  {
    var n := |ts| - 1;
    if i < n {
      assert ts[i := t][..n] == ts[..n][i := t];
      SumUpdate(ts[..n], f, i, t);
    } else {
      assert ts[i := t][..n] == ts[..n];
    }
  }

  lemma {:induction false} SumSame(ts: seq<Thread>, us: seq<Thread>, f: Thread -> int)
    requires |ts| == |us| && forall i :: 0 <= i < |ts| ==> f(ts[i]) == f(us[i])
    ensures Sum(ts, f) == Sum(us, f)
    decreases |ts|
  {
    if ts != [] { SumSame(ts[..|ts| - 1], us[..|us| - 1], f); }
  }

  lemma {:induction false} SumNonNegative(ts: seq<Thread>, f: Thread -> int)
    requires forall t <- ts :: f(t) >= 0
    ensures Sum(ts, f) >= 0
    ensures forall t <- ts :: Sum(ts, f) >= f(t)
    ensures Sum(ts, f) > 0 ==> exists i :: 0 <= i < |ts| && f(ts[i]) > 0
    decreases |ts|
  {
    if ts != [] {
      var n := |ts| - 1;
      assert ts[n] in ts && forall t <- ts[..n] :: t in ts;
      SumNonNegative(ts[..n], f);
      assert ts == ts[..n] + [ts[n]];
      if Sum(ts[..n], f) > 0 {
        var i :| 0 <= i < n && f(ts[..n][i]) > 0;
        assert f(ts[i]) > 0;
      }
    }
  }

  // ---- The invariant ----

  /** `added` are the checks added since the last Wait() returned. */
  ghost predicate Inv(s: State, added: seq<bool>)
  {
    Counts(s) && VerdictOk(s, added) && MasterOk(s) && s.nTodo <= |added|
  }

  ghost predicate VerdictOk(s: State, added: seq<bool>)
  {
    && (forall i :: 0 <= i < |s.threads| && s.threads[i].Working? ==> BatchOk(s, i))
    && (All(added) <==> s.fAllOk && All(s.queue) && BatchesPass(s.threads, |s.threads|))
  }

  /** A batch is never empty, and a thread that was told of a failure took its batch after that failure. */
  ghost predicate BatchOk(s: State, i: nat)
    requires i < |s.threads| && s.threads[i].Working?
  {
    s.threads[i].batch != [] && (!s.threads[i].fOk ==> !s.fAllOk)
  }

  /** All checks in the batches of the threads other than `skip` pass. */
  ghost predicate BatchesPass(threads: seq<Thread>, skip: nat)
  {
    forall i :: 0 <= i < |threads| && i != skip && threads[i].Working? ==> All(threads[i].batch)
  }

  ghost predicate MasterOk(s: State)
  {
    |s.threads| >= 1 && (s.threads[0].Waiting? ==> s.queue == [] && (!s.threads[0].notified ==> s.nTodo > 0))
  }

  /** The counters are exact: idle threads, threads in the loop, checks not yet accounted for. */
  ghost predicate Counts(s: State)
  {
    && s.nIdle == Sum(s.threads, Idle())
    && s.nTotal == Sum(s.threads, InLoop())
    && s.nTodo == |s.queue| + Sum(s.threads, Load())
  }

  lemma CountsBounds(s: State)
    requires Counts(s)
    ensures s.nTodo >= |s.queue| && 0 <= s.nIdle && 0 <= s.nTotal
    ensures forall t <- s.threads :: t.Working? ==> |t.batch| <= s.nTodo - |s.queue|
    ensures forall t <- s.threads :: t.Waiting? ==> s.nIdle > 0
    ensures forall t <- s.threads :: !t.Outside? ==> s.nTotal > 0
    ensures s.nTodo == |s.queue| && (forall t <- s.threads :: t.Working? ==> t.batch != []) ==> forall t <- s.threads :: !t.Working?
  {
    SumNonNegative(s.threads, Idle());
    SumNonNegative(s.threads, InLoop());
    SumNonNegative(s.threads, Load());
    assert forall t <- s.threads :: t.Working? ==> Load()(t) == |t.batch|;
    assert forall t <- s.threads :: t.Waiting? ==> Idle()(t) == 1;
    assert forall t <- s.threads :: !t.Outside? ==> InLoop()(t) == 1;
  }

  lemma CountsProceed(s: State, t: nat)
    requires t < |s.threads|
    requires s.nIdle == Sum(s.threads, Idle()) - Idle()(s.threads[t]) && s.nIdle >= 0
    requires s.nTotal == Sum(s.threads, InLoop()) - InLoop()(s.threads[t]) + 1 && s.nTotal >= 0
    requires s.nTodo == |s.queue| + Sum(s.threads, Load()) - Load()(s.threads[t])
    ensures Counts(Proceed(s, t).0)
  {
    var r := Proceed(s, t).0;
    SumUpdate(s.threads, Idle(), t, r.threads[t]);
    SumUpdate(s.threads, InLoop(), t, r.threads[t]);
    SumUpdate(s.threads, Load(), t, r.threads[t]);
  }

  lemma NotifyKeepsCounts(s: State, threads: seq<Thread>)
    requires |threads| == |s.threads|
    requires forall i :: 0 <= i < |threads| ==> threads[i] == s.threads[i] || (s.threads[i].Waiting? && threads[i].Waiting?)
    ensures Sum(threads, Idle()) == Sum(s.threads, Idle())
    ensures Sum(threads, InLoop()) == Sum(s.threads, InLoop())
    ensures Sum(threads, Load()) == Sum(s.threads, Load())
  {
    SumSame(threads, s.threads, Idle());
    SumSame(threads, s.threads, InLoop());
    SumSame(threads, s.threads, Load());
  }

  lemma CountsNext(s: State, step: Step)
    requires Counts(s) && Enabled(s, step)
    ensures s.nTotal >= 0 && s.nIdle >= 0 && (step.Wake? ==> s.nIdle > 0)
    ensures Counts(Next(s, step).0)
  {
    CountsBounds(s);
    match step
    case Enter(t) => CountsProceed(s.(nTotal := s.nTotal + 1), t);
    case Wake(t) =>
      assert s.threads[t] in s.threads;
      CountsProceed(s.(nIdle := s.nIdle - 1), t);
    case Finish(t) =>
      var c := Cleaned(s, t);
      NotifyKeepsCounts(s, c.threads);
      CountsProceed(c, t);
    case Add(checks, woken) =>
      NotifyKeepsCounts(s, NotifyWorkers(s.threads, woken));
  }

  lemma AllSplit(a: seq<bool>, b: seq<bool>)
    ensures All(a + b) <==> All(a) && All(b)
  {
    assert forall i :: 0 <= i < |a| ==> (a + b)[i] == a[i];
    assert forall i :: 0 <= i < |b| ==> b[i] == (a + b)[|a| + i];
  }

  lemma AllPops(queue: seq<bool>, n: nat)
    requires n <= |queue|
    ensures All(queue) <==> All(queue[..|queue| - n]) && All(Pops(queue, n))
  {
    var k := |queue| - n;
    var batch := Pops(queue, n);
    if All(queue[..k]) && All(batch) {
      forall i | 0 <= i < |queue| ensures queue[i] {
        if i < k { assert queue[i] == queue[..k][i]; } else { assert queue[i] == batch[|queue| - 1 - i]; }
      }
    }
  }

  lemma BatchesUpdate(threads: seq<Thread>, t: nat, x: Thread)
    requires t < |threads|
    ensures BatchesPass(threads[t := x], |threads|) <==> BatchesPass(threads, t) && (x.Working? ==> All(x.batch))
  {
    hide All;
    var us := threads[t := x];
    assert us[t] == x;
    assert forall i :: 0 <= i < |threads| && i != t ==> us[i] == threads[i];
  }

  lemma BatchesNotified(threads: seq<Thread>, us: seq<Thread>, skip: nat)
    requires |us| == |threads|
    requires forall i :: 0 <= i < |us| ==> us[i] == threads[i] || (threads[i].Waiting? && us[i].Waiting?)
    ensures BatchesPass(us, skip) <==> BatchesPass(threads, skip)
  {
    hide All;
  }

  /** The checks added since the last Wait() returned, after one more step. */
  ghost function AddedAfter(s: State, step: Step, added: seq<bool>): seq<bool>
    requires Enabled(s, step) && s.nTotal >= 0 && s.nIdle >= 0 && (step.Wake? ==> s.nIdle > 0)
  {
    match step
    case Add(checks, _) => added + checks
    case _ => if step.t == 0 && Next(s, step).1.Some? then [] else added
  }

  lemma VerdictProceed(s: State, t: nat, added: seq<bool>)
    requires t < |s.threads| && s.nTotal >= 0 && s.nIdle >= 0
    requires forall i :: 0 <= i < |s.threads| && i != t && s.threads[i].Working? ==> BatchOk(s, i)
    requires All(added) <==> s.fAllOk && All(s.queue) && BatchesPass(s.threads, t)
    requires Counts(Proceed(s, t).0)
    ensures var r := Proceed(s, t);
            && VerdictOk(r.0, if t == 0 && r.1.Some? then [] else added)
            && (r.1.Some? ==> r.0.nTodo == 0 && r.1.value == All(added) && forall i :: 0 <= i < |s.threads| ==> !r.0.threads[i].Working?)
  {
    var r := Proceed(s, t);
    hide Sum, Counts, All;
    CountsBounds(r.0);
    BatchesUpdate(s.threads, t, r.0.threads[t]);
    assert All([]);
    if s.queue != [] {
      AllPops(s.queue, BatchSize(s));
    } else if r.1.Some? {
      forall i | 0 <= i < |s.threads| ensures !r.0.threads[i].Working? {
        assert r.0.threads[i] in r.0.threads;
      }
    }
  }

  lemma VerdictNext(s: State, step: Step, added: seq<bool>)
    requires Inv(s, added) && Enabled(s, step)
    requires s.nTotal >= 0 && s.nIdle >= 0 && (step.Wake? ==> s.nIdle > 0)
    requires Counts(Next(s, step).0)
    ensures var r := Next(s, step);
            && VerdictOk(r.0, AddedAfter(s, step, added))
            && (r.1.Some? ==> r.0.nTodo == 0 && r.1.value == All(added) && forall i :: 0 <= i < |s.threads| ==> !r.0.threads[i].Working?)
  {
    hide Counts, Sum, BatchSize, All, Proceed;
    match step
    case Enter(t) =>
      BatchesUpdate(s.threads, t, s.threads[t]);
      assert s.threads[t := s.threads[t]] == s.threads;
      VerdictProceed(s.(nTotal := s.nTotal + 1), t, added);
    case Wake(t) =>
      BatchesUpdate(s.threads, t, s.threads[t]);
      assert s.threads[t := s.threads[t]] == s.threads;
      VerdictProceed(s.(nIdle := s.nIdle - 1), t, added);
    case Finish(t) =>
      var c := Cleaned(s, t);
      assert BatchOk(s, t);
      BatchesUpdate(s.threads, t, s.threads[t]);
      assert s.threads[t := s.threads[t]] == s.threads;
      BatchesNotified(s.threads, c.threads, t);
      VerdictProceed(c, t, added);
    case Add(checks, woken) =>
      AllSplit(added, checks);
      AllSplit(s.queue, checks);
      BatchesNotified(s.threads, NotifyWorkers(s.threads, woken), |s.threads|);
  }

  lemma MasterNext(s: State, step: Step, added: seq<bool>)
    requires Inv(s, added) && Enabled(s, step)
    requires s.nTotal >= 0 && s.nIdle >= 0 && (step.Wake? ==> s.nIdle > 0)
    ensures MasterOk(Next(s, step).0)
  {
    hide Sum, BatchSize, VerdictOk;
    CountsBounds(s);
    match step
    case Enter(t) =>
    case Wake(t) =>
    case Finish(t) => assert s.threads[t] in s.threads;
    case Add(checks, woken) =>
  }

  // ---- What holds of every run ----

  lemma InitInv(nBatchSize: nat, nThreads: nat)
    requires nThreads >= 1
    ensures Inv(Init(nBatchSize, nThreads), [])
  {
    var ts := Init(nBatchSize, nThreads).threads;
    SumSame(ts, ts, Idle());
    AllOutside(ts);
  }

  lemma {:induction false} AllOutside(ts: seq<Thread>)
    requires forall t <- ts :: t.Outside?
    ensures Sum(ts, Idle()) == 0 && Sum(ts, InLoop()) == 0 && Sum(ts, Load()) == 0
    decreases |ts|
  {
    if ts != [] {
      assert ts[|ts| - 1] in ts;
      AllOutside(ts[..|ts| - 1]);
    }
  }

  /** Every step keeps the invariant; in particular no counter ever goes below zero. */
  lemma StepKeepsInv(s: State, step: Step, added: seq<bool>)
    requires Inv(s, added) && Enabled(s, step)
    ensures s.nTotal >= 0 && s.nIdle >= 0 && (step.Wake? ==> s.nIdle > 0)
    ensures step.Finish? ==> s.nTodo >= |s.threads[step.t].batch|
    ensures Inv(Next(s, step).0, AddedAfter(s, step, added))
  {
    CountsBounds(s);
    if step.Finish? { assert s.threads[step.t] in s.threads; }
    CountsNext(s, step);
    VerdictNext(s, step, added);
    MasterNext(s, step, added);
  }

  /** A run: the steps taken from the initial state, each enabled where it is taken. */
  ghost predicate IsRun(s: State, steps: seq<Step>)
    decreases |steps|
  {
    steps == [] ||
    (var n := |steps| - 1;
     && IsRun(s, steps[..n])
     && Steppable(After(s, steps[..n]), steps[n]))
  }

  ghost predicate Steppable(s: State, step: Step)
  {
    Enabled(s, step) && s.nTotal >= 0 && s.nIdle >= 0 && (step.Wake? ==> s.nIdle > 0)
  }

  ghost function After(s: State, steps: seq<Step>): State
    decreases |steps|
  {
    if steps == [] then s else
      var n := |steps| - 1;
      var before := After(s, steps[..n]);
      if Steppable(before, steps[n]) then Next(before, steps[n]).0 else before
  }

  /** The checks added in the run since the last time Wait() returned in it. */
  ghost function AddedIn(s: State, steps: seq<Step>): seq<bool>
    requires IsRun(s, steps)
    decreases |steps|
  {
    if steps == [] then [] else
      var n := |steps| - 1;
      AddedAfter(After(s, steps[..n]), steps[n], AddedIn(s, steps[..n]))
  }

  lemma {:induction false} RunKeepsInv(nBatchSize: nat, nThreads: nat, steps: seq<Step>)
    requires nThreads >= 1 && IsRun(Init(nBatchSize, nThreads), steps)
    ensures Inv(After(Init(nBatchSize, nThreads), steps), AddedIn(Init(nBatchSize, nThreads), steps))
    decreases |steps|
  {
    var s := Init(nBatchSize, nThreads);
    if steps == [] {
      InitInv(nBatchSize, nThreads);
    } else {
      var n := |steps| - 1;
      hide Inv, Next, Enabled, AddedAfter;
      RunKeepsInv(nBatchSize, nThreads, steps[..n]);
      StepKeepsInv(After(s, steps[..n]), steps[n], AddedIn(s, steps[..n]));
    }
  }

  /** The guards of `Steppable` beyond being enabled never block a thread in a run. */
  lemma EnabledIsSteppable(nBatchSize: nat, nThreads: nat, steps: seq<Step>, step: Step)
    requires nThreads >= 1 && IsRun(Init(nBatchSize, nThreads), steps)
    requires Enabled(After(Init(nBatchSize, nThreads), steps), step)
    ensures Steppable(After(Init(nBatchSize, nThreads), steps), step)
  {
    RunKeepsInv(nBatchSize, nThreads, steps);
    hide Inv, Next, Enabled, AddedAfter;
    StepKeepsInv(After(Init(nBatchSize, nThreads), steps), step, AddedIn(Init(nBatchSize, nThreads), steps));
  }

  /**
    When Wait() returns, in any run: nothing is queued or running, the answer is the conjunction of
    all checks added since it last returned, and the queue is idle for the next controller.
   */
  lemma WaitIsCorrect(nBatchSize: nat, nThreads: nat, steps: seq<Step>, step: Step)
    requires nThreads >= 1 && IsRun(Init(nBatchSize, nThreads), steps + [step])
    requires !step.Add? && step.t == 0
    ensures var s := After(Init(nBatchSize, nThreads), steps);
            && IsRun(Init(nBatchSize, nThreads), steps) && Steppable(s, step)
            && var r := Next(s, step);
               r.1.Some? ==>
                 && r.0 == After(Init(nBatchSize, nThreads), steps + [step])
                 && r.1.value == All(AddedIn(Init(nBatchSize, nThreads), steps))
                 && r.0.queue == [] && r.0.nTodo == 0
                 && (forall t <- r.0.threads :: !t.Working?)
                 && IsIdle(r.0)
  {
    var s0 := Init(nBatchSize, nThreads);
    assert (steps + [step])[..|steps|] == steps && (steps + [step])[|steps|] == step;
    var s, added := After(s0, steps), AddedIn(s0, steps);
    RunKeepsInv(nBatchSize, nThreads, steps);
    CountsNext(s, step);
    VerdictNext(s, step, added);
    StepKeepsInv(s, step, added);
    var r := Next(s, step);
    if r.1.Some? {
      CountsBounds(r.0);
      NoneWorkingIsIdle(r.0);
    }
  }

  lemma NoneWorkingIsIdle(s: State)
    requires Counts(s) && forall t <- s.threads :: !t.Working?
    ensures s.nTotal == s.nIdle
  {
    assert forall i :: 0 <= i < |s.threads| ==> s.threads[i] in s.threads;
    SumPointwise(s.threads);
  }

  lemma {:induction false} SumPointwise(ts: seq<Thread>)
    requires forall i :: 0 <= i < |ts| ==> !ts[i].Working?
    ensures Sum(ts, Idle()) == Sum(ts, InLoop())
    decreases |ts|
  {
    if ts != [] { SumPointwise(ts[..|ts| - 1]); }
  }

  /** Between two uses, whatever the workers do, the queue stays idle: the controller's assertion holds. */
  lemma IdleWhenNothingAdded(nBatchSize: nat, nThreads: nat, steps: seq<Step>)
    requires nThreads >= 1 && IsRun(Init(nBatchSize, nThreads), steps)
    requires AddedIn(Init(nBatchSize, nThreads), steps) == []
    ensures IsIdle(After(Init(nBatchSize, nThreads), steps))
  {
    RunKeepsInv(nBatchSize, nThreads, steps);
    var s := After(Init(nBatchSize, nThreads), steps);
    hide After, AddedIn, IsRun;
    CountsBounds(s);
    assert forall i :: 0 <= i < |s.threads| && s.threads[i].Working? ==> BatchOk(s, i);
    assert forall t <- s.threads :: t.Working? ==> t.batch != [];
    NoneWorkingIsIdle(s);
  }

  /** A queue is idle exactly if nothing is queued or in progress and no check has failed since the last wait. */
  lemma IdleIff(s: State, added: seq<bool>)
    requires Inv(s, added)
    ensures IsIdle(s) <==> s.queue == [] && (forall t <- s.threads :: !t.Working?) && All(added)
  {
    CountsBounds(s);
    assert forall i :: 0 <= i < |s.threads| && s.threads[i].Working? ==> BatchOk(s, i);
    assert forall t <- s.threads :: t.Working? ==> t.batch != [];
    if s.queue == [] && forall t <- s.threads :: !t.Working? {
      NoneWorkingIsIdle(s);
      assert forall i :: 0 <= i < |s.threads| ==> s.threads[i] in s.threads;
      NoLoad(s.threads);
    }
    if IsIdle(s) { assert BatchesPass(s.threads, |s.threads|); }
  }

  lemma {:induction false} NoLoad(ts: seq<Thread>)
    requires forall i :: 0 <= i < |ts| ==> !ts[i].Working?
    ensures Sum(ts, Load()) == 0
    decreases |ts|
  {
    if ts != [] { NoLoad(ts[..|ts| - 1]); }
  }

  // ---- No deadlock, no endless waiting ----

  /** While the master is blocked and not yet signalled, some worker still has a batch to finish. */
  lemma BlockedMasterIsOwedABatch(s: State, added: seq<bool>)
    requires Inv(s, added) && s.threads[0] == Waiting(false)
    ensures exists t :: 0 < t < |s.threads| && s.threads[t].Working?
  {
    SumNonNegative(s.threads, Load());
    assert Sum(s.threads, Load()) > 0;
    var i :| 0 <= i < |s.threads| && Load()(s.threads[i]) > 0;
    assert s.threads[i].Working?;
  }

  /** A wake-up without a notification. */
  predicate Spurious(s: State, step: Step)
  {
    step.Wake? && step.t < |s.threads| && s.threads[step.t].Waiting? && !s.threads[step.t].notified
  }

  /** As long as the master is inside Wait(), some thread can move without a spurious wake-up. */
  lemma NeverStuck(s: State, added: seq<bool>)
    requires Inv(s, added) && !s.threads[0].Outside?
    ensures exists step :: Enabled(s, step) && !Spurious(s, step) && !step.Add?
  {
    if s.threads[0].Working? {
      assert Enabled(s, Finish(0));
    } else if s.threads[0].notified {
      assert Enabled(s, Wake(0)) && !Spurious(s, Wake(0));
    } else {
      BlockedMasterIsOwedABatch(s, added);
      var t :| 0 < t < |s.threads| && s.threads[t].Working?;
      assert Enabled(s, Finish(t));
    }
  }

  /** Checks left, checks queued, signals pending, threads outside: compared in this order. */
  datatype Measure = Measure(todo: int, queued: int, signals: int, outside: int)

  ghost function Progress(s: State): Measure
  {
    Measure(s.nTodo, |s.queue|, Sum(s.threads, Signalled()), Sum(s.threads, NotInLoop()))
  }

  ghost predicate Less(a: Measure, b: Measure)
  {
    || a.todo < b.todo
    || (a.todo == b.todo && a.queued < b.queued)
    || (a.todo == b.todo && a.queued == b.queued && a.signals < b.signals)
    || (a.todo == b.todo && a.queued == b.queued && a.signals == b.signals && a.outside < b.outside)
  }

  lemma MeasureIsNatural(s: State, added: seq<bool>)
    requires Inv(s, added)
    ensures var m := Progress(s); m.todo >= 0 && m.queued >= 0 && m.signals >= 0 && m.outside >= 0
  {
    CountsBounds(s);
    SumNonNegative(s.threads, Signalled());
    SumNonNegative(s.threads, NotInLoop());
  }

  lemma ProceedMeasure(s: State, t: nat)
    requires t < |s.threads| && s.nTotal >= 0 && s.nIdle >= 0
    ensures var r := Proceed(s, t).0;
            && r.nTodo == s.nTodo && |r.queue| <= |s.queue|
            && (|r.queue| == |s.queue| ==>
                  && Sum(r.threads, Signalled()) == Sum(s.threads, Signalled()) - Signalled()(s.threads[t])
                  && Sum(r.threads, NotInLoop()) == Sum(s.threads, NotInLoop()) - NotInLoop()(s.threads[t])
                                                  + if r.threads[t].Outside? then 1 else 0)
            && (|r.queue| == |s.queue| && s.threads[t].Outside? && !r.threads[t].Waiting? ==> s.nTodo == 0 && (t == 0 || s.fQuit))
  {
    var r := Proceed(s, t).0;
    SumUpdate(s.threads, Signalled(), t, r.threads[t]);
    SumUpdate(s.threads, NotInLoop(), t, r.threads[t]);
  }

  /**
    Every step but adding checks and waking up for no reason makes progress in a well-founded
    order, unless a thread comes in to find nothing to do and leaves at once.
   */
  lemma StepsMakeProgress(s: State, step: Step, added: seq<bool>)
    requires Inv(s, added) && Steppable(s, step) && !step.Add? && !Spurious(s, step)
    requires step.Enter? ==> Next(s, step).1.None?
    ensures Less(Progress(Next(s, step).0), Progress(s))
  {
    CountsBounds(s);
    match step
    case Enter(t) => ProceedMeasure(s.(nTotal := s.nTotal + 1), t);
    case Wake(t) => ProceedMeasure(s.(nIdle := s.nIdle - 1), t);
    case Finish(t) =>
      assert BatchOk(s, t);
      ProceedMeasure(Cleaned(s, t), t);
  }

  // ---- Wait() ends ----

  /** The measure as one number, for at most n checks and k threads. */
  ghost function Rank(m: Measure, n: nat, k: nat): int
  {
    ((m.todo * (n + 1) + m.queued) * (k + 1) + m.signals) * (k + 1) + m.outside
  }

  ghost predicate Bounded(m: Measure, n: nat, k: nat)
  {
    0 <= m.queued <= n && 0 <= m.signals <= k && 0 <= m.outside <= k && 0 <= m.todo
  }

  lemma Digits(x: int, y: int, x': int, y': int, k: nat)
    requires 0 <= y <= k && 0 <= y' <= k
    ensures x < x' ==> x * (k + 1) + y < x' * (k + 1) + y'
    ensures x == x' && y < y' ==> x * (k + 1) + y < x' * (k + 1) + y'
  {
    if x < x' {
      Distribute(x, 1, k + 1);
      Distribute(x + 1, x' - x - 1, k + 1);
      Monotone(0, x' - x - 1, k + 1);
    }
  }

  lemma LessIsBelow(a: Measure, b: Measure, n: nat, k: nat)
    requires Bounded(a, n, k) && Bounded(b, n, k) && Less(a, b)
    ensures Rank(a, n, k) < Rank(b, n, k)
  {
    var a1, b1 := a.todo * (n + 1) + a.queued, b.todo * (n + 1) + b.queued;
    Digits(a.todo, a.queued, b.todo, b.queued, n);
    Digits(a1, a.signals, b1, b.signals, k);
    Digits(a1 * (k + 1) + a.signals, a.outside, b1 * (k + 1) + b.signals, b.outside, k);
  }

  lemma RankIsNatural(m: Measure, n: nat, k: nat)
    requires Bounded(m, n, k)
    ensures Rank(m, n, k) >= 0
  {
    Monotone(0, m.todo, n + 1);
    Monotone(0, m.todo * (n + 1) + m.queued, k + 1);
    Monotone(0, (m.todo * (n + 1) + m.queued) * (k + 1) + m.signals, k + 1);
  }

  lemma {:induction false} SumAtMost(ts: seq<Thread>, f: Thread -> int)
    requires forall t :: 0 <= f(t) <= 1
    ensures 0 <= Sum(ts, f) <= |ts|
    decreases |ts|
  {
    if ts != [] { SumAtMost(ts[..|ts| - 1], f); }
  }

  lemma ProgressIsBounded(s: State, added: seq<bool>, n: nat)
    requires Inv(s, added) && s.nTodo <= n
    ensures Bounded(Progress(s), n, |s.threads|)
  {
    CountsBounds(s);
    SumAtMost(s.threads, Signalled());
    SumAtMost(s.threads, NotInLoop());
  }

  /** Waking up for no reason sets nothing back, unless it makes the master leave. */
  lemma SpuriousSetsNothingBack(s: State, step: Step, added: seq<bool>)
    requires Inv(s, added) && Steppable(s, step) && Spurious(s, step) && !s.fQuit
    ensures var r := Next(s, step).0;
            r.threads[0].Outside? || Progress(r) == Progress(s) || Less(Progress(r), Progress(s))
  {
    ProceedMeasure(s.(nIdle := s.nIdle - 1), step.t);
  }

  lemma InsideStep(s: State, step: Step, added: seq<bool>)
    requires Inv(s, added) && Steppable(s, step) && !step.Add? && !s.fQuit && !s.threads[0].Outside?
    ensures var r := Next(s, step).0;
            && r.fQuit == s.fQuit && |r.threads| == |s.threads| && r.nTodo <= s.nTodo
            && (step.Enter? ==> Next(s, step).1.None?)
  {
  }

  /** The steps of a run that are not wake-ups for no reason. */
  ghost function Moves(s: State, steps: seq<Step>): nat
    decreases |steps|
  {
    if steps == [] then 0 else
      var n := |steps| - 1;
      Moves(s, steps[..n]) + if Spurious(After(s, steps[..n]), steps[n]) then 0 else 1
  }

  /** The master is in Wait() before every step of the run, and adds nothing. */
  ghost predicate Waits(s: State, steps: seq<Step>)
  {
    && |s.threads| > 0 && IsRun(s, steps)
    && forall i :: 0 <= i < |steps| ==> !steps[i].Add? && |After(s, steps[..i]).threads| > 0 && !After(s, steps[..i]).threads[0].Outside?
  }

  lemma RunPrefix(s: State, steps: seq<Step>)
    requires IsRun(s, steps) && steps != []
    ensures var n := |steps| - 1;
            && IsRun(s, steps[..n]) && Steppable(After(s, steps[..n]), steps[n])
            && After(s, steps) == Next(After(s, steps[..n]), steps[n]).0
  {
    hide Next, Steppable;
  }

  lemma WaitsPrefix(s: State, steps: seq<Step>)
    requires Waits(s, steps) && steps != []
    ensures var n := |steps| - 1;
            && Waits(s, steps[..n]) && Steppable(After(s, steps[..n]), steps[n]) && !steps[n].Add?
            && |After(s, steps[..n]).threads| > 0 && !After(s, steps[..n]).threads[0].Outside?
            && After(s, steps) == Next(After(s, steps[..n]), steps[n]).0
  {
    hide Next, Steppable, After, IsRun;
    RunPrefix(s, steps);
    var n := |steps| - 1;
    forall i | 0 <= i < n ensures !steps[..n][i].Add? && |After(s, steps[..n][..i]).threads| > 0 && !After(s, steps[..n][..i]).threads[0].Outside? {
      assert steps[..n][..i] == steps[..i];
    }
  }

  /**
    Every run of a waiting master is short: the steps other than wake-ups for no reason are at most
    the rank of the state it starts in. While the master is inside there is another such step.
   */
  lemma {:induction false} WaitEnds(s: State, added: seq<bool>, steps: seq<Step>) returns (now: seq<bool>)
    requires Inv(s, added) && !s.fQuit && Waits(s, steps)
    ensures var r := After(s, steps);
            && Inv(r, now) && !r.fQuit && |r.threads| == |s.threads| && s.nTodo >= 0
            && Moves(s, steps) <= Rank(Progress(s), s.nTodo, |s.threads|)
            && (!r.threads[0].Outside? ==>
                  && r.nTodo <= s.nTodo
                  && Moves(s, steps) + Rank(Progress(r), s.nTodo, |s.threads|) <= Rank(Progress(s), s.nTodo, |s.threads|)
                  && exists step :: Enabled(r, step) && !Spurious(r, step) && !step.Add?)
    decreases |steps|
  {
    hide Inv, Next, Enabled, AddedAfter, Progress, Rank, Less, Bounded, Spurious, Waits, IsRun;
    assert s.nTodo >= 0 by { TodoIsNatural(s, added); }
    ProgressIsBounded(s, added, s.nTodo);
    RankIsNatural(Progress(s), s.nTodo, |s.threads|);
    if steps == [] {
      now := added;
    } else {
      var n := |steps| - 1;
      WaitsPrefix(s, steps);
      var before := WaitEnds(s, added, steps[..n]);
      now := WaitStep(s, After(s, steps[..n]), steps[n], before, Moves(s, steps[..n]));
    }
    var r := After(s, steps);
    assert |r.threads| > 0 by { MasterExists(r, now); }
    if !r.threads[0].Outside? { NeverStuck(r, now); }
  }

  lemma TodoIsNatural(s: State, added: seq<bool>)
    requires Inv(s, added)
    ensures s.nTodo >= 0
  {
    CountsBounds(s);
  }

  lemma MasterExists(s: State, added: seq<bool>)
    requires Inv(s, added)
    ensures |s.threads| > 0
  {
  }

  lemma WaitStep(s: State, b: State, step: Step, added: seq<bool>, moves: nat) returns (now: seq<bool>)
    requires s.nTodo >= 0 && Inv(b, added) && !b.fQuit && |b.threads| == |s.threads| > 0 && b.nTodo <= s.nTodo
    requires Steppable(b, step) && !step.Add? && !b.threads[0].Outside?
    requires moves + Rank(Progress(b), s.nTodo, |s.threads|) <= Rank(Progress(s), s.nTodo, |s.threads|)
    ensures var r, m := Next(b, step).0, moves + if Spurious(b, step) then 0 else 1;
            && Inv(r, now) && !r.fQuit && |r.threads| == |s.threads| && m <= Rank(Progress(s), s.nTodo, |s.threads|)
            && (!r.threads[0].Outside? ==>
                  r.nTodo <= s.nTodo && m + Rank(Progress(r), s.nTodo, |s.threads|) <= Rank(Progress(s), s.nTodo, |s.threads|))
  {
    hide Inv, Next, Enabled, AddedAfter, Progress, Rank, Less, Bounded, Spurious;
    var r, k := Next(b, step).0, |s.threads|;
    now := AddedAfter(b, step, added);
    StepKeepsInv(b, step, added);
    InsideStep(b, step, added);
    ProgressIsBounded(b, added, s.nTodo);
    ProgressIsBounded(r, now, s.nTodo);
    RankIsNatural(Progress(r), s.nTodo, k);
    RankIsNatural(Progress(b), s.nTodo, k);
    if Spurious(b, step) {
      SpuriousSetsNothingBack(b, step, added);
    } else {
      StepsMakeProgress(b, step, added);
    }
    if Less(Progress(r), Progress(b)) { LessIsBelow(Progress(r), Progress(b), s.nTodo, k); }
  }
}
