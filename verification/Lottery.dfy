/**
  The lottery: a list of at most eleven winners that every eligible coinstake of a cycle may enter,
  and the payments to them.
 */
module Lottery {
  import opened Coins

  /** A coinstake: the hash of its transaction and the script that is paid. */
  datatype Ticket = Ticket(hash: TxId, script: Script)

  type Score = TxId -> nat

  const WINNERS := 11

  // ---- Sorting by score ----

  predicate ByScore(score: Score, s: seq<Ticket>) { forall i, j :: 0 <= i < j < |s| ==> score(s[i].hash) >= score(s[j].hash) }

  ghost predicate DistinctHashes(s: seq<Ticket>) { forall i, j :: 0 <= i < j < |s| ==> s[i].hash != s[j].hash }

  /** Behind everything with at least its score. */
  function Enter(score: Score, t: Ticket, s: seq<Ticket>): (r: seq<Ticket>)
    ensures |r| == |s| + 1
  {
    if s == [] || score(t.hash) > score(s[0].hash) then [t] + s else [s[0]] + Enter(score, t, s[1..])
  }

  function StableSort(score: Score, xs: seq<Ticket>): (r: seq<Ticket>)
    ensures |r| == |xs|
  {
    if xs == [] then [] else Enter(score, xs[|xs| - 1], StableSort(score, xs[..|xs| - 1]))
  }

  /** The tickets with one score, in order. */
  function WithScore(score: Score, s: seq<Ticket>, v: nat): seq<Ticket>
  {
    if s == [] then [] else (if score(s[0].hash) == v then [s[0]] else []) + WithScore(score, s[1..], v)
  }

  lemma {:induction false} EnterBelow(score: Score, t: Ticket, s: seq<Ticket>, v: nat)
    requires score(t.hash) <= v && forall i :: 0 <= i < |s| ==> score(s[i].hash) <= v
    ensures forall i :: 0 <= i < |s| + 1 ==> score(Enter(score, t, s)[i].hash) <= v
  {
    if s != [] && score(t.hash) <= score(s[0].hash) { EnterBelow(score, t, s[1..], v); }
  }

  lemma {:induction false} EnterSorts(score: Score, t: Ticket, s: seq<Ticket>)
    requires ByScore(score, s)
    ensures ByScore(score, Enter(score, t, s))
  {
    if s != [] && score(t.hash) <= score(s[0].hash) {
      EnterSorts(score, t, s[1..]);
      EnterBelow(score, t, s[1..], score(s[0].hash));
    }
  }

  lemma {:induction false} SortSorts(score: Score, xs: seq<Ticket>)
    ensures ByScore(score, StableSort(score, xs))
  {
    if xs != [] {
      SortSorts(score, xs[..|xs| - 1]);
      EnterSorts(score, xs[|xs| - 1], StableSort(score, xs[..|xs| - 1]));
    }
  }

  lemma {:induction false} NoneWithScore(score: Score, s: seq<Ticket>, v: nat)
    requires forall i :: 0 <= i < |s| ==> score(s[i].hash) != v
    ensures WithScore(score, s, v) == []
  {
    if s != [] { NoneWithScore(score, s[1..], v); }
  }

  lemma {:induction false} EnterKeepsOrder(score: Score, t: Ticket, s: seq<Ticket>, v: nat)
    requires ByScore(score, s)
    ensures WithScore(score, Enter(score, t, s), v) == WithScore(score, s, v) + if score(t.hash) == v then [t] else []
  {
    if s == [] || score(t.hash) > score(s[0].hash) {
      assert ([t] + s)[1..] == s;
      if score(t.hash) == v { NoneWithScore(score, s, v); }
    } else {
      var r := Enter(score, t, s[1..]);
      assert ([s[0]] + r)[1..] == r;
      EnterKeepsOrder(score, t, s[1..], v);
    }
  }

  lemma {:induction false} WithScoreSnoc(score: Score, xs: seq<Ticket>, t: Ticket, v: nat)
    ensures WithScore(score, xs + [t], v) == WithScore(score, xs, v) + if score(t.hash) == v then [t] else []
  {
    if xs == [] {
      assert xs + [t] == [t] && [t][1..] == [];
    } else {
      assert (xs + [t])[1..] == xs[1..] + [t] && (xs + [t])[0] == xs[0];
      WithScoreSnoc(score, xs[1..], t, v);
      var first := if score(xs[0].hash) == v then [xs[0]] else [];
      var more := WithScore(score, xs[1..], v);
      assert (first + more) + [t] == first + (more + [t]) && (first + more) + [] == first + (more + []);
    }
  }

  /** Sorting is stable: tickets with the same score keep their order, and none is lost or added. */
  lemma {:induction false} SortIsStable(score: Score, xs: seq<Ticket>, v: nat)
    ensures WithScore(score, StableSort(score, xs), v) == WithScore(score, xs, v)
  {
    if xs != [] {
      var n := |xs| - 1;
      SortIsStable(score, xs[..n], v);
      SortSorts(score, xs[..n]);
      EnterKeepsOrder(score, xs[n], StableSort(score, xs[..n]), v);
      WithScoreSnoc(score, xs[..n], xs[n], v);
      assert xs == xs[..n] + [xs[n]];
    }
  }

  lemma ByScorePrefix(score: Score, s: seq<Ticket>)
    requires ByScore(score, s) && s != []
    ensures ByScore(score, s[..|s| - 1]) && forall i :: 0 <= i < |s| - 1 ==> score(s[|s| - 1].hash) <= score(s[i].hash)
  {
  }

  lemma {:induction false} SortOfSorted(score: Score, s: seq<Ticket>)
    requires ByScore(score, s)
    ensures StableSort(score, s) == s
  {
    if s != [] {
      var n := |s| - 1;
      ByScorePrefix(score, s);
      hide ByScore, Enter;
      SortOfSorted(score, s[..n]);
      EnterLast(score, s[n], s[..n]);
      assert s == s[..n] + [s[n]];
    }
  }

  lemma {:induction false} EnterLast(score: Score, t: Ticket, s: seq<Ticket>)
    requires forall i :: 0 <= i < |s| ==> score(s[i].hash) >= score(t.hash)
    ensures Enter(score, t, s) == s + [t]
  {
    if s != [] { EnterLast(score, t, s[1..]); }
  }

  lemma {:induction false} EnterMembers(score: Score, t: Ticket, s: seq<Ticket>)
    ensures multiset(Enter(score, t, s)) == multiset(s) + multiset{t}
  {
    if s != [] && score(t.hash) <= score(s[0].hash) {
      EnterMembers(score, t, s[1..]);
      assert s == [s[0]] + s[1..];
    }
  }

  // ---- Before the fork: the stable top eleven ----

  function Top(s: seq<Ticket>): (r: seq<Ticket>)
    ensures |r| <= WINNERS
  {
    if |s| <= WINNERS then s else s[..WINNERS]
  }

  /** Only the first places decide who is in the first places. */
  lemma {:induction false} EnterPrefix(score: Score, t: Ticket, s: seq<Ticket>, n: nat)
    requires n <= |s|
    ensures Enter(score, t, s[..n])[..n] == Enter(score, t, s)[..n]
  {
    if n > 0 && score(t.hash) <= score(s[0].hash) {
      assert s[..n][1..] == s[1..][..n - 1];
      EnterPrefix(score, t, s[1..], n - 1);
    }
  }

  lemma TopOfEnter(score: Score, t: Ticket, s: seq<Ticket>)
    ensures Top(Enter(score, t, Top(s))) == Top(Enter(score, t, s))
  {
    if |s| > WINNERS { EnterPrefix(score, t, s, WINNERS); }
  }

  /** Keeping eleven at every step gives the stable top eleven of all tickets. */
  lemma {:induction false} StreamingTop(score: Score, xs: seq<Ticket>, t: Ticket)
    ensures Top(StableSort(score, Top(StableSort(score, xs)) + [t])) == Top(StableSort(score, xs + [t]))
  {
    var s := StableSort(score, xs);
    SortSorts(score, xs);
    assert (xs + [t])[..|xs|] == xs && (Top(s) + [t])[..|Top(s)|] == Top(s);
    SortOfSorted(score, Top(s));
    TopOfEnter(score, t, s);
  }

  // ---- One ticket at a time ----

  /** Somebody earlier in the list is paid by the same script. */
  predicate IsDuplicate(xs: seq<Ticket>, i: nat)
    requires i < |xs|
  {
    exists j :: 0 <= j < i && xs[j].script == xs[i].script
  }

  function Duplicates(xs: seq<Ticket>): set<TxId> { set i | 0 <= i < |xs| && IsDuplicate(xs, i) :: xs[i].hash }

  /** The last place that is held by one of the hashes; -1 if there is none. */
  function LastOf(s: seq<Ticket>, hashes: set<TxId>): (k: int)
    ensures -1 <= k < |s| && (k >= 0 ==> s[k].hash in hashes) && forall i :: k < i < |s| ==> s[i].hash !in hashes
  {
    if s == [] then -1
    else if s[|s| - 1].hash in hashes then |s| - 1
    else LastOf(s[..|s| - 1], hashes)
  }

  function Without(s: seq<Ticket>, k: nat): seq<Ticket>
    requires k < |s|
  {
    s[..k] + s[k + 1..]
  }

  /** With more than eleven one must go: after the fork the lowest duplicate if there is one, else the last. */
  function Trimmed(uniform: bool, s: seq<Ticket>, duplicates: set<TxId>): seq<Ticket>
  {
    if |s| <= WINNERS then s
    else if uniform && LastOf(s, duplicates) >= 0 then Without(s, LastOf(s, duplicates))
    else s[..|s| - 1]
  }

  function Updated(score: Score, uniform: bool, winners: seq<Ticket>, t: Ticket): seq<Ticket>
  {
    Trimmed(uniform, StableSort(score, winners + [t]), Duplicates(winners + [t]))
  }

  /** Sorted, at most eleven, no ticket twice. */
  ghost predicate WinnersOk(score: Score, winners: seq<Ticket>)
  {
    |winners| <= WINNERS && ByScore(score, winners) && DistinctHashes(winners)
  }

  ghost predicate Fresh(winners: seq<Ticket>, t: Ticket) { forall i :: 0 <= i < |winners| ==> winners[i].hash != t.hash }

  /** Sorting sorted winners and one more ticket puts the ticket in its place. */
  lemma SortedWithOne(score: Score, winners: seq<Ticket>, t: Ticket)
    requires ByScore(score, winners)
    ensures StableSort(score, winners + [t]) == Enter(score, t, winners)
    ensures multiset(Enter(score, t, winners)) == multiset(winners + [t])
  {
    assert (winners + [t])[..|winners|] == winners;
    SortOfSorted(score, winners);
    EnterMembers(score, t, winners);
  }

  lemma {:induction false} EnterDistinct(score: Score, t: Ticket, s: seq<Ticket>)
    requires DistinctHashes(s) && Fresh(s, t)
    ensures DistinctHashes(Enter(score, t, s))
  {
    if s != [] && score(t.hash) <= score(s[0].hash) {
      EnterDistinct(score, t, s[1..]);
      EnterFrom(score, t, s[1..]);
    }
  }

  lemma {:induction false} EnterFrom(score: Score, t: Ticket, s: seq<Ticket>)
    ensures forall i :: 0 <= i < |s| + 1 ==> Enter(score, t, s)[i] == t || Enter(score, t, s)[i] in s
  {
    if s != [] && score(t.hash) <= score(s[0].hash) { EnterFrom(score, t, s[1..]); }
  }

  /** The list stays sorted, short and free of repetitions. */
  lemma UpdatedOk(score: Score, uniform: bool, winners: seq<Ticket>, t: Ticket)
    requires WinnersOk(score, winners) && Fresh(winners, t)
    ensures WinnersOk(score, Updated(score, uniform, winners, t))
  {
    hide Enter, StableSort, Duplicates, LastOf;
    SortedWithOne(score, winners, t);
    EnterSorts(score, t, winners);
    EnterDistinct(score, t, winners);
  }

  // ---- After the fork: distinct payees ----

  ghost function Payees(s: seq<Ticket>): set<Script> { set t | t in s :: t.script }

  lemma {:induction false} PayeesAtMost(s: seq<Ticket>)
    ensures |Payees(s)| <= |s|
  {
    if s != [] {
      var n := |s| - 1;
      PayeesAtMost(s[..n]);
      PayeesSplit(s, n);
    }
  }

  lemma PayeesSplit(s: seq<Ticket>, n: nat)
    requires n == |s| - 1
    ensures Payees(s) == Payees(s[..n]) + {s[n].script}
  {
    assert s == s[..n] + [s[n]];
    assert s[n] in s;
  }

  lemma {:induction false} AllDifferent(xs: seq<Ticket>)
    requires forall i :: 0 <= i < |xs| ==> !IsDuplicate(xs, i)
    ensures |Payees(xs)| == |xs|
  {
    hide IsDuplicate;
    if xs != [] {
      var n := |xs| - 1;
      forall i | 0 <= i < n ensures !IsDuplicate(xs[..n], i) { ShorterDuplicate(xs, n, i); }
      AllDifferent(xs[..n]);
      PayeesSplit(xs, n);
      NotPaidBefore(xs, n);
    }
  }

  lemma ShorterDuplicate(xs: seq<Ticket>, n: nat, i: nat)
    requires i < n <= |xs|
    ensures IsDuplicate(xs[..n], i) ==> IsDuplicate(xs, i)
  {
    if IsDuplicate(xs[..n], i) {
      var j :| 0 <= j < i && xs[..n][j].script == xs[..n][i].script;
      assert xs[j].script == xs[i].script;
    }
  }

  lemma NotPaidBefore(xs: seq<Ticket>, n: nat)
    requires n < |xs| && !IsDuplicate(xs, n)
    ensures xs[n].script !in Payees(xs[..n])
  {
    forall t | t in xs[..n] ensures t.script != xs[n].script {
      var j :| 0 <= j < n && xs[..n][j] == t;
    }
  }

  /** Taking out a duplicate leaves its payee among the winners. */
  lemma DuplicateCanGo(xs: seq<Ticket>, s: seq<Ticket>, k: nat)
    requires multiset(s) == multiset(xs) && DistinctHashes(xs) && DistinctHashes(s) && k < |s| && s[k].hash in Duplicates(xs)
    ensures Payees(Without(s, k)) == Payees(xs)
  {
    var i :| 0 <= i < |xs| && IsDuplicate(xs, i) && xs[i].hash == s[k].hash;
    var j :| 0 <= j < i && xs[j].script == xs[i].script;
    assert xs[j] in multiset(xs) && xs[i] in multiset(xs) && s[k] in multiset(s);
    assert xs[j] in s && xs[i] in s && s[k] in xs;
    SameHashSameTicket(xs, s[k], xs[i]);
    var m :| 0 <= m < |s| && s[m] == xs[j];
    assert m != k;
    var r := Without(s, k);
    assert r[if m < k then m else m - 1] == xs[j];
    assert xs[j] in r;
    forall t | t in xs ensures t.script in Payees(r) {
      assert t in multiset(xs);
      assert t in s;
      StaysUnlessRemoved(s, k, t);
    }
    forall t | t in r ensures t in xs {
      assert t in s;
      assert t in multiset(s);
    }
  }

  lemma SameHashSameTicket(xs: seq<Ticket>, a: Ticket, b: Ticket)
    requires DistinctHashes(xs) && a in xs && b in xs && a.hash == b.hash
    ensures a == b
  {
    var i :| 0 <= i < |xs| && xs[i] == a;
    var j :| 0 <= j < |xs| && xs[j] == b;
  }

  lemma StaysUnlessRemoved(s: seq<Ticket>, k: nat, t: Ticket)
    requires k < |s| && t in s
    ensures t == s[k] || t in Without(s, k)
  {
    var m :| 0 <= m < |s| && s[m] == t;
    if m != k { assert Without(s, k)[if m < k then m else m - 1] == t; }
  }

  lemma SamePayees(s: seq<Ticket>, xs: seq<Ticket>)
    requires multiset(s) == multiset(xs)
    ensures Payees(s) == Payees(xs)
  {
    forall t ensures t in s <==> t in xs {
      assert t in s <==> t in multiset(s);
      assert t in xs <==> t in multiset(xs);
    }
  }

  /** No duplicate stands anywhere, so twelve tickets have twelve payees. */
  lemma NoDuplicates(xs: seq<Ticket>, s: seq<Ticket>)
    requires multiset(s) == multiset(xs) && LastOf(s, Duplicates(xs)) == -1
    ensures forall i :: 0 <= i < |xs| ==> !IsDuplicate(xs, i)
  {
    forall i | 0 <= i < |xs| ensures !IsDuplicate(xs, i) {
      var t := xs[i];
      assert t in multiset(xs);
      assert t in s;
      var k :| 0 <= k < |s| && s[k] == t;
      assert s[k].hash !in Duplicates(xs);
    }
  }

  /** After the fork the number of distinct payees never falls. */
  lemma PayeesNeverFall(score: Score, winners: seq<Ticket>, t: Ticket)
    requires WinnersOk(score, winners) && Fresh(winners, t)
    ensures |Payees(Updated(score, true, winners, t))| >= |Payees(winners)|
  {
    hide Enter, StableSort, IsDuplicate, LastOf, Payees, Duplicates, Without, ByScore;
    var xs := winners + [t];
    var s := StableSort(score, xs);
    JoinDistinct(winners, t);
    SortedWithOne(score, winners, t);
    EnterDistinct(score, t, winners);
    PayeesSplit(xs, |winners|);
    assert xs[..|winners|] == winners;
    SamePayees(s, xs);
    Subset(Payees(winners), Payees(xs));
    PayeesAtMost(winners);
    if |s| > WINNERS {
      var k := LastOf(s, Duplicates(xs));
      if k >= 0 {
        DuplicateCanGo(xs, s, k);
      } else {
        NoDuplicates(xs, s);
        AllDifferent(xs);
        PayeesSplit(s, |s| - 1);
      }
    }
  }

  lemma JoinDistinct(winners: seq<Ticket>, t: Ticket)
    requires DistinctHashes(winners) && Fresh(winners, t)
    ensures DistinctHashes(winners + [t])
  {
  }

  lemma {:induction false} Subset<T>(a: set<T>, b: set<T>)
    requires a <= b
    ensures |a| <= |b|
  {
    if x :| x in a { Subset(a - {x}, b - {x}); }
  }

  /** Eleven winners with eleven payees stay so. */
  lemma FullHouseStays(score: Score, winners: seq<Ticket>, t: Ticket)
    requires WinnersOk(score, winners) && Fresh(winners, t) && |Payees(winners)| == WINNERS
    ensures |Payees(Updated(score, true, winners, t))| == WINNERS == |Updated(score, true, winners, t)|
  {
    hide Payees, Updated;
    PayeesNeverFall(score, winners, t);
    UpdatedOk(score, true, winners, t);
    PayeesAtMost(Updated(score, true, winners, t));
  }

  lemma WithoutIs(s: seq<Ticket>, k: nat)
    requires k < |s|
    ensures multiset(Without(s, k)) + multiset{s[k]} == multiset(s)
  {
    assert s == s[..k] + [s[k]] + s[k + 1..];
  }

  /**
    A new ticket joins the winners. If they were eleven, one leaves: after the fork the worst of those
    paid by the same script as an earlier one, if there are any, and otherwise the worst of all.
   */
  lemma OneLeaves(score: Score, uniform: bool, winners: seq<Ticket>, t: Ticket) returns (loser: Ticket)
    requires WinnersOk(score, winners) && Fresh(winners, t)
    ensures |winners| < 11 ==> multiset(Updated(score, uniform, winners, t)) == multiset(winners + [t])
    ensures |winners| == 11 ==> multiset(Updated(score, uniform, winners, t)) + multiset{loser} == multiset(winners + [t])
    ensures var xs := winners + [t];
            |winners| == 11 ==>
              if uniform && exists i :: 0 <= i < |xs| && IsDuplicate(xs, i) then
                && loser.hash in Duplicates(xs)
                && forall i :: 0 <= i < |xs| && xs[i].hash in Duplicates(xs) ==> score(loser.hash) <= score(xs[i].hash)
              else forall i :: 0 <= i < |xs| ==> score(loser.hash) <= score(xs[i].hash)
  {
    hide *;
    var xs := winners + [t];
    var s := StableSort(score, xs);
    WinnersByScore(score, winners);
    SortedWithOne(score, winners, t);
    SortSorts(score, xs);
    UpdatedIs(score, uniform, winners, t);
    loser := t;
    if |winners| == 11 {
      var dups := Duplicates(xs);
      var k := if uniform && LastOf(s, dups) >= 0 then LastOf(s, dups) else |s| - 1;
      loser := s[k];
      WithoutIs(s, k);
      WorstIsLast(score, s, xs, dups, k);
      if exists i :: 0 <= i < |xs| && IsDuplicate(xs, i) { SomeDuplicate(s, xs); } else { NoDuplicate(s, xs); }
    }
  }

  lemma WinnersByScore(score: Score, winners: seq<Ticket>)
    requires WinnersOk(score, winners)
    ensures ByScore(score, winners) && |winners| <= 11
  {
  }

  lemma UpdatedIs(score: Score, uniform: bool, winners: seq<Ticket>, t: Ticket)
    ensures var xs := winners + [t];
            var s := StableSort(score, xs);
            var k := if uniform && LastOf(s, Duplicates(xs)) >= 0 then LastOf(s, Duplicates(xs)) else |s| - 1;
            0 <= k < |s| && Updated(score, uniform, winners, t) == if |winners| < 11 then s else Without(s, k)
  {
    hide StableSort, Duplicates;
    var s := StableSort(score, winners + [t]);
    assert Without(s, |s| - 1) == s[..|s| - 1];
  }

  /** In a list sorted by score the last of a kind is the worst of the kind. */
  lemma WorstIsLast(score: Score, s: seq<Ticket>, xs: seq<Ticket>, hashes: set<TxId>, k: nat)
    requires ByScore(score, s) && multiset(s) == multiset(xs) && k < |s|
    ensures k == |s| - 1 ==> forall i :: 0 <= i < |xs| ==> score(s[k].hash) <= score(xs[i].hash)
    ensures k == LastOf(s, hashes) ==>
              s[k].hash in hashes && forall i :: 0 <= i < |xs| && xs[i].hash in hashes ==> score(s[k].hash) <= score(xs[i].hash)
  {
    forall i | 0 <= i < |xs| && (k == |s| - 1 || (k == LastOf(s, hashes) && xs[i].hash in hashes))
      ensures score(s[k].hash) <= score(xs[i].hash)
    {
      assert xs[i] in multiset(xs);
      assert xs[i] in s;
      var j :| 0 <= j < |s| && s[j] == xs[i];
    }
  }

  lemma SomeDuplicate(s: seq<Ticket>, xs: seq<Ticket>)
    requires multiset(s) == multiset(xs) && exists i :: 0 <= i < |xs| && IsDuplicate(xs, i)
    ensures LastOf(s, Duplicates(xs)) >= 0
  {
    var i :| 0 <= i < |xs| && IsDuplicate(xs, i);
    assert xs[i].hash in Duplicates(xs);
    hide Duplicates, IsDuplicate;
    assert xs[i] in multiset(xs);
    assert xs[i] in s;
  }

  lemma NoDuplicate(s: seq<Ticket>, xs: seq<Ticket>)
    requires !exists i :: 0 <= i < |xs| && IsDuplicate(xs, i)
    ensures LastOf(s, Duplicates(xs)) < 0
  {
    hide IsDuplicate;
    assert Duplicates(xs) == {};
  }

  // ---- A whole cycle ----

  /** What a block brings: its coinstake, whether it is large enough, and whether its script won lately. */
  datatype Event = Event(ticket: Ticket, eligible: bool, vetoed: bool)

  predicate Enters(uniform: bool, e: Event) { e.eligible && !(uniform && e.vetoed) }

  /** The winners after the blocks since the last lottery superblock. */
  function Winners(score: Score, uniform: bool, events: seq<Event>): seq<Ticket>
  {
    if events == [] then [] else
      var n := |events| - 1;
      var before := Winners(score, uniform, events[..n]);
      if Enters(uniform, events[n]) then Updated(score, uniform, before, events[n].ticket) else before
  }

  function Entered(uniform: bool, events: seq<Event>): seq<Ticket>
  {
    if events == [] then [] else
      var n := |events| - 1;
      Entered(uniform, events[..n]) + if Enters(uniform, events[n]) then [events[n].ticket] else []
  }

  ghost predicate DistinctTickets(events: seq<Event>) { forall i, j :: 0 <= i < j < |events| ==> events[i].ticket.hash != events[j].ticket.hash }

  /** Every winner is a ticket of the cycle. */
  ghost predicate FromEvents(winners: seq<Ticket>, events: seq<Event>)
  {
    forall i :: 0 <= i < |winners| ==> IsTicketOf(winners[i], events)
  }

  ghost predicate IsTicketOf(t: Ticket, events: seq<Event>) { exists j :: 0 <= j < |events| && t == events[j].ticket }

  lemma UpdatedFrom(score: Score, uniform: bool, winners: seq<Ticket>, t: Ticket)
    requires ByScore(score, winners)
    ensures forall w <- Updated(score, uniform, winners, t) :: w == t || w in winners
  {
    hide Enter, StableSort, Duplicates, LastOf;
    SortedWithOne(score, winners, t);
    EnterFrom(score, t, winners);
  }

  /** At every block of a cycle the list is sorted, short and free of repetitions. */
  lemma {:induction false} CycleKeepsWinners(score: Score, uniform: bool, events: seq<Event>)
    requires DistinctTickets(events)
    ensures WinnersOk(score, Winners(score, uniform, events)) && FromEvents(Winners(score, uniform, events), events)
  {
    hide Updated, ByScore, DistinctHashes;
    if events == [] {
      NoWinners(score);
    } else {
      var n := |events| - 1;
      var before, t := Winners(score, uniform, events[..n]), events[n].ticket;
      CycleKeepsWinners(score, uniform, events[..n]);
      forall i | 0 <= i < |before| ensures before[i].hash != t.hash {
        assert IsTicketOf(before[i], events[..n]);
        var j :| 0 <= j < n && before[i] == events[..n][j].ticket;
        assert events[..n][j] == events[j];
      }
      if Enters(uniform, events[n]) {
        UpdatedOk(score, uniform, before, t);
        UpdatedFrom(score, uniform, before, t);
      }
      FromMore(before, Winners(score, uniform, events), events, n);
    }
  }

  /** A ticket wins only if its coinstake is large enough and, after the fork, its script has not won lately. */
  lemma {:induction false} WinnersHaveEntered(score: Score, uniform: bool, events: seq<Event>, t: Ticket)
    requires DistinctTickets(events) && t in Winners(score, uniform, events)
    ensures exists j :: 0 <= j < |events| && events[j].ticket == t && events[j].eligible && !(uniform && events[j].vetoed)
  {
    hide Updated, DistinctTickets, WinnersOk;
    var n := |events| - 1;
    TicketsPrefix(events);
    var before := Winners(score, uniform, events[..n]);
    CycleKeepsWinners(score, uniform, events[..n]);
    WinnersSorted(score, before);
    UpdatedFrom(score, uniform, before, events[n].ticket);
    if t in before {
      WinnersHaveEntered(score, uniform, events[..n], t);
      var j :| 0 <= j < n && events[..n][j].ticket == t && events[..n][j].eligible && !(uniform && events[..n][j].vetoed);
      assert events[j] == events[..n][j];
    }
  }

  lemma TicketsPrefix(events: seq<Event>)
    requires DistinctTickets(events) && events != []
    ensures DistinctTickets(events[..|events| - 1])
  {
  }

  lemma WinnersSorted(score: Score, winners: seq<Ticket>)
    requires WinnersOk(score, winners)
    ensures ByScore(score, winners)
  {
  }

  lemma NoWinners(score: Score)
    ensures WinnersOk(score, [])
  {
  }

  lemma FromMore(before: seq<Ticket>, after: seq<Ticket>, events: seq<Event>, n: nat)
    requires n == |events| - 1 && FromEvents(before, events[..n]) && forall w <- after :: w == events[n].ticket || w in before
    ensures FromEvents(after, events)
  {
    forall i | 0 <= i < |after| ensures IsTicketOf(after[i], events) {
      assert after[i] in after;
      if after[i] in before {
        var k :| 0 <= k < |before| && before[k] == after[i];
        assert IsTicketOf(before[k], events[..n]);
        var j :| 0 <= j < n && before[k] == events[..n][j].ticket;
        assert after[i] == events[j].ticket;
      } else {
        assert after[i] == events[n].ticket;
      }
    }
  }

  /** Before the fork the list is the stable top eleven of all tickets that entered since the reset. */
  lemma {:induction false} WinnersAreTop(score: Score, events: seq<Event>)
    ensures Winners(score, false, events) == Top(StableSort(score, Entered(false, events)))
  {
    hide StableSort, Duplicates, LastOf;
    if events == [] {
      assert StableSort(score, []) == [] by { NothingSorted(score); }
    } else {
      var n := |events| - 1;
      WinnersAreTop(score, events[..n]);
      if Enters(false, events[n]) {
        StreamingTop(score, Entered(false, events[..n]), events[n].ticket);
      } else {
        assert Entered(false, events) == Entered(false, events[..n]);
      }
    }
  }

  lemma NothingSorted(score: Score)
    ensures StableSort(score, []) == []
  {
  }

  /** After the fork, over any part of a cycle, the number of distinct payees does not fall. */
  lemma {:induction false} PayeesOverCycle(score: Score, events: seq<Event>, n: nat)
    requires DistinctTickets(events) && n <= |events|
    ensures |Payees(Winners(score, true, events[..n]))| <= |Payees(Winners(score, true, events))|
    decreases |events| - n
  {
    hide Updated, Payees, WinnersOk;
    if n == |events| {
      assert events[..n] == events;
    } else {
      var m := |events| - 1;
      assert events[..m][..n] == events[..n];
      PayeesOverCycle(score, events[..m], n);
      var before, t := Winners(score, true, events[..m]), events[m].ticket;
      CycleKeepsWinners(score, true, events[..m]);
      if Enters(true, events[m]) {
        forall i | 0 <= i < |before| ensures before[i].hash != t.hash {
          assert IsTicketOf(before[i], events[..m]);
          var j :| 0 <= j < m && before[i] == events[..m][j].ticket;
          assert events[..m][j] == events[j];
        }
        PayeesNeverFall(score, before, t);
      }
    }
  }

  // ---- The calculator ----

  datatype RankAwareScore = RankAwareScore(score: nat, rank: nat, isDuplicateScript: bool)

  /** The map holds exactly the first n tickets, each with its score, its place and whether its script came before. */
  ghost predicate Ranked(score: Score, xs: seq<Ticket>, n: nat, ranked: map<TxId, RankAwareScore>)
    requires n <= |xs|
  {
    && |ranked| == n
    && (forall h <- ranked :: ranked[h].rank < n && xs[ranked[h].rank].hash == h)
    && (forall i :: 0 <= i < n ==> xs[i].hash in ranked && ranked[xs[i].hash] == RankAwareScore(score(xs[i].hash), i, IsDuplicate(xs, i)))
  }

  ghost function ScriptsBefore(xs: seq<Ticket>, n: nat): set<Script>
    requires n <= |xs|
  {
    set i | 0 <= i < n :: xs[i].script
  }

  lemma RankedNext(score: Score, xs: seq<Ticket>, n: nat, ranked: map<TxId, RankAwareScore>, isDuplicateScript: bool)
    requires n < |xs| && DistinctHashes(xs) && Ranked(score, xs, n, ranked) && isDuplicateScript == IsDuplicate(xs, n)
    ensures Ranked(score, xs, n + 1, ranked[xs[n].hash := RankAwareScore(score(xs[n].hash), n, isDuplicateScript)])
  {
    hide IsDuplicate;
    assert xs[n].hash !in ranked;
  }

  method ComputeRankedScores(score: Score, xs: seq<Ticket>) returns (ranked: map<TxId, RankAwareScore>)
    requires DistinctHashes(xs)
    ensures Ranked(score, xs, |xs|, ranked)
  {
    hide Ranked, DistinctHashes;
    ranked := map[];
    assert Ranked(score, xs, 0, ranked) by { NoneRanked(score, xs); }
    var paymentScripts: set<Script> := {};
    for i := 0 to |xs|
      invariant Ranked(score, xs, i, ranked) && |ranked| == i && paymentScripts == ScriptsBefore(xs, i)
    {
      var t := xs[i];
      var isDuplicateScript := t.script in paymentScripts;
      RankedNext(score, xs, i, ranked, isDuplicateScript);
      ranked := ranked[t.hash := RankAwareScore(score(t.hash), |ranked|, isDuplicateScript)];
      RankedSize(score, xs, i + 1, ranked);
      paymentScripts := paymentScripts + {t.script};
    }
  }

  lemma NoneRanked(score: Score, xs: seq<Ticket>)
    ensures Ranked(score, xs, 0, map[])
  {
  }

  lemma RankedSize(score: Score, xs: seq<Ticket>, n: nat, ranked: map<TxId, RankAwareScore>)
    requires n <= |xs| && Ranked(score, xs, n, ranked)
    ensures |ranked| == n
  {
  }

  /** The map knows every ticket of the sorted list: its place before sorting and whether it is a duplicate. */
  ghost predicate Knows(ranked: map<TxId, RankAwareScore>, s: seq<Ticket>, xs: seq<Ticket>)
  {
    forall k :: 0 <= k < |s| ==>
      && s[k].hash in ranked && (ranked[s[k].hash].isDuplicateScript <==> s[k].hash in Duplicates(xs))
      && 0 <= ranked[s[k].hash].rank < |xs| && xs[ranked[s[k].hash].rank] == s[k]
  }

  /** Cuts the sorted list to eleven and says whether it differs from before. */
  method TopElevenNeedUpdating(trimDuplicates: bool, ranked: map<TxId, RankAwareScore>, s: seq<Ticket>, ghost xs: seq<Ticket>)
    returns (shouldUpdate: bool, r: seq<Ticket>)
    requires s != [] && |s| == |xs| == |ranked| <= WINNERS + 1 && Knows(ranked, s, xs)
    ensures r == Trimmed(trimDuplicates, s, Duplicates(xs))
    ensures !shouldUpdate ==> s[|s| - 1] == xs[|xs| - 1] && r == s[..|s| - 1]
    ensures !shouldUpdate ==> |xs| == WINNERS + 1
  {
    hide Duplicates;
    shouldUpdate := |ranked| > 0;
    if |ranked| > 1 {
      shouldUpdate := ranked[s[|s| - 1].hash].rank != WINNERS;
    }
    r := s;
    if |s| > WINNERS {
      var k := -1;
      if trimDuplicates {
        k := |s| - 1;
        while k >= 0 && !ranked[s[k].hash].isDuplicateScript
          invariant -1 <= k < |s| && forall i :: k < i < |s| ==> s[i].hash !in Duplicates(xs)
        {
          k := k - 1;
        }
        LastOfUnique(s, Duplicates(xs), k);
      }
      if k >= 0 {
        r := s[..k] + s[k + 1..];
        shouldUpdate := true;
      } else {
        r := s[..|s| - 1];
      }
    }
  }

  lemma RankedMembers(score: Score, s: seq<Ticket>, xs: seq<Ticket>, ranked: map<TxId, RankAwareScore>)
    requires multiset(s) == multiset(xs) && DistinctHashes(xs) && Ranked(score, xs, |xs|, ranked)
    ensures Knows(ranked, s, xs)
  {
    hide IsDuplicate;
    forall k | 0 <= k < |s| ensures
      && s[k].hash in ranked && (ranked[s[k].hash].isDuplicateScript <==> s[k].hash in Duplicates(xs))
      && 0 <= ranked[s[k].hash].rank < |xs| && xs[ranked[s[k].hash].rank] == s[k]
    {
      assert s[k] in multiset(s);
      assert s[k] in xs;
      var i :| 0 <= i < |xs| && xs[i] == s[k];
      if s[k].hash in Duplicates(xs) {
        var j :| 0 <= j < |xs| && IsDuplicate(xs, j) && xs[j].hash == s[k].hash;
        assert j == i;
      }
    }
  }

  lemma LastOfUnique(s: seq<Ticket>, hashes: set<TxId>, k: int)
    requires -1 <= k < |s| && (k >= 0 ==> s[k].hash in hashes) && forall i :: k < i < |s| ==> s[i].hash !in hashes
    ensures LastOf(s, hashes) == k
  {
    var l := LastOf(s, hashes);
  }

  lemma {:induction false} LastEntered(score: Score, t: Ticket, s: seq<Ticket>)
    requires Enter(score, t, s)[|s|] == t && Fresh(s, t)
    ensures Enter(score, t, s) == s + [t]
  {
    if s != [] && score(t.hash) <= score(s[0].hash) { LastEntered(score, t, s[1..]); }
  }

  /** One more ticket: whether the list changes, and to what. */
  method UpdateCoinstakes(score: Score, uniform: bool, vetoed: bool, winners: seq<Ticket>, t: Ticket) returns (next: seq<Ticket>)
    requires WinnersOk(score, winners) && Fresh(winners, t)
    ensures next == if uniform && vetoed then winners else Updated(score, uniform, winners, t)
  {
    hide Enter, StableSort, IsDuplicate, Duplicates, Knows, Ranked, LastOf, ByScore;
    if uniform && vetoed { return winners; }
    var xs := winners + [t];
    JoinDistinct(winners, t);
    var ranked := ComputeRankedScores(score, xs);
    var s := StableSort(score, xs);
    SortedWithOne(score, winners, t);
    RankedMembers(score, s, xs, ranked);
    RankedSize(score, xs, |xs|, ranked);
    var shouldUpdate, r := TopElevenNeedUpdating(uniform, ranked, s, xs);
    if shouldUpdate {
      next := r;
    } else {
      LastEntered(score, t, winners);
      assert (winners + [t])[..|winners|] == winners;
      next := winners;
    }
  }

  /** What a block leaves as winners: nothing at a lottery superblock, the previous winners or the updated ones. */
  method CalculateUpdatedLotteryWinners(score: Score, uniform: bool, previous: seq<Ticket>, e: Event,
                                        nHeight: int, startOfLottery: int, isLotteryHeight: bool)
    returns (next: seq<Ticket>)
    requires WinnersOk(score, previous) && Fresh(previous, e.ticket)
    ensures WinnersOk(score, next)
    ensures nHeight <= 0 || isLotteryHeight ==> next == []
    ensures 0 < nHeight && !isLotteryHeight && (nHeight <= startOfLottery || !Enters(uniform, e)) ==> next == previous
    ensures 0 < nHeight && !isLotteryHeight && nHeight > startOfLottery && Enters(uniform, e) ==> next == Updated(score, uniform, previous, e.ticket)
  {
    hide Updated;
    if nHeight <= 0 { return []; }
    if isLotteryHeight { return []; }
    if nHeight <= startOfLottery { return previous; }
    if !e.eligible { return previous; }
    UpdatedOk(score, uniform, previous, e.ticket);
    next := UpdateCoinstakes(score, uniform, e.vetoed, previous, e.ticket);
  }

  // ---- Payment ----

  function Prize(reward: nat, i: nat): nat { if i == 0 then reward / 2 else reward / 2 / 10 }

  /** The first winner gets half of the reward and each other one a twentieth, rounded down; eleven winners get all but ten units. */
  lemma PrizesShareTheReward(reward: nat, i: nat)
    requires i > 0
    ensures 2 * Prize(reward, 0) <= reward < 2 * Prize(reward, 0) + 2 && 20 * Prize(reward, i) <= reward < 20 * Prize(reward, i) + 20
    ensures reward - 10 <= Prize(reward, 0) + 10 * Prize(reward, i) <= reward
  {
  }

  method FillLotteryPayment(vout: seq<TxOut>, winners: seq<Ticket>, reward: nat) returns (r: seq<TxOut>)
    ensures |r| == |vout| + |winners| && r[..|vout|] == vout
    ensures forall i :: 0 <= i < |winners| ==> r[|vout| + i] == TxOut(Prize(reward, i), winners[i].script)
  {
    r := vout;
    var big := reward / 2;
    var small := big / 10;
    for i := 0 to |winners|
      invariant |r| == |vout| + i && r[..|vout|] == vout
      invariant forall k :: 0 <= k < i ==> r[|vout| + k] == TxOut(Prize(reward, k), winners[k].script)
    {
      r := r + [TxOut(if i == 0 then big else small, winners[i].script)];
    }
  }

  ghost predicate Accepted(reward: nat, vout: seq<TxOut>, winners: seq<Ticket>)
  {
    forall i :: 0 <= i < |winners| ==> TxOut(Prize(reward, i), winners[i].script) in vout
  }

  method IsValidLotteryPayment(reward: nat, vout: seq<TxOut>, winners: seq<Ticket>) returns (ok: bool)
    ensures ok <==> Accepted(reward, vout, winners)
  {
    if winners == [] { return true; }
    var big := reward / 2;
    var small := big / 10;
    for i := 0 to |winners|
      invariant forall k :: 0 <= k < i ==> TxOut(Prize(reward, k), winners[k].script) in vout
    {
      var payment := TxOut(if i == 0 then big else small, winners[i].script);
      if payment !in vout { return false; }
    }
    ok := true;
  }

  ghost function Payments(reward: nat, winners: seq<Ticket>): seq<TxOut>
  {
    seq(|winners|, i requires 0 <= i < |winners| => TxOut(Prize(reward, i), winners[i].script))
  }

  /** The same script wins twice only as first and later winner, with prizes that differ. */
  predicate NoPaymentTwice(reward: nat, winners: seq<Ticket>)
  {
    forall i, j :: 0 <= i < j < |winners| && winners[i].script == winners[j].script ==> i == 0 && reward / 2 / 10 != reward / 2
  }

  lemma NoneTwiceIs(reward: nat, winners: seq<Ticket>)
    ensures NoPaymentTwice(reward, winners)
       <==> forall i, j :: 0 <= i < j < |winners| ==> Payments(reward, winners)[i] != Payments(reward, winners)[j]
  {
    var p := Payments(reward, winners);
    if !NoPaymentTwice(reward, winners) {
      var i, j :| 0 <= i < j < |winners| && winners[i].script == winners[j].script && !(i == 0 && reward / 2 / 10 != reward / 2);
      assert p[i] == p[j];
    }
  }

  lemma {:induction false} DistinctCountsOnce(p: seq<TxOut>, x: TxOut)
    requires forall i, j :: 0 <= i < j < |p| ==> p[i] != p[j]
    ensures multiset(p)[x] <= 1
  {
    if p != [] {
      var n := |p| - 1;
      assert p == p[..n] + [p[n]];
      DistinctCountsOnce(p[..n], x);
      if x == p[n] { assert x !in p[..n]; }
    }
  }

  lemma OneLeftOut(reward: nat, winners: seq<Ticket>, i: nat, j: nat)
    requires i < j < |winners| && Payments(reward, winners)[i] == Payments(reward, winners)[j]
    ensures var p := Payments(reward, winners);
            Accepted(reward, p[..j] + p[j + 1..], winners) && !(multiset(p) <= multiset(p[..j] + p[j + 1..]))
  {
    var p := Payments(reward, winners);
    var vout := p[..j] + p[j + 1..];
    forall k | 0 <= k < |winners| ensures p[k] in vout {
      assert if k < j then vout[k] == p[k] else if k > j then vout[k - 1] == p[k] else vout[i] == p[k];
    }
    assert forall k :: 0 <= k < |winners| ==> p[k] == TxOut(Prize(reward, k), winners[k].script);
    assert p == p[..j] + [p[j]] + p[j + 1..];
    assert multiset(p)[p[j]] == multiset(vout)[p[j]] + 1;
  }

  /** Every payment that is accepted pays every winner, if and only if no two winners are owed the same output. */
  lemma EveryWinnerIsPaidIff(reward: nat, winners: seq<Ticket>)
    ensures (forall vout :: Accepted(reward, vout, winners) ==> multiset(Payments(reward, winners)) <= multiset(vout))
       <==> NoPaymentTwice(reward, winners)
  {
    var p := Payments(reward, winners);
    NoneTwiceIs(reward, winners);
    if NoPaymentTwice(reward, winners) {
      forall vout | Accepted(reward, vout, winners) ensures multiset(p) <= multiset(vout) {
        forall x ensures multiset(p)[x] <= multiset(vout)[x] {
          DistinctCountsOnce(p, x);
          if x in p {
            var i :| 0 <= i < |p| && p[i] == x;
            assert TxOut(Prize(reward, i), winners[i].script) in vout;
          }
        }
      }
    } else {
      var i, j :| 0 <= i < j < |winners| && p[i] == p[j];
      OneLeftOut(reward, winners, i, j);
    }
  }

  /** Three winners, two of them with the same script: two outputs are enough. */
  lemma UnpaidWinner()
    ensures var winners := [Ticket(1, [1]), Ticket(2, [2]), Ticket(3, [2])];
            var vout := [TxOut(50, [1]), TxOut(5, [2])];
            Accepted(100, vout, winners) && !(multiset(Payments(100, winners)) <= multiset(vout))
  {
    var winners := [Ticket(1, [1]), Ticket(2, [2]), Ticket(3, [2])];
    var vout := [TxOut(50, [1]), TxOut(5, [2])];
    assert vout[0] in vout && vout[1] in vout;
    assert Payments(100, winners) == [TxOut(50, [1]), TxOut(5, [2]), TxOut(5, [2])];
    assert multiset(Payments(100, winners))[TxOut(5, [2])] == 2 && multiset(vout)[TxOut(5, [2])] == 1;
  }

  function TotalPaid(outs: seq<TxOut>): Amount { if outs == [] then 0 else TotalPaid(outs[..|outs| - 1]) + outs[|outs| - 1].nValue }

  lemma {:induction false} TotalOfPrizes(outs: seq<TxOut>, reward: nat)
    requires forall i :: 0 <= i < |outs| ==> outs[i].nValue == Prize(reward, i)
    ensures TotalPaid(outs) == if outs == [] then 0 else reward / 2 + (|outs| - 1) * (reward / 2 / 10)
  {
    if |outs| > 1 { TotalOfPrizes(outs[..|outs| - 1], reward); }
  }

  /** The payment that is filled in is valid, and pays no more than the reward. */
  method FillAndCheck(vout: seq<TxOut>, winners: seq<Ticket>, reward: nat) returns (r: seq<TxOut>, ok: bool)
    requires |winners| <= WINNERS
    ensures ok && |r| >= |vout| && TotalPaid(r[|vout|..]) <= reward
  {
    r := FillLotteryPayment(vout, winners, reward);
    ok := IsValidLotteryPayment(reward, r, winners);
    forall i | 0 <= i < |winners| ensures TxOut(Prize(reward, i), winners[i].script) in r {
      assert r[|vout| + i] in r;
    }
    var paid := r[|vout|..];
    forall i | 0 <= i < |paid| ensures paid[i].nValue == Prize(reward, i) { assert paid[i] == r[|vout| + i]; }
    TotalOfPrizes(paid, reward);
    PrizesFit(|paid|, reward / 2 / 10);
  }

  lemma PrizesFit(n: nat, small: nat)
    requires n <= WINNERS
    ensures n > 0 ==> (n - 1) * small <= 10 * small
  {
  }
}
