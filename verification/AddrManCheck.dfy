/**
  The debugging check of the address manager: one pass over the entries, which collects the ids of
  either kind, and one over each table, which crosses them off.
 */
module AddrManCheck {
  import opened AddrManSpec
  import opened AddrManOps
  import opened AddrMan

  /** The slots that a pass has visited when it is at (n, i). */
  ghost predicate Done(s: Slot, n: nat, i: nat) { s.0 < n || (s.0 == n && s.1 < i) }

  ghost function DoneSlots(table: Table, id: int, n: nat, i: nat): set<Slot>
  {
    set s <- table | table[s] == id && Done(s, n, i)
  }

  lemma DoneNext(table: Table, id: int, n: nat, i: nat)
    ensures (n, i) !in DoneSlots(table, id, n, i)
    ensures DoneSlots(table, id, n, i + 1)
         == if (n, i) in table && table[(n, i)] == id then DoneSlots(table, id, n, i) + {(n, i)} else DoneSlots(table, id, n, i)
    ensures DoneSlots(table, id, n, i + 1) <= Slots(table, id)
  {
  }

  ghost predicate Within(table: Table, buckets: nat) { forall s <- table :: s.0 < buckets && s.1 < BUCKET_SIZE }

  // ---- The entries ----

  /** The entries visited so far pass, and have been collected. */
  ghost predicate Collected(st: State, left: set<int>, setTried: set<int>, mapNew: map<int, int>)
  {
    && left <= st.mapInfo.Keys
    && (forall id <- st.mapInfo :: id !in left ==> EntryPasses(st.mapInfo[id], id, st.mapAddr, st.vRandom))
    && (forall id :: id in setTried <==> id in st.mapInfo && id !in left && st.mapInfo[id].fInTried)
    && (forall id :: id in mapNew <==> id in st.mapInfo && id !in left && !st.mapInfo[id].fInTried)
    && (forall id <- mapNew :: mapNew[id] == st.mapInfo[id].nRefCount)
  }

  lemma CollectedNext(st: State, left: set<int>, n: int, setTried: set<int>, mapNew: map<int, int>)
    requires Collected(st, left, setTried, mapNew) && n in left && EntryPasses(st.mapInfo[n], n, st.mapAddr, st.vRandom)
    ensures var info := st.mapInfo[n];
            Collected(st, left - {n}, if info.fInTried then setTried + {n} else setTried,
                      if info.fInTried then mapNew else mapNew[n := info.nRefCount])
  {
    hide EntryPasses;
  }

  lemma NoneCollected(st: State)
    ensures Collected(st, st.mapInfo.Keys, {}, map[])
  {
    hide EntryPasses;
  }

  lemma CollectedIsKnown(st: State, left: set<int>, setTried: set<int>, mapNew: map<int, int>)
    requires Collected(st, left, setTried, mapNew)
    ensures forall id <- left :: id in st.mapInfo
  {
    hide EntryPasses;
  }

  /** The tests on one entry before and after its address is looked up. */
  method CheckFlags(info: AddrInfo) returns (ret: int)
    ensures ret == 0 <==> if info.fInTried then info.nLastSuccess != 0 && info.nRefCount == 0
                                           else 1 <= info.nRefCount <= NEW_BUCKETS_PER_ADDRESS
  {
    if info.fInTried {
      if info.nLastSuccess == 0 { return -1; }
      if info.nRefCount != 0 { return -2; }
    } else {
      if info.nRefCount < 0 || info.nRefCount > NEW_BUCKETS_PER_ADDRESS { return -3; }
      if info.nRefCount == 0 { return -4; }
    }
    return 0;
  }

  method CheckPlaces(info: AddrInfo, n: int, found: int, vRandom: seq<int>) returns (ret: int)
    ensures ret == 0 <==> && found == n && 0 <= info.nRandomPos < |vRandom| && vRandom[info.nRandomPos] == n
                          && info.nLastTry >= 0 && info.nLastSuccess >= 0
  {
    if found != n { return -5; }
    if info.nRandomPos < 0 || info.nRandomPos >= |vRandom| || vRandom[info.nRandomPos] != n { return -14; }
    if info.nLastTry < 0 { return -6; }
    if info.nLastSuccess < 0 { return -8; }
    return 0;
  }

  /** A missing address is inserted with zero, which no later look-up can tell. */
  ghost predicate SameLookups(st: State, m: map<NetAddr, int>)
  {
    (forall x :: Lookup(m, x) == Lookup(st.mapAddr, x)) && (AddrOk(st) ==> m == st.mapAddr)
  }

  lemma LookedUp(st: State, m: map<NetAddr, int>, n: int)
    requires SameLookups(st, m) && n in st.mapInfo
    ensures var ip := st.mapInfo[n].Ip(); SameLookups(st, if ip in m then m else m[ip := 0])
  {
  }

  lemma SomeLeft(left: set<int>)
    ensures left == {} || exists x :: x in left
  {
    if forall x :: x !in left { assert left == {}; }
  }

  method CheckInfos(a: AddrMan) returns (ret: int, setTried: set<int>, mapNew: map<int, int>)
    requires a.Shape()
    modifies a
    ensures a.St() == old(a.St()).(mapAddr := a.mapAddr) && SameLookups(old(a.St()), a.mapAddr)
    ensures ret == 0 ==> Collected(old(a.St()), {}, setTried, mapNew)
    ensures ret != 0 ==> !CheckEntries(old(a.St()))
  {
    hide Occupied, Collected, AddrOk;
    setTried, mapNew := {}, map[];
    ghost var st := a.St();
    var left := a.mapInfo.Keys;
    NoneCollected(st);
    while left != {}
      invariant a.St() == st.(mapAddr := a.mapAddr) && SameLookups(st, a.mapAddr)
      invariant Collected(st, left, setTried, mapNew)
      decreases |left|
    {
      SomeLeft(left);
      var n :| n in left;
      CollectedIsKnown(st, left, setTried, mapNew);
      var info := a.mapInfo[n];
      ret := CheckFlags(info);
      if ret != 0 { return; }
      LookedUp(st, a.mapAddr, n);
      if info.Ip() !in a.mapAddr { a.mapAddr := a.mapAddr[info.Ip() := 0]; }
      ret := CheckPlaces(info, n, a.mapAddr[info.Ip()], a.vRandom);
      if ret != 0 { return; }
      assert a.mapAddr[info.Ip()] == Lookup(a.mapAddr, info.Ip());
      CollectedNext(st, left, n, setTried, mapNew);
      if info.fInTried { setTried := setTried + {n}; } else { mapNew := mapNew[n := info.nRefCount]; }
      left := left - {n};
    }
    return 0, setTried, mapNew;
  }

  // ---- The tried table ----

  ghost predicate TriedDone(env: Env, st: State, n: nat, i: nat, left: set<int>)
  {
    && left <= TriedIds(st)
    && (forall s <- st.vvTried :: Done(s, n, i) ==>
          && st.vvTried[s] in TriedIds(st) && st.vvTried[s] !in left
          && s == env.TriedSlot(st.nKey, st.Service(st.vvTried[s])))
    && (forall s <- st.vvTried, t <- st.vvTried :: Done(s, n, i) && Done(t, n, i) && st.vvTried[s] == st.vvTried[t] ==> s == t)
    && (forall id <- TriedIds(st) :: id !in left ==> exists s :: s in st.vvTried && Done(s, n, i) && st.vvTried[s] == id)
  }

  lemma TriedFree(env: Env, st: State, n: nat, i: nat, left: set<int>)
    requires TriedDone(env, st, n, i, left) && (n, i) !in st.vvTried
    ensures TriedDone(env, st, n, i + 1, left)
  {
    hide Env.TriedSlot, TriedIds;
    assert forall s <- st.vvTried :: Done(s, n, i + 1) <==> Done(s, n, i);
    forall id | id in TriedIds(st) && id !in left ensures exists s :: s in st.vvTried && Done(s, n, i + 1) && st.vvTried[s] == id {
      var s :| s in st.vvTried && Done(s, n, i) && st.vvTried[s] == id;
      assert Done(s, n, i + 1);
    }
  }

  lemma TriedCrossed(env: Env, st: State, n: nat, i: nat, left: set<int>)
    requires TriedDone(env, st, n, i, left) && (n, i) in st.vvTried && st.vvTried[(n, i)] in left
    requires st.vvTried[(n, i)] in st.mapInfo && (n, i) == env.TriedSlot(st.nKey, st.Service(st.vvTried[(n, i)]))
    ensures TriedDone(env, st, n, i + 1, left - {st.vvTried[(n, i)]})
  {
    hide Env.TriedSlot;
    var x := st.vvTried[(n, i)];
    assert forall s <- st.vvTried :: Done(s, n, i + 1) <==> Done(s, n, i) || s == (n, i);
    forall id | id in TriedIds(st) && id !in left - {x} ensures exists s :: s in st.vvTried && Done(s, n, i + 1) && st.vvTried[s] == id {
      if id == x {
        assert Done((n, i), n, i + 1);
      } else {
        var s :| s in st.vvTried && Done(s, n, i) && st.vvTried[s] == id;
        assert Done(s, n, i + 1);
      }
    }
  }

  lemma TriedCannot(env: Env, st: State, n: nat, i: nat, left: set<int>)
    requires TriedDone(env, st, n, i, left) && (n, i) in st.vvTried && st.vvTried[(n, i)] !in left
    ensures !CheckTried(env, st)
  {
    hide Env.TriedSlot;
    var x := st.vvTried[(n, i)];
    if x in TriedIds(st) {
      var s :| s in st.vvTried && Done(s, n, i) && st.vvTried[s] == x;
      assert s != (n, i);
    }
  }

  lemma TriedNextBucket(env: Env, st: State, n: nat, left: set<int>)
    requires TriedDone(env, st, n, BUCKET_SIZE, left) && Within(st.vvTried, TRIED_BUCKET_COUNT)
    ensures TriedDone(env, st, n + 1, 0, left)
  {
    hide Env.TriedSlot, TriedIds;
    assert forall s <- st.vvTried :: Done(s, n + 1, 0) <==> Done(s, n, BUCKET_SIZE);
    forall id | id in TriedIds(st) && id !in left ensures exists s :: s in st.vvTried && Done(s, n + 1, 0) && st.vvTried[s] == id {
      var s :| s in st.vvTried && Done(s, n, BUCKET_SIZE) && st.vvTried[s] == id;
      assert Done(s, n + 1, 0);
    }
  }

  lemma TriedAllDone(env: Env, st: State, left: set<int>)
    requires TriedDone(env, st, TRIED_BUCKET_COUNT, 0, left) && Within(st.vvTried, TRIED_BUCKET_COUNT)
    ensures CheckTried(env, st) <==> left == {}
  {
    hide Env.TriedSlot, TriedIds;
    assert forall s <- st.vvTried :: Done(s, TRIED_BUCKET_COUNT, 0);
    if id :| id in left { assert id in TriedIds(st); } else { assert forall id :: id !in left; assert left == {}; }
  }

  lemma NothingDone(env: Env, st: State)
    ensures TriedDone(env, st, 0, 0, TriedIds(st))
  {
    hide Env.TriedSlot;
  }

  method CheckTriedTable(a: AddrMan, tried: set<int>) returns (ret: int, setTried: set<int>)
    requires a.Shape() && tried == TriedIds(a.St())
    ensures ret == 0 ==> (CheckTried(a.env, a.St()) <==> setTried == {})
    ensures ret != 0 ==> !CheckTried(a.env, a.St())
  {
    hide TriedDone, TriedIds, Env.Position, Env.TriedBucket, CheckTried, Occupied;
    setTried := tried;
    ghost var st := a.St();
    OccupiedWithin(a.vvTried);
    NothingDone(a.env, st);
    for n := 0 to TRIED_BUCKET_COUNT
      invariant TriedDone(a.env, st, n, 0, setTried)
    {
      for i := 0 to BUCKET_SIZE
        invariant TriedDone(a.env, st, n, i, setTried)
      {
        OccupiedAt(a.vvTried, n, i);
        var id := a.vvTried[n, i];
        if id != -1 {
          if id !in setTried { TriedCannot(a.env, st, n, i, setTried); return -11, setTried; }
          TriedKnown(a.env, st, n, i, setTried);
          var service := a.mapInfo[id].address.service;
          if a.env.TriedBucket(a.nKey, service) != n { TriedWrong(a.env, st, (n, i)); return -17, setTried; }
          if a.env.Position(a.nKey, false, n, service) != i { TriedWrong(a.env, st, (n, i)); return -18, setTried; }
          TriedCrossed(a.env, st, n, i, setTried);
          setTried := setTried - {id};
        } else {
          TriedFree(a.env, st, n, i, setTried);
        }
      }
      TriedNextBucket(a.env, st, n, setTried);
    }
    TriedAllDone(a.env, st, setTried);
    return 0, setTried;
  }

  lemma TriedKnown(env: Env, st: State, n: nat, i: nat, left: set<int>)
    requires TriedDone(env, st, n, i, left)
    ensures forall id <- left :: id in st.mapInfo
  {
    hide Env.TriedSlot;
  }

  lemma TriedWrong(env: Env, st: State, s: Slot)
    requires s in st.vvTried && st.vvTried[s] in st.mapInfo && s != env.TriedSlot(st.nKey, st.Service(st.vvTried[s]))
    ensures !CheckTried(env, st)
  {
    hide Env.TriedSlot;
  }

  lemma OccupiedWithin(a: array2<int>)
    requires a.Length1 == BUCKET_SIZE
    ensures Within(Occupied(a), a.Length0)
  {
  }

  // ---- The new table ----

  ghost predicate SlotsRight(env: Env, st: State, n: nat, i: nat)
  {
    forall s <- st.vvNew :: Done(s, n, i) ==>
      st.vvNew[s] in NewIds(st) && s == env.NewSlot(st.nKey, st.Service(st.vvNew[s]), s.0)
  }

  /** What is left of the reference counts after the slots that have been visited. */
  ghost predicate CountsLeft(st: State, n: nat, i: nat, left: map<int, int>)
  {
    && (forall id <- left :: id in NewIds(st))
    && (forall id <- NewIds(st) ::
          var c := |DoneSlots(st.vvNew, id, n, i)|;
          && c <= st.mapInfo[id].nRefCount && (id in left <==> c < st.mapInfo[id].nRefCount)
          && (id in left ==> left[id] == st.mapInfo[id].nRefCount - c))
  }

  ghost predicate NewDone(env: Env, st: State, n: nat, i: nat, left: map<int, int>)
  {
    SlotsRight(env, st, n, i) && CountsLeft(st, n, i, left)
  }

  /** The references still to be found, after one of them has been. */
  function CrossedOff(left: map<int, int>, id: int): map<int, int>
    requires id in left
  {
    if left[id] == 1 then left - {id} else left[id := left[id] - 1]
  }

  lemma NewFree(env: Env, st: State, n: nat, i: nat, left: map<int, int>)
    requires NewDone(env, st, n, i, left) && (n, i) !in st.vvNew
    ensures NewDone(env, st, n, i + 1, left)
  {
    forall id ensures DoneSlots(st.vvNew, id, n, i + 1) == DoneSlots(st.vvNew, id, n, i) { DoneNext(st.vvNew, id, n, i); }
    hide Env.NewSlot, NewIds, DoneSlots;
    assert forall s <- st.vvNew :: Done(s, n, i + 1) <==> Done(s, n, i);
  }

  lemma CountCrossed(st: State, n: nat, i: nat, left: map<int, int>)
    requires CountsLeft(st, n, i, left) && (n, i) in st.vvNew && st.vvNew[(n, i)] in left
    ensures CountsLeft(st, n, i + 1, CrossedOff(left, st.vvNew[(n, i)]))
  {
    var x := st.vvNew[(n, i)];
    forall id ensures |DoneSlots(st.vvNew, id, n, i + 1)| == |DoneSlots(st.vvNew, id, n, i)| + if id == x then 1 else 0 {
      DoneNext(st.vvNew, id, n, i);
    }
    hide NewIds, DoneSlots;
  }

  lemma NewCrossed(env: Env, st: State, n: nat, i: nat, left: map<int, int>)
    requires NewDone(env, st, n, i, left) && (n, i) in st.vvNew && st.vvNew[(n, i)] in left
    requires st.vvNew[(n, i)] in st.mapInfo && (n, i) == env.NewSlot(st.nKey, st.Service(st.vvNew[(n, i)]), n)
    ensures NewDone(env, st, n, i + 1, CrossedOff(left, st.vvNew[(n, i)]))
  {
    assert st.vvNew[(n, i)] in NewIds(st);
    CountCrossed(st, n, i, left);
    hide Env.NewSlot, NewIds, CountsLeft, CrossedOff;
    assert forall s <- st.vvNew :: Done(s, n, i + 1) <==> Done(s, n, i) || s == (n, i);
  }

  lemma NewCannot(env: Env, st: State, n: nat, i: nat, left: map<int, int>)
    requires NewDone(env, st, n, i, left) && (n, i) in st.vvNew && st.vvNew[(n, i)] !in left
    ensures !CheckNew(env, st)
  {
    hide Env.NewSlot;
    var x := st.vvNew[(n, i)];
    if x in NewIds(st) {
      DoneNext(st.vvNew, x, n, i);
      Smaller(DoneSlots(st.vvNew, x, n, i + 1), Slots(st.vvNew, x));
    }
  }

  lemma Smaller(a: set<Slot>, b: set<Slot>)
    requires a <= b
    ensures |a| <= |b|
  {
    assert b == a + (b - a);
  }

  lemma NewNextBucket(env: Env, st: State, n: nat, left: map<int, int>)
    requires NewDone(env, st, n, BUCKET_SIZE, left) && Within(st.vvNew, NEW_BUCKET_COUNT)
    ensures NewDone(env, st, n + 1, 0, left)
  {
    assert forall s <- st.vvNew :: Done(s, n + 1, 0) <==> Done(s, n, BUCKET_SIZE);
    forall id ensures DoneSlots(st.vvNew, id, n + 1, 0) == DoneSlots(st.vvNew, id, n, BUCKET_SIZE) { }
    hide Env.NewSlot, NewIds, DoneSlots;
  }

  lemma NewAllDone(env: Env, st: State, left: map<int, int>)
    requires NewDone(env, st, NEW_BUCKET_COUNT, 0, left) && Within(st.vvNew, NEW_BUCKET_COUNT)
    ensures CheckNew(env, st) <==> left == map[]
  {
    assert forall s <- st.vvNew :: Done(s, NEW_BUCKET_COUNT, 0);
    forall id ensures DoneSlots(st.vvNew, id, NEW_BUCKET_COUNT, 0) == Slots(st.vvNew, id) { }
    hide Env.NewSlot, NewIds, DoneSlots, Slots;
    if id :| id in left { assert id in NewIds(st); } else { assert forall id :: id !in left; assert left == map[]; }
  }

  lemma NothingDoneNew(env: Env, st: State, left: map<int, int>)
    requires left.Keys == NewIds(st) && forall id <- left :: left[id] == st.mapInfo[id].nRefCount >= 1
    ensures NewDone(env, st, 0, 0, left)
  {
    hide Env.NewSlot;
    forall id ensures DoneSlots(st.vvNew, id, 0, 0) == {} { }
  }

  method CheckNewTable(a: AddrMan, found: map<int, int>) returns (ret: int, mapNew: map<int, int>)
    requires a.Shape() && found.Keys == NewIds(a.St()) && forall id <- found :: found[id] == a.mapInfo[id].nRefCount >= 1
    ensures ret == 0 ==> (CheckNew(a.env, a.St()) <==> mapNew == map[])
    ensures ret != 0 ==> !CheckNew(a.env, a.St())
  {
    hide NewDone, NewIds, Env.Position, CheckNew, Occupied;
    mapNew := found;
    ghost var st := a.St();
    OccupiedWithin(a.vvNew);
    NothingDoneNew(a.env, st, mapNew);
    for n := 0 to NEW_BUCKET_COUNT
      invariant NewDone(a.env, st, n, 0, mapNew)
    {
      for i := 0 to BUCKET_SIZE
        invariant NewDone(a.env, st, n, i, mapNew)
      {
        OccupiedAt(a.vvNew, n, i);
        var id := a.vvNew[n, i];
        if id != -1 {
          if id !in mapNew { NewCannot(a.env, st, n, i, mapNew); return -12, mapNew; }
          NewKnown(a.env, st, n, i, mapNew);
          if a.env.Position(a.nKey, true, n, a.mapInfo[id].address.service) != i { NewWrong(a.env, st, (n, i)); return -19, mapNew; }
          NewCrossed(a.env, st, n, i, mapNew);
          mapNew := CrossedOff(mapNew, id);
        } else {
          NewFree(a.env, st, n, i, mapNew);
        }
      }
      NewNextBucket(a.env, st, n, mapNew);
    }
    NewAllDone(a.env, st, mapNew);
    return 0, mapNew;
  }

  lemma NewKnown(env: Env, st: State, n: nat, i: nat, left: map<int, int>)
    requires NewDone(env, st, n, i, left)
    ensures forall id <- left :: id in st.mapInfo
  {
    hide Env.NewSlot;
  }

  lemma NewWrong(env: Env, st: State, s: Slot)
    requires s in st.vvNew && st.vvNew[s] in st.mapInfo && s != env.NewSlot(st.nKey, st.Service(st.vvNew[s]), s.0)
    ensures !CheckNew(env, st)
  {
    hide Env.NewSlot;
  }

  // ---- All of it ----

  lemma AllCollected(st: State, setTried: set<int>, mapNew: map<int, int>)
    requires Collected(st, {}, setTried, mapNew)
    ensures CheckEntries(st) && setTried == TriedIds(st) && mapNew.Keys == NewIds(st)
    ensures forall id <- mapNew :: mapNew[id] == st.mapInfo[id].nRefCount >= 1
  {
    forall id ensures (id in setTried <==> id in TriedIds(st)) && (id in mapNew.Keys <==> id in NewIds(st)) { }
  }

  /** The tables do not depend on mapAddr. */
  lemma SameButAddr(env: Env, st: State, r: State)
    requires r == st.(mapAddr := r.mapAddr)
    ensures TriedIds(r) == TriedIds(st) && NewIds(r) == NewIds(st)
    ensures CheckTried(env, r) <==> CheckTried(env, st)
    ensures CheckNew(env, r) <==> CheckNew(env, st)
  {
    hide Env.TriedSlot, Env.NewSlot;
  }

  /** The check returns zero exactly for the states that the specification lets pass. */
  method Check_(a: AddrMan) returns (ret: int)
    requires a.Shape()
    modifies a
    ensures ret == 0 <==> CheckPasses(a.env, old(a.St()))
    ensures a.St() == old(a.St()).(mapAddr := a.mapAddr) && SameLookups(old(a.St()), a.mapAddr)
  {
    hide CheckEntries, CheckTried, CheckNew, Collected, TriedIds, NewIds, AddrOk, Occupied, Lookup;
    ghost var st := a.St();
    assert SameLookups(st, a.mapAddr);
    if |a.vRandom| != a.nTried + a.nNew { return -7; }
    var setTried, mapNew;
    ret, setTried, mapNew := CheckInfos(a);
    if ret != 0 { return; }
    AllCollected(st, setTried, mapNew);
    SameButAddr(a.env, st, a.St());
    if |setTried| != a.nTried { return -9; }
    if |mapNew| != a.nNew { return -10; }
    ret, setTried := CheckTriedTable(a, setTried);
    if ret != 0 { return; }
    ret, mapNew := CheckNewTable(a, mapNew);
    if ret != 0 { return; }
    if |setTried| != 0 { return -13; }
    if |mapNew| != 0 { return -15; }
    if a.nKey == 0 { return -16; }
    return 0;
  }
}
