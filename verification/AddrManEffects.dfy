/**
  What the operations of the address manager do to its entries: who keeps a contested slot, who is
  forgotten, and what is recorded. Everything is said of the tables and the entries themselves.
 */
module AddrManEffects {
  import opened Basics
  import opened AddrManSpec
  import opened AddrManOps

  /** The same entry, perhaps at another place of vRandom. */
  ghost predicate Alike(a: AddrInfo, b: AddrInfo) { b == a.(nRandomPos := b.nRandomPos) }

  /** The entry k is still there and unchanged. */
  ghost predicate Stays(st: State, r: State, k: int)
    requires k in st.mapInfo
  {
    k in r.mapInfo && Alike(st.mapInfo[k], r.mapInfo[k])
  }

  /** The entry k has lost one reference, and is gone if that was its only one. */
  ghost predicate LosesReference(st: State, r: State, k: int)
    requires k in st.mapInfo
  {
    if st.mapInfo[k].nRefCount == 1 then k !in r.mapInfo
    else k in r.mapInfo && Alike(st.mapInfo[k].(nRefCount := st.mapInfo[k].nRefCount - 1), r.mapInfo[k])
  }

  /** Clearing a slot takes one reference from its holder and leaves everyone else alone. */
  lemma ClearedIs(env: Env, st: State, limbo: set<int>, owed: int, slot: Slot)
    requires Consistent(env, st, limbo) && CountsOk(st, owed)
    ensures slot in st.vvNew ==> st.vvNew[slot] in st.mapInfo
    ensures var r := Cleared(st, slot);
            && r.vvNew == st.vvNew - {slot} && r.vvTried == st.vvTried && r.nKey == st.nKey
            && (forall k <- r.mapInfo :: k in st.mapInfo)
            && (forall k <- st.mapInfo :: if slot in st.vvNew && st.vvNew[slot] == k then LosesReference(st, r, k) else Stays(st, r, k))
  {
    hide IdsOk, AddrOk, RandOk, TriedOk, NewOk, RefOk, StampOk, NewIds, TriedIds, Deleted;
    ClearedOk(env, st, limbo, owed, slot);
    if slot in st.vvNew {
      UnreferencedOk(env, st, limbo, slot);
      var id := st.vvNew[slot];
      var r := Unreferenced(st, slot);
      if r.mapInfo[id].nRefCount == 0 {
        DeletedOk(env, r, limbo + {id}, id);
        RandIsList(r);
        DeletedIs(r, id);
      }
    }
  }

  // ---- Add_ ----

  /** Where the new table has room for an address that the given peer announces. */
  function SlotFor(env: Env, st: State, a: Service, source: NetAddr): Slot { env.NewSlot(st.nKey, a, env.NewBucket(st.nKey, a, source)) }

  /** Who holds a slot gives it up if terrible, or to an entry without a reference if it has several itself. */
  ghost predicate Yields(st: State, slot: Slot, refs: int, nNow: int)
    requires slot in st.vvNew && st.vvNew[slot] in st.mapInfo
  {
    IsTerrible(st.mapInfo[st.vvNew[slot]], nNow) || (st.mapInfo[st.vvNew[slot]].nRefCount > 1 && refs == 0)
  }

  /** The entry takes the slot. */
  ghost predicate Settles(st: State, r: State, id: int, slot: Slot)
    requires id in st.mapInfo
  {
    && r.vvNew == st.vvNew[slot := id]
    && id in r.mapInfo && Alike(st.mapInfo[id].(nRefCount := st.mapInfo[id].nRefCount + 1), r.mapInfo[id])
    && forall k <- st.mapInfo :: k != id ==>
         if slot in st.vvNew && st.vvNew[slot] == k then LosesReference(st, r, k) else Stays(st, r, k)
  }

  /** The entry does not take the slot, and is forgotten if it has no other. */
  ghost predicate TurnedAway(st: State, r: State, id: int)
    requires id in st.mapInfo
  {
    && r.vvNew == st.vvNew && (st.mapInfo[id].nRefCount == 0 ==> id !in r.mapInfo)
    && forall k <- st.mapInfo :: k != id || st.mapInfo[id].nRefCount > 0 ==> Stays(st, r, k)
  }

  /** A contested slot goes to the newcomer exactly if its holder yields. */
  lemma PlacedIs(env: Env, st: State, id: int, source: NetAddr, nNow: int)
    requires id in st.mapInfo && !st.mapInfo[id].fInTried && st.mapInfo[id].nRefCount < NEW_BUCKETS_PER_ADDRESS
    requires Consistent(env, st, if st.mapInfo[id].nRefCount == 0 then {id} else {}) && CountsOk(st, 0)
    ensures var slot, r := SlotFor(env, st, st.Service(id), source), Placed(env, st, id, source, nNow);
            && (slot in st.vvNew ==> st.vvNew[slot] in st.mapInfo) && (forall k <- r.mapInfo :: k in st.mapInfo)
            && (slot in st.vvNew && st.vvNew[slot] == id ==> r == st)
            && (slot !in st.vvNew || (st.vvNew[slot] != id && Yields(st, slot, st.mapInfo[id].nRefCount, nNow)) ==> Settles(st, r, id, slot))
            && (slot in st.vvNew && st.vvNew[slot] != id && !Yields(st, slot, st.mapInfo[id].nRefCount, nNow) ==> TurnedAway(st, r, id))
  {
    hide IdsOk, AddrOk, RandOk, TriedOk, NewOk, RefOk, StampOk, NewIds, TriedIds, Env.NewSlot, Cleared, Deleted, IsTerrible;
    var limbo := if st.mapInfo[id].nRefCount == 0 then {id} else {};
    var slot := SlotFor(env, st, st.Service(id), source);
    if slot in st.vvNew { SlotIsKnown(env, st, slot); }
    if !(slot in st.vvNew && st.vvNew[slot] == id) {
      ClearedIs(env, st, limbo, 0, slot);
      assert st.vvNew[slot := id] == (st.vvNew - {slot})[slot := id];
      if id in limbo {
        DeletedOk(env, st, limbo, id);
        RandIsList(st);
        DeletedIs(st, id);
      }
    }
  }

  /** An unknown address is answered with true, whether or not it gets a slot. */
  lemma AnswerIsNew(env: Env, st: State, addr: Address, source: NetAddr, nTimePenalty: int, nNow: int, draw: nat)
    requires Valid(env, st)
    ensures var a := AfterAdd(env, st, addr, source, nTimePenalty, nNow, draw);
            && (a.1 <==> env.routable(addr.service.ip) && addr.service.ip !in st.mapAddr)
            && (!env.routable(addr.service.ip) ==> a.0 == st)
  {
    hide Consistent, CountsOk, Placed, Introduced, Refreshed, MayGrow;
  }

  /** What is recorded of an address that was not known. */
  ghost predicate Recorded(st: State, r: State, addr: Address, source: NetAddr, nTimePenalty: int)
  {
    var id := st.nIdCount;
    && id in r.mapInfo && addr.service.ip in r.mapAddr && r.mapAddr[addr.service.ip] == id
    && var info := r.mapInfo[id];
       && info.address.service == addr.service && info.address.nServices == addr.nServices && info.source == source
       && info.address.nTime == (if addr.nTime > nTimePenalty then addr.nTime - nTimePenalty else 0)
       && info.nRefCount == 1 && !info.fInTried && info.nLastTry == info.nLastSuccess == info.nAttempts == 0
  }

  /**
    A new address gets its slot exactly if the slot is free, or held by a terrible entry or by one
    that has others. Otherwise nothing remains of it. Only the holder of the slot can be affected.
   */
  lemma NewAddressIsAdded(env: Env, st: State, addr: Address, source: NetAddr, nTimePenalty: int, nNow: int, draw: nat)
    requires Valid(env, st) && env.routable(addr.service.ip) && addr.service.ip !in st.mapAddr
    ensures var slot := SlotFor(env, st, addr.service, source);
            var r := AfterAdd(env, st, addr, source, nTimePenalty, nNow, draw).0;
            && (slot in st.vvNew ==> st.vvNew[slot] in st.mapInfo)
            && if slot !in st.vvNew || Yields(st, slot, 0, nNow) then
                 && r.vvNew == st.vvNew[slot := st.nIdCount] && Recorded(st, r, addr, source, nTimePenalty)
                 && forall k <- st.mapInfo :: if slot in st.vvNew && st.vvNew[slot] == k then LosesReference(st, r, k) else Stays(st, r, k)
               else
                 r.vvNew == st.vvNew && addr.service.ip !in r.mapAddr && forall k <- st.mapInfo :: Stays(st, r, k)
  {
    hide Consistent, CountsOk, Placed, IsTerrible, Env.NewSlot, Env.NewBucket, Stays, LosesReference, Introduced;
    var s, id := Introduced(st, addr, source, nTimePenalty), st.nIdCount;
    var slot := SlotFor(env, st, addr.service, source);
    IntroducedOk(env, st, addr, source, nTimePenalty);
    ConsistentParts(env, s, {id});
    var r := Placed(env, s, id, source, nNow);
    IntroducedIs(env, st, addr, source, nTimePenalty);
    PlacedIs(env, s, id, source, nNow);
    PlacedOk(env, s, id, source, nNow);
    if slot in st.vvNew { HolderIsKnown(env, st, slot); }
    forall k | k in r.mapInfo ensures r.mapInfo[k].Ip() == s.mapInfo[k].Ip() { SameIp(s, r, k); }
    forall k | k in st.mapInfo
      ensures (Stays(s, r, k) <==> Stays(st, r, k)) && (LosesReference(s, r, k) <==> LosesReference(st, r, k))
    {
      SameEntry(st, s, r, k);
    }
    KnownAfter(env, st, s, r, id, addr.service.ip);
  }

  lemma SameIp(s: State, r: State, k: int)
    requires k in s.mapInfo && k in r.mapInfo
    ensures Stays(s, r, k) || LosesReference(s, r, k) ==> r.mapInfo[k].Ip() == s.mapInfo[k].Ip()
  {
  }

  lemma SameEntry(st: State, s: State, r: State, k: int)
    requires k in st.mapInfo && k in s.mapInfo && s.mapInfo[k] == st.mapInfo[k]
    ensures (Stays(s, r, k) <==> Stays(st, r, k)) && (LosesReference(s, r, k) <==> LosesReference(st, r, k))
  {
  }

  lemma SameOutcome(st: State, c: State, r: State, k: int)
    requires k in st.mapInfo && (k in c.mapInfo <==> k in r.mapInfo) && (k in c.mapInfo ==> c.mapInfo[k] == r.mapInfo[k])
    ensures (Stays(st, c, k) <==> Stays(st, r, k)) && (LosesReference(st, c, k) <==> LosesReference(st, r, k))
  {
  }

  lemma HolderIsKnown(env: Env, st: State, slot: Slot)
    requires Valid(env, st) && slot in st.vvNew
    ensures st.vvNew[slot] in st.mapInfo && st.vvNew[slot] < st.nIdCount && !st.mapInfo[st.vvNew[slot]].fInTried
  {
  }

  /** A new entry has no reference yet, and the others are as they were. */
  lemma IntroducedIs(env: Env, st: State, addr: Address, source: NetAddr, nTimePenalty: int)
    requires Valid(env, st) && addr.service.ip !in st.mapAddr
    ensures var s, id := Introduced(st, addr, source, nTimePenalty), st.nIdCount;
            && id !in st.mapInfo && s.vvNew == st.vvNew && s.nKey == st.nKey && s.mapInfo.Keys == st.mapInfo.Keys + {id}
            && (forall k <- st.mapInfo :: s.mapInfo[k] == st.mapInfo[k])
            && s.mapInfo[id] == AddrInfo(addr.(nTime := if addr.nTime > nTimePenalty then addr.nTime - nTimePenalty else 0),
                                         source, 0, 0, 0, 0, false, |st.vRandom|)
  {
    hide AddrOk, RandOk, TriedOk, NewOk, RefOk, StampOk, CountsOk;
  }

  lemma KnownAfter(env: Env, st: State, s: State, r: State, id: int, ip: NetAddr)
    requires Valid(env, st) && Valid(env, r) && ip !in st.mapAddr && id !in st.mapInfo
    requires s.mapInfo.Keys == st.mapInfo.Keys + {id} && (forall k <- r.mapInfo :: k in s.mapInfo)
    requires forall k <- r.mapInfo :: r.mapInfo[k].Ip() == s.mapInfo[k].Ip()
    requires (forall k <- st.mapInfo :: s.mapInfo[k] == st.mapInfo[k]) && s.mapInfo[id].Ip() == ip
    ensures if id in r.mapInfo then ip in r.mapAddr && r.mapAddr[ip] == id else ip !in r.mapAddr
  {
    hide IdsOk, RandOk, TriedOk, NewOk, RefOk, StampOk, CountsOk;
    assert forall k <- st.mapInfo :: st.mapInfo[k].Ip() != ip;
    assert forall k <- r.mapInfo :: k in s.mapInfo.Keys;
    assert forall k <- r.mapInfo :: k != id ==> k in st.mapInfo && r.mapInfo[k].Ip() != ip;
  }

  /** What an announcement does to an entry that is known: services are added, and the time moves forward or stays. */
  ghost predicate Renewed(was: AddrInfo, info: AddrInfo, addr: Address, nTimePenalty: int)
  {
    && info.address.service == was.address.service && info.address.nServices == was.address.nServices + addr.nServices
    && (info.address.nTime == was.address.nTime || info.address.nTime == if addr.nTime > nTimePenalty then addr.nTime - nTimePenalty else 0)
    && (nTimePenalty >= 0 ==> was.address.nTime <= info.address.nTime)
    && info.source == was.source && info.nLastSuccess == was.nLastSuccess && info.nLastTry == was.nLastTry
    && info.nAttempts == was.nAttempts && info.fInTried == was.fInTried
  }

  lemma RefreshedIs(info: AddrInfo, addr: Address, nNow: int, nTimePenalty: int)
    ensures var r := Refreshed(info, addr, nNow, nTimePenalty);
            Renewed(info, r, addr, nTimePenalty) && r.nRefCount == info.nRefCount && r.nRandomPos == info.nRandomPos
    ensures var t, late := Refreshed(info, addr, nNow, nTimePenalty).address.nTime, addr.nTime - nTimePenalty - info.address.nTime;
            t == if addr.nTime == 0 || (info.address.nTime != 0 && late <= if addr.nTime > nNow - DAY then 3600 else 86400)
                 then info.address.nTime
                 else if addr.nTime > nTimePenalty then addr.nTime - nTimePenalty else 0
  {
  }

  /** What a known entry must be like, once renewed, to get one more reference. */
  ghost predicate MayGetOneMore(info: AddrInfo, addr: Address, draw: nat)
    requires info.nRefCount >= 0
  {
    && addr.nTime != 0 && (info.address.nTime == 0 || addr.nTime > info.address.nTime)
    && !info.fInTried && info.nRefCount != 8 && draw % Pow2(info.nRefCount) == 0
  }

  lemma MayGrowIs(info: AddrInfo, addr: Address, draw: nat)
    requires info.nRefCount >= 0
    ensures MayGrow(info, addr, draw) <==> MayGetOneMore(info, addr, draw)
  {
    if Pow2(info.nRefCount) == 1 { assert draw % 1 == 0; }
  }

  /**
    Announcing a known address never forgets it. It gets one more reference exactly if it is not tried,
    has not got eight, the announcement is newer, the draw allows it and the slot is free or held by a
    terrible entry other than itself.
   */
  lemma KnownAddressIsRenewed(env: Env, st: State, addr: Address, source: NetAddr, nTimePenalty: int, nNow: int, draw: nat)
    requires Valid(env, st) && env.routable(addr.service.ip) && addr.service.ip in st.mapAddr
    ensures var id, r := st.mapAddr[addr.service.ip], AfterAdd(env, st, addr, source, nTimePenalty, nNow, draw).0;
            && id in st.mapInfo && id in r.mapInfo && Renewed(st.mapInfo[id], r.mapInfo[id], addr, nTimePenalty)
            && var was, info := st.mapInfo[id], r.mapInfo[id];
               var slot := SlotFor(env, st, was.address.service, source);
               && (slot in st.vvNew ==> st.vvNew[slot] in st.mapInfo) && was.nRefCount >= 0
               && if && MayGetOneMore(info.(nRefCount := was.nRefCount), addr, draw)
                     && (slot !in st.vvNew || (st.vvNew[slot] != id && IsTerrible(st.mapInfo[st.vvNew[slot]], nNow)))
                  then
                    && info.nRefCount == was.nRefCount + 1 && r.vvNew == st.vvNew[slot := id]
                    && (forall k <- st.mapInfo :: k != id ==>
                         if slot in st.vvNew && st.vvNew[slot] == k then LosesReference(st, r, k) else Stays(st, r, k))
                  else
                    info.nRefCount == was.nRefCount && r.vvNew == st.vvNew && forall k <- st.mapInfo :: k != id ==> Stays(st, r, k)
  {
    hide Consistent, CountsOk, Placed, IsTerrible, Env.NewSlot, Env.NewBucket, Stays, LosesReference, Refreshed, MayGrow;
    var id := st.mapAddr[addr.service.ip];
    KnownEntry(env, st, addr.service.ip);
    var was := st.mapInfo[id];
    var info := Refreshed(was, addr, nNow, nTimePenalty);
    var s := st.With(id, info);
    RefreshedIs(was, addr, nNow, nTimePenalty);
    TouchedOk(env, st, {}, 0, id, info);
    var slot := SlotFor(env, st, was.address.service, source);
    if slot in st.vvNew { HolderIsKnown(env, st, slot); }
    MayGrowIs(info, addr, draw);
    if MayGrow(info, addr, draw) {
      ConsistentParts(env, s, {});
      PlacedIs(env, s, id, source, nNow);
      var r := Placed(env, s, id, source, nNow);
      forall k | k in st.mapInfo && k != id
        ensures (Stays(s, r, k) <==> Stays(st, r, k)) && (LosesReference(s, r, k) <==> LosesReference(st, r, k))
      {
        SameEntry(st, s, r, k);
      }
      StaysIs(s, r, id);
    }
    forall k | k in st.mapInfo && k != id ensures Stays(st, s, k) { Unchanged(st, s, k); }
  }

  lemma Unchanged(st: State, r: State, k: int)
    requires k in st.mapInfo && k in r.mapInfo && r.mapInfo[k] == st.mapInfo[k]
    ensures Stays(st, r, k)
  {
  }

  lemma StaysIs(st: State, r: State, k: int)
    requires k in st.mapInfo
    ensures Stays(st, r, k) <==> k in r.mapInfo && Alike(st.mapInfo[k], r.mapInfo[k])
  {
  }

  /** An entry that is not terrible outlives every announcement of any address. */
  lemma HealthyEntryStays(env: Env, st: State, addr: Address, source: NetAddr, nTimePenalty: int, nNow: int, draw: nat, k: int)
    requires Valid(env, st) && k in st.mapInfo
    requires !IsTerrible(st.mapInfo[k], nNow) || st.mapInfo[k].nRefCount != 1
    ensures var r := AfterAdd(env, st, addr, source, nTimePenalty, nNow, draw).0;
            k in r.mapInfo && r.mapInfo[k].address.service == st.mapInfo[k].address.service && r.mapInfo[k].fInTried == st.mapInfo[k].fInTried
  {
    hide Consistent, CountsOk, AfterAdd, IsTerrible, Env.NewSlot, Env.NewBucket;
    AnswerIsNew(env, st, addr, source, nTimePenalty, nNow, draw);
    if env.routable(addr.service.ip) {
      if addr.service.ip in st.mapAddr {
        KnownAddressIsRenewed(env, st, addr, source, nTimePenalty, nNow, draw);
      } else {
        NewAddressIsAdded(env, st, addr, source, nTimePenalty, nNow, draw);
      }
    }
  }

  // ---- Good_ ----

  /** What a successful connection records. */
  ghost predicate Proven(was: AddrInfo, info: AddrInfo, nTime: int)
  {
    && info.address == was.address && info.source == was.source
    && info.nLastSuccess == info.nLastTry == nTime && info.nAttempts == 0 && info.fInTried && info.nRefCount == 0
  }

  /** The entry that had the tried slot is back in the new table. */
  ghost predicate BackInNew(env: Env, st: State, r: State, e: int)
    requires e in st.mapInfo
  {
    var back := SlotFor(env, st, st.Service(e), st.mapInfo[e].source);
    && back in r.vvNew && r.vvNew[back] == e
    && e in r.mapInfo && Alike(st.mapInfo[e].(fInTried := false, nRefCount := 1), r.mapInfo[e])
  }

  lemma DemotedIs(env: Env, st: State, limbo: set<int>, owed: int, slot: Slot)
    requires Consistent(env, st, limbo) && CountsOk(st, owed)
    ensures RandOk(st) && NewOk(env, st) && TriedOk(env, st)
    ensures slot !in st.vvTried ==> Demoted(env, st, slot) == st
    ensures slot in st.vvTried ==>
              var e, r := st.vvTried[slot], Demoted(env, st, slot);
              && e in st.mapInfo && e !in limbo && BackInNew(env, st, r, e) && r.vvTried == st.vvTried - {slot}
              && var back := SlotFor(env, st, st.Service(e), st.mapInfo[e].source);
                 && r.vvNew == st.vvNew[back := e] && (back in st.vvNew ==> st.vvNew[back] in st.mapInfo && st.vvNew[back] != e)
                 && forall k <- st.mapInfo :: k != e ==>
                      if back in st.vvNew && st.vvNew[back] == k then LosesReference(st, r, k) else Stays(st, r, k)
  {
    hide IdsOk, AddrOk, RandOk, TriedOk, NewOk, RefOk, StampOk, NewIds, TriedIds, Env.NewSlot, Env.NewBucket, Cleared;
    if slot in st.vvTried {
      EvictedOk(env, st, limbo, slot);
      var id := st.vvTried[slot];
      var s := Evicted(st, slot);
      assert CountsOk(s, owed + 1);
      var back := SlotFor(env, st, st.Service(id), st.mapInfo[id].source);
      ClearedIs(env, s, limbo + {id}, owed + 1, back);
      NoSlots(s, limbo + {id}, id);
      var c, r := Cleared(s, back), Demoted(env, st, slot);
      assert (st.vvNew - {back})[back := id] == st.vvNew[back := id];
      hide Stays, LosesReference, Demoted;
      forall k | k in st.mapInfo && k != id
        ensures (Stays(s, c, k) <==> Stays(st, r, k)) && (LosesReference(s, c, k) <==> LosesReference(st, r, k))
      {
        SameEntry(st, s, c, k);
        SameOutcome(st, c, r, k);
      }
    }
  }

  /**
    A successful connection to a known address that is new moves it to its tried slot. Who had that
    slot goes back to the new table, and takes one reference from the holder there; no one else changes.
   */
  lemma GoodMovesToTried(env: Env, st: State, a: Service, nTime: int)
    requires Valid(env, st) && nTime > 0 && Knows(st, a) && !st.mapInfo[st.mapAddr[a.ip]].fInTried
    ensures var id, r := st.mapAddr[a.ip], AfterGood(env, st, a, nTime);
            var slot := env.TriedSlot(st.nKey, a);
            && id in r.mapInfo && Proven(st.mapInfo[id], r.mapInfo[id], nTime)
            && r.vvTried == st.vvTried[slot := id] && (forall s <- r.vvNew :: r.vvNew[s] != id)
            && (slot !in st.vvTried ==> forall k <- st.mapInfo :: k != id ==> Stays(st, r, k))
            && (slot in st.vvTried ==>
                  var e := st.vvTried[slot];
                  && e in st.mapInfo && e != id && BackInNew(env, st, r, e)
                  && var back := SlotFor(env, st, st.Service(e), st.mapInfo[e].source);
                     forall k <- st.mapInfo :: k != id && k != e ==>
                       if back in st.vvNew && st.vvNew[back] == k then LosesReference(st, r, k) else Stays(st, r, k))
  {
    hide IdsOk, AddrOk, RandOk, TriedOk, NewOk, RefOk, StampOk, NewIds, TriedIds, Env.TriedSlot, Env.NewSlot, Env.NewBucket, Demoted, Slots;
    var id, slot := st.mapAddr[a.ip], env.TriedSlot(st.nKey, a);
    var s := st.With(id, Succeeded(st.mapInfo[id], nTime));
    TouchedOk(env, st, {}, 0, id, Succeeded(st.mapInfo[id], nTime));
    DereferencedOk(env, s, {}, 0, id);
    var d := Dereferenced(s, id).(nNew := s.nNew - 1);
    CountFieldsIrrelevant(env, Dereferenced(s, id), s.nNew - 1, {} + {id});
    assert {} + {id} == {id};
    DemotedIs(env, d, {id}, 1, slot);
    DemotedOk(env, d, {id}, 1, slot);
    NoSlots(d, {id}, id);
    var c, r := Demoted(env, d, slot), AfterGood(env, st, a, nTime);
    StaysIs(d, c, id);
    forall k | k in st.mapInfo && k != id
      ensures (Stays(d, c, k) <==> Stays(st, r, k)) && (LosesReference(d, c, k) <==> LosesReference(st, r, k))
    {
      SameEntry(st, d, c, k);
      SameOutcome(st, c, r, k);
    }
    if slot in st.vvTried {
      var e := st.vvTried[slot];
      var back := SlotFor(env, st, st.Service(e), st.mapInfo[e].source);
      forall k | k in st.mapInfo && k != id && k != e
        ensures if back in st.vvNew && st.vvNew[back] == k then LosesReference(st, r, k) else Stays(st, r, k)
      {
        StaysInTable(st.vvNew, id, back);
      }
    }
  }

  lemma StaysInTable(table: Table, id: int, slot: Slot)
    ensures slot in table - Slots(table, id) <==> slot in table && table[slot] != id
  {
  }

  /** An address that is tried already stays where it is. */
  lemma GoodAgain(env: Env, st: State, a: Service, nTime: int)
    requires Valid(env, st) && nTime > 0 && Knows(st, a) && st.mapInfo[st.mapAddr[a.ip]].fInTried
    ensures var id, r := st.mapAddr[a.ip], AfterGood(env, st, a, nTime);
            && r == st.(mapInfo := r.mapInfo) && r.mapInfo.Keys == st.mapInfo.Keys && Proven(st.mapInfo[id], r.mapInfo[id], nTime)
            && forall k <- st.mapInfo :: k != id ==> r.mapInfo[k] == st.mapInfo[k]
  {
    hide IdsOk, AddrOk, RandOk, TriedOk, NewOk, StampOk, CountsOk, Slots;
  }

  // ---- Terrible entries ----

  /** Never within a minute of the last try; otherwise from the future, not seen for a month, or failing. */
  lemma TerribleIff(info: AddrInfo, nNow: int)
    ensures IsTerrible(info, nNow)
       <==> && (info.nLastTry == 0 || nNow > info.nLastTry + 60)
            && (|| info.address.nTime > nNow + 600 || info.address.nTime == 0 || info.address.nTime < nNow - 2592000
                || (info.nLastSuccess == 0 && info.nAttempts >= 3)
                || (info.nLastSuccess < nNow - 604800 && info.nAttempts >= 10))
  {
  }

  /** Seen within the last month and not from the future. */
  ghost predicate SeenLately(info: AddrInfo, nNow: int) { info.address.nTime != 0 && nNow - 2592000 <= info.address.nTime <= nNow + 600 }

  /** An address that has never worked is terrible a minute after the third attempt in vain, and not before the third. */
  lemma ThreeAttemptsInVain(env: Env, st: State, a: Service, t1: int, t2: int, t3: int, nNow: int)
    requires Valid(env, st) && Knows(st, a) && 0 < t1 <= t2 <= t3 < nNow - 60
    requires var info := st.mapInfo[st.mapAddr[a.ip]]; info.nLastSuccess == info.nAttempts == 0
    ensures var id, r2 := st.mapAddr[a.ip], AfterAttempt(AfterAttempt(st, a, t1), a, t2);
            var r3 := AfterAttempt(r2, a, t3);
            && id in r3.mapInfo && IsTerrible(r3.mapInfo[id], nNow)
            && (SeenLately(st.mapInfo[id], nNow) ==> !IsTerrible(r2.mapInfo[id], nNow))
            && forall k <- st.mapInfo :: k != id ==> k in r3.mapInfo && r3.mapInfo[k] == st.mapInfo[k]
  {
    hide Valid, IsTerrible;
    var id := st.mapAddr[a.ip];
    AttemptIs(st, a, t1);
    AttemptIs(AfterAttempt(st, a, t1), a, t2);
    AttemptIs(AfterAttempt(AfterAttempt(st, a, t1), a, t2), a, t3);
    var r2 := AfterAttempt(AfterAttempt(st, a, t1), a, t2);
    hide AfterAttempt;
    TerribleIff(r2.mapInfo[id], nNow);
    TerribleIff(AfterAttempt(r2, a, t3).mapInfo[id], nNow);
  }

  /** An attempt counts, and nothing else about the manager changes. */
  lemma AttemptIs(st: State, a: Service, nTime: int)
    requires Knows(st, a)
    ensures var id, r := st.mapAddr[a.ip], AfterAttempt(st, a, nTime);
            && r == st.(mapInfo := r.mapInfo) && r.mapInfo.Keys == st.mapInfo.Keys && Knows(r, a)
            && (forall k <- st.mapInfo :: k != id ==> r.mapInfo[k] == st.mapInfo[k])
            && var was, info := st.mapInfo[id], r.mapInfo[id];
               && info.nAttempts == was.nAttempts + 1 && info.nLastTry == nTime && info.nLastSuccess == was.nLastSuccess
               && info.address == was.address && info.nRefCount == was.nRefCount && info.fInTried == was.fInTried
  {
  }

  /** After a successful connection an address is not terrible as long as it was seen lately, and not for a minute in any case. */
  lemma GoodIsNotTerrible(env: Env, st: State, a: Service, nTime: int, nNow: int)
    requires Valid(env, st) && nTime > 0 && Knows(st, a) && (SeenLately(st.mapInfo[st.mapAddr[a.ip]], nNow) || nNow <= nTime + 60)
    ensures var id, r := st.mapAddr[a.ip], AfterGood(env, st, a, nTime); id in r.mapInfo && !IsTerrible(r.mapInfo[id], nNow)
  {
    hide Valid, IsTerrible, AfterGood, Env.TriedSlot, SlotFor, BackInNew;
    var id := st.mapAddr[a.ip];
    if st.mapInfo[id].fInTried { GoodAgain(env, st, a, nTime); } else { GoodMovesToTried(env, st, a, nTime); }
    TerribleIff(AfterGood(env, st, a, nTime).mapInfo[id], nNow);
  }

  /** While connected, the recorded time is never more than twenty minutes behind, and moves only when it is. */
  lemma ConnectedKeepsTime(st: State, a: Service, nTime: int)
    requires Knows(st, a)
    ensures var id, r := st.mapAddr[a.ip], AfterConnected(st, a, nTime);
            && r == st.(mapInfo := r.mapInfo) && r.mapInfo.Keys == st.mapInfo.Keys
            && (forall k <- st.mapInfo :: k != id ==> r.mapInfo[k] == st.mapInfo[k])
            && var was, info := st.mapInfo[id], r.mapInfo[id];
               && info == was.(address := was.address.(nTime := info.address.nTime))
               && info.address.nTime >= nTime - 1200 && (was.address.nTime >= nTime - 1200 ==> info == was)
               && (was.address.nTime < nTime - 1200 ==> info.address.nTime == nTime)
  {
  }

  lemma ConsistentParts(env: Env, st: State, limbo: set<int>)
    requires Consistent(env, st, limbo)
    ensures RandOk(st) && NewOk(env, st) && TriedOk(env, st)
  {
  }
}
