/**
  The operations of the address manager on whole states, and the proof that every run of them
  keeps the manager consistent.
 */
module AddrManOps {
  import opened Basics
  import opened AddrManSpec

  // ---- Clearing a slot of the new table ----

  /** An entry survives unless this was its last reference. */
  ghost function Cleared(st: State, slot: Slot): State
    requires RandOk(st) && (slot in st.vvNew ==> st.vvNew[slot] in st.mapInfo)
  {
    if slot !in st.vvNew then st else
      var id := st.vvNew[slot];
      var r := Unreferenced(st, slot);
      if r.mapInfo[id].nRefCount == 0 then
        KeepRand(st, r);
        RandIsList(r);
        DeletedIs(r, id);
        Deleted(r, id)
      else r
  }

  /** Nothing but the entry that lost its reference, and its place in vRandom, is different. */
  ghost predicate ClearedFrame(st: State, slot: Slot, r: State)
  {
    && r.nKey == st.nKey && r.nIdCount == st.nIdCount && r.nTried == st.nTried
    && r.vvTried == st.vvTried && r.vvNew == st.vvNew - {slot}
    && (forall k <- st.mapInfo :: (slot in st.vvNew ==> k != st.vvNew[slot]) ==>
          k in r.mapInfo && r.mapInfo[k] == st.mapInfo[k].(nRandomPos := r.mapInfo[k].nRandomPos))
    && (forall k <- r.mapInfo :: k in st.mapInfo)
  }

  lemma ClearedOk(env: Env, st: State, limbo: set<int>, owed: int, slot: Slot)
    requires Consistent(env, st, limbo) && CountsOk(st, owed)
    ensures slot in st.vvNew ==> st.vvNew[slot] in st.mapInfo
    ensures var r := Cleared(st, slot);
            Consistent(env, r, limbo) && CountsOk(r, owed) && ClearedFrame(st, slot, r)
  {
    hide IdsOk, AddrOk, RandOk, TriedOk, NewOk, RefOk, StampOk, NewIds, TriedIds, Deleted;
    if slot in st.vvNew {
      UnreferencedOk(env, st, limbo, slot);
      var id := st.vvNew[slot];
      var r := Unreferenced(st, slot);
      if r.mapInfo[id].nRefCount == 0 {
        DeletedOk(env, r, limbo + {id}, id);
        RandIsList(r);
        DeletedIs(r, id);
        assert limbo + {id} - {id} == limbo;
      }
    }
  }

  // ---- Moving an entry to the tried table ----

  /** All references to an entry taken out of the new table. */
  ghost function Dereferenced(st: State, id: int): State
    requires id in st.mapInfo
  {
    st.With(id, st.mapInfo[id].(nRefCount := st.mapInfo[id].nRefCount - |Slots(st.vvNew, id)|))
      .(vvNew := st.vvNew - Slots(st.vvNew, id))
  }

  lemma DereferencedNew(env: Env, st: State, id: int)
    requires NewOk(env, st) && TriedOk(env, st) && id in st.mapInfo
    ensures NewOk(env, Dereferenced(st, id)) && TriedOk(env, Dereferenced(st, id))
  {
    hide Env.NewSlot, Env.TriedSlot, Slots;
  }

  lemma DereferencedRef(st: State, limbo: set<int>, id: int)
    requires RefOk(st, limbo) && id in st.mapInfo && !st.mapInfo[id].fInTried
    ensures RefOk(Dereferenced(st, id), limbo + {id})
    ensures Dereferenced(st, id).mapInfo[id].nRefCount == 0
  {
    var r := Dereferenced(st, id);
    assert Slots(r.vvNew, id) == {};
    forall k | k != id ensures Slots(r.vvNew, k) == Slots(st.vvNew, k) {
      forall s ensures s in Slots(r.vvNew, k) <==> s in Slots(st.vvNew, k) {
        assert s in Slots(st.vvNew, id) <==> s in st.vvNew && st.vvNew[s] == id;
      }
    }
    hide Slots;
  }

  lemma DereferencedOk(env: Env, st: State, limbo: set<int>, owed: int, id: int)
    requires Consistent(env, st, limbo) && CountsOk(st, owed) && id in st.mapInfo && !st.mapInfo[id].fInTried
    ensures Consistent(env, Dereferenced(st, id), limbo + {id}) && CountsOk(Dereferenced(st, id), owed)
    ensures Dereferenced(st, id).mapInfo[id].nRefCount == 0
  {
    hide IdsOk, AddrOk, RandOk, TriedOk, NewOk, RefOk, StampOk, NewIds, TriedIds, Slots;
    var r := Dereferenced(st, id);
    KeepIds(st, r);
    KeepAddr(st, r);
    KeepRand(st, r);
    DereferencedNew(env, st, id);
    DereferencedRef(st, limbo, id);
    KeepStamp(st, r);
    KeepCounts(st, r);
  }

  /** The tried entry in the slot goes back to the new table, displacing what is there. */
  ghost function Demoted(env: Env, st: State, slot: Slot): State
    requires RandOk(st) && NewOk(env, st) && TriedOk(env, st)
  {
    if slot !in st.vvTried then st else
      TriedIsKnown(env, st, slot);
      EvictedTables(env, st, slot);
      var id := st.vvTried[slot];
      var s := Evicted(st, slot);
      KeepRand(st, s);
      var back := env.NewSlot(st.nKey, st.Service(id), env.NewBucket(st.nKey, st.Service(id), st.mapInfo[id].source));
      var c := Cleared(s, back);
      if id !in c.mapInfo then c   // does not happen, see DemotedOk
      else c.With(id, c.mapInfo[id].(nRefCount := 1)).(vvNew := c.vvNew[back := id], nNew := c.nNew + 1)
  }

  lemma DemotedOk(env: Env, st: State, limbo: set<int>, owed: int, slot: Slot)
    requires Consistent(env, st, limbo) && CountsOk(st, owed)
    ensures var r := Demoted(env, st, slot);
            && Consistent(env, r, limbo) && CountsOk(r, owed)
            && slot !in r.vvTried && r.nKey == st.nKey
            && (forall k <- limbo :: k in st.mapInfo && k in r.mapInfo
                                     && r.mapInfo[k] == st.mapInfo[k].(nRandomPos := r.mapInfo[k].nRandomPos))
  {
    hide IdsOk, AddrOk, RandOk, TriedOk, NewOk, RefOk, StampOk, NewIds, TriedIds, Env.NewSlot, Cleared;
    forall k | k in limbo ensures k in st.mapInfo { LimboIsKnown(st, limbo, k); }
    if slot in st.vvTried {
      EvictedOk(env, st, limbo, slot);
      var id := st.vvTried[slot];
      var s := Evicted(st, slot);
      assert CountsOk(s, owed + 1);
      var back := env.NewSlot(st.nKey, st.Service(id), env.NewBucket(st.nKey, st.Service(id), st.mapInfo[id].source));
      ClearedOk(env, s, limbo + {id}, owed + 1, back);
      forall k | k in limbo + {id} ensures back in s.vvNew ==> s.vvNew[back] != k {
        NoSlots(s, limbo + {id}, k);
      }
      var c := Cleared(s, back);
      LimboIsKnown(c, limbo + {id}, id);
      ReferencedOk(env, c, limbo + {id}, id, back);
      assert Demoted(env, st, slot) == Referenced(c, id, back).(nNew := c.nNew + 1);
      NewCountOk(env, Referenced(c, id, back), limbo + {id} - {id}, owed + 1);
      assert limbo + {id} - {id} == limbo;
    }
  }

  lemma NewCountOk(env: Env, st: State, limbo: set<int>, owed: int)
    requires Consistent(env, st, limbo) && CountsOk(st, owed)
    ensures Consistent(env, st.(nNew := st.nNew + 1), limbo) && CountsOk(st.(nNew := st.nNew + 1), owed - 1)
  {
    CountFieldsIrrelevant(env, st, st.nNew + 1, limbo);
  }

  lemma CountFieldsIrrelevant(env: Env, st: State, n: int, limbo: set<int>)
    ensures Consistent(env, st, limbo) <==> Consistent(env, st.(nNew := n), limbo)
    ensures NewIds(st.(nNew := n)) == NewIds(st) && TriedIds(st.(nNew := n)) == TriedIds(st)
  {
    hide Env.NewSlot, Env.TriedSlot, Slots;
  }

  ghost function MadeTried(env: Env, st: State, id: int): State
    requires RandOk(st) && NewOk(env, st) && TriedOk(env, st) && id in st.mapInfo
  {
    DereferencedNew(env, st, id);
    var s := Dereferenced(st, id).(nNew := st.nNew - 1);
    KeepRand(st, s);
    var slot := env.TriedSlot(st.nKey, st.Service(id));
    var d := Demoted(env, s, slot);
    if id !in d.mapInfo then d   // does not happen, see MadeTriedOk
    else Promoted(d, id, slot)
  }

  lemma MadeTriedOk(env: Env, st: State, id: int)
    requires Valid(env, st) && id in st.mapInfo && !st.mapInfo[id].fInTried && st.mapInfo[id].nLastSuccess != 0
    ensures var r := MadeTried(env, st, id);
            && Valid(env, r) && id in r.mapInfo && r.mapInfo[id].fInTried
            && r.mapInfo[id].address == st.mapInfo[id].address
  {
    hide IdsOk, AddrOk, RandOk, TriedOk, NewOk, RefOk, StampOk, NewIds, TriedIds, Env.TriedSlot, Demoted;
    DereferencedOk(env, st, {}, 0, id);
    var s := Dereferenced(st, id).(nNew := st.nNew - 1);
    CountFieldsIrrelevant(env, Dereferenced(st, id), st.nNew - 1, {} + {id});
    assert {} + {id} == {id};
    var slot := env.TriedSlot(st.nKey, st.Service(id));
    DemotedOk(env, s, {id}, 1, slot);
    var d := Demoted(env, s, slot);
    PromotedOk(env, d, {id}, id);
    assert {id} - {id} == {};
    var r := Promoted(d, id, slot);
    assert |NewIds(r)| == |NewIds(d)| - 1 && |TriedIds(r)| == |TriedIds(d)| + 1;
  }

  // ---- Changing what the indexes do not depend on ----

  ghost predicate SameIndexes(a: AddrInfo, b: AddrInfo)
  {
    a.address.service == b.address.service && a.nRefCount == b.nRefCount && a.fInTried == b.fInTried
    && a.nRandomPos == b.nRandomPos
  }

  lemma TouchedOk(env: Env, st: State, limbo: set<int>, owed: int, id: int, info: AddrInfo)
    requires Consistent(env, st, limbo) && CountsOk(st, owed)
    requires id in st.mapInfo && SameIndexes(st.mapInfo[id], info)
    requires info.nLastTry >= 0 && info.nLastSuccess >= 0 && (info.fInTried ==> info.nLastSuccess != 0)
    ensures Consistent(env, st.With(id, info), limbo) && CountsOk(st.With(id, info), owed)
  {
    hide IdsOk, AddrOk, RandOk, TriedOk, NewOk, RefOk, NewIds, TriedIds;
    var r := st.With(id, info);
    KeepIds(st, r);
    KeepAddr(st, r);
    KeepRand(st, r);
    KeepTried(env, st, r);
    KeepNew(env, st, r);
    KeepRef(st, r, limbo);
    KeepCounts(st, r);
  }

  // ---- Good_ ----

  /** The entry of a service: known under its address, with the same port. */
  predicate Knows(st: State, a: Service)
  {
    a.ip in st.mapAddr && st.mapAddr[a.ip] in st.mapInfo && st.mapInfo[st.mapAddr[a.ip]].address.service == a
  }

  function Succeeded(info: AddrInfo, nTime: int): AddrInfo
  {
    info.(nLastSuccess := nTime, nLastTry := nTime, nAttempts := 0)
  }

  /** Which bucket the random search finds first does not matter to the result. */
  ghost function AfterGood(env: Env, st: State, a: Service, nTime: int): State
    requires Valid(env, st) && nTime > 0
  {
    if !Knows(st, a) then st else
      var id := st.mapAddr[a.ip];
      var s := st.With(id, Succeeded(st.mapInfo[id], nTime));
      assert Valid(env, s) by { TouchedOk(env, st, {}, 0, id, Succeeded(st.mapInfo[id], nTime)); }
      if s.mapInfo[id].fInTried then s else MadeTried(env, s, id)
  }

  lemma AfterGoodOk(env: Env, st: State, a: Service, nTime: int)
    requires Valid(env, st) && nTime > 0
    ensures Valid(env, AfterGood(env, st, a, nTime))
    ensures Knows(st, a) ==>
              var r, id := AfterGood(env, st, a, nTime), st.mapAddr[a.ip];
              id in r.mapInfo && r.mapInfo[id].fInTried && r.mapInfo[id].address == st.mapInfo[id].address
  {
    if Knows(st, a) {
      var id := st.mapAddr[a.ip];
      var s := st.With(id, Succeeded(st.mapInfo[id], nTime));
      hide MadeTried, Consistent, CountsOk;
      TouchedOk(env, st, {}, 0, id, Succeeded(st.mapInfo[id], nTime));
      if !s.mapInfo[id].fInTried { MadeTriedOk(env, s, id); }
    }
  }

  /** A new entry is always found in some bucket, so the search of Good_ cannot fail. */
  lemma NewEntryHasABucket(env: Env, st: State, id: int)
    requires Valid(env, st) && id in st.mapInfo && !st.mapInfo[id].fInTried
    ensures exists b :: 0 <= b < NEW_BUCKET_COUNT && var s := env.NewSlot(st.nKey, st.Service(id), b); s in st.vvNew && st.vvNew[s] == id
  {
    assert |Slots(st.vvNew, id)| > 0;
    var s :| s in Slots(st.vvNew, id);
    SlotIsKnown(env, st, s);
  }

  // ---- Add_ ----

  predicate IsTerrible(info: AddrInfo, nNow: int)
  {
    if info.nLastTry != 0 && info.nLastTry >= nNow - 60 then false
    else if info.address.nTime > nNow + 10 * 60 then true
    else if info.address.nTime == 0 || nNow - info.address.nTime > HORIZON_DAYS * DAY then true
    else if info.nLastSuccess == 0 && info.nAttempts >= RETRIES then true
    else nNow - info.nLastSuccess > MIN_FAIL_DAYS * DAY && info.nAttempts >= MAX_FAILURES
  }

  function Max(a: int, b: int): int { if a < b then b else a }

  /** A known entry takes over the services and, now and then, the time of a new announcement. */
  function Refreshed(info: AddrInfo, addr: Address, nNow: int, nTimePenalty: int): AddrInfo
  {
    var interval := if nNow - addr.nTime < DAY then 60 * 60 else DAY;
    var stale := addr.nTime != 0 && (info.address.nTime == 0 || info.address.nTime < addr.nTime - interval - nTimePenalty);
    info.(address := info.address.(
      nTime := if stale then Max(0, addr.nTime - nTimePenalty) else info.address.nTime,
      nServices := info.address.nServices + addr.nServices))
  }

  /** Whether a known entry may get one more reference: `draw` is the random number of the source. */
  function MayGrow(info: AddrInfo, addr: Address, draw: nat): bool
    requires info.nRefCount >= 0
  {
    && !(addr.nTime == 0 || (info.address.nTime != 0 && addr.nTime <= info.address.nTime))
    && !info.fInTried
    && info.nRefCount != NEW_BUCKETS_PER_ADDRESS
    && !(Pow2(info.nRefCount) > 1 && draw % Pow2(info.nRefCount) != 0)
  }

  /** An entry is given a slot of the new table, unless a better one sits there. */
  ghost function Placed(env: Env, st: State, id: int, source: NetAddr, nNow: int): State
    requires RandOk(st) && NewOk(env, st) && id in st.mapInfo
  {
    var slot := env.NewSlot(st.nKey, st.Service(id), env.NewBucket(st.nKey, st.Service(id), source));
    if slot in st.vvNew && st.vvNew[slot] == id then st
    else
      var existing := if slot in st.vvNew then st.mapInfo[st.vvNew[slot]] else st.mapInfo[id];
      if slot !in st.vvNew || IsTerrible(existing, nNow) || (existing.nRefCount > 1 && st.mapInfo[id].nRefCount == 0) then
        var c := Cleared(st, slot);
        if id !in c.mapInfo then c   // does not happen, see PlacedOk
        else Referenced(c, id, slot)
      else if st.mapInfo[id].nRefCount == 0 then
        RandIsList(st);
        DeletedIs(st, id);
        Deleted(st, id)
      else st
  }

  lemma PlacedOk(env: Env, st: State, id: int, source: NetAddr, nNow: int)
    requires id in st.mapInfo && !st.mapInfo[id].fInTried && st.mapInfo[id].nRefCount < NEW_BUCKETS_PER_ADDRESS
    requires Consistent(env, st, if st.mapInfo[id].nRefCount == 0 then {id} else {}) && CountsOk(st, 0)
    ensures Valid(env, Placed(env, st, id, source, nNow))
  {
    hide IdsOk, AddrOk, RandOk, TriedOk, NewOk, RefOk, StampOk, NewIds, TriedIds, Env.NewSlot, Cleared, Deleted;
    var limbo := if st.mapInfo[id].nRefCount == 0 then {id} else {};
    var slot := env.NewSlot(st.nKey, st.Service(id), env.NewBucket(st.nKey, st.Service(id), source));
    if slot in st.vvNew { SlotIsKnown(env, st, slot); }
    if id in limbo { NoSlots(st, limbo, id); }
    if !(slot in st.vvNew && st.vvNew[slot] == id) {
      ClearedOk(env, st, limbo, 0, slot);
      var c := Cleared(st, slot);
      ReferencedOk(env, c, limbo, id, slot);
      assert limbo - {id} == {};
      if id in limbo { DeletedOk(env, st, limbo, id); RandIsList(st); DeletedIs(st, id); }
    }
  }

  /** A new entry, with its time reduced by the penalty, counted as new. */
  function Introduced(st: State, addr: Address, source: NetAddr, nTimePenalty: int): (r: State)
    ensures st.nIdCount in r.mapInfo
  {
    var c := Created(st, addr, source);
    var info := c.mapInfo[st.nIdCount];
    c.With(st.nIdCount, info.(address := info.address.(nTime := Max(0, info.address.nTime - nTimePenalty))))
     .(nNew := c.nNew + 1)
  }

  lemma IntroducedOk(env: Env, st: State, addr: Address, source: NetAddr, nTimePenalty: int)
    requires Valid(env, st) && addr.service.ip !in st.mapAddr
    ensures var r := Introduced(st, addr, source, nTimePenalty);
            && Consistent(env, r, {st.nIdCount}) && CountsOk(r, 0)
            && !r.mapInfo[st.nIdCount].fInTried && r.mapInfo[st.nIdCount].nRefCount == 0
  {
    hide IdsOk, AddrOk, RandOk, TriedOk, NewOk, RefOk, StampOk, NewIds, TriedIds;
    CreatedOk(env, st, {}, addr, source);
    assert {} + {st.nIdCount} == {st.nIdCount};
    var c, id := Created(st, addr, source), st.nIdCount;
    var info := c.mapInfo[id].(address := c.mapInfo[id].address.(nTime := Max(0, addr.nTime - nTimePenalty)));
    TouchedOk(env, c, {id}, 1, id, info);
    NewCountOk(env, c.With(id, info), {id}, 1);
  }

  ghost function AfterAdd(env: Env, st: State, addr: Address, source: NetAddr, nTimePenalty: int, nNow: int, draw: nat): (State, bool)
    requires Valid(env, st)
  {
    var ip := addr.service.ip;
    if !env.routable(ip) then (st, false)
    else if ip in st.mapAddr then
      var id := st.mapAddr[ip];
      KnownEntry(env, st, ip);
      var info := Refreshed(st.mapInfo[id], addr, nNow, nTimePenalty);
      var s := st.With(id, info);
      if !MayGrow(info, addr, draw) then (s, false) else
        TouchedOk(env, st, {}, 0, id, info);
        (Placed(env, s, id, source, nNow), false)
    else
      IntroducedOk(env, st, addr, source, nTimePenalty);
      (Placed(env, Introduced(st, addr, source, nTimePenalty), st.nIdCount, source, nNow), true)
  }

  lemma KnownEntry(env: Env, st: State, ip: NetAddr)
    requires Consistent(env, st, {}) && ip in st.mapAddr
    ensures var id := st.mapAddr[ip];
            && id in st.mapInfo && st.mapInfo[id].Ip() == ip
            && st.mapInfo[id].nLastTry >= 0 && st.mapInfo[id].nLastSuccess >= 0
            && (st.mapInfo[id].fInTried ==> st.mapInfo[id].nLastSuccess != 0)
            && 0 <= st.mapInfo[id].nRefCount <= NEW_BUCKETS_PER_ADDRESS
            && (!st.mapInfo[id].fInTried ==> st.mapInfo[id].nRefCount > 0)
  {
  }

  lemma AfterAddOk(env: Env, st: State, addr: Address, source: NetAddr, nTimePenalty: int, nNow: int, draw: nat)
    requires Valid(env, st)
    ensures Valid(env, AfterAdd(env, st, addr, source, nTimePenalty, nNow, draw).0)
  {
    hide Consistent, CountsOk, Placed, Introduced;
    var ip := addr.service.ip;
    if env.routable(ip) {
      if ip in st.mapAddr {
        var id := st.mapAddr[ip];
        KnownEntry(env, st, ip);
        var info := Refreshed(st.mapInfo[id], addr, nNow, nTimePenalty);
        TouchedOk(env, st, {}, 0, id, info);
        if MayGrow(info, addr, draw) { PlacedOk(env, st.With(id, info), id, source, nNow); }
      } else {
        IntroducedOk(env, st, addr, source, nTimePenalty);
        PlacedOk(env, Introduced(st, addr, source, nTimePenalty), st.nIdCount, source, nNow);
      }
    }
  }

  // ---- Attempt_ and Connected_ ----

  function AfterAttempt(st: State, a: Service, nTime: int): State
  {
    if !Knows(st, a) then st else
      var id := st.mapAddr[a.ip];
      st.With(id, st.mapInfo[id].(nLastTry := nTime, nAttempts := st.mapInfo[id].nAttempts + 1))
  }

  function AfterConnected(st: State, a: Service, nTime: int): State
  {
    if !Knows(st, a) then st else
      var id := st.mapAddr[a.ip];
      if nTime - st.mapInfo[id].address.nTime > 20 * 60
      then st.With(id, st.mapInfo[id].(address := st.mapInfo[id].address.(nTime := nTime)))
      else st
  }

  lemma AfterAttemptOk(env: Env, st: State, a: Service, nTime: int)
    requires Valid(env, st) && nTime >= 0
    ensures Valid(env, AfterAttempt(st, a, nTime))
  {
    hide Consistent, CountsOk;
    if Knows(st, a) {
      var id := st.mapAddr[a.ip];
      KnownEntry(env, st, a.ip);
      TouchedOk(env, st, {}, 0, id, st.mapInfo[id].(nLastTry := nTime, nAttempts := st.mapInfo[id].nAttempts + 1));
    }
  }

  lemma AfterConnectedOk(env: Env, st: State, a: Service, nTime: int)
    requires Valid(env, st)
    ensures Valid(env, AfterConnected(st, a, nTime))
  {
    hide Consistent, CountsOk;
    if Knows(st, a) {
      var id := st.mapAddr[a.ip];
      KnownEntry(env, st, a.ip);
      TouchedOk(env, st, {}, 0, id, st.mapInfo[id].(address := st.mapInfo[id].address.(nTime := nTime)));
    }
  }

  // ---- GetAddr_ ----

  function GetAddrLimit(size: nat): nat
  {
    var n := GETADDR_MAX_PCT * size / 100;
    if n > GETADDR_MAX then GETADDR_MAX else n
  }

  /** The limit is 23 percent, rounded down, but 2500 at most. */
  lemma GetAddrLimitIs(size: nat)
    ensures var n := GetAddrLimit(size); 100 * n <= 23 * size && n <= 2500 && (n == 2500 || 23 * size < 100 * n + 100)
  {
  }

  /** Every position from n on can be drawn. */
  lemma EveryPositionIsDrawn(draws: nat -> nat, n: nat, length: nat, p: nat)
    requires n <= p < length && draws(n) == p - n
    ensures Drawn(draws, n, length) == p
  {
  }

  /** A position between n and the end, drawn at random. */
  function Drawn(draws: nat -> nat, n: nat, length: nat): (p: nat)
    requires n < length
    ensures n <= p < length
  {
    draws(n) % (length - n) + n
  }

  /** The partial shuffle from position n on, and the addresses collected on top of `vAddr`. */
  ghost function Sampled(st: State, n: nat, limit: nat, draws: nat -> nat, nNow: int, vAddr: seq<Address>): (State, seq<Address>)
    requires RandOk(st) && n <= |st.vRandom|
    decreases |st.vRandom| - n
  {
    if n == |st.vRandom| || |vAddr| >= limit then (st, vAddr) else
      var p := Drawn(draws, n, |st.vRandom|);
      SwappedRand(st, n, p);
      var s := Swapped(st, n, p);
      Sampled(s, n + 1, limit, draws, nNow, Collected(s, n, nNow, vAddr))
  }

  /** The address at position n is collected unless it is terrible. */
  ghost function Collected(st: State, n: nat, nNow: int, vAddr: seq<Address>): seq<Address>
    requires RandOk(st) && n < |st.vRandom|
  {
    var ai := st.mapInfo[st.vRandom[n]];
    if IsTerrible(ai, nNow) then vAddr else vAddr + [ai.address]
  }

  ghost predicate SameButOrder(st: State, r: State)
  {
    && r.mapInfo.Keys == st.mapInfo.Keys && r.vvNew == st.vvNew && r.vvTried == st.vvTried && r.mapAddr == st.mapAddr
    && |r.vRandom| == |st.vRandom|
    && forall id <- st.mapInfo :: r.mapInfo[id] == st.mapInfo[id].(nRandomPos := r.mapInfo[id].nRandomPos)
  }

  lemma SwappedValid(env: Env, st: State, p1: nat, p2: nat)
    requires Valid(env, st) && p1 < |st.vRandom| && p2 < |st.vRandom|
    ensures st.vRandom[p1] in st.mapInfo && st.vRandom[p2] in st.mapInfo
    ensures Valid(env, Swapped(st, p1, p2)) && SameButOrder(st, Swapped(st, p1, p2))
  {
    hide IdsOk, AddrOk, RandOk, TriedOk, NewOk, RefOk, StampOk, NewIds, TriedIds;
    SwappedOk(env, st, {}, p1, p2);
  }

  lemma SampledEnds(st: State, n: nat, limit: nat, draws: nat -> nat, nNow: int, vAddr: seq<Address>)
    requires RandOk(st) && n <= |st.vRandom| && (n == |st.vRandom| || |vAddr| >= limit)
    ensures Sampled(st, n, limit, draws, nNow, vAddr) == (st, vAddr)
  {
    hide RandOk;
  }

  lemma SampledNext(env: Env, st: State, n: nat, limit: nat, draws: nat -> nat, nNow: int, vAddr: seq<Address>)
    requires Valid(env, st) && RandOk(st) && n < |st.vRandom| && |vAddr| < limit
    ensures var p := Drawn(draws, n, |st.vRandom|);
            && st.vRandom[n] in st.mapInfo && st.vRandom[p] in st.mapInfo
            && var s := Swapped(st, n, p);
               && Valid(env, s) && RandOk(s) && |s.vRandom| == |st.vRandom| && s.vRandom[n] in s.mapInfo
               && var ai := s.mapInfo[s.vRandom[n]];
                  Sampled(st, n, limit, draws, nNow, vAddr)
                  == Sampled(s, n + 1, limit, draws, nNow, if IsTerrible(ai, nNow) then vAddr else vAddr + [ai.address])
  {
    hide Consistent, CountsOk, IsTerrible;
    var p := Drawn(draws, n, |st.vRandom|);
    SwappedValid(env, st, n, p);
    SwappedRand(st, n, p);
  }

  /** The addresses are those of the entries `ids`, which are all different and none of them terrible. */
  ghost predicate AddressesOf(st: State, nNow: int, ids: seq<int>, vAddr: seq<Address>)
  {
    && |ids| == |vAddr| && (forall i, j :: 0 <= i < j < |ids| ==> ids[i] != ids[j])
    && forall i :: 0 <= i < |ids| ==>
         ids[i] in st.mapInfo && !IsTerrible(st.mapInfo[ids[i]], nNow) && vAddr[i] == st.mapInfo[ids[i]].address
  }

  /** A sample reaches the limit, or has every entry that is not terrible. */
  ghost predicate SampleOf(st: State, nNow: int, limit: nat, ids: seq<int>, vAddr: seq<Address>)
  {
    && AddressesOf(st, nNow, ids, vAddr) && |vAddr| <= limit
    && (|vAddr| == limit || forall id <- st.mapInfo :: !IsTerrible(st.mapInfo[id], nNow) ==> id in ids)
  }

  /** What has been collected from the first n places. */
  ghost predicate CollectedFrom(st: State, n: nat, nNow: int, ids: seq<int>, vAddr: seq<Address>)
    requires RandOk(st) && n <= |st.vRandom|
  {
    && AddressesOf(st, nNow, ids, vAddr)
    && (forall id <- ids :: id in st.vRandom[..n])
    && forall id <- st.vRandom[..n] :: !IsTerrible(st.mapInfo[id], nNow) ==> id in ids
  }

  lemma TerribleAlike(a: AddrInfo, b: AddrInfo, nNow: int)
    requires b == a.(nRandomPos := b.nRandomPos)
    ensures IsTerrible(a, nNow) == IsTerrible(b, nNow) && a.address == b.address
  {
  }

  /** Only entries count, not their order. */
  lemma AddressesAlike(st: State, r: State, nNow: int, ids: seq<int>, vAddr: seq<Address>)
    requires SameButOrder(st, r)
    ensures forall id <- st.mapInfo :: IsTerrible(r.mapInfo[id], nNow) == IsTerrible(st.mapInfo[id], nNow)
    ensures AddressesOf(st, nNow, ids, vAddr) <==> AddressesOf(r, nNow, ids, vAddr)
  {
    hide IsTerrible;
    forall id | id in st.mapInfo
      ensures IsTerrible(r.mapInfo[id], nNow) == IsTerrible(st.mapInfo[id], nNow) && r.mapInfo[id].address == st.mapInfo[id].address
    {
      TerribleAlike(st.mapInfo[id], r.mapInfo[id], nNow);
    }
  }

  /** Swapping places from n on leaves the first n as they are. */
  lemma SwappedCollected(env: Env, st: State, n: nat, p: nat, nNow: int, ids: seq<int>, vAddr: seq<Address>)
    requires Valid(env, st) && RandOk(st) && n <= p < |st.vRandom| && CollectedFrom(st, n, nNow, ids, vAddr)
    ensures st.vRandom[n] in st.mapInfo && st.vRandom[p] in st.mapInfo
    ensures var s := Swapped(st, n, p); RandOk(s) && CollectedFrom(s, n, nNow, ids, vAddr)
  {
    hide Valid, IsTerrible, AddressesOf;
    SwappedValid(env, st, n, p);
    var s := Swapped(st, n, p);
    SwappedRand(st, n, p);
    AddressesAlike(st, s, nNow, ids, vAddr);
    assert s.vRandom[..n] == st.vRandom[..n];
    hide Swapped, RandOk;
    forall id | id in s.vRandom[..n] ensures id in st.mapInfo { ListedIsKnown(st, n, id); }
  }

  lemma ListedIsKnown(st: State, n: nat, id: int)
    requires RandOk(st) && n <= |st.vRandom| && id in st.vRandom[..n]
    ensures id in st.mapInfo
  {
  }

  lemma CollectedNext(st: State, n: nat, nNow: int, ids: seq<int>, vAddr: seq<Address>)
    requires RandOk(st) && n < |st.vRandom| && CollectedFrom(st, n, nNow, ids, vAddr)
    ensures var id := st.vRandom[n];
            && id in st.mapInfo
            && CollectedFrom(st, n + 1, nNow, if IsTerrible(st.mapInfo[id], nNow) then ids else ids + [id], Collected(st, n, nNow, vAddr))
  {
    hide IsTerrible;
    assert st.vRandom[..n + 1] == st.vRandom[..n] + [st.vRandom[n]];
    assert st.vRandom[n] !in st.vRandom[..n];
  }

  lemma SampleIsDone(st: State, n: nat, limit: nat, nNow: int, ids: seq<int>, vAddr: seq<Address>)
    requires RandOk(st) && n <= |st.vRandom| && (n == |st.vRandom| || |vAddr| >= limit) && |vAddr| <= limit
    requires CollectedFrom(st, n, nNow, ids, vAddr)
    ensures SampleOf(st, nNow, limit, ids, vAddr)
  {
    hide IsTerrible, AddressesOf;
    if n == |st.vRandom| { assert st.vRandom[..n] == st.vRandom; }
  }

  lemma SampleAlike(st: State, r: State, nNow: int, limit: nat, ids: seq<int>, vAddr: seq<Address>)
    requires SameButOrder(st, r) && SampleOf(r, nNow, limit, ids, vAddr)
    ensures SampleOf(st, nNow, limit, ids, vAddr)
  {
    hide IsTerrible, AddressesOf;
    AddressesAlike(st, r, nNow, ids, vAddr);
  }

  /**
    The shuffle keeps everything but the order of vRandom. It collects addresses of different entries,
    none of them terrible, up to the limit, and falls short of it only if there are no more.
   */
  lemma {:induction false} SampledOk(env: Env, st: State, n: nat, limit: nat, draws: nat -> nat, nNow: int,
                                     vAddr: seq<Address>, ids: seq<int>)
    returns (all: seq<int>)
    requires Valid(env, st) && RandOk(st) && n <= |st.vRandom| && |vAddr| <= limit && CollectedFrom(st, n, nNow, ids, vAddr)
    ensures var r := Sampled(st, n, limit, draws, nNow, vAddr);
            Valid(env, r.0) && SameButOrder(st, r.0) && SampleOf(st, nNow, limit, all, r.1)
    decreases |st.vRandom| - n
  {
    hide Valid, Swapped, IsTerrible, RandOk, CollectedFrom, SampleOf;
    if n < |st.vRandom| && |vAddr| < limit {
      var p := Drawn(draws, n, |st.vRandom|);
      SwappedValid(env, st, n, p);
      SwappedCollected(env, st, n, p, nNow, ids, vAddr);
      var s := Swapped(st, n, p);
      CollectedNext(s, n, nNow, ids, vAddr);
      var id := s.vRandom[n];
      all := SampledOk(env, s, n + 1, limit, draws, nNow, Collected(s, n, nNow, vAddr),
                       if IsTerrible(s.mapInfo[id], nNow) then ids else ids + [id]);
      SampleAlike(st, s, nNow, limit, all, Sampled(st, n, limit, draws, nNow, vAddr).1);
    } else {
      all := ids;
      SampleIsDone(st, n, limit, nNow, ids, vAddr);
    }
  }

  /** Sampling from the start. */
  lemma SampleOk(env: Env, st: State, limit: nat, draws: nat -> nat, nNow: int)
    requires Valid(env, st)
    ensures RandOk(st)
    ensures var r := Sampled(st, 0, limit, draws, nNow, []);
            Valid(env, r.0) && SameButOrder(st, r.0) && exists ids :: SampleOf(st, nNow, limit, ids, r.1)
  {
    hide Valid, IsTerrible, RandOk, Sampled, SampleOf;
    ValidRand(env, st);
    var _ := SampledOk(env, st, 0, limit, draws, nNow, [], []);
  }

  lemma ValidRand(env: Env, st: State)
    requires Valid(env, st)
    ensures RandOk(st)
  {
  }

  // ---- Runs ----

  datatype Op =
    | Add(addr: Address, source: NetAddr, nTimePenalty: int, nNow: int, draw: nat)
    | Good(service: Service, nTime: int)
    | Attempt(service: Service, nTime: int)
    | Connected(service: Service, nTime: int)
    | GetAddr(draws: nat -> nat, nNow: int)

  /** Time stamps are positive. */
  predicate Timely(op: Op)
  {
    match op
    case Good(_, t) => t > 0
    case Attempt(_, t) => t > 0
    case Connected(_, t) => t > 0
    case _ => true
  }

  ghost function AfterOp(env: Env, st: State, op: Op): State
    requires Valid(env, st) && Timely(op)
  {
    match op
    case Add(addr, source, penalty, now, draw) => AfterAdd(env, st, addr, source, penalty, now, draw).0
    case Good(a, t) => AfterGood(env, st, a, t)
    case Attempt(a, t) => AfterAttempt(st, a, t)
    case Connected(a, t) => AfterConnected(st, a, t)
    case GetAddr(draws, now) => Sampled(st, 0, GetAddrLimit(|st.vRandom|), draws, now, []).0
  }

  lemma AfterOpOk(env: Env, st: State, op: Op)
    requires Valid(env, st) && Timely(op)
    ensures Valid(env, AfterOp(env, st, op))
  {
    hide Valid, AfterAdd, AfterGood, AfterAttempt, AfterConnected, Sampled;
    match op
    case Add(addr, source, penalty, now, draw) => AfterAddOk(env, st, addr, source, penalty, now, draw);
    case Good(a, t) => AfterGoodOk(env, st, a, t);
    case Attempt(a, t) => AfterAttemptOk(env, st, a, t);
    case Connected(a, t) => AfterConnectedOk(env, st, a, t);
    case GetAddr(draws, now) => SampleOk(env, st, GetAddrLimit(|st.vRandom|), draws, now);
  }

  function Empty(key: Key): State { State(key, 0, map[], map[], [], 0, map[], 0, map[]) }

  /** Clearing empties the vector and the tables and resets the counters, but not the two maps. */
  function Emptied(st: State, key: Key): State { Empty(key).(mapInfo := st.mapInfo, mapAddr := st.mapAddr) }

  /**
    The state after any run of timely operations from the empty manager, for all hashes and all
    random draws: it is always valid, so the next operation is always defined.
   */
  ghost function AfterRun(env: Env, key: Key, ops: seq<Op>): (st: State)
    requires forall op <- ops :: Timely(op)
    ensures Valid(env, st)
    decreases |ops|
  {
    if ops == [] then
      Empty(key)
    else
      var n := |ops| - 1;
      assert ops[n] in ops && forall op <- ops[..n] :: op in ops;
      var before := AfterRun(env, key, ops[..n]);
      AfterOpOk(env, before, ops[n]);
      AfterOp(env, before, ops[n])
  }

  // ---- The debugging check of the source ----

  /** Looking up an address that is not there inserts and gives zero. */
  function Lookup(m: map<NetAddr, int>, a: NetAddr): int { if a in m then m[a] else 0 }

  predicate EntryPasses(info: AddrInfo, id: int, mapAddr: map<NetAddr, int>, vRandom: seq<int>)
  {
    && (info.fInTried ==> info.nLastSuccess != 0 && info.nRefCount == 0)
    && (!info.fInTried ==> 1 <= info.nRefCount <= NEW_BUCKETS_PER_ADDRESS)
    && Lookup(mapAddr, info.Ip()) == id
    && 0 <= info.nRandomPos < |vRandom| && vRandom[info.nRandomPos] == id
    && info.nLastTry >= 0 && info.nLastSuccess >= 0
  }

  ghost predicate CheckEntries(st: State)
  {
    forall id <- st.mapInfo :: EntryPasses(st.mapInfo[id], id, st.mapAddr, st.vRandom)
  }

  /** Every tried entry in exactly one slot, and the right one. */
  ghost predicate CheckTried(env: Env, st: State)
  {
    && (forall s <- st.vvTried :: st.vvTried[s] in TriedIds(st) && s == env.TriedSlot(st.nKey, st.Service(st.vvTried[s])))
    && (forall s <- st.vvTried, t <- st.vvTried :: st.vvTried[s] == st.vvTried[t] ==> s == t)
    && (forall id <- TriedIds(st) :: exists s :: s in st.vvTried && st.vvTried[s] == id)
  }

  /** Every new entry in as many slots as its reference count, all of them right. */
  ghost predicate CheckNew(env: Env, st: State)
  {
    && (forall s <- st.vvNew :: st.vvNew[s] in NewIds(st) && s == env.NewSlot(st.nKey, st.Service(st.vvNew[s]), s.0))
    && (forall id <- NewIds(st) :: |Slots(st.vvNew, id)| == st.mapInfo[id].nRefCount)
  }

  /** What Check_ tests. */
  ghost predicate CheckPasses(env: Env, st: State)
  {
    && |st.vRandom| == st.nTried + st.nNew
    && CheckEntries(st)
    && |TriedIds(st)| == st.nTried && |NewIds(st)| == st.nNew
    && CheckTried(env, st) && CheckNew(env, st)
    && st.nKey != 0
  }

  lemma {:induction false} DistinctElements(r: seq<int>, ids: set<int>)
    requires forall i, j :: 0 <= i < j < |r| ==> r[i] != r[j]
    requires forall x :: x in r <==> x in ids
    ensures |r| == |ids|
  {
    if r != [] {
      var n := |r| - 1;
      assert r == r[..n] + [r[n]];
      assert forall x :: x in r[..n] <==> x in ids - {r[n]};
      DistinctElements(r[..n], ids - {r[n]});
    } else {
      assert forall x :: x in ids ==> x in r;
    }
  }

  lemma RandomCount(st: State)
    requires RandOk(st)
    ensures |st.vRandom| == |st.mapInfo.Keys|
  {
    forall x ensures x in st.vRandom <==> x in st.mapInfo.Keys {
      if x in st.mapInfo { assert st.vRandom[st.mapInfo[x].nRandomPos] == x; }
    }
    DistinctElements(st.vRandom, st.mapInfo.Keys);
  }

  lemma TriedPassesCheck(env: Env, st: State)
    requires TriedOk(env, st)
    ensures CheckTried(env, st)
  {
    hide Env.TriedSlot;
    forall id | id in TriedIds(st) ensures exists s :: s in st.vvTried && st.vvTried[s] == id {
      var s := env.TriedSlot(st.nKey, st.Service(id));
      assert s in st.vvTried && st.vvTried[s] == id;
    }
  }

  lemma NewPassesCheck(env: Env, st: State)
    requires NewOk(env, st) && RefOk(st, {})
    ensures CheckNew(env, st)
  {
    hide Env.NewSlot, Slots;
  }

  lemma EntriesPassCheck(st: State)
    requires AddrOk(st) && RandOk(st) && RefOk(st, {}) && StampOk(st)
    ensures CheckEntries(st)
  {
    hide Slots;
  }

  lemma CountsAddUp(st: State)
    ensures |NewIds(st)| + |TriedIds(st)| == |st.mapInfo.Keys|
  {
    assert NewIds(st) + TriedIds(st) == st.mapInfo.Keys && NewIds(st) !! TriedIds(st);
  }

  lemma ValidPassesCheck(env: Env, st: State)
    requires Valid(env, st) && st.nKey != 0
    ensures CheckPasses(env, st)
  {
    hide IdsOk, AddrOk, RandOk, TriedOk, NewOk, RefOk, StampOk, NewIds, TriedIds, CheckEntries, CheckTried, CheckNew;
    RandomCount(st);
    CountsAddUp(st);
    EntriesPassCheck(st);
    TriedPassesCheck(env, st);
    NewPassesCheck(env, st);
  }

  // ---- What the check leaves open ----

  /** Ids are in use below the counter, and buckets exist. */
  ghost predicate InBounds(st: State) { IdsOk(st) && forall s <- st.vvNew :: s.0 < NEW_BUCKET_COUNT }

  /** Nothing is listed that is not there; and the look-up that gives zero does not hide entry zero. */
  ghost predicate NoStrays(st: State)
  {
    && (forall a <- st.mapAddr :: st.mapAddr[a] in st.mapInfo && st.mapInfo[st.mapAddr[a]].Ip() == a)
    && (0 in st.mapInfo ==> st.mapInfo[0].Ip() in st.mapAddr)
  }

  /** With as many places as entries, every place belongs to an entry. */
  lemma ListedIsRand(st: State)
    requires (forall id <- st.mapInfo :: Listed(st, id)) && |st.vRandom| == |st.mapInfo.Keys|
    ensures RandOk(st)
  {
    var ids := Elements(st.vRandom);
    ElementsAtMost(st.vRandom);
    forall id | id in st.mapInfo ensures id in ids { assert st.vRandom[st.mapInfo[id].nRandomPos] == id; }
    SubsetOfSameSize(st.mapInfo.Keys, ids);
    DistinctIfFull(st.vRandom);
    forall k | 0 <= k < |st.vRandom| ensures st.vRandom[k] in st.mapInfo && st.mapInfo[st.vRandom[k]].nRandomPos == k {
      assert st.vRandom[k] in ids;
    }
  }

  lemma CheckedEntries(st: State)
    requires CheckEntries(st) && NoStrays(st)
    ensures AddrOk(st) && StampOk(st) && forall id <- st.mapInfo :: Listed(st, id)
  {
    forall id | id in st.mapInfo ensures st.mapInfo[id].Ip() in st.mapAddr && st.mapAddr[st.mapInfo[id].Ip()] == id {
      assert EntryPasses(st.mapInfo[id], id, st.mapAddr, st.vRandom);
    }
  }

  lemma CheckedTables(env: Env, st: State)
    requires CheckEntries(st) && CheckTried(env, st) && CheckNew(env, st) && InBounds(st)
    ensures TriedOk(env, st) && NewOk(env, st) && RefOk(st, {})
  {
    hide Env.TriedSlot, Env.NewSlot;
    forall id | id in st.mapInfo
      ensures st.mapInfo[id].nRefCount == |Slots(st.vvNew, id)| <= NEW_BUCKETS_PER_ADDRESS
      ensures st.mapInfo[id].nRefCount == 0 <==> st.mapInfo[id].fInTried
    {
      assert EntryPasses(st.mapInfo[id], id, st.mapAddr, st.vRandom);
      if st.mapInfo[id].fInTried {
        forall s | s in st.vvNew ensures st.vvNew[s] != id { assert st.vvNew[s] in NewIds(st); }
        assert Slots(st.vvNew, id) == {};
      } else {
        assert id in NewIds(st);
      }
    }
    hide Slots;
    forall id | id in st.mapInfo && st.mapInfo[id].fInTried
      ensures var s := env.TriedSlot(st.nKey, st.Service(id)); s in st.vvTried && st.vvTried[s] == id
    {
      assert id in TriedIds(st);
      var s :| s in st.vvTried && st.vvTried[s] == id;
    }
  }

  /** A manager with a key is valid exactly if the check passes, ids and buckets are in bounds, and nothing is listed astray. */
  lemma ValidIffChecked(env: Env, st: State)
    ensures Valid(env, st) && st.nKey != 0 <==> CheckPasses(env, st) && InBounds(st) && NoStrays(st)
  {
    if Valid(env, st) && st.nKey != 0 {
      ValidPassesCheck(env, st);
      ValidInBounds(env, st);
    }
    if CheckPasses(env, st) && InBounds(st) && NoStrays(st) {
      CountsAddUp(st);
      CheckedEntries(st);
      ListedIsRand(st);
      CheckedTables(env, st);
      hide RandOk, AddrOk, TriedOk, NewOk, RefOk, StampOk, CheckEntries, CheckTried, CheckNew, NoStrays, NewIds, TriedIds;
    }
  }

  lemma ValidInBounds(env: Env, st: State)
    requires Valid(env, st)
    ensures InBounds(st) && NoStrays(st)
  {
    hide RandOk, TriedOk, RefOk, StampOk, CountsOk, Env.NewSlot;
  }
}
