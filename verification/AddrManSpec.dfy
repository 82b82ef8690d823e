/**
  The address manager as a value: its five mutually dependent indexes, what each operation does to
  them, and the consistency that the debugging check of the source demands of them.

  Bucket tables are maps from the occupied slots (bucket, position) to entry ids.
 */
module AddrManSpec {

  type NetAddr = nat
  type Key = nat
  type Slot = (nat, nat)
  type Table = map<Slot, int>

  const TRIED_BUCKET_COUNT := 256
  const NEW_BUCKET_COUNT := 1024
  const BUCKET_SIZE := 64
  const NEW_BUCKETS_PER_ADDRESS := 8
  const HORIZON_DAYS := 30
  const RETRIES := 3
  const MAX_FAILURES := 10
  const MIN_FAIL_DAYS := 7
  const GETADDR_MAX_PCT := 23
  const GETADDR_MAX := 2500
  const DAY := 24 * 60 * 60

  datatype Service = Service(ip: NetAddr, port: nat)

  datatype Address = Address(service: Service, nServices: set<nat>, nTime: int)

  datatype AddrInfo = AddrInfo(
    address: Address, source: NetAddr, nLastSuccess: int, nLastTry: int, nAttempts: int,
    nRefCount: int, fInTried: bool, nRandomPos: int)
  {
    function Ip(): NetAddr { address.service.ip }
  }

  /** The hash functions and the routing test are arbitrary. */
  datatype Env = Env(
    triedHash: (Key, Service) -> nat,
    newHash: (Key, Service, NetAddr) -> nat,
    positionHash: (Key, bool, nat, Service) -> nat,
    routable: NetAddr -> bool)
  {
    function TriedBucket(key: Key, a: Service): (b: nat)
      ensures b < TRIED_BUCKET_COUNT
    { triedHash(key, a) % TRIED_BUCKET_COUNT }

    function NewBucket(key: Key, a: Service, src: NetAddr): (b: nat)
      ensures b < NEW_BUCKET_COUNT
    { newHash(key, a, src) % NEW_BUCKET_COUNT }

    function Position(key: Key, fNew: bool, bucket: nat, a: Service): (p: nat)
      ensures p < BUCKET_SIZE
    { positionHash(key, fNew, bucket, a) % BUCKET_SIZE }

    function TriedSlot(key: Key, a: Service): (s: Slot)
      ensures s.0 < TRIED_BUCKET_COUNT && s.1 < BUCKET_SIZE
    { var b := TriedBucket(key, a); (b, Position(key, false, b, a)) }

    function NewSlot(key: Key, a: Service, bucket: nat): (s: Slot)
      ensures s.0 == bucket && s.1 < BUCKET_SIZE
    { (bucket, Position(key, true, bucket, a)) }
  }

  datatype State = State(
    nKey: Key, nIdCount: int, mapInfo: map<int, AddrInfo>, mapAddr: map<NetAddr, int>, vRandom: seq<int>,
    nTried: int, vvTried: Table, nNew: int, vvNew: Table)
  {
    function Service(id: int): Service
      requires id in mapInfo
    { mapInfo[id].address.service }

    function With(id: int, info: AddrInfo): State { this.(mapInfo := mapInfo[id := info]) }
  }

  // ---- The operations on one index or two ----

  function Created(st: State, addr: Address, source: NetAddr): (r: State)
  {
    var id := st.nIdCount;
    st.(nIdCount := id + 1,
        mapInfo := st.mapInfo[id := AddrInfo(addr, source, 0, 0, 0, 0, false, |st.vRandom|)],
        mapAddr := st.mapAddr[addr.service.ip := id],
        vRandom := st.vRandom + [id])
  }

  function Swapped(st: State, p1: nat, p2: nat): (r: State)
    requires p1 < |st.vRandom| && p2 < |st.vRandom|
    requires st.vRandom[p1] in st.mapInfo && st.vRandom[p2] in st.mapInfo
    ensures r.mapInfo.Keys == st.mapInfo.Keys && |r.vRandom| == |st.vRandom|
  {
    if p1 == p2 then st else
      var id1, id2 := st.vRandom[p1], st.vRandom[p2];
      var info1 := st.mapInfo[id1 := st.mapInfo[id1].(nRandomPos := p2)];
      st.(mapInfo := info1[id2 := info1[id2].(nRandomPos := p1)],
          vRandom := st.vRandom[p1 := id2][p2 := id1])
  }

  function Deleted(st: State, id: int): (r: State)
    requires id in st.mapInfo && |st.vRandom| > 0
    requires 0 <= st.mapInfo[id].nRandomPos < |st.vRandom|
    requires st.vRandom[st.mapInfo[id].nRandomPos] in st.mapInfo && st.vRandom[|st.vRandom| - 1] in st.mapInfo
  {
    var s := Swapped(st, st.mapInfo[id].nRandomPos, |st.vRandom| - 1);
    s.(vRandom := s.vRandom[..|s.vRandom| - 1],
       mapAddr := s.mapAddr - {st.mapInfo[id].Ip()},
       mapInfo := s.mapInfo - {id},
       nNew := s.nNew - 1)
  }

  /** One reference to an entry taken out of the new table. */
  function Unreferenced(st: State, slot: Slot): (r: State)
    requires slot in st.vvNew && st.vvNew[slot] in st.mapInfo
  {
    var id := st.vvNew[slot];
    st.With(id, st.mapInfo[id].(nRefCount := st.mapInfo[id].nRefCount - 1)).(vvNew := st.vvNew - {slot})
  }

  /** One reference to an entry put into the new table. */
  function Referenced(st: State, id: int, slot: Slot): (r: State)
    requires id in st.mapInfo
  {
    st.With(id, st.mapInfo[id].(nRefCount := st.mapInfo[id].nRefCount + 1)).(vvNew := st.vvNew[slot := id])
  }

  // ---- Consistency ----

  ghost function Slots(table: Table, id: int): set<Slot> { set s <- table | table[s] == id }

  ghost predicate IdsOk(st: State) { st.nIdCount >= 0 && forall id <- st.mapInfo :: 0 <= id < st.nIdCount }

  /** Ids and network addresses are in one-to-one correspondence. */
  ghost predicate AddrOk(st: State)
  {
    && (forall id <- st.mapInfo :: st.mapInfo[id].Ip() in st.mapAddr && st.mapAddr[st.mapInfo[id].Ip()] == id)
    && (forall a <- st.mapAddr :: st.mapAddr[a] in st.mapInfo && st.mapInfo[st.mapAddr[a]].Ip() == a)
  }

  /** vRandom lists every id once, and every entry knows its position. */
  ghost predicate RandOk(st: State)
  {
    && (forall id <- st.mapInfo ::
          0 <= st.mapInfo[id].nRandomPos < |st.vRandom| && st.vRandom[st.mapInfo[id].nRandomPos] == id)
    && (forall k :: 0 <= k < |st.vRandom| ==>
          st.vRandom[k] in st.mapInfo && st.mapInfo[st.vRandom[k]].nRandomPos == k)
  }

  /** vRandom lists entries, each of which knows its position; there may be entries it does not list. */
  ghost predicate ListOk(st: State)
  {
    forall k :: 0 <= k < |st.vRandom| ==> st.vRandom[k] in st.mapInfo && st.mapInfo[st.vRandom[k]].nRandomPos == k
  }

  ghost predicate Listed(st: State, id: int)
  {
    id in st.mapInfo && 0 <= st.mapInfo[id].nRandomPos < |st.vRandom| && st.vRandom[st.mapInfo[id].nRandomPos] == id
  }

  lemma RandIsList(st: State)
    requires RandOk(st)
    ensures ListOk(st) && forall id <- st.mapInfo :: Listed(st, id)
  {
  }

  /** A tried entry sits in exactly the slot that its hash says, and nothing else is in the table. */
  ghost predicate TriedOk(env: Env, st: State)
  {
    && (forall s <- st.vvTried :: st.vvTried[s] in st.mapInfo && st.mapInfo[st.vvTried[s]].fInTried
                                  && s == env.TriedSlot(st.nKey, st.Service(st.vvTried[s])))
    && (forall id <- st.mapInfo :: st.mapInfo[id].fInTried ==>
          var s := env.TriedSlot(st.nKey, st.Service(id)); s in st.vvTried && st.vvTried[s] == id)
  }

  /** The new table holds entries that are not tried, each in the position its hash says for the bucket. */
  ghost predicate NewOk(env: Env, st: State)
  {
    forall s <- st.vvNew :: s.0 < NEW_BUCKET_COUNT && st.vvNew[s] in st.mapInfo && !st.mapInfo[st.vvNew[s]].fInTried
                            && s == env.NewSlot(st.nKey, st.Service(st.vvNew[s]), s.0)
  }

  /** Reference counts are exact; only entries in `limbo` are neither tried nor referenced. */
  ghost predicate RefOk(st: State, limbo: set<int>)
  {
    && (forall id <- st.mapInfo ::
          && st.mapInfo[id].nRefCount == |Slots(st.vvNew, id)| <= NEW_BUCKETS_PER_ADDRESS
          && (st.mapInfo[id].nRefCount == 0 <==> st.mapInfo[id].fInTried || id in limbo))
    && (forall id <- limbo :: id in st.mapInfo && !st.mapInfo[id].fInTried)
  }

  ghost predicate StampOk(st: State)
  {
    forall id <- st.mapInfo :: st.mapInfo[id].nLastTry >= 0 && st.mapInfo[id].nLastSuccess >= 0
                               && (st.mapInfo[id].fInTried ==> st.mapInfo[id].nLastSuccess != 0)
  }

  ghost predicate Consistent(env: Env, st: State, limbo: set<int>)
  {
    IdsOk(st) && AddrOk(st) && RandOk(st) && TriedOk(env, st) && NewOk(env, st) && RefOk(st, limbo) && StampOk(st)
  }

  ghost function NewIds(st: State): set<int> { set id <- st.mapInfo | !st.mapInfo[id].fInTried }

  ghost function TriedIds(st: State): set<int> { set id <- st.mapInfo | st.mapInfo[id].fInTried }

  ghost predicate CountsOk(st: State, owed: int)
  {
    st.nTried == |TriedIds(st)| && st.nNew == |NewIds(st)| - owed
  }

  /** Between operations: consistent, nothing in limbo, counters exact. */
  ghost predicate Valid(env: Env, st: State) { Consistent(env, st, {}) && CountsOk(st, 0) }

  // ---- What does not change keeps its part of consistency ----

  ghost predicate SameEntries(st: State, r: State) { r.mapInfo.Keys == st.mapInfo.Keys && r.nKey == st.nKey }

  ghost predicate SameServices(st: State, r: State)
  {
    SameEntries(st, r) && forall id <- st.mapInfo :: r.mapInfo[id].address.service == st.mapInfo[id].address.service
  }

  ghost predicate SameTried(st: State, r: State)
  {
    SameEntries(st, r) && forall id <- st.mapInfo :: r.mapInfo[id].fInTried == st.mapInfo[id].fInTried
  }

  lemma KeepIds(st: State, r: State)
    requires IdsOk(st) && SameEntries(st, r) && r.nIdCount == st.nIdCount
    ensures IdsOk(r)
  {
  }

  lemma KeepAddr(st: State, r: State)
    requires AddrOk(st) && SameServices(st, r) && r.mapAddr == st.mapAddr
    ensures AddrOk(r)
  {
  }

  lemma KeepRand(st: State, r: State)
    requires RandOk(st) && SameEntries(st, r) && r.vRandom == st.vRandom
    requires forall id <- st.mapInfo :: r.mapInfo[id].nRandomPos == st.mapInfo[id].nRandomPos
    ensures RandOk(r)
  {
  }

  lemma KeepTried(env: Env, st: State, r: State)
    requires TriedOk(env, st) && SameServices(st, r) && SameTried(st, r) && r.vvTried == st.vvTried
    ensures TriedOk(env, r)
  {
    hide Env.TriedSlot;
  }

  lemma KeepNew(env: Env, st: State, r: State)
    requires NewOk(env, st) && SameServices(st, r) && SameTried(st, r) && r.vvNew == st.vvNew
    ensures NewOk(env, r)
  {
    hide Env.NewSlot;
  }

  lemma KeepRef(st: State, r: State, limbo: set<int>)
    requires RefOk(st, limbo) && SameTried(st, r) && r.vvNew == st.vvNew
    requires forall id <- st.mapInfo :: r.mapInfo[id].nRefCount == st.mapInfo[id].nRefCount
    ensures RefOk(r, limbo)
  {
    hide Slots;
  }

  lemma KeepStamp(st: State, r: State)
    requires StampOk(st) && SameTried(st, r)
    requires forall id <- st.mapInfo :: r.mapInfo[id].nLastTry == st.mapInfo[id].nLastTry
                                        && r.mapInfo[id].nLastSuccess == st.mapInfo[id].nLastSuccess
    ensures StampOk(r)
  {
  }

  lemma KeepCounts(st: State, r: State)
    requires SameTried(st, r)
    ensures NewIds(r) == NewIds(st) && TriedIds(r) == TriedIds(st)
  {
    forall id ensures id in NewIds(r) <==> id in NewIds(st) ensures id in TriedIds(r) <==> id in TriedIds(st) {
      assert id in r.mapInfo.Keys <==> id in st.mapInfo.Keys;
      if id in st.mapInfo { assert r.mapInfo[id].fInTried == st.mapInfo[id].fInTried; }
    }
  }

  // ---- Each small change keeps consistency ----

  lemma CreatedAddr(st: State, addr: Address, source: NetAddr)
    requires IdsOk(st) && AddrOk(st) && addr.service.ip !in st.mapAddr
    ensures AddrOk(Created(st, addr, source))
  {
  }

  lemma CreatedRand(st: State, addr: Address, source: NetAddr)
    requires IdsOk(st) && RandOk(st)
    ensures RandOk(Created(st, addr, source))
  {
  }

  lemma CreatedTables(env: Env, st: State, addr: Address, source: NetAddr)
    requires IdsOk(st) && TriedOk(env, st) && NewOk(env, st)
    ensures TriedOk(env, Created(st, addr, source)) && NewOk(env, Created(st, addr, source))
  {
    hide Env.TriedSlot, Env.NewSlot;
  }

  lemma CreatedRef(env: Env, st: State, limbo: set<int>, addr: Address, source: NetAddr)
    requires IdsOk(st) && NewOk(env, st) && RefOk(st, limbo)
    ensures RefOk(Created(st, addr, source), limbo + {st.nIdCount})
  {
    assert Slots(st.vvNew, st.nIdCount) == {};
    hide Slots, NewOk;
    var r := Created(st, addr, source);
    assert forall id <- limbo :: id in st.mapInfo;
  }

  lemma CreatedOk(env: Env, st: State, limbo: set<int>, addr: Address, source: NetAddr)
    requires Consistent(env, st, limbo) && addr.service.ip !in st.mapAddr
    ensures Consistent(env, Created(st, addr, source), limbo + {st.nIdCount})
    ensures NewIds(Created(st, addr, source)) == NewIds(st) + {st.nIdCount} && st.nIdCount !in NewIds(st)
    ensures TriedIds(Created(st, addr, source)) == TriedIds(st)
  {
    hide AddrOk, RandOk, TriedOk, NewOk, RefOk, Slots;
    CreatedAddr(st, addr, source);
    CreatedRand(st, addr, source);
    CreatedTables(env, st, addr, source);
    CreatedRef(env, st, limbo, addr, source);
  }

  lemma RandomIsKnown(st: State, p: nat)
    requires RandOk(st) && p < |st.vRandom|
    ensures st.vRandom[p] in st.mapInfo && st.mapInfo[st.vRandom[p]].nRandomPos == p
  {
  }

  lemma SwappedRand(st: State, p1: nat, p2: nat)
    requires RandOk(st) && p1 < |st.vRandom| && p2 < |st.vRandom|
    ensures RandOk(Swapped(st, p1, p2))
  {
  }

  lemma SwappedOk(env: Env, st: State, limbo: set<int>, p1: nat, p2: nat)
    requires Consistent(env, st, limbo) && p1 < |st.vRandom| && p2 < |st.vRandom|
    ensures st.vRandom[p1] in st.mapInfo && st.vRandom[p2] in st.mapInfo
    ensures Consistent(env, Swapped(st, p1, p2), limbo)
    ensures NewIds(Swapped(st, p1, p2)) == NewIds(st) && TriedIds(Swapped(st, p1, p2)) == TriedIds(st)
  {
    hide IdsOk, AddrOk, RandOk, TriedOk, NewOk, RefOk, StampOk, NewIds, TriedIds;
    RandomIsKnown(st, p1);
    RandomIsKnown(st, p2);
    KeepAll(env, st, Swapped(st, p1, p2), limbo);
    SwappedRand(st, p1, p2);
  }

  /** Changes that touch neither services, references, the tried flags nor the time stamps. */
  lemma KeepAll(env: Env, st: State, r: State, limbo: set<int>)
    requires IdsOk(st) && AddrOk(st) && TriedOk(env, st) && NewOk(env, st) && RefOk(st, limbo) && StampOk(st)
    requires SameServices(st, r) && SameTried(st, r)
    requires r.nIdCount == st.nIdCount && r.mapAddr == st.mapAddr && r.vvTried == st.vvTried && r.vvNew == st.vvNew
    requires forall id <- st.mapInfo :: r.mapInfo[id].nRefCount == st.mapInfo[id].nRefCount
                                        && r.mapInfo[id].nLastTry == st.mapInfo[id].nLastTry
                                        && r.mapInfo[id].nLastSuccess == st.mapInfo[id].nLastSuccess
    ensures IdsOk(r) && AddrOk(r) && TriedOk(env, r) && NewOk(env, r) && RefOk(r, limbo) && StampOk(r)
    ensures NewIds(r) == NewIds(st) && TriedIds(r) == TriedIds(st)
  {
    hide IdsOk, AddrOk, TriedOk, NewOk, RefOk, StampOk, SameServices, SameTried, NewIds, TriedIds;
    assert SameEntries(st, r) by { SameTriedEntries(st, r); }
    KeepIds(st, r);
    KeepAddr(st, r);
    KeepTried(env, st, r);
    KeepNew(env, st, r);
    KeepRef(st, r, limbo);
    KeepStamp(st, r);
    KeepCounts(st, r);
  }

  lemma SameTriedEntries(st: State, r: State)
    requires SameTried(st, r)
    ensures SameEntries(st, r)
  {
  }

  // ---- Deleting an entry that is in limbo ----

  /** The last id of vRandom is moved into the gap; everything else stays where it was. */
  lemma DeletedIs(st: State, id: int)
    requires ListOk(st) && Listed(st, id)
    ensures |st.vRandom| > 0 && 0 <= st.mapInfo[id].nRandomPos < |st.vRandom|
    ensures st.vRandom[st.mapInfo[id].nRandomPos] in st.mapInfo && st.vRandom[|st.vRandom| - 1] in st.mapInfo
    ensures var r := Deleted(st, id);
            && r.mapInfo.Keys == st.mapInfo.Keys - {id}
            && (forall k <- r.mapInfo :: r.mapInfo[k] == st.mapInfo[k].(nRandomPos := r.mapInfo[k].nRandomPos))
            && r.mapAddr == st.mapAddr - {st.mapInfo[id].Ip()}
            && r.nKey == st.nKey && r.nIdCount == st.nIdCount && r.vvNew == st.vvNew && r.vvTried == st.vvTried
            && r.nTried == st.nTried && r.nNew == st.nNew - 1
  {
  }

  lemma DeletedList(st: State, id: int)
    requires ListOk(st) && Listed(st, id)
    ensures st.vRandom[|st.vRandom| - 1] in st.mapInfo && ListOk(Deleted(st, id))
    ensures forall k <- Deleted(st, id).mapInfo :: Listed(Deleted(st, id), k) <==> Listed(st, k)
  {
  }

  lemma DeletedRand(st: State, id: int)
    requires RandOk(st) && id in st.mapInfo
    ensures |st.vRandom| > 0 && 0 <= st.mapInfo[id].nRandomPos < |st.vRandom|
    ensures st.vRandom[st.mapInfo[id].nRandomPos] in st.mapInfo && st.vRandom[|st.vRandom| - 1] in st.mapInfo
    ensures RandOk(Deleted(st, id))
  {
    RandIsList(st);
    DeletedIs(st, id);
    DeletedList(st, id);
    hide Swapped, Deleted;
  }

  lemma DeletedAddr(st: State, id: int, r: State)
    requires AddrOk(st) && id in st.mapInfo && r.mapInfo.Keys == st.mapInfo.Keys - {id}
    requires forall k <- r.mapInfo :: r.mapInfo[k].address == st.mapInfo[k].address
    requires r.mapAddr == st.mapAddr - {st.mapInfo[id].Ip()}
    ensures AddrOk(r)
  {
  }

  lemma NoSlots(st: State, limbo: set<int>, id: int)
    requires RefOk(st, limbo) && id in limbo
    ensures id in st.mapInfo && !st.mapInfo[id].fInTried && forall s <- st.vvNew :: st.vvNew[s] != id
  {
    assert Slots(st.vvNew, id) == {};
    forall s | s in st.vvNew ensures st.vvNew[s] != id {
      assert s in Slots(st.vvNew, id) <==> st.vvNew[s] == id;
    }
  }

  lemma DeletedTables(env: Env, st: State, limbo: set<int>, id: int, r: State)
    requires TriedOk(env, st) && NewOk(env, st) && RefOk(st, limbo) && id in limbo
    requires r.mapInfo.Keys == st.mapInfo.Keys - {id} && r.nKey == st.nKey && r.vvNew == st.vvNew && r.vvTried == st.vvTried
    requires forall k <- r.mapInfo :: r.mapInfo[k].address == st.mapInfo[k].address && r.mapInfo[k].fInTried == st.mapInfo[k].fInTried
    ensures TriedOk(env, r) && NewOk(env, r)
  {
    NoSlots(st, limbo, id);
    hide Env.TriedSlot, Env.NewSlot, Slots, RefOk;
  }

  lemma DeletedRef(st: State, limbo: set<int>, id: int, r: State)
    requires RefOk(st, limbo) && id in limbo
    requires r.mapInfo.Keys == st.mapInfo.Keys - {id} && r.vvNew == st.vvNew
    requires forall k <- r.mapInfo :: r.mapInfo[k].nRefCount == st.mapInfo[k].nRefCount && r.mapInfo[k].fInTried == st.mapInfo[k].fInTried
    ensures RefOk(r, limbo - {id})
  {
    hide Slots;
  }

  lemma DeletedCounts(st: State, limbo: set<int>, id: int, r: State)
    requires RefOk(st, limbo) && id in limbo
    requires r.mapInfo.Keys == st.mapInfo.Keys - {id}
    requires forall k <- r.mapInfo :: r.mapInfo[k].fInTried == st.mapInfo[k].fInTried
    ensures NewIds(r) == NewIds(st) - {id} && id in NewIds(st) && TriedIds(r) == TriedIds(st)
  {
    hide Slots;
    assert forall k :: k in r.mapInfo <==> k in st.mapInfo && k != id;
  }

  lemma DeletedOk(env: Env, st: State, limbo: set<int>, id: int)
    requires Consistent(env, st, limbo) && id in limbo
    ensures id in st.mapInfo && |st.vRandom| > 0 && 0 <= st.mapInfo[id].nRandomPos < |st.vRandom|
    ensures st.vRandom[st.mapInfo[id].nRandomPos] in st.mapInfo && st.vRandom[|st.vRandom| - 1] in st.mapInfo
    ensures Consistent(env, Deleted(st, id), limbo - {id})
    ensures NewIds(Deleted(st, id)) == NewIds(st) - {id} && id in NewIds(st)
    ensures TriedIds(Deleted(st, id)) == TriedIds(st)
  {
    hide AddrOk, RandOk, TriedOk, NewOk, RefOk, NewIds, TriedIds, Deleted;
    LimboIsKnown(st, limbo, id);
    RandIsList(st);
    DeletedIs(st, id);
    DeletedRand(st, id);
    var r := Deleted(st, id);
    DeletedAddr(st, id, r);
    DeletedTables(env, st, limbo, id, r);
    DeletedRef(st, limbo, id, r);
    DeletedCounts(st, limbo, id, r);
  }

  lemma LimboIsKnown(st: State, limbo: set<int>, id: int)
    requires RefOk(st, limbo) && id in limbo
    ensures id in st.mapInfo && !st.mapInfo[id].fInTried && st.mapInfo[id].nRefCount == 0
  {
  }

  // ---- References ----

  lemma SlotIsKnown(env: Env, st: State, slot: Slot)
    requires NewOk(env, st) && slot in st.vvNew
    ensures slot.0 < NEW_BUCKET_COUNT && st.vvNew[slot] in st.mapInfo && !st.mapInfo[st.vvNew[slot]].fInTried
    ensures slot == env.NewSlot(st.nKey, st.Service(st.vvNew[slot]), slot.0)
  {
  }

  lemma UnreferencedTables(env: Env, st: State, slot: Slot)
    requires TriedOk(env, st) && NewOk(env, st) && slot in st.vvNew
    ensures TriedOk(env, Unreferenced(st, slot)) && NewOk(env, Unreferenced(st, slot))
  {
    hide Env.TriedSlot, Env.NewSlot;
  }

  lemma UnreferencedSlots(table: Table, slot: Slot)
    requires slot in table
    ensures slot in Slots(table, table[slot])
    ensures Slots(table - {slot}, table[slot]) == Slots(table, table[slot]) - {slot}
    ensures forall k :: k != table[slot] ==> Slots(table - {slot}, k) == Slots(table, k)
  {
  }

  lemma UnreferencedRef(env: Env, st: State, limbo: set<int>, slot: Slot)
    requires NewOk(env, st) && RefOk(st, limbo) && slot in st.vvNew
    ensures var id := st.vvNew[slot];
            && id in st.mapInfo && st.mapInfo[id].nRefCount > 0 && id !in limbo
            && RefOk(Unreferenced(st, slot), if st.mapInfo[id].nRefCount == 1 then limbo + {id} else limbo)
  {
    UnreferencedSlots(st.vvNew, slot);
    SlotIsKnown(env, st, slot);
    hide Slots, NewOk;
    var id := st.vvNew[slot];
    var r := Unreferenced(st, slot);
    assert |Slots(r.vvNew, id)| == |Slots(st.vvNew, id)| - 1;
  }

  lemma UnreferencedOk(env: Env, st: State, limbo: set<int>, slot: Slot)
    requires Consistent(env, st, limbo) && slot in st.vvNew
    ensures var id := st.vvNew[slot];
            && id in st.mapInfo && st.mapInfo[id].nRefCount > 0 && id !in limbo && !st.mapInfo[id].fInTried
            && var r := Unreferenced(st, slot);
               && Consistent(env, r, if r.mapInfo[id].nRefCount == 0 then limbo + {id} else limbo)
               && NewIds(r) == NewIds(st) && TriedIds(r) == TriedIds(st)
  {
    hide IdsOk, AddrOk, RandOk, TriedOk, NewOk, RefOk, StampOk, NewIds, TriedIds;
    SlotIsKnown(env, st, slot);
    var r := Unreferenced(st, slot);
    KeepIds(st, r);
    KeepAddr(st, r);
    KeepRand(st, r);
    UnreferencedTables(env, st, slot);
    UnreferencedRef(env, st, limbo, slot);
    KeepStamp(st, r);
    KeepCounts(st, r);
  }

  lemma ReferencedTables(env: Env, st: State, id: int, slot: Slot)
    requires TriedOk(env, st) && NewOk(env, st) && id in st.mapInfo && !st.mapInfo[id].fInTried
    requires slot.0 < NEW_BUCKET_COUNT && slot == env.NewSlot(st.nKey, st.Service(id), slot.0)
    ensures TriedOk(env, Referenced(st, id, slot)) && NewOk(env, Referenced(st, id, slot))
  {
    hide Env.TriedSlot, Env.NewSlot;
  }

  lemma ReferencedSlots(table: Table, id: int, slot: Slot)
    requires slot !in table
    ensures slot !in Slots(table, id) && Slots(table[slot := id], id) == Slots(table, id) + {slot}
    ensures forall k :: k != id ==> Slots(table[slot := id], k) == Slots(table, k)
  {
  }

  lemma ReferencedRef(st: State, limbo: set<int>, id: int, slot: Slot)
    requires RefOk(st, limbo) && id in st.mapInfo && !st.mapInfo[id].fInTried && slot !in st.vvNew
    requires st.mapInfo[id].nRefCount < NEW_BUCKETS_PER_ADDRESS
    ensures RefOk(Referenced(st, id, slot), limbo - {id})
  {
    ReferencedSlots(st.vvNew, id, slot);
    hide Slots;
    var r := Referenced(st, id, slot);
    assert |Slots(r.vvNew, id)| == |Slots(st.vvNew, id)| + 1;
  }

  lemma ReferencedOk(env: Env, st: State, limbo: set<int>, id: int, slot: Slot)
    requires Consistent(env, st, limbo) && id in st.mapInfo && !st.mapInfo[id].fInTried
    requires slot !in st.vvNew && slot.0 < NEW_BUCKET_COUNT && slot == env.NewSlot(st.nKey, st.Service(id), slot.0)
    requires st.mapInfo[id].nRefCount < NEW_BUCKETS_PER_ADDRESS
    ensures Consistent(env, Referenced(st, id, slot), limbo - {id})
    ensures NewIds(Referenced(st, id, slot)) == NewIds(st) && TriedIds(Referenced(st, id, slot)) == TriedIds(st)
  {
    hide IdsOk, AddrOk, RandOk, TriedOk, NewOk, RefOk, StampOk, NewIds, TriedIds, Env.NewSlot;
    var r := Referenced(st, id, slot);
    KeepIds(st, r);
    KeepAddr(st, r);
    KeepRand(st, r);
    ReferencedTables(env, st, id, slot);
    ReferencedRef(st, limbo, id, slot);
    KeepStamp(st, r);
    KeepCounts(st, r);
  }

  // ---- Moving between the tables ----

  /** A tried entry taken out of its slot: neither tried nor referenced. */
  function Evicted(st: State, slot: Slot): (r: State)
    requires slot in st.vvTried && st.vvTried[slot] in st.mapInfo
  {
    var id := st.vvTried[slot];
    st.With(id, st.mapInfo[id].(fInTried := false)).(vvTried := st.vvTried - {slot}, nTried := st.nTried - 1)
  }

  /** An entry put into its tried slot. */
  function Promoted(st: State, id: int, slot: Slot): (r: State)
    requires id in st.mapInfo
  {
    st.With(id, st.mapInfo[id].(fInTried := true)).(vvTried := st.vvTried[slot := id], nTried := st.nTried + 1)
  }

  lemma TriedIsKnown(env: Env, st: State, slot: Slot)
    requires TriedOk(env, st) && slot in st.vvTried
    ensures st.vvTried[slot] in st.mapInfo && st.mapInfo[st.vvTried[slot]].fInTried
    ensures slot == env.TriedSlot(st.nKey, st.Service(st.vvTried[slot]))
  {
  }

  lemma EvictedTables(env: Env, st: State, slot: Slot)
    requires TriedOk(env, st) && NewOk(env, st) && slot in st.vvTried
    ensures TriedOk(env, Evicted(st, slot)) && NewOk(env, Evicted(st, slot))
  {
    TriedIsKnown(env, st, slot);
    hide Env.TriedSlot, Env.NewSlot;
  }

  lemma EvictedRef(st: State, limbo: set<int>, slot: Slot)
    requires RefOk(st, limbo) && slot in st.vvTried && st.vvTried[slot] in st.mapInfo && st.mapInfo[st.vvTried[slot]].fInTried
    ensures RefOk(Evicted(st, slot), limbo + {st.vvTried[slot]})
  {
    hide Slots;
  }

  lemma EvictedCounts(st: State, slot: Slot)
    requires slot in st.vvTried && st.vvTried[slot] in st.mapInfo && st.mapInfo[st.vvTried[slot]].fInTried
    ensures var id := st.vvTried[slot];
            && NewIds(Evicted(st, slot)) == NewIds(st) + {id} && id !in NewIds(st)
            && TriedIds(Evicted(st, slot)) == TriedIds(st) - {id} && id in TriedIds(st)
  {
  }

  lemma EvictedOk(env: Env, st: State, limbo: set<int>, slot: Slot)
    requires Consistent(env, st, limbo) && slot in st.vvTried
    ensures var id := st.vvTried[slot];
            && id in st.mapInfo && st.mapInfo[id].fInTried && id !in limbo
            && Consistent(env, Evicted(st, slot), limbo + {id})
            && NewIds(Evicted(st, slot)) == NewIds(st) + {id} && id !in NewIds(st)
            && TriedIds(Evicted(st, slot)) == TriedIds(st) - {id} && id in TriedIds(st)
  {
    hide IdsOk, AddrOk, RandOk, TriedOk, NewOk, RefOk, NewIds, TriedIds, Env.TriedSlot;
    TriedIsKnown(env, st, slot);
    var r := Evicted(st, slot);
    if st.vvTried[slot] in limbo { LimboIsKnown(st, limbo, st.vvTried[slot]); }
    KeepIds(st, r);
    KeepAddr(st, r);
    KeepRand(st, r);
    EvictedTables(env, st, slot);
    EvictedRef(st, limbo, slot);
    EvictedCounts(st, slot);
  }

  lemma PromotedTables(env: Env, st: State, limbo: set<int>, id: int)
    requires TriedOk(env, st) && NewOk(env, st) && RefOk(st, limbo) && id in limbo
    requires env.TriedSlot(st.nKey, st.Service(id)) !in st.vvTried
    ensures TriedOk(env, Promoted(st, id, env.TriedSlot(st.nKey, st.Service(id))))
    ensures NewOk(env, Promoted(st, id, env.TriedSlot(st.nKey, st.Service(id))))
  {
    NoSlots(st, limbo, id);
    hide Env.TriedSlot, Env.NewSlot, Slots, RefOk;
  }

  lemma PromotedRef(st: State, limbo: set<int>, id: int, slot: Slot)
    requires RefOk(st, limbo) && id in limbo
    ensures RefOk(Promoted(st, id, slot), limbo - {id})
  {
    hide Slots;
  }

  lemma PromotedOk(env: Env, st: State, limbo: set<int>, id: int)
    requires Consistent(env, st, limbo) && id in limbo && id in st.mapInfo
    requires env.TriedSlot(st.nKey, st.Service(id)) !in st.vvTried && st.mapInfo[id].nLastSuccess != 0
    ensures var r := Promoted(st, id, env.TriedSlot(st.nKey, st.Service(id)));
            && Consistent(env, r, limbo - {id})
            && NewIds(r) == NewIds(st) - {id} && id in NewIds(st)
            && TriedIds(r) == TriedIds(st) + {id} && id !in TriedIds(st)
  {
    hide IdsOk, AddrOk, RandOk, TriedOk, NewOk, RefOk, Env.TriedSlot;
    var r := Promoted(st, id, env.TriedSlot(st.nKey, st.Service(id)));
    LimboIsKnown(st, limbo, id);
    KeepIds(st, r);
    KeepAddr(st, r);
    KeepRand(st, r);
    PromotedTables(env, st, limbo, id);
    PromotedRef(st, limbo, id, env.TriedSlot(st.nKey, st.Service(id)));
  }
}
