/**
  The address manager as an object with its maps, its vector and its two bucket arrays, updated in
  place. Every method is proved to compute the state that the specification gives.
 */
module AddrMan {
  import opened Basics
  import opened AddrManSpec
  import opened AddrManOps

  /** The occupied slots of a bucket array; -1 marks a free one. */
  ghost function Occupied(a: array2<int>): Table
    reads a
  {
    map b: nat, p: nat | b < a.Length0 && p < a.Length1 && a[b, p] != -1 :: (b, p) := a[b, p]
  }

  lemma OccupiedAt(a: array2<int>, b: nat, p: nat)
    requires b < a.Length0 && p < a.Length1
    ensures (b, p) in Occupied(a) <==> a[b, p] != -1
    ensures (b, p) in Occupied(a) ==> Occupied(a)[(b, p)] == a[b, p]
  {
  }

  method SetSlot(a: array2<int>, b: nat, p: nat, id: int)
    requires b < a.Length0 && p < a.Length1
    modifies a
    ensures Occupied(a) == if id == -1 then old(Occupied(a)) - {(b, p)} else old(Occupied(a))[(b, p) := id]
  {
    a[b, p] := id;
  }

  method FreeSlots(a: array2<int>)
    modifies a
    ensures Occupied(a) == map[]
  {
    for bucket := 0 to a.Length0
      invariant forall b, p :: 0 <= b < bucket && 0 <= p < a.Length1 ==> a[b, p] == -1
    {
      for entry := 0 to a.Length1
        invariant forall b, p :: 0 <= b < bucket && 0 <= p < a.Length1 ==> a[b, p] == -1
        invariant forall p :: 0 <= p < entry ==> a[bucket, p] == -1
      {
        a[bucket, entry] := -1;
      }
    }
  }

  class AddrMan {
    const env: Env
    var nKey: Key
    var nIdCount: int
    var mapInfo: map<int, AddrInfo>
    var mapAddr: map<NetAddr, int>
    var vRandom: seq<int>
    var nTried: int
    const vvTried: array2<int>
    var nNew: int
    const vvNew: array2<int>

    ghost predicate Shape()
    {
      && vvTried.Length0 == TRIED_BUCKET_COUNT && vvTried.Length1 == BUCKET_SIZE
      && vvNew.Length0 == NEW_BUCKET_COUNT && vvNew.Length1 == BUCKET_SIZE
      && vvNew != vvTried
    }

    ghost function St(): State
      reads this, vvTried, vvNew
    {
      State(nKey, nIdCount, mapInfo, mapAddr, vRandom, nTried, Occupied(vvTried), nNew, Occupied(vvNew))
    }

    constructor (env: Env, key: Key)
      ensures Shape() && this.env == env && St() == Empty(key)
      ensures fresh(vvTried) && fresh(vvNew)
    {
      this.env := env;
      mapInfo, mapAddr := map[], map[];
      vvTried := new int[TRIED_BUCKET_COUNT, BUCKET_SIZE];
      vvNew := new int[NEW_BUCKET_COUNT, BUCKET_SIZE];
      new;
      Clear(key);
    }

    /** The key is drawn at random; the two maps stay as they are. */
    method Clear(key: Key)
      requires Shape()
      modifies this, vvNew, vvTried
      ensures St() == Emptied(old(St()), key)
    {
      vRandom := [];
      nKey := key;
      FreeSlots(vvNew);
      FreeSlots(vvTried);
      nIdCount, nTried, nNew := 0, 0, 0;
    }

    method Create(addr: Address, source: NetAddr) returns (nId: int)
      requires Shape()
      modifies this
      ensures St() == Created(old(St()), addr, source) && nId == old(nIdCount)
    {
      nId := nIdCount;
      nIdCount := nIdCount + 1;
      mapInfo := mapInfo[nId := AddrInfo(addr, source, 0, 0, 0, 0, false, -1)];
      mapAddr := mapAddr[addr.service.ip := nId];
      mapInfo := mapInfo[nId := mapInfo[nId].(nRandomPos := |vRandom|)];
      vRandom := vRandom + [nId];
    }

    method SwapRandom(nRndPos1: nat, nRndPos2: nat)
      requires Shape() && ListOk(St()) && nRndPos1 < |vRandom| && nRndPos2 < |vRandom|
      modifies this
      ensures old(vRandom)[nRndPos1] in old(mapInfo) && old(vRandom)[nRndPos2] in old(mapInfo)
      ensures St() == Swapped(old(St()), nRndPos1, nRndPos2)
    {
      if nRndPos1 == nRndPos2 { return; }
      var nId1, nId2 := vRandom[nRndPos1], vRandom[nRndPos2];
      assert nId1 in mapInfo && nId2 in mapInfo;   // the assertions of the source
      mapInfo := mapInfo[nId1 := mapInfo[nId1].(nRandomPos := nRndPos2)];
      mapInfo := mapInfo[nId2 := mapInfo[nId2].(nRandomPos := nRndPos1)];
      vRandom := vRandom[nRndPos1 := nId2];
      vRandom := vRandom[nRndPos2 := nId1];
    }

    method Delete(nId: int)
      requires Shape() && ListOk(St()) && Listed(St(), nId)
      requires !mapInfo[nId].fInTried && mapInfo[nId].nRefCount == 0
      modifies this
      ensures |old(vRandom)| > 0 && 0 <= old(mapInfo)[nId].nRandomPos < |old(vRandom)|
      ensures old(vRandom)[old(mapInfo)[nId].nRandomPos] in old(mapInfo) && old(vRandom)[|old(vRandom)| - 1] in old(mapInfo)
      ensures St() == Deleted(old(St()), nId)
    {
      hide ListOk, Occupied, Swapped;
      DeletedIs(St(), nId);
      var info := mapInfo[nId];
      SwapRandom(info.nRandomPos, |vRandom| - 1);
      vRandom := vRandom[..|vRandom| - 1];
      mapAddr := mapAddr - {info.Ip()};
      mapInfo := mapInfo - {nId};
      nNew := nNew - 1;
    }
  
    /** Clear a position of the new table, deleting the entry if this was its last reference. */
    method ClearNew(nUBucket: nat, nUBucketPos: nat)
      requires Shape() && RandOk(St()) && NewOk(env, St())
      requires nUBucket < NEW_BUCKET_COUNT && nUBucketPos < BUCKET_SIZE
      requires var s := (nUBucket, nUBucketPos); s in St().vvNew ==> mapInfo[St().vvNew[s]].nRefCount > 0
      modifies this, vvNew
      ensures var s := (nUBucket, nUBucketPos);
              (s in old(St()).vvNew ==> old(St()).vvNew[s] in old(mapInfo)) && St() == Cleared(old(St()), s)
    {
      ghost var st, s := St(), (nUBucket, nUBucketPos);
      if vvNew[nUBucket, nUBucketPos] != -1 {
        var nIdDelete := vvNew[nUBucket, nUBucketPos];
        assert s in st.vvNew && st.vvNew[s] == nIdDelete;
        SlotIsKnown(env, st, s);
        mapInfo := mapInfo[nIdDelete := mapInfo[nIdDelete].(nRefCount := mapInfo[nIdDelete].nRefCount - 1)];
        SetSlot(vvNew, nUBucket, nUBucketPos, -1);
        assert St() == Unreferenced(st, s);
        KeepRand(st, St());
        if mapInfo[nIdDelete].nRefCount == 0 {
          RandIsList(St());
          Delete(nIdDelete);
        }
      }
    }
  
    /** Take an entry out of every bucket of the new table. */
    method RemoveFromNew(nId: int)
      requires Shape() && NewOk(env, St()) && nId in mapInfo && nId != -1
      modifies this, vvNew
      ensures St() == Dereferenced(old(St()), nId)
    {
      hide NewOk, Slots, SlotsBelow, Occupied, Env.Position;
      ghost var st := St();
      ghost var gone: set<Slot> := {};
      NoBuckets(st.vvNew, nId);
      var bucket := 0;
      while bucket < NEW_BUCKET_COUNT
        invariant 0 <= bucket <= NEW_BUCKET_COUNT
        invariant gone == SlotsBelow(st.vvNew, nId, bucket)
        invariant St() == WithoutSlots(st, nId, gone)
      {
        var pos := env.Position(nKey, true, bucket, mapInfo[nId].address.service);
        NextBucket(env, st, nId, bucket);
        OccupiedAt(vvNew, bucket, pos);
        if vvNew[bucket, pos] == nId {
          SetSlot(vvNew, bucket, pos, -1);
          mapInfo := mapInfo[nId := mapInfo[nId].(nRefCount := mapInfo[nId].nRefCount - 1)];
          WithoutOneMore(st, nId, gone, (bucket, pos));
          gone := gone + {(bucket, pos)};
        }
        bucket := bucket + 1;
      }
      AllBuckets(env, st, nId);
    }

    method MakeTried(nId: int)
      requires Shape() && AddrManSpec.Valid(env, St()) && nId in mapInfo && !mapInfo[nId].fInTried && mapInfo[nId].nLastSuccess != 0
      modifies this, vvNew, vvTried
      ensures St() == MadeTried(env, old(St()), nId)
    {
      hide AddrOk, RandOk, TriedOk, NewOk, RefOk, StampOk, NewIds, TriedIds, Occupied, Slots, Demoted, Env.Position, Env.TriedBucket;
      ghost var st := St();
      RemoveFromNew(nId);
      nNew := nNew - 1;
      ghost var s := St();
      MakeTriedSteps(env, st, nId);
      assert mapInfo[nId].nRefCount == 0;   // the assertion of the source

      var service := mapInfo[nId].address.service;
      var nKBucket := env.TriedBucket(nKey, service);
      var nKBucketPos := env.Position(nKey, false, nKBucket, service);
      ghost var slot := env.TriedSlot(nKey, service);
      OccupiedAt(vvTried, nKBucket, nKBucketPos);
      DemotedOk(env, s, {nId}, 1, slot);
      if vvTried[nKBucket, nKBucketPos] != -1 {
        MoveBack(nKBucket, nKBucketPos, nId);
      } else {
        NothingDemoted(env, s, slot);
      }
      OccupiedAt(vvTried, nKBucket, nKBucketPos);
      assert vvTried[nKBucket, nKBucketPos] == -1;   // the assertion of the source
      SetSlot(vvTried, nKBucket, nKBucketPos, nId);
      nTried := nTried + 1;
      mapInfo := mapInfo[nId := mapInfo[nId].(fInTried := true)];
    }

    /** An entry in neither table goes into its bucket of the new table, whatever is there. */
    method PutBack(nIdEvict: int, ghost nId: int)
      requires Shape() && Consistent(env, St(), {nIdEvict, nId}) && CountsOk(St(), 2) && nIdEvict in mapInfo && nIdEvict != -1
      modifies this, vvNew
      ensures RandOk(old(St())) && NewOk(env, old(St()))
      ensures var st := old(St());
              var back := env.NewSlot(st.nKey, st.Service(nIdEvict), env.NewBucket(st.nKey, st.Service(nIdEvict), st.mapInfo[nIdEvict].source));
              && (back in st.vvNew ==> st.vvNew[back] in st.mapInfo)
              && var c := Cleared(st, back);
                 && nIdEvict in c.mapInfo
                 && St() == c.With(nIdEvict, c.mapInfo[nIdEvict].(nRefCount := 1)).(vvNew := c.vvNew[back := nIdEvict], nNew := c.nNew + 1)
    {
      hide IdsOk, AddrOk, RandOk, TriedOk, NewOk, RefOk, StampOk, NewIds, TriedIds, Occupied, Slots, Cleared,
        Env.Position, Env.NewBucket;
      ghost var s := St();
      var infoOld := mapInfo[nIdEvict];
      var nUBucket := env.NewBucket(nKey, infoOld.address.service, infoOld.source);
      var nUBucketPos := env.Position(nKey, true, nUBucket, infoOld.address.service);
      ghost var back := (nUBucket, nUBucketPos);
      ReferencedIsPositive(env, s, {nIdEvict, nId}, back);
      ClearedOk(env, s, {nIdEvict, nId}, 2, back);
      NoSlots(s, {nIdEvict, nId}, nIdEvict);
      ClearNew(nUBucket, nUBucketPos);
      OccupiedAt(vvNew, nUBucket, nUBucketPos);
      assert vvNew[nUBucket, nUBucketPos] == -1;   // the assertion of the source
      mapInfo := mapInfo[nIdEvict := mapInfo[nIdEvict].(nRefCount := 1)];
      SetSlot(vvNew, nUBucket, nUBucketPos, nIdEvict);
      nNew := nNew + 1;
    }

    /** The entry that occupies the tried slot goes back to the new table. */
    method MoveBack(nKBucket: nat, nKBucketPos: nat, ghost nId: int)
      requires Shape() && Consistent(env, St(), {nId}) && CountsOk(St(), 1)
      requires nKBucket < TRIED_BUCKET_COUNT && nKBucketPos < BUCKET_SIZE && (nKBucket, nKBucketPos) in St().vvTried
      modifies this, vvNew, vvTried
      ensures St() == Demoted(env, old(St()), (nKBucket, nKBucketPos))
    {
      hide IdsOk, AddrOk, RandOk, TriedOk, NewOk, RefOk, StampOk, NewIds, TriedIds, Occupied, Slots, Cleared,
        Env.Position, Env.NewBucket;
      ghost var st, slot := St(), (nKBucket, nKBucketPos);
      OccupiedAt(vvTried, nKBucket, nKBucketPos);
      var nIdEvict := vvTried[nKBucket, nKBucketPos];
      EvictedOk(env, st, {nId}, slot);
      assert {nId} + {nIdEvict} == {nId, nIdEvict};
      assert nIdEvict in mapInfo;   // the assertion of the source
      mapInfo := mapInfo[nIdEvict := mapInfo[nIdEvict].(fInTried := false)];
      SetSlot(vvTried, nKBucket, nKBucketPos, -1);
      nTried := nTried - 1;
      assert CountsOk(St(), 2);
      assert {nId, nIdEvict} == {nIdEvict, nId};
      PutBack(nIdEvict, nId);
    }

    method Good_(addr: Service, nTime: int, nRnd: nat)
      requires Shape() && AddrManSpec.Valid(env, St()) && nTime > 0
      modifies this, vvNew, vvTried
      ensures St() == AfterGood(env, old(St()), addr, nTime) && AddrManSpec.Valid(env, St())
    {
      hide Consistent, CountsOk, MadeTried, Occupied, Env.Position;
      ghost var st := St();
      AfterGoodOk(env, st, addr, nTime);
      if addr.ip !in mapAddr || mapAddr[addr.ip] !in mapInfo { return; }
      var nId := mapAddr[addr.ip];
      if mapInfo[nId].address.service != addr { return; }
      TouchedOk(env, st, {}, 0, nId, Succeeded(st.mapInfo[nId], nTime));
      mapInfo := mapInfo[nId := Succeeded(mapInfo[nId], nTime)];
      if mapInfo[nId].fInTried { return; }

      // find a bucket it is in now
      var nUBucket := FindBucket(nId, nRnd);
      NewEntryHasABucket(env, St(), nId);
      ghost var there :| 0 <= there < NEW_BUCKET_COUNT &&
                         var s := env.NewSlot(nKey, St().Service(nId), there);
                         s in St().vvNew && St().vvNew[s] == nId;
      OccupiedAt(vvNew, there, env.Position(nKey, true, there, mapInfo[nId].address.service));
      assert InBucket(nId, there);
      assert nUBucket != -1;   // the exit for "no bucket is found" is never taken
      MakeTried(nId);
    }

    /** Whether the entry is in its slot of the bucket. */
    ghost predicate InBucket(nId: int, b: nat)
      requires Shape() && nId in mapInfo && b < NEW_BUCKET_COUNT
      reads this, vvNew
    {
      vvNew[b, env.Position(nKey, true, b, mapInfo[nId].address.service)] == nId
    }

    /** The search for a bucket that holds the entry, starting at a random one. */
    method FindBucket(nId: int, nRnd: nat) returns (nUBucket: int)
      requires Shape() && nId in mapInfo
      ensures nUBucket == -1 || 0 <= nUBucket < NEW_BUCKET_COUNT
      ensures nUBucket != -1 ==> InBucket(nId, nUBucket)
      ensures nUBucket == -1 ==> forall b :: 0 <= b < NEW_BUCKET_COUNT ==> !InBucket(nId, b)
    {
      nUBucket := -1;
      var n := 0;
      while n < NEW_BUCKET_COUNT
        invariant 0 <= n <= NEW_BUCKET_COUNT
        invariant forall k :: 0 <= k < n ==> !InBucket(nId, Turn(k, nRnd))
      {
        var nB := Turn(n, nRnd);
        var nBpos := env.Position(nKey, true, nB, mapInfo[nId].address.service);
        if vvNew[nB, nBpos] == nId { return nB; }
        n := n + 1;
      }
      forall b | 0 <= b < NEW_BUCKET_COUNT ensures !InBucket(nId, b) {
        var k := TurnsReachAll(b, nRnd);
        assert !InBucket(nId, Turn(k, nRnd));
      }
    }

    method Add_(addr: Address, source: NetAddr, nTimePenalty: int, nNow: int, draw: nat) returns (fNew: bool)
      requires Shape() && AddrManSpec.Valid(env, St())
      modifies this, vvNew
      ensures (St(), fNew) == AfterAdd(env, old(St()), addr, source, nTimePenalty, nNow, draw) && AddrManSpec.Valid(env, St())
    {
      hide Consistent, CountsOk, Placed, Occupied;
      ghost var st := St();
      AfterAddOk(env, st, addr, source, nTimePenalty, nNow, draw);
      if !env.routable(addr.service.ip) { return false; }
      fNew := false;
      var nId;
      if addr.service.ip in mapAddr {
        nId := mapAddr[addr.service.ip];
        KnownEntry(env, st, addr.service.ip);
        TouchedOk(env, st, {}, 0, nId, Refreshed(mapInfo[nId], addr, nNow, nTimePenalty));
        mapInfo := mapInfo[nId := Refreshed(mapInfo[nId], addr, nNow, nTimePenalty)];
        if addr.nTime == 0 || (mapInfo[nId].address.nTime != 0 && addr.nTime <= mapInfo[nId].address.nTime) { return false; }
        if mapInfo[nId].fInTried { return false; }
        if mapInfo[nId].nRefCount == NEW_BUCKETS_PER_ADDRESS { return false; }
        var nFactor := Double(mapInfo[nId].nRefCount);
        if nFactor > 1 && draw % nFactor != 0 { return false; }
      } else {
        IntroducedOk(env, st, addr, source, nTimePenalty);
        nId := Create(addr, source);
        mapInfo := mapInfo[nId := mapInfo[nId].(address := mapInfo[nId].address.(nTime := Max(0, mapInfo[nId].address.nTime - nTimePenalty)))];
        nNew := nNew + 1;
        fNew := true;
      }
      Place(nId, source, nNow);
    }

    method Place(nId: int, source: NetAddr, nNow: int)
      requires Shape() && nId in mapInfo && !mapInfo[nId].fInTried && mapInfo[nId].nRefCount < NEW_BUCKETS_PER_ADDRESS
      requires Consistent(env, St(), if mapInfo[nId].nRefCount == 0 then {nId} else {}) && CountsOk(St(), 0)
      modifies this, vvNew
      ensures St() == Placed(env, old(St()), nId, source, nNow)
    {
      hide IdsOk, AddrOk, RandOk, TriedOk, NewOk, RefOk, StampOk, NewIds, TriedIds, Occupied, Slots, Cleared,
        Env.Position, Env.NewBucket, IsTerrible;
      IdsAreNatural(env, St(), if mapInfo[nId].nRefCount == 0 then {nId} else {}, nId);
      ghost var st := St();
      ghost var limbo := if mapInfo[nId].nRefCount == 0 then {nId} else {};
      var service := mapInfo[nId].address.service;
      var nUBucket := env.NewBucket(nKey, service, source);
      var nUBucketPos := env.Position(nKey, true, nUBucket, service);
      ghost var slot := (nUBucket, nUBucketPos);
      OccupiedAt(vvNew, nUBucket, nUBucketPos);
      ReferencedIsPositive(env, st, limbo, slot);
      if vvNew[nUBucket, nUBucketPos] != nId {
        var fInsert := vvNew[nUBucket, nUBucketPos] == -1;
        if !fInsert {
          var infoExisting := mapInfo[vvNew[nUBucket, nUBucketPos]];
          if IsTerrible(infoExisting, nNow) || (infoExisting.nRefCount > 1 && mapInfo[nId].nRefCount == 0) {
            fInsert := true;
          }
        }
        if fInsert {
          ClearedOk(env, st, limbo, 0, slot);
          ClearNew(nUBucket, nUBucketPos);
          mapInfo := mapInfo[nId := mapInfo[nId].(nRefCount := mapInfo[nId].nRefCount + 1)];
          SetSlot(vvNew, nUBucket, nUBucketPos, nId);
        } else if mapInfo[nId].nRefCount == 0 {
          RandIsList(St());
          Delete(nId);
        }
      }
    }

    method Attempt_(addr: Service, nTime: int)
      requires Shape() && AddrManSpec.Valid(env, St()) && nTime >= 0
      modifies this
      ensures St() == AfterAttempt(old(St()), addr, nTime) && AddrManSpec.Valid(env, St())
    {
      hide Consistent, CountsOk, Occupied;
      AfterAttemptOk(env, St(), addr, nTime);
      if addr.ip !in mapAddr || mapAddr[addr.ip] !in mapInfo { return; }
      var nId := mapAddr[addr.ip];
      if mapInfo[nId].address.service != addr { return; }
      mapInfo := mapInfo[nId := mapInfo[nId].(nLastTry := nTime, nAttempts := mapInfo[nId].nAttempts + 1)];
    }

    method Connected_(addr: Service, nTime: int)
      requires Shape() && AddrManSpec.Valid(env, St())
      modifies this
      ensures St() == AfterConnected(old(St()), addr, nTime) && AddrManSpec.Valid(env, St())
    {
      hide Consistent, CountsOk, Occupied;
      AfterConnectedOk(env, St(), addr, nTime);
      if addr.ip !in mapAddr || mapAddr[addr.ip] !in mapInfo { return; }
      var nId := mapAddr[addr.ip];
      if mapInfo[nId].address.service != addr { return; }
      if nTime - mapInfo[nId].address.nTime > 20 * 60 {
        mapInfo := mapInfo[nId := mapInfo[nId].(address := mapInfo[nId].address.(nTime := nTime))];
      }
    }

    method GetAddr_(draws: nat -> nat, nNow: int) returns (vAddr: seq<Address>)
      requires Shape() && AddrManSpec.Valid(env, St())
      modifies this
      ensures RandOk(old(St()))
      ensures (St(), vAddr) == Sampled(old(St()), 0, GetAddrLimit(|old(vRandom)|), draws, nNow, []) && AddrManSpec.Valid(env, St())
      ensures exists ids :: SampleOf(old(St()), nNow, GetAddrLimit(|old(vRandom)|), ids, vAddr)
    {
      hide Consistent, CountsOk, Occupied, RandOk, ListOk, Listed, IsTerrible, Swapped, AddrManSpec.Valid, Sampled, Collected, SampleOf;
      ghost var st := St();
      var nNodes := GetAddrLimit(|vRandom|);
      vAddr := [];
      SampleOk(env, st, nNodes, draws, nNow);
      var n := 0;
      while n < |vRandom| && |vAddr| < nNodes
        invariant 0 <= n <= |vRandom| && AddrManSpec.Valid(env, St()) && RandOk(St())
        invariant Sampled(St(), n, nNodes, draws, nNow, vAddr) == Sampled(st, 0, nNodes, draws, nNow, [])
      {
        var nRndPos := Drawn(draws, n, |vRandom|);
        SampledNext(env, St(), n, nNodes, draws, nNow, vAddr);
        RandIsList(St());
        SwapRandom(n, nRndPos);
        RandomIsKnown(St(), n);
        var ai := mapInfo[vRandom[n]];
        if !IsTerrible(ai, nNow) { vAddr := vAddr + [ai.address]; }
        n := n + 1;
      }
      SampledEnds(St(), n, nNodes, draws, nNow, vAddr);
    }
  }

  function Turn(n: nat, nRnd: nat): (b: nat)
    ensures b < NEW_BUCKET_COUNT
  {
    (n + nRnd) % NEW_BUCKET_COUNT
  }

  lemma TurnsReachAll(b: nat, nRnd: nat) returns (k: nat)
    requires b < NEW_BUCKET_COUNT
    ensures k < NEW_BUCKET_COUNT && Turn(k, nRnd) == b
  {
    var r := nRnd % NEW_BUCKET_COUNT;
    k := if r <= b then b - r else b - r + NEW_BUCKET_COUNT;
    assert k + nRnd == b + NEW_BUCKET_COUNT * (nRnd / NEW_BUCKET_COUNT + if r <= b then 0 else 1);
  }

  /** The factor of the stochastic test. */
  method Double(n: int) returns (nFactor: nat)
    requires n >= 0
    ensures nFactor == Pow2(n)
  {
    nFactor := 1;
    for i := 0 to n
      invariant nFactor == Pow2(i)
    {
      nFactor := nFactor * 2;
    }
  }

  ghost function WithoutSlots(st: State, id: int, gone: set<Slot>): State
    requires id in st.mapInfo
  {
    st.With(id, st.mapInfo[id].(nRefCount := st.mapInfo[id].nRefCount - |gone|)).(vvNew := st.vvNew - gone)
  }

  lemma WithoutOneMore(st: State, id: int, gone: set<Slot>, slot: Slot)
    requires id in st.mapInfo && slot !in gone
    ensures var s := WithoutSlots(st, id, gone);
            WithoutSlots(st, id, gone + {slot})
            == s.With(id, s.mapInfo[id].(nRefCount := s.mapInfo[id].nRefCount - 1)).(vvNew := s.vvNew - {slot})
  {
    assert st.vvNew - (gone + {slot}) == st.vvNew - gone - {slot};
  }

  lemma NoBuckets(table: Table, id: int)
    ensures SlotsBelow(table, id, 0) == {} && table - {} == table
  {
  }

  ghost function SlotsBelow(table: Table, id: int, n: nat): set<Slot> { set s <- table | table[s] == id && s.0 < n }

  /** At most one slot of a bucket can hold an entry: the one at its position. */
  lemma NextBucket(env: Env, st: State, id: int, b: nat)
    requires NewOk(env, st) && id in st.mapInfo
    ensures var s := env.NewSlot(st.nKey, st.Service(id), b);
            && s !in SlotsBelow(st.vvNew, id, b)
            && SlotsBelow(st.vvNew, id, b + 1)
               == if s in st.vvNew && st.vvNew[s] == id then SlotsBelow(st.vvNew, id, b) + {s} else SlotsBelow(st.vvNew, id, b)
  {
    var s := env.NewSlot(st.nKey, st.Service(id), b);
    forall t | t in st.vvNew && st.vvNew[t] == id && t.0 == b ensures t == s { SlotIsKnown(env, st, t); }
  }

  lemma AllBuckets(env: Env, st: State, id: int)
    requires NewOk(env, st)
    ensures SlotsBelow(st.vvNew, id, NEW_BUCKET_COUNT) == Slots(st.vvNew, id)
  {
    forall t | t in st.vvNew ensures t.0 < NEW_BUCKET_COUNT { SlotIsKnown(env, st, t); }
  }

  lemma MakeTriedSteps(env: Env, st: State, id: int)
    requires AddrManSpec.Valid(env, st) && id in st.mapInfo && !st.mapInfo[id].fInTried
    ensures var s := Dereferenced(st, id).(nNew := st.nNew - 1);
            Consistent(env, s, {id}) && CountsOk(s, 1) && s.mapInfo[id].nRefCount == 0
  {
    hide IdsOk, AddrOk, RandOk, TriedOk, NewOk, RefOk, StampOk, NewIds, TriedIds;
    DereferencedOk(env, st, {}, 0, id);
    CountFieldsIrrelevant(env, Dereferenced(st, id), st.nNew - 1, {} + {id});
    assert {} + {id} == {id};
  }

  lemma IdsAreNatural(env: Env, st: State, limbo: set<int>, id: int)
    requires Consistent(env, st, limbo) && id in st.mapInfo
    ensures id >= 0
  {
  }

  lemma NothingDemoted(env: Env, st: State, slot: Slot)
    requires RandOk(st) && NewOk(env, st) && TriedOk(env, st) && slot !in st.vvTried
    ensures Demoted(env, st, slot) == st
  {
  }

  lemma ReferencedIsPositive(env: Env, st: State, limbo: set<int>, slot: Slot)
    requires Consistent(env, st, limbo)
    ensures slot in st.vvNew ==> st.vvNew[slot] in st.mapInfo && st.mapInfo[st.vvNew[slot]].nRefCount > 0
  {
    hide IdsOk, AddrOk, RandOk, TriedOk, NewOk, RefOk, StampOk, NewIds, TriedIds;
    if slot in st.vvNew { UnreferencedOk(env, st, limbo, slot); }
  }
}
