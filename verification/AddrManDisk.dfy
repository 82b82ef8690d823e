/**
  Saving an address manager to a stream and filling one from a stream, in place.
 */
module AddrManDisk {
  import opened Basics
  import opened AddrManSpec
  import opened AddrManOps
  import opened AddrManCodec
  import opened AddrManReload
  import opened AddrMan

  lemma {:induction false} RecordsSnoc(m: map<int, AddrInfo>, ids: seq<int>, id: int)
    requires id in m && forall i :: 0 <= i < |ids| ==> ids[i] in m
    ensures Records(m, ids + [id]) == Records(m, ids) + [RecordOf(m[id])]
  {
    if ids == [] {
      assert ids + [id] == [id];
    } else {
      assert (ids + [id])[1..] == ids[1..] + [id];
      RecordsSnoc(m, ids[1..], id);
    }
  }

  lemma {:induction false} ListsGrow(m: map<int, AddrInfo>, i: nat, n: nat)
    requires i <= n
    ensures |NewList(m, i)| <= |NewList(m, n)| && |TriedList(m, i)| <= |TriedList(m, n)|
  {
    if i < n { ListsGrow(m, i, n - 1); }
  }

  lemma NewListStep(m: map<int, AddrInfo>, id: nat)
    ensures NewList(m, id + 1) == if id in m && m[id].nRefCount != 0 then NewList(m, id) + [id] else NewList(m, id)
    ensures Index(m, id) == |NewList(m, id)|
  {
  }

  /** The new entries in the order of their ids, and the numbers they are given. */
  method WriteNew(mapInfo: map<int, AddrInfo>, nIdCount: nat, nNew: int) returns (s: seq<Token>, mapUnkIds: map<int, int>)
    requires (forall id <- mapInfo :: 0 <= id < nIdCount) && |NewList(mapInfo, nIdCount)| == nNew
    ensures s == Records(mapInfo, NewList(mapInfo, nIdCount))
    ensures mapUnkIds.Keys == mapInfo.Keys && forall id <- mapUnkIds :: mapUnkIds[id] == Index(mapInfo, id)
  {
    hide Records, RecordOf, NewList, Index;
    s, mapUnkIds := [], map[];
    NoRecords(mapInfo);
    var nIds := 0;
    for id := 0 to nIdCount
      invariant s == Records(mapInfo, NewList(mapInfo, id)) && nIds == |NewList(mapInfo, id)|
      invariant forall i :: i in mapUnkIds <==> i in mapInfo && 0 <= i < id
      invariant forall i <- mapUnkIds :: mapUnkIds[i] == Index(mapInfo, i)
    {
      NewListStep(mapInfo, id);
      if id in mapInfo {
        mapUnkIds := mapUnkIds[id := nIds];
        if mapInfo[id].nRefCount != 0 {
          ListsGrow(mapInfo, id + 1, nIdCount);
          assert nIds != nNew;   // the assertion of the source
          RecordsSnoc(mapInfo, NewList(mapInfo, id), id);
          s := s + [RecordOf(mapInfo[id])];
          nIds := nIds + 1;
        }
      }
    }
    assert forall id :: id in mapUnkIds.Keys <==> id in mapInfo.Keys;
  }

  lemma NoRecords(m: map<int, AddrInfo>)
    ensures Records(m, []) == [] && NewList(m, 0) == []
  {
  }

  method WriteTried(mapInfo: map<int, AddrInfo>, nIdCount: nat, nTried: int) returns (s: seq<Token>)
    requires |TriedList(mapInfo, nIdCount)| == nTried
    ensures s == Records(mapInfo, TriedList(mapInfo, nIdCount))
  {
    hide Records, RecordOf;
    s := [];
    NoRecords(mapInfo);
    var nIds := 0;
    for id := 0 to nIdCount
      invariant s == Records(mapInfo, TriedList(mapInfo, id)) && nIds == |TriedList(mapInfo, id)|
    {
      if id in mapInfo && mapInfo[id].fInTried {
        ListsGrow(mapInfo, id + 1, nIdCount);
        assert nIds != nTried;   // the assertion of the source
        RecordsSnoc(mapInfo, TriedList(mapInfo, id), id);
        s := s + [RecordOf(mapInfo[id])];
        nIds := nIds + 1;
      } else {
        assert TriedList(mapInfo, id + 1) == TriedList(mapInfo, id);
      }
    }
  }

  /** How many entries the bucket has, and then their numbers. */
  method WriteBucket(a: AddrMan, bucket: nat, mapUnkIds: map<int, int>) returns (s: seq<Token>)
    requires a.Shape() && NewOk(a.env, a.St()) && bucket < NEW_BUCKET_COUNT
    requires mapUnkIds.Keys == a.mapInfo.Keys && forall id <- mapUnkIds :: mapUnkIds[id] == Index(a.mapInfo, id)
    ensures s == BucketTokens(a.St(), bucket)
  {
    hide NewOk, Index, Occupied;
    ghost var table := a.St().vvNew;
    var nSize := 0;
    for i := 0 to BUCKET_SIZE
      invariant nSize == |BucketIds(table, bucket, i)|
    {
      OccupiedAt(a.vvNew, bucket, i);
      if a.vvNew[bucket, i] != -1 { nSize := nSize + 1; }
    }
    s := [Int(nSize)];
    for i := 0 to BUCKET_SIZE
      invariant s == [Int(nSize)] + Ints(Indices(a.mapInfo, BucketIds(table, bucket, i)))
    {
      OccupiedAt(a.vvNew, bucket, i);
      if a.vvNew[bucket, i] != -1 {
        SlotIsKnown(a.env, a.St(), (bucket, i));
        s := s + [Int(mapUnkIds[a.vvNew[bucket, i]])];
      }
    }
  }

  lemma {:induction false} BucketsSplit(st: State, b: nat) returns (first: seq<Token>)
    requires b <= NEW_BUCKET_COUNT
    ensures first + BucketsFrom(st, b) == BucketsFrom(st, 0) && first == BucketsUpTo(st, b)
  {
    hide BucketTokens;
    first := BucketsUpTo(st, b);
    if b > 0 {
      var before := BucketsSplit(st, b - 1);
      assert before + (BucketTokens(st, b - 1) + BucketsFrom(st, b)) == first + BucketsFrom(st, b);
    } else {
      assert first + BucketsFrom(st, 0) == BucketsFrom(st, 0);
    }
  }

  ghost function BucketsUpTo(st: State, b: nat): seq<Token>
  {
    if b == 0 then [] else BucketsUpTo(st, b - 1) + BucketTokens(st, b - 1)
  }

  method WriteBuckets(a: AddrMan, mapUnkIds: map<int, int>) returns (s: seq<Token>)
    requires a.Shape() && NewOk(a.env, a.St())
    requires mapUnkIds.Keys == a.mapInfo.Keys && forall id <- mapUnkIds :: mapUnkIds[id] == Index(a.mapInfo, id)
    ensures s == BucketsFrom(a.St(), 0)
  {
    hide NewOk, Index, BucketTokens, Occupied;
    s := [];
    for bucket := 0 to NEW_BUCKET_COUNT
      invariant s == BucketsUpTo(a.St(), bucket)
    {
      var one := WriteBucket(a, bucket, mapUnkIds);
      s := s + one;
    }
    ghost var all := BucketsSplit(a.St(), NEW_BUCKET_COUNT);
  }

  /** Saving writes exactly the stream of the specification, and its assertions hold. */
  method Serialize(a: AddrMan) returns (s: seq<Token>)
    requires a.Shape() && AddrManSpec.Valid(a.env, a.St())
    ensures a.nIdCount >= 0 && s == Dump(a.St())
  {
    hide *;
    PartsOfValid(a.env, a.St());
    ListsOfValid(a.env, a.St());
    IdsOfValid(a);
    s := [Int(1), Int(32), Int(a.nKey), Int(a.nNew), Int(a.nTried), Int(XorMark(NEW_BUCKET_COUNT))];
    var news, mapUnkIds := WriteNew(a.mapInfo, a.nIdCount, a.nNew);
    var trieds := WriteTried(a.mapInfo, a.nIdCount, a.nTried);
    var buckets := WriteBuckets(a, mapUnkIds);
    DumpIs(a);
    s := s + (news + (trieds + buckets));
  }

  lemma IdsOfValid(a: AddrMan)
    requires AddrManSpec.Valid(a.env, a.St())
    ensures a.nIdCount >= 0 && (forall id <- a.mapInfo :: 0 <= id < a.nIdCount) && 0 <= NEW_BUCKET_COUNT
    ensures a.St().mapInfo == a.mapInfo && a.St().nIdCount == a.nIdCount && a.St().nNew == a.nNew && a.St().nTried == a.nTried
  {
  }

  lemma DumpIs(a: AddrMan)
    requires a.nIdCount >= 0
    ensures Dump(a.St()) == [Int(1), Int(32), Int(a.nKey), Int(a.nNew), Int(a.nTried), Int(XorMark(NEW_BUCKET_COUNT))]
      + (Records(a.mapInfo, NewList(a.mapInfo, a.nIdCount)) + (Records(a.mapInfo, TriedList(a.mapInfo, a.nIdCount)) + BucketsFrom(a.St(), 0)))
  {
    hide Records, NewList, TriedList, BucketsFrom, Occupied;
  }

  // ---- Loading ----

  ghost predicate Loaded(st: State) { forall n :: 0 <= n < st.nNew ==> n in st.mapInfo }

  method LoadNew(a: AddrMan, n: int, t: Token, format: Format)
    requires a.Shape() && t.Record? && n >= 0
    modifies a, a.vvNew
    ensures a.St() == LoadedNew(a.env, old(a.St()), n, t, format)
  {
    hide Occupied, Env.Position, Env.NewBucket;
    var info := ReadOver(a.mapInfo, n, t);
    a.mapAddr := a.mapAddr[info.Ip() := n];
    info := info.(nRandomPos := |a.vRandom|);
    a.mapInfo := a.mapInfo[n := info];
    a.vRandom := a.vRandom + [n];
    if format.version != 1 || format.buckets != NEW_BUCKET_COUNT {
      var nUBucket := a.env.NewBucket(a.nKey, info.address.service, info.source);
      var nUBucketPos := a.env.Position(a.nKey, true, nUBucket, info.address.service);
      OccupiedAt(a.vvNew, nUBucket, nUBucketPos);
      if a.vvNew[nUBucket, nUBucketPos] == -1 {
        SetSlot(a.vvNew, nUBucket, nUBucketPos, n);
        a.mapInfo := a.mapInfo[n := a.mapInfo[n].(nRefCount := a.mapInfo[n].nRefCount + 1)];
      }
    }
  }

  method LoadTried(a: AddrMan, t: Token) returns (lost: bool)
    requires a.Shape() && t.Record?
    modifies a, a.vvTried
    ensures var r := LoadedTried(a.env, old(a.St()), t);
            lost == (r.nTried != a.nTried) && a.St() == r.(nTried := a.nTried) && a.nTried == old(a.nTried)
  {
    hide Occupied, Env.Position, Env.TriedBucket;
    var info := FromRecord(t);
    var nKBucket := a.env.TriedBucket(a.nKey, info.address.service);
    var nKBucketPos := a.env.Position(a.nKey, false, nKBucket, info.address.service);
    OccupiedAt(a.vvTried, nKBucket, nKBucketPos);
    lost := a.vvTried[nKBucket, nKBucketPos] != -1;
    if !lost {
      info := info.(nRandomPos := |a.vRandom|, fInTried := true);
      a.vRandom := a.vRandom + [a.nIdCount];
      a.mapInfo := a.mapInfo[a.nIdCount := info];
      a.mapAddr := a.mapAddr[info.Ip() := a.nIdCount];
      SetSlot(a.vvTried, nKBucket, nKBucketPos, a.nIdCount);
      a.nIdCount := a.nIdCount + 1;
    }
  }

  method LoadIndex(a: AddrMan, bucket: nat, nIndex: int, format: Format)
    requires a.Shape() && Loaded(a.St()) && bucket < format.buckets
    modifies a, a.vvNew
    ensures a.St() == LoadedIndex(a.env, old(a.St()), bucket, nIndex, format) && Loaded(a.St())
    ensures a.nIdCount == old(a.nIdCount)
  {
    hide Occupied, Env.Position;
    if nIndex >= 0 && nIndex < a.nNew {
      var info := a.mapInfo[nIndex];
      var nUBucketPos := a.env.Position(a.nKey, true, bucket, info.address.service);
      if format.version == 1 && format.buckets == NEW_BUCKET_COUNT {
        OccupiedAt(a.vvNew, bucket, nUBucketPos);
        if a.vvNew[bucket, nUBucketPos] == -1 && info.nRefCount < NEW_BUCKETS_PER_ADDRESS {
          a.mapInfo := a.mapInfo[nIndex := info.(nRefCount := info.nRefCount + 1)];
          SetSlot(a.vvNew, bucket, nUBucketPos, nIndex);
        }
      }
    }
  }

  method ReadNewEntries(a: AddrMan, format: Format, s: seq<Token>) returns (rest: Option<seq<Token>>)
    requires a.Shape() && Loading(a.St()) && ListedBelow(a.St(), 0)
    modifies a, a.vvNew
    ensures Loading(a.St())
    ensures var r := ReadNew(a.env, old(a.St()), 0, format, s);
            if rest.Some? then r == Some((a.St(), rest.value)) && Loaded(a.St()) else r.None?
  {
    hide Occupied, LoadedNew, Sound, TablesKnown, ListedBelow;
    ghost var all := ReadNew(a.env, a.St(), 0, format, s);
    var n, left := 0, s;
    while n < a.nNew
      invariant n >= 0 && all == ReadNew(a.env, a.St(), n, format, left)
      invariant a.nNew == old(a.nNew) && forall i :: 0 <= i < n ==> i in a.mapInfo
      invariant Loading(a.St()) && ListedBelow(a.St(), n)
    {
      if left == [] || !left[0].Record? { return None; }
      NewFields(a.env, a.St(), n, left[0], format);
      LoadedNewSound(a.env, a.St(), n, left[0], format);
      LoadNew(a, n, left[0], format);
      n, left := n + 1, left[1..];
    }
    return Some(left);
  }

  lemma NewFields(env: Env, st: State, n: int, t: Token, format: Format)
    requires t.Record?
    ensures var r := LoadedNew(env, st, n, t, format); r.nNew == st.nNew && r.mapInfo.Keys == st.mapInfo.Keys + {n}
  {
    hide Env.NewSlot, Env.NewBucket;
  }

  lemma TriedFields(env: Env, st: State, t: Token, k: int)
    requires t.Record?
    ensures var r := LoadedTried(env, st, t); r.nNew == st.nNew && st.mapInfo.Keys <= r.mapInfo.Keys
    ensures LoadedTried(env, st, t).nTried in {st.nTried, st.nTried - 1}
    ensures LoadedTried(env, st.(nTried := k), t)
         == LoadedTried(env, st, t).(nTried := LoadedTried(env, st, t).nTried - st.nTried + k)
  {
    hide Env.TriedSlot;
  }

  method ReadTriedEntries(a: AddrMan, s: seq<Token>) returns (rest: Option<seq<Token>>)
    requires a.Shape() && Loaded(a.St()) && Loading(a.St()) && ListedBelow(a.St(), a.nIdCount)
    modifies a, a.vvTried
    ensures Loading(a.St())
    ensures var r := ReadTried(a.env, old(a.St()), old(a.nTried), s);
            if rest.Some? then r == Some((a.St(), rest.value)) && Loaded(a.St()) else r.None?
  {
    hide Occupied, LoadedTried, Sound, TablesKnown, ListedBelow;
    ghost var all := ReadTried(a.env, a.St(), a.nTried, s);
    var nLost, n, left := 0, 0, s;
    assert a.St().(nTried := a.nTried) == a.St();
    while n < a.nTried
      invariant all == ReadTried(a.env, a.St().(nTried := a.nTried - nLost), a.nTried - n, left)
      invariant a.nTried == old(a.nTried) && Loaded(a.St()) && Loading(a.St()) && ListedBelow(a.St(), a.nIdCount)
    {
      if left == [] || !left[0].Record? { return None; }
      TriedFields(a.env, a.St(), left[0], a.nTried - nLost);
      ghost var st := a.St();
      LoadedTriedSound(a.env, st, left[0]);
      var lost := LoadTried(a, left[0]);
      CountIsNoMatter(LoadedTried(a.env, st, left[0]), a.nTried);
      assert LoadedTried(a.env, st.(nTried := st.nTried - nLost), left[0])
          == a.St().(nTried := a.nTried - nLost - if lost then 1 else 0);
      if lost { nLost := nLost + 1; }
      n, left := n + 1, left[1..];
    }
    CountIsNoMatter(a.St(), a.nTried - nLost);
    a.nTried := a.nTried - nLost;
    return Some(left);
  }

  lemma CountIsNoMatter(st: State, n: int)
    ensures var r := st.(nTried := n);
            && (Loading(r) <==> Loading(st)) && (Sound(r) <==> Sound(st)) && (TablesKnown(r) <==> TablesKnown(st))
            && (ListedBelow(r, r.nIdCount) <==> ListedBelow(st, st.nIdCount))
  {
  }

  lemma NoIndices(env: Env, st: State, bucket: nat, format: Format)
    ensures LoadedIndices(env, st, bucket, [], format) == st
  {
  }

  lemma IndexNext(env: Env, st: State, bucket: nat, done: seq<int>, x: int, format: Format)
    requires Loading(LoadedIndices(env, st, bucket, done, format))
    ensures var r := LoadedIndices(env, st, bucket, done + [x], format);
            r == LoadedIndex(env, LoadedIndices(env, st, bucket, done, format), bucket, x, format) && Loading(r)
  {
    hide LoadedIndex, Sound, TablesKnown;
    assert (done + [x])[..|done|] == done;
    ReferencedSound(env, LoadedIndices(env, st, bucket, done, format), bucket, x, format);
  }

  /** One more number is taken, or there is none to take. */
  lemma TakesOne(s: seq<Token>, n: int, done: seq<int>)
    ensures n <= 0 ==> TakeInts(s, n) == Some(([], s))
    ensures n > 0 && (s == [] || !s[0].Int?) ==> TakeInts(s, n).None?
    ensures n > 0 && s != [] && s[0].Int? ==>
              var t, more := TakeInts(s, n), TakeInts(s[1..], n - 1);
              && (t.None? <==> more.None?)
              && (t.Some? ==> done + t.value.0 == (done + [s[0].n]) + more.value.0 && t.value.1 == more.value.1)
  {
  }

  /** One bucket list: as many numbers as announced. */
  method ReadBucket(a: AddrMan, bucket: nat, format: Format, nSize: int, s: seq<Token>) returns (rest: Option<seq<Token>>)
    requires a.Shape() && Loaded(a.St()) && Loading(a.St()) && bucket < format.buckets
    modifies a, a.vvNew
    ensures Loading(a.St())
    ensures var r := TakeInts(s, nSize);
            if rest.Some? then
              r.Some? && r.value.1 == rest.value && Loaded(a.St())
              && a.St() == LoadedIndices(a.env, old(a.St()), bucket, r.value.0, format)
            else r.None?
  {
    hide Occupied, LoadedIndex, LoadedIndices, Loaded, Loading, Sound, TablesKnown, TakeInts;
    ghost var all, done: seq<int>, st := TakeInts(s, nSize), [], a.St();
    var n, left := 0, s;
    NoIndices(a.env, st, bucket, format);
    if all.Some? { assert done + all.value.0 == all.value.0; }
    while n < nSize
      invariant Loaded(a.St()) && Loading(a.St()) && a.St() == LoadedIndices(a.env, st, bucket, done, format)
      invariant var t := TakeInts(left, nSize - n);
                all == if t.None? then None else Some((done + t.value.0, t.value.1))
    {
      TakesOne(left, nSize - n, done);
      if left == [] || !left[0].Int? { return None; }
      IndexNext(a.env, st, bucket, done, left[0].n, format);
      LoadIndex(a, bucket, left[0].n, format);
      done := done + [left[0].n];
      n, left := n + 1, left[1..];
    }
    TakesOne(left, nSize - n, done);
    assert done + [] == done;
    return Some(left);
  }

  method ReadBucketLists(a: AddrMan, format: Format, s: seq<Token>) returns (rest: Option<seq<Token>>)
    requires a.Shape() && Loaded(a.St()) && Loading(a.St())
    modifies a, a.vvNew
    ensures Loading(a.St())
    ensures var r := ReadBuckets(a.env, old(a.St()), 0, format, s);
            if rest.Some? then r == Some((a.St(), rest.value)) else r.None?
  {
    hide Occupied, LoadedIndices, TakeInts, Loaded, Sound, TablesKnown;
    ghost var all := ReadBuckets(a.env, a.St(), 0, format, s);
    var bucket, left := 0, s;
    while bucket < format.buckets
      invariant bucket >= 0 && all == ReadBuckets(a.env, a.St(), bucket, format, left) && Loaded(a.St()) && Loading(a.St())
    {
      if left == [] || !left[0].Int? { return None; }
      var more := ReadBucket(a, bucket, format, left[0].n, left[1..]);
      if more.None? { return None; }
      bucket, left := bucket + 1, more.value;
    }
    return Some(left);
  }

  /** New entries that no bucket list mentions are deleted. */
  method Prune(a: AddrMan)
    requires a.Shape() && Sound(a.St())
    modifies a
    ensures a.St() == Pruned(old(a.St()), 0)
  {
    hide Occupied, Deleted, Sound, ListOk, Listed;
    ghost var all := Pruned(a.St(), 0);
    var id := 0;
    while id < a.nIdCount
      invariant Sound(a.St()) && all == Pruned(a.St(), id) && a.nIdCount == old(a.nIdCount)
    {
      if id in a.mapInfo && !a.mapInfo[id].fInTried && a.mapInfo[id].nRefCount == 0 {
        DeletedSound(a.St(), id);
        a.Delete(id);
      }
      id := id + 1;
    }
  }

  lemma StartsLoading(was: State, key: Key, nNew: int, nTried: int)
    requires AllHeld(was)
    ensures var st := Emptied(was, key);
            Loading(st) && Loading(st.(nNew := nNew, nTried := nTried)) && ListedBelow(st.(nNew := nNew, nTried := nTried), 0)
  {
  }

  lemma IdCountIsNoMatter(st: State, n: int)
    ensures Loading(st.(nIdCount := n)) <==> Loading(st)
  {
  }

  /**
    Loading a stream clears the manager and computes the state of the specification, or fails where
    it does. After a failure vRandom lists entries that know their position, both tables name
    entries that are there, and entries that are not listed are in a table by their own account.
   */
  method Unserialize(a: AddrMan, key: Key, s: seq<Token>) returns (ok: bool)
    requires a.Shape() && AllHeld(a.St())
    modifies a, a.vvNew, a.vvTried
    ensures var r := Load(a.env, old(a.St()), s); if ok then r == Some(a.St()) else r.None? && Loading(a.St())
  {
    hide TablesKnown, Loading, Occupied, ReadNew, ReadTried, ReadBuckets, Pruned, Deleted, Sound, AllHeld, XorMark, ListedBelow;
    ghost var was := a.St();
    a.Clear(key);
    StartsLoading(was, key, 0, 0);
    if !HeaderShape(s) { return false; }
    StartsLoading(was, s[2].n, s[3].n, s[4].n);
    a.nKey, a.nNew, a.nTried := s[2].n, s[3].n, s[4].n;
    var format := Format(s[0].n, if s[0].n != 0 then XorMark(s[5].n) else s[5].n);
    assert a.St() == Start(was, s) && format == FormatOf(s);
    ReadNewOk(a.env, was, s);
    var left := ReadNewEntries(a, format, s[6..]);
    if left.None? { return false; }
    IdCountIsNoMatter(a.St(), a.nNew);
    a.nIdCount := a.nNew;
    ReadTriedSound(a.env, a.St(), a.nTried, left.value);
    left := ReadTriedEntries(a, left.value);
    if left.None? { return false; }
    ReadBucketsSound(a.env, a.St(), 0, format, left.value);
    left := ReadBucketLists(a, format, left.value);
    if left.None? { return false; }
    Prune(a);
    return true;
  }

  /**
    A manager filled from the stream of another is a renumbering of it, if it was new; if it was in
    use, exactly if all its ids are taken by tried entries and all its addresses are known again.
   */
  method SaveAndLoad(a: AddrMan, b: AddrMan, key: Key) returns (ok: bool)
    requires a.Shape() && AddrManSpec.Valid(a.env, a.St()) && b.Shape() && AllHeld(b.St()) && b.env == a.env
    requires a != b && a.vvNew != b.vvNew && a.vvTried != b.vvTried && a.vvNew != b.vvTried && a.vvTried != b.vvNew
    modifies b, b.vvNew, b.vvTried
    ensures ok && a.St() == old(a.St())
    ensures CheckPasses(b.env, b.St()) <==> a.nKey != 0 && Replaced(old(b.St()), a.St())
    ensures AddrManSpec.Valid(b.env, b.St()) <==> Replaced(old(b.St()), a.St()) && old(b.mapAddr).Keys <= a.mapAddr.Keys
    ensures AddrManSpec.Valid(b.env, b.St()) ==> Renames(a.St(), b.St(), Order(a.St()))
  {
    hide *;
    var s := Serialize(a);
    ReloadIsValidIff(a.env, b.St(), a.St());
    FieldsOf(a, b);
    ok := Unserialize(b, key, s);
  }

  lemma FieldsOf(a: AddrMan, b: AddrMan)
    ensures a.St().nKey == a.nKey && a.St().mapAddr == a.mapAddr && b.St().mapAddr == b.mapAddr
  {
  }
}
