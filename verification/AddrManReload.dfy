/**
  Clearing and loading a manager that was not empty. Clearing keeps `mapInfo` and `mapAddr`, so the
  entries that are loaded meet the old ones: a new entry is read over the old entry with its number
  and keeps that entry's reference count and tried flag; a tried entry replaces the old one; old
  entries with higher numbers stay.
 */
module AddrManReload {
  import opened Basics
  import opened AddrManSpec
  import opened AddrManOps
  import opened AddrManCodec

  // ---- Clearing ----

  /** A cleared manager is consistent exactly if it had no entries. */
  lemma ClearedIsValidIff(env: Env, st: State, key: Key)
    requires Valid(env, st)
    ensures Valid(env, Emptied(st, key)) <==> st.mapInfo == map[]
    ensures CheckPasses(env, Emptied(st, key)) <==> st.mapInfo == map[] && key != 0
    ensures st.mapInfo == map[] ==> Emptied(st, key) == Empty(key)
  {
    hide Slots, TriedOk, NewOk, RefOk, Env.TriedSlot, Env.NewSlot;
    if id :| id in st.mapInfo {
      assert !RandOk(Emptied(st, key));
      assert !CheckEntries(Emptied(st, key));
    } else {
      assert forall id :: id !in st.mapInfo;
      assert st.mapInfo == map[];
      assert st.mapAddr == map[];
      EmptyIsValid(env, key);
      if key != 0 { ValidPassesCheck(env, Empty(key)); }
    }
  }

  lemma EmptyIsValid(env: Env, key: Key)
    ensures Valid(env, Empty(key))
  {
  }

  // ---- What the old entries bring along ----

  /** Outside [lo, hi) an old entry keeps its tried flag, and references are counted on top of its own. */
  ghost predicate Carried(was: State, st: State, lo: int, hi: int)
  {
    forall id <- was.mapInfo :: id < lo || hi <= id ==>
      && id in st.mapInfo && st.mapInfo[id].fInTried == was.mapInfo[id].fInTried
      && st.mapInfo[id].nRefCount == was.mapInfo[id].nRefCount + |Slots(st.vvNew, id)|
  }

  ghost predicate TriedFrom(st: State, lo: int) { forall s <- st.vvTried :: st.vvTried[s] >= lo }

  lemma CarriedOn(was: State, st: State, id: int, slot: Slot, lo: int, hi: int)
    requires Carried(was, st, lo, hi) && id in st.mapInfo && slot !in st.vvNew
    ensures Carried(was, Referenced(st, id, slot), lo, hi)
  {
    ReferencedSlots(st.vvNew, id, slot);
    hide Slots;
    var r := Referenced(st, id, slot);
    assert |Slots(r.vvNew, id)| == |Slots(st.vvNew, id)| + 1;
  }

  lemma CarriedNew(env: Env, was: State, st: State, n: int, t: Token, format: Format)
    requires Carried(was, st, 0, 0) && t.Record?
    ensures var r := LoadedNew(env, st, n, t, format);
            Carried(was, r, 0, 0) && r.nNew == st.nNew && r.vvTried == st.vvTried
  {
    hide Env.NewSlot, Env.NewBucket, Slots, Referenced;
    var info := ReadOver(st.mapInfo, n, t).(nRandomPos := |st.vRandom|);
    var s := st.(mapInfo := st.mapInfo[n := info], mapAddr := st.mapAddr[info.Ip() := n], vRandom := st.vRandom + [n]);
    assert Carried(was, s, 0, 0);
    var slot := env.NewSlot(st.nKey, info.address.service, env.NewBucket(st.nKey, info.address.service, info.source));
    if !format.Usable() && slot !in s.vvNew {
      CarriedOn(was, s, n, slot, 0, 0);
      ReferencedRest(s, n, slot);
    }
  }

  lemma ReferencedRest(st: State, id: int, slot: Slot)
    requires id in st.mapInfo
    ensures var r := Referenced(st, id, slot);
            r.nNew == st.nNew && r.vvTried == st.vvTried && r.nIdCount == st.nIdCount && r.vRandom == st.vRandom
  {
  }

  lemma {:induction false} CarriedNews(env: Env, was: State, st: State, n: int, format: Format, s: seq<Token>)
    requires Carried(was, st, 0, 0)
    ensures var r := ReadNew(env, st, n, format, s);
            r.Some? ==> Carried(was, r.value.0, 0, 0) && r.value.0.nNew == st.nNew && r.value.0.vvTried == st.vvTried
    decreases |s|
  {
    hide Carried, LoadedNew;
    if n < st.nNew && s != [] && s[0].Record? {
      CarriedNew(env, was, st, n, s[0], format);
      CarriedNews(env, was, LoadedNew(env, st, n, s[0], format), n + 1, format, s[1..]);
    }
  }

  lemma CarriedTried(env: Env, was: State, st: State, lo: int, t: Token)
    requires Carried(was, st, lo, st.nIdCount) && TriedFrom(st, lo) && lo <= st.nIdCount && ListedBelow(st, st.nIdCount) && t.Record?
    ensures var r := LoadedTried(env, st, t);
            Carried(was, r, lo, r.nIdCount) && TriedFrom(r, lo) && lo <= r.nIdCount && ListedBelow(r, r.nIdCount)
  {
    hide Env.TriedSlot, Slots;
  }

  lemma {:induction false} CarriedTrieds(env: Env, was: State, st: State, lo: int, left: int, s: seq<Token>)
    requires Carried(was, st, lo, st.nIdCount) && TriedFrom(st, lo) && lo <= st.nIdCount && ListedBelow(st, st.nIdCount)
    ensures var o := ReadTried(env, st, left, s);
            o.Some? ==> var r := o.value.0; Carried(was, r, lo, r.nIdCount) && TriedFrom(r, lo) && ListedBelow(r, r.nIdCount)
    decreases |s|
  {
    hide Carried, LoadedTried, TriedFrom, ListedBelow;
    if left > 0 && s != [] && s[0].Record? {
      CarriedTried(env, was, st, lo, s[0]);
      CarriedTrieds(env, was, LoadedTried(env, st, s[0]), lo, left - 1, s[1..]);
    }
  }

  lemma CarriedIndex(env: Env, was: State, st: State, lo: int, hi: int, bucket: nat, n: int, format: Format)
    requires Carried(was, st, lo, hi)
    ensures var r := LoadedIndex(env, st, bucket, n, format);
            Carried(was, r, lo, hi) && r.vvTried == st.vvTried && r.vRandom == st.vRandom && r.nIdCount == st.nIdCount
  {
    hide Env.NewSlot, Carried, Referenced;
    if 0 <= n < st.nNew && n in st.mapInfo {
      var slot := env.NewSlot(st.nKey, st.Service(n), bucket);
      if slot !in st.vvNew { CarriedOn(was, st, n, slot, lo, hi); }
      ReferencedRest(st, n, slot);
    }
  }

  lemma {:induction false} CarriedIndices(env: Env, was: State, st: State, lo: int, hi: int, bucket: nat, ns: seq<int>, format: Format)
    requires Carried(was, st, lo, hi)
    ensures var r := LoadedIndices(env, st, bucket, ns, format);
            Carried(was, r, lo, hi) && r.vvTried == st.vvTried && r.vRandom == st.vRandom && r.nIdCount == st.nIdCount
  {
    hide Carried, LoadedIndex;
    if ns != [] {
      var n := |ns| - 1;
      CarriedIndices(env, was, st, lo, hi, bucket, ns[..n], format);
      CarriedIndex(env, was, LoadedIndices(env, st, bucket, ns[..n], format), lo, hi, bucket, ns[n], format);
    }
  }

  lemma {:induction false} CarriedBuckets(env: Env, was: State, st: State, lo: int, hi: int, bucket: nat, format: Format, s: seq<Token>)
    requires Carried(was, st, lo, hi)
    ensures var o := ReadBuckets(env, st, bucket, format, s);
            o.Some? ==> var r := o.value.0;
                        Carried(was, r, lo, hi) && r.vvTried == st.vvTried && r.vRandom == st.vRandom && r.nIdCount == st.nIdCount
    decreases if bucket < format.buckets then format.buckets - bucket else 0
  {
    hide Carried, LoadedIndices;
    if bucket < format.buckets && s != [] && s[0].Int? {
      var list := TakeInts(s[1..], s[0].n);
      if list.Some? {
        CarriedIndices(env, was, st, lo, hi, bucket, list.value.0, format);
        CarriedBuckets(env, was, LoadedIndices(env, st, bucket, list.value.0, format), lo, hi, bucket + 1, format, list.value.1);
      }
    }
  }

  lemma DeletedBelow(st: State, id: int, hi: int)
    requires ListOk(st) && Listed(st, id) && ListedBelow(st, hi)
    ensures st.vRandom[|st.vRandom| - 1] in st.mapInfo && ListedBelow(Deleted(st, id), hi)
  {
  }

  lemma CarriedDeleted(was: State, st: State, id: int, lo: int, hi: int)
    requires ListOk(st) && Listed(st, id) && !st.mapInfo[id].fInTried && st.mapInfo[id].nRefCount == 0
    requires AllHeld(was) && Carried(was, st, lo, hi)
    ensures st.vRandom[|st.vRandom| - 1] in st.mapInfo && Carried(was, Deleted(st, id), lo, hi)
    ensures Deleted(st, id).vvTried == st.vvTried && Deleted(st, id).nIdCount == st.nIdCount
  {
    DeletedIs(st, id);
    hide ListOk, Deleted, Slots;
  }

  lemma {:induction false} CarriedPruned(was: State, st: State, id: int, lo: int, hi: int)
    requires Sound(st) && AllHeld(was) && Carried(was, st, lo, hi) && TriedFrom(st, lo) && ListedBelow(st, hi)
    ensures var r := Pruned(st, id);
            Carried(was, r, lo, hi) && TriedFrom(r, lo) && ListedBelow(r, hi) && r.nIdCount == st.nIdCount
    decreases if id < st.nIdCount then st.nIdCount - id else 0
  {
    hide Sound, AllHeld, Carried, ListedBelow, Deleted, ListOk;
    if id < st.nIdCount {
      if id in st.mapInfo && !st.mapInfo[id].fInTried && st.mapInfo[id].nRefCount == 0 {
        DeletedSound(st, id);
        DeletedBelow(st, id, hi);
        CarriedDeleted(was, st, id, lo, hi);
        CarriedPruned(was, Deleted(st, id), id + 1, lo, hi);
      } else {
        CarriedPruned(was, st, id + 1, lo, hi);
      }
    }
  }

  /** What was in use stays visible after any load. */
  lemma CarriedLoad(env: Env, was: State, s: seq<Token>)
    requires AllHeld(was) && Load(env, was, s).Some?
    ensures var r := Load(env, was, s).value;
            HeaderShape(s) && Carried(was, r, s[3].n, r.nIdCount) && TriedFrom(r, s[3].n) && ListedBelow(r, r.nIdCount)
  {
    hide Sound, AllHeld, Carried, TriedFrom, ListedBelow, ReadNew, ReadTried, ReadBuckets, Pruned, FormatOf;
    var lo, format := s[3].n, FormatOf(s);
    CarriedAtFirst(was, s);
    CarriedNews(env, was, Start(was, s), 0, format, s[6..]);
    ReadNewOk(env, was, s);
    var news := ReadNew(env, Start(was, s), 0, format, s[6..]);
    var st := news.value.0.(nIdCount := news.value.0.nNew);
    CarriedAll(was, news.value.0, st, lo);
    CarriedTrieds(env, was, st, lo, st.nTried, news.value.1);
    var trieds := ReadTried(env, st, st.nTried, news.value.1);
    var t := trieds.value.0;
    CarriedBuckets(env, was, t, lo, t.nIdCount, 0, format, trieds.value.1);
    var b := ReadBuckets(env, t, 0, format, trieds.value.1).value.0;
    SameLists(t, b, lo);
    ReadSound(env, was, s);
    CarriedPruned(was, b, 0, lo, t.nIdCount);
  }

  lemma CarriedAtFirst(was: State, s: seq<Token>)
    requires HeaderShape(s)
    ensures Carried(was, Start(was, s), 0, 0)
  {
    forall id ensures Slots(map[], id) == {} { }
  }

  lemma CarriedAll(was: State, st: State, r: State, lo: int)
    requires Carried(was, st, 0, 0) && r == st.(nIdCount := lo) && r.vvTried == map[]
    ensures Carried(was, r, lo, lo) && TriedFrom(r, lo)
  {
    hide Slots;
  }

  lemma SameLists(st: State, r: State, lo: int)
    requires TriedFrom(st, lo) && ListedBelow(st, st.nIdCount) && r.vvTried == st.vvTried && r.vRandom == st.vRandom
    ensures TriedFrom(r, lo) && ListedBelow(r, st.nIdCount)
  {
  }

  /** What both the debugging check and validity demand. */
  ghost predicate InPlace(st: State)
  {
    && (forall id <- st.mapInfo :: Listed(st, id))
    && (forall id <- st.mapInfo :: st.mapInfo[id].fInTried ==> exists s :: s in st.vvTried && st.vvTried[s] == id)
    && (forall id <- st.mapInfo :: !st.mapInfo[id].fInTried ==> st.mapInfo[id].nRefCount == |Slots(st.vvNew, id)|)
  }

  lemma CheckedIsInPlace(env: Env, st: State)
    requires CheckPasses(env, st)
    ensures InPlace(st)
  {
    hide Slots, Env.TriedSlot, Env.NewSlot;
    assert forall id <- st.mapInfo :: if st.mapInfo[id].fInTried then id in TriedIds(st) else id in NewIds(st);
  }

  lemma ValidIsInPlace(env: Env, st: State)
    requires Valid(env, st)
    ensures InPlace(st)
  {
    hide Slots, Env.TriedSlot, Env.NewSlot;
    forall id | id in st.mapInfo && st.mapInfo[id].fInTried ensures exists s :: s in st.vvTried && st.vvTried[s] == id {
      var s := env.TriedSlot(st.nKey, st.Service(id));
      assert s in st.vvTried && st.vvTried[s] == id;
    }
  }

  /** Whatever was loaded: with an old id that no tried entry took, nothing is in place any more. */
  lemma InPlaceNeedsTakenIds(env: Env, was: State, s: seq<Token>)
    requires AllHeld(was) && Load(env, was, s).Some? && InPlace(Load(env, was, s).value)
    ensures HeaderShape(s) && forall id <- was.mapInfo :: s[3].n <= id < Load(env, was, s).value.nIdCount
  {
    hide Load, HeaderShape, Slots;
    CarriedLoad(env, was, s);
    var r := Load(env, was, s).value;
  }

  // ---- The stream is read alike whatever it meets ----

  lemma {:induction false} NewsAlike(env: Env, x: State, y: State, n: int, format: Format, s: seq<Token>)
    requires x.nNew == y.nNew && x.nTried == y.nTried
    ensures var a, b := ReadNew(env, x, n, format, s), ReadNew(env, y, n, format, s);
            a.Some? == b.Some? && (a.Some? ==> a.value.1 == b.value.1 && a.value.0.nTried == b.value.0.nTried)
    decreases |s|
  {
    hide Env.NewSlot, Env.NewBucket;
    if n < x.nNew && s != [] && s[0].Record? {
      NewsAlike(env, LoadedNew(env, x, n, s[0], format), LoadedNew(env, y, n, s[0], format), n + 1, format, s[1..]);
    }
  }

  lemma {:induction false} TriedsAlike(env: Env, x: State, y: State, left: int, s: seq<Token>)
    ensures var a, b := ReadTried(env, x, left, s), ReadTried(env, y, left, s);
            a.Some? == b.Some? && (a.Some? ==> a.value.1 == b.value.1)
    decreases |s|
  {
    hide LoadedTried;
    if left > 0 && s != [] && s[0].Record? {
      TriedsAlike(env, LoadedTried(env, x, s[0]), LoadedTried(env, y, s[0]), left - 1, s[1..]);
    }
  }

  lemma {:induction false} BucketsAlike(env: Env, x: State, y: State, bucket: nat, format: Format, s: seq<Token>)
    ensures ReadBuckets(env, x, bucket, format, s).Some? == ReadBuckets(env, y, bucket, format, s).Some?
    decreases if bucket < format.buckets then format.buckets - bucket else 0
  {
    hide LoadedIndices;
    if bucket < format.buckets && s != [] && s[0].Int? {
      var list := TakeInts(s[1..], s[0].n);
      if list.Some? {
        BucketsAlike(env, LoadedIndices(env, x, bucket, list.value.0, format), LoadedIndices(env, y, bucket, list.value.0, format),
                     bucket + 1, format, list.value.1);
      }
    }
  }

  lemma ReadsAlike(env: Env, x: State, y: State, format: Format, s: seq<Token>)
    requires x.nNew == y.nNew && x.nTried == y.nTried
    ensures Read(env, x, format, s).Some? == Read(env, y, format, s).Some?
  {
    hide ReadNew, ReadTried, ReadBuckets;
    NewsAlike(env, x, y, 0, format, s);
    var a, b := ReadNew(env, x, 0, format, s), ReadNew(env, y, 0, format, s);
    if a.Some? {
      var x1, y1 := a.value.0.(nIdCount := a.value.0.nNew), b.value.0.(nIdCount := b.value.0.nNew);
      TriedsAlike(env, x1, y1, x1.nTried, a.value.1);
      var c, d := ReadTried(env, x1, x1.nTried, a.value.1), ReadTried(env, y1, y1.nTried, b.value.1);
      if c.Some? { BucketsAlike(env, c.value.0, d.value.0, 0, format, c.value.1); }
    }
  }

  // ---- Old entries that no new entry meets ----

  /** A state on top of what the maps held before. */
  ghost function Over(was: State, st: State): State
  {
    st.(mapInfo := was.mapInfo + st.mapInfo, mapAddr := was.mapAddr + st.mapAddr)
  }

  ghost predicate Above(was: State, n: int) { forall id <- was.mapInfo :: n <= id }

  lemma OverPut(was: State, st: State, id: int, info: AddrInfo, a: NetAddr)
    ensures (was.mapInfo + st.mapInfo)[id := info] == was.mapInfo + st.mapInfo[id := info]
    ensures (was.mapAddr + st.mapAddr)[a := id] == was.mapAddr + st.mapAddr[a := id]
  {
  }

  lemma OverReferenced(was: State, st: State, id: int, slot: Slot)
    requires id in st.mapInfo
    ensures Referenced(Over(was, st), id, slot) == Over(was, Referenced(st, id, slot))
  {
  }

  lemma OverNew(env: Env, was: State, st: State, n: int, t: Token, format: Format)
    requires t.Record? && n !in was.mapInfo
    ensures LoadedNew(env, Over(was, st), n, t, format) == Over(was, LoadedNew(env, st, n, t, format))
    ensures LoadedNew(env, st, n, t, format).nNew == st.nNew
  {
    hide Env.NewSlot, Env.NewBucket, Referenced;
    var info := ReadOver(st.mapInfo, n, t).(nRandomPos := |st.vRandom|);
    var s := st.(mapInfo := st.mapInfo[n := info], mapAddr := st.mapAddr[info.Ip() := n], vRandom := st.vRandom + [n]);
    OverPut(was, st, n, info, info.Ip());
    var slot := env.NewSlot(st.nKey, info.address.service, env.NewBucket(st.nKey, info.address.service, info.source));
    OverReferenced(was, s, n, slot);
    ReferencedRest(s, n, slot);
  }

  ghost function OverBoth<T>(was: State, o: Option<(State, T)>): Option<(State, T)>
  {
    if o.None? then None else Some((Over(was, o.value.0), o.value.1))
  }

  lemma {:induction false} OverNews(env: Env, was: State, st: State, n: int, format: Format, s: seq<Token>)
    requires Above(was, st.nNew)
    ensures ReadNew(env, Over(was, st), n, format, s) == OverBoth(was, ReadNew(env, st, n, format, s))
    ensures var o := ReadNew(env, st, n, format, s); o.Some? ==> o.value.0.nNew == st.nNew
    decreases |s|
  {
    hide LoadedNew;
    if n < st.nNew && s != [] && s[0].Record? {
      OverNew(env, was, st, n, s[0], format);
      OverNews(env, was, LoadedNew(env, st, n, s[0], format), n + 1, format, s[1..]);
    }
  }

  lemma OverTried(env: Env, was: State, st: State, t: Token)
    requires t.Record?
    ensures LoadedTried(env, Over(was, st), t) == Over(was, LoadedTried(env, st, t))
    ensures LoadedTried(env, st, t).nNew == st.nNew
  {
    hide Env.TriedSlot;
    var info := FromRecord(t).(nRandomPos := |st.vRandom|, fInTried := true);
    OverPut(was, st, st.nIdCount, info, info.Ip());
  }

  lemma {:induction false} OverTrieds(env: Env, was: State, st: State, left: int, s: seq<Token>)
    ensures ReadTried(env, Over(was, st), left, s) == OverBoth(was, ReadTried(env, st, left, s))
    ensures var o := ReadTried(env, st, left, s); o.Some? ==> o.value.0.nNew == st.nNew
    decreases |s|
  {
    hide LoadedTried;
    if left > 0 && s != [] && s[0].Record? {
      OverTried(env, was, st, s[0]);
      OverTrieds(env, was, LoadedTried(env, st, s[0]), left - 1, s[1..]);
    }
  }

  lemma {:induction false} OverIndices(env: Env, was: State, st: State, bucket: nat, ns: seq<int>, format: Format)
    requires Above(was, st.nNew)
    ensures LoadedIndices(env, Over(was, st), bucket, ns, format) == Over(was, LoadedIndices(env, st, bucket, ns, format))
    ensures LoadedIndices(env, st, bucket, ns, format).nNew == st.nNew
  {
    hide Env.NewSlot, Referenced;
    if ns != [] {
      OverIndices(env, was, st, bucket, ns[..|ns| - 1], format);
      var b, n := LoadedIndices(env, st, bucket, ns[..|ns| - 1], format), ns[|ns| - 1];
      if 0 <= n < b.nNew && n in b.mapInfo {
        var slot := env.NewSlot(b.nKey, b.Service(n), bucket);
        OverReferenced(was, b, n, slot);
        ReferencedRest(b, n, slot);
      }
    }
  }

  lemma {:induction false} OverBuckets(env: Env, was: State, st: State, bucket: nat, format: Format, s: seq<Token>)
    requires Above(was, st.nNew)
    ensures ReadBuckets(env, Over(was, st), bucket, format, s) == OverBoth(was, ReadBuckets(env, st, bucket, format, s))
    decreases if bucket < format.buckets then format.buckets - bucket else 0
  {
    hide LoadedIndices, Above;
    if bucket < format.buckets && s != [] && s[0].Int? {
      var list := TakeInts(s[1..], s[0].n);
      if list.Some? {
        OverIndices(env, was, st, bucket, list.value.0, format);
        OverBuckets(env, was, LoadedIndices(env, st, bucket, list.value.0, format), bucket + 1, format, list.value.1);
      }
    }
  }

  /** If every old id is at least the number of new entries, loading does not touch the old entries but replaces them. */
  lemma OverRead(env: Env, was: State, st: State, format: Format, s: seq<Token>)
    requires Above(was, st.nNew)
    ensures var o := Read(env, st, format, s);
            Read(env, Over(was, st), format, s) == if o.None? then None else Some(Over(was, o.value))
  {
    hide ReadNew, ReadTried, ReadBuckets, Above;
    OverNews(env, was, st, 0, format, s);
    var news := ReadNew(env, st, 0, format, s);
    if news.Some? {
      var x := news.value.0.(nIdCount := news.value.0.nNew);
      assert Over(was, news.value.0).(nIdCount := news.value.0.nNew) == Over(was, x);
      OverTrieds(env, was, x, x.nTried, news.value.1);
      var trieds := ReadTried(env, x, x.nTried, news.value.1);
      if trieds.Some? { OverBuckets(env, was, trieds.value.0, 0, format, trieds.value.1); }
    }
  }

  // ---- Loading what was saved into a manager that was in use ----

  /** The ids in use are among those that the tried entries get. */
  ghost predicate Replaced(was: State, st: State) { forall id <- was.mapInfo :: st.nNew <= id < st.nNew + st.nTried }

  lemma SavedStart(st: State, was: State, s: seq<Token>)
    requires |s| >= 6 && s[..6] == Header(st)
    ensures HeaderShape(s) && FormatOf(s) == Format(1, NEW_BUCKET_COUNT) && s[3].n == st.nNew
    ensures Start(was, s) == Over(was, Blank(st))
  {
    HeaderIs(st, was, s);
    assert s[3] == Header(st)[3];
    assert was.mapInfo + map[] == was.mapInfo && was.mapAddr + map[] == was.mapAddr;
  }

  /** Old ids above the new entries: the old maps stay underneath what comes back. */
  lemma ReloadIsOver(env: Env, was: State, st: State)
    requires AllHeld(was) && Valid(env, st) && Above(was, st.nNew)
    ensures st.nIdCount >= 0 && Load(env, was, Dump(st)) == Some(Over(was, Renumbered(env, st)))
  {
    hide Valid, Dump, Renumbered, Read, Renames, HeaderShape, FormatOf, Start, Order, Pruned, Header, Above, Blank;
    ReadsWhatWasSaved(env, st);
    SavedStart(st, was, Dump(st));
    BlankCounts(st);
    OverRead(env, was, Blank(st), Format(1, NEW_BUCKET_COUNT), Dump(st)[6..]);
    OverHeld(was, Renumbered(env, st));
    PrunesNothing(Over(was, Renumbered(env, st)), 0);
  }

  lemma BlankCounts(st: State)
    ensures Blank(st).nNew == st.nNew && Blank(st).nTried == st.nTried
  {
  }

  lemma OverHeld(was: State, r: State)
    requires AllHeld(was) && AllHeld(r) && ListOk(r)
    ensures AllHeld(Over(was, r)) && ListOk(Over(was, r))
  {
  }

  lemma ReloadSucceeds(env: Env, was: State, st: State)
    requires AllHeld(was) && Valid(env, st)
    ensures st.nIdCount >= 0 && Load(env, was, Dump(st)).Some?
  {
    hide Valid, Dump, Renumbered, Read, Renames, HeaderShape, FormatOf, Start, Order, Pruned, Header, AllHeld, ListOk;
    ReadsWhatWasSaved(env, st);
    SavedStart(st, was, Dump(st));
    ReadsAlike(env, Blank(st), Start(was, Dump(st)), Format(1, NEW_BUCKET_COUNT), Dump(st)[6..]);
    assert AllHeld(was);
  }

  /** The tables and the entries themselves are not looked up in mapAddr. */
  lemma SameWithoutAddr(env: Env, r: State, o: State)
    requires CheckPasses(env, r) && o == r.(mapAddr := o.mapAddr)
    ensures CheckTried(env, o) && CheckNew(env, o) && TriedIds(o) == TriedIds(r) && NewIds(o) == NewIds(r)
  {
    hide Slots, Env.TriedSlot, Env.NewSlot, CheckEntries;
  }

  /** The entries that were read make the check pass, whatever else mapAddr holds. */
  lemma OverPassesCheck(env: Env, was: State, r: State)
    requires CheckPasses(env, r) && AddrOk(r) && was.mapInfo.Keys <= r.mapInfo.Keys
    ensures CheckPasses(env, Over(was, r))
  {
    assert was.mapInfo + r.mapInfo == r.mapInfo;
    SameWithoutAddr(env, r, Over(was, r));
    hide CheckTried, CheckNew, TriedIds, NewIds;
  }

  lemma OverIsValidIff(env: Env, was: State, r: State)
    requires Valid(env, r) && was.mapInfo.Keys <= r.mapInfo.Keys
    ensures Valid(env, Over(was, r)) <==> was.mapAddr.Keys <= r.mapAddr.Keys
    ensures was.mapAddr.Keys <= r.mapAddr.Keys ==> Over(was, r) == r
  {
    hide RandOk, TriedOk, NewOk, RefOk, StampOk, IdsOk, NewIds, TriedIds;
    assert was.mapInfo + r.mapInfo == r.mapInfo;
    if was.mapAddr.Keys <= r.mapAddr.Keys {
      assert was.mapAddr + r.mapAddr == r.mapAddr;
    } else {
      var a :| a in was.mapAddr && a !in r.mapAddr;
      var id := was.mapAddr[a];
      assert Over(was, r).mapAddr[a] == id;
      assert id in r.mapInfo ==> r.mapInfo[id].Ip() in r.mapAddr;
    }
  }

  lemma AddressesCameBack(env: Env, st: State)
    requires Valid(env, st)
    ensures st.nIdCount >= 0 && st.nNew >= 0
    ensures var r := Renumbered(env, st);
            && Valid(env, r) && Renames(st, r, Order(st)) && r.nKey == st.nKey && r.mapAddr.Keys == st.mapAddr.Keys
            && r.nIdCount == st.nNew + st.nTried && (forall i :: i in r.mapInfo <==> 0 <= i < st.nNew + st.nTried)
  {
    hide Valid, Renumbered, Read, Dump, Header, Order, ListOk, AllHeld, Distinct;
    ReadsWhatWasSaved(env, st);
    RenamedIsValid(env, st, Renumbered(env, st), Order(st));
    OrderSize(env, st);
  }

  /** An old id that no tried entry takes spoils the manager. */
  lemma ReloadNeedsReplaced(env: Env, was: State, st: State)
    requires AllHeld(was) && Valid(env, st)
    ensures st.nIdCount >= 0 && Load(env, was, Dump(st)).Some?
    ensures InPlace(Load(env, was, Dump(st)).value) ==> Replaced(was, st)
  {
    hide Valid, Dump, Renumbered, Load, Header, AllHeld, HeaderShape, InPlace, Read, Renames, Order, ListOk, Start, FormatOf;
    ReloadSucceeds(env, was, st);
    ReadsWhatWasSaved(env, st);
    SavedStart(st, was, Dump(st));
    AddressesCameBack(env, st);
    if InPlace(Load(env, was, Dump(st)).value) {
      InPlaceNeedsTakenIds(env, was, Dump(st));
      ReloadIsOver(env, was, st);
    }
  }

  lemma ReloadOfReplaced(env: Env, was: State, st: State)
    requires AllHeld(was) && Valid(env, st) && Replaced(was, st)
    ensures st.nIdCount >= 0
    ensures var r := Load(env, was, Dump(st));
            && r.Some?
            && (CheckPasses(env, r.value) <==> st.nKey != 0)
            && (Valid(env, r.value) <==> was.mapAddr.Keys <= st.mapAddr.Keys)
            && (Valid(env, r.value) ==> Renames(st, r.value, Order(st)))
  {
    hide Valid, Dump, Renumbered, Load, AllHeld, CheckPasses, Renames, Order;
    AddressesCameBack(env, st);
    ReloadIsOver(env, was, st);
    var r0 := Renumbered(env, st);
    forall id | id in was.mapInfo.Keys ensures id in r0.mapInfo.Keys {
      assert id in was.mapInfo && 0 <= id < st.nNew + st.nTried;
    }
    OverIsValidIff(env, was, r0);
    KeyChecked(env, Over(was, r0));
    if st.nKey != 0 {
      ValidPassesCheck(env, r0);
      PartsOfValid(env, r0);
      OverPassesCheck(env, was, r0);
    }
  }

  /**
    Loading a saved manager into one that was in use passes the debugging check exactly if every id
    in use is taken by a tried entry, and is right exactly if besides no other address was known.
   */
  lemma ReloadIsValidIff(env: Env, was: State, st: State)
    requires AllHeld(was) && Valid(env, st)
    ensures st.nIdCount >= 0
    ensures var r := Load(env, was, Dump(st));
            && r.Some?
            && (CheckPasses(env, r.value) <==> st.nKey != 0 && Replaced(was, st))
            && (Valid(env, r.value) <==> Replaced(was, st) && was.mapAddr.Keys <= st.mapAddr.Keys)
            && (Valid(env, r.value) ==> Renames(st, r.value, Order(st)))
  {
    hide *;
    ReloadNeedsReplaced(env, was, st);
    var r := Load(env, was, Dump(st)).value;
    if Valid(env, r) { ValidIsInPlace(env, r); }
    if CheckPasses(env, r) { CheckedIsInPlace(env, r); }
    if Replaced(was, st) { ReloadOfReplaced(env, was, st); }
  }

  lemma KeyChecked(env: Env, st: State)
    ensures CheckPasses(env, st) ==> st.nKey != 0
  {
  }

  lemma OrderSize(env: Env, st: State)
    requires Valid(env, st)
    ensures st.nIdCount >= 0 && st.nNew >= 0 && |Order(st)| == st.nNew + st.nTried
  {
    hide *;
    PartsOfValid(env, st);
    ListsOfValid(env, st);
    IdCountOk(st);
    OrderIs(st);
  }

  lemma OrderIs(st: State)
    requires st.nIdCount >= 0
    ensures |Order(st)| == |NewList(st.mapInfo, st.nIdCount)| + |TriedList(st.mapInfo, st.nIdCount)|
  {
  }

  lemma ValidIsHeld(env: Env, st: State)
    requires Valid(env, st)
    ensures AllHeld(st)
  {
    hide Slots;
  }

  /** A manager with one entry, in one slot of the new table. */
  function OneEntry(env: Env, key: Key, address: Address, source: NetAddr): State
  {
    State(key, 1, map[0 := AddrInfo(address, source, 0, 0, 0, 1, false, 0)], map[address.service.ip := 0], [0],
          0, map[], 1, map[env.NewSlot(key, address.service, 0) := 0])
  }

  lemma OneEntryIsValid(env: Env, key: Key, address: Address, source: NetAddr)
    ensures Valid(env, OneEntry(env, key, address, source))
  {
    hide Env.NewSlot;
    var st, slot := OneEntry(env, key, address, source), env.NewSlot(key, address.service, 0);
    assert slot.0 == 0;
    assert Slots(st.vvNew, 0) == {slot};
    assert |{slot}| == 1;
    assert NewIds(st) == {0} && TriedIds(st) == {};
    assert NewOk(env, st) && TriedOk(env, st);
    hide NewOk, TriedOk, Slots, NewIds, TriedIds;
  }

  /** Saved and loaded into itself, it fails the check. */
  lemma ReloadWitness(env: Env, key: Key, address: Address, source: NetAddr)
    requires key != 0
    ensures var st := OneEntry(env, key, address, source);
            && Valid(env, st) && CheckPasses(env, st) && AllHeld(st)
            && Load(env, st, Dump(st)).Some? && !CheckPasses(env, Load(env, st, Dump(st)).value)
  {
    hide Valid, Load, Dump, CheckPasses, AllHeld;
    var st := OneEntry(env, key, address, source);
    OneEntryIsValid(env, key, address, source);
    ValidPassesCheck(env, st);
    ValidIsHeld(env, st);
    ReloadIsValidIff(env, st, st);
    assert 0 in st.mapInfo && !Replaced(st, st);
  }
}
