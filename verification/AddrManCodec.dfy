/**
  Saving and loading the address manager. The stream is a sequence of tokens, one per value that
  is written. Ids are not saved: new entries are numbered in the order of their ids, tried entries
  after them, and the bucket lists refer to new entries by that number.
 */
module AddrManCodec {
  import opened Basics
  import opened AddrManSpec
  import opened AddrManOps

  datatype Token =
    | Int(n: int)
    | Record(address: Address, source: NetAddr, nLastSuccess: int, nAttempts: int)

  const MARK := 0x4000_0000   // 2^30

  /** Exclusive or with 2^30, on the non-negative 32-bit integers. */
  function XorMark(n: int): int { if (n / MARK) % 2 == 0 then n + MARK else n - MARK }

  // ---- Saving ----

  /** The mark is bit 30: setting it twice is not setting it, and no count of buckets has it by itself. */
  lemma MarkToggles(n: nat)
    requires n < 0x8000_0000
    ensures XorMark(XorMark(n)) == n && XorMark(n) != n && (n < 0x4000_0000 <==> XorMark(n) >= 0x4000_0000)
  {
  }

  function RecordOf(info: AddrInfo): Token { Record(info.address, info.source, info.nLastSuccess, info.nAttempts) }

  /** The ids below n of the entries in the new table, and of those in the tried table, in order. */
  function NewList(m: map<int, AddrInfo>, n: nat): (r: seq<int>)
    ensures forall id <- r :: id in m && 0 <= id < n && m[id].nRefCount != 0
  {
    if n == 0 then [] else NewList(m, n - 1) + if n - 1 in m && m[n - 1].nRefCount != 0 then [n - 1] else []
  }

  function TriedList(m: map<int, AddrInfo>, n: nat): (r: seq<int>)
    ensures forall id <- r :: id in m && 0 <= id < n && m[id].fInTried
  {
    if n == 0 then [] else TriedList(m, n - 1) + if n - 1 in m && m[n - 1].fInTried then [n - 1] else []
  }

  function Records(m: map<int, AddrInfo>, ids: seq<int>): (r: seq<Token>)
    requires forall i :: 0 <= i < |ids| ==> ids[i] in m
    ensures |r| == |ids|
  {
    if ids == [] then [] else [RecordOf(m[ids[0]])] + Records(m, ids[1..])
  }

  /** The ids in the first p positions of a bucket. */
  function BucketIds(table: Table, b: nat, p: nat): (r: seq<int>)
  {
    if p == 0 then [] else BucketIds(table, b, p - 1) + if (b, p - 1) in table then [table[(b, p - 1)]] else []
  }

  /** The number under which a new entry is saved. */
  function Index(m: map<int, AddrInfo>, id: int): nat { if id < 0 then 0 else |NewList(m, id)| }

  function Indices(m: map<int, AddrInfo>, ids: seq<int>): (r: seq<int>)
    ensures |r| == |ids|
  {
    seq(|ids|, i requires 0 <= i < |ids| => Index(m, ids[i]))
  }

  function Ints(ns: seq<int>): (r: seq<Token>)
    ensures |r| == |ns|
  {
    seq(|ns|, i requires 0 <= i < |ns| => Int(ns[i]))
  }

  function BucketTokens(st: State, b: nat): seq<Token>
  {
    var ids := BucketIds(st.vvNew, b, BUCKET_SIZE);
    [Int(|ids|)] + Ints(Indices(st.mapInfo, ids))
  }

  /** The buckets from b on. */
  function BucketsFrom(st: State, b: nat): seq<Token>
    requires b <= NEW_BUCKET_COUNT
    decreases NEW_BUCKET_COUNT - b
  {
    if b == NEW_BUCKET_COUNT then [] else BucketTokens(st, b) + BucketsFrom(st, b + 1)
  }

  function Header(st: State): seq<Token>
  {
    [Int(1), Int(32), Int(st.nKey), Int(st.nNew), Int(st.nTried), Int(XorMark(NEW_BUCKET_COUNT))]
  }

  function Dump(st: State): seq<Token>
    requires st.nIdCount >= 0
  {
    Header(st)
    + (Records(st.mapInfo, NewList(st.mapInfo, st.nIdCount))
       + (Records(st.mapInfo, TriedList(st.mapInfo, st.nIdCount))
          + BucketsFrom(st, 0)))
  }

  // ---- Loading ----

  /** What is read of an entry; the rest has its initial value. */
  function FromRecord(t: Token): AddrInfo
    requires t.Record?
  {
    AddrInfo(t.address, t.source, t.nLastSuccess, 0, t.nAttempts, 0, false, -1)
  }

  /** Whether the bucket lists of the stream can be used. */
  datatype Format = Format(version: int, buckets: int) {
    predicate Usable() { version == 1 && buckets == NEW_BUCKET_COUNT }
  }

  /** An entry that is read over an old one keeps the fields that are not read. */
  function ReadOver(m: map<int, AddrInfo>, n: int, t: Token): AddrInfo
    requires t.Record?
  {
    if n !in m then FromRecord(t)
    else m[n].(address := t.address, source := t.source, nLastSuccess := t.nLastSuccess, nLastTry := 0, nAttempts := t.nAttempts)
  }

  /** The n-th new entry; without usable bucket lists it gets a reference by its own source. */
  function LoadedNew(env: Env, st: State, n: int, t: Token, format: Format): (r: State)
    requires t.Record?
  {
    var info := ReadOver(st.mapInfo, n, t).(nRandomPos := |st.vRandom|);
    var s := st.(mapInfo := st.mapInfo[n := info], mapAddr := st.mapAddr[info.Ip() := n], vRandom := st.vRandom + [n]);
    if format.Usable() then s else
      var slot := env.NewSlot(st.nKey, info.address.service, env.NewBucket(st.nKey, info.address.service, info.source));
      if slot in s.vvNew then s else Referenced(s, n, slot)
  }

  /** A tried entry; it is lost if its slot is taken. */
  function LoadedTried(env: Env, st: State, t: Token): (r: State)
    requires t.Record?
  {
    var info := FromRecord(t);
    var slot := env.TriedSlot(st.nKey, info.address.service);
    if slot in st.vvTried then st.(nTried := st.nTried - 1) else
      var id := st.nIdCount;
      st.(mapInfo := st.mapInfo[id := info.(nRandomPos := |st.vRandom|, fInTried := true)],
          mapAddr := st.mapAddr[info.Ip() := id],
          vRandom := st.vRandom + [id],
          vvTried := if id == -1 then st.vvTried else st.vvTried[slot := id],   // -1 marks a free slot
          nIdCount := id + 1)
  }

  /** One reference of a bucket list; ignored if it is out of range, its slot is taken or the entry has enough. */
  function LoadedIndex(env: Env, st: State, bucket: nat, nIndex: int, format: Format): (r: State)
  {
    if 0 <= nIndex < st.nNew && nIndex in st.mapInfo then
      var slot := env.NewSlot(st.nKey, st.Service(nIndex), bucket);
      if format.Usable() && slot !in st.vvNew && st.mapInfo[nIndex].nRefCount < NEW_BUCKETS_PER_ADDRESS
      then Referenced(st, nIndex, slot) else st
    else st
  }

  function LoadedIndices(env: Env, st: State, bucket: nat, ns: seq<int>, format: Format): (r: State)
  {
    if ns == [] then st
    else LoadedIndex(env, LoadedIndices(env, st, bucket, ns[..|ns| - 1], format), bucket, ns[|ns| - 1], format)
  }

  function ReadNew(env: Env, st: State, n: int, format: Format, s: seq<Token>): Option<(State, seq<Token>)>
    decreases |s|
  {
    if n >= st.nNew then Some((st, s))
    else if s == [] || !s[0].Record? then None
    else ReadNew(env, LoadedNew(env, st, n, s[0], format), n + 1, format, s[1..])
  }

  function ReadTried(env: Env, st: State, left: int, s: seq<Token>): Option<(State, seq<Token>)>
    decreases |s|
  {
    if left <= 0 then Some((st, s))
    else if s == [] || !s[0].Record? then None
    else ReadTried(env, LoadedTried(env, st, s[0]), left - 1, s[1..])
  }

  /** As many integers as announced. */
  function TakeInts(s: seq<Token>, n: int): Option<(seq<int>, seq<Token>)>
    decreases |s|
  {
    if n <= 0 then Some(([], s))
    else if s == [] || !s[0].Int? then None
    else
      var rest := TakeInts(s[1..], n - 1);
      if rest.None? then None else Some(([s[0].n] + rest.value.0, rest.value.1))
  }

  function ReadBuckets(env: Env, st: State, bucket: nat, format: Format, s: seq<Token>): Option<(State, seq<Token>)>
    decreases if bucket < format.buckets then format.buckets - bucket else 0
  {
    if bucket >= format.buckets then Some((st, s))
    else if s == [] || !s[0].Int? then None
    else
      var list := TakeInts(s[1..], s[0].n);
      if list.None? then None
      else ReadBuckets(env, LoadedIndices(env, st, bucket, list.value.0, format), bucket + 1, format, list.value.1)
  }

  /** In a table, as far as the entry says. */
  predicate Held(info: AddrInfo) { info.fInTried || info.nRefCount > 0 }

  ghost predicate AllHeld(st: State) { forall id <- st.mapInfo :: Held(st.mapInfo[id]) }

  /** vRandom is in order, and what it does not list will not be deleted. */
  ghost predicate Sound(st: State) { ListOk(st) && forall id <- st.mapInfo :: Listed(st, id) || Held(st.mapInfo[id]) }

  /** New entries without a reference are deleted at the end; only entries of vRandom can be without one. */
  ghost function Pruned(st: State, id: int): State
    requires Sound(st)
    decreases if id < st.nIdCount then st.nIdCount - id else 0
  {
    if id >= st.nIdCount then st
    else if id in st.mapInfo && !st.mapInfo[id].fInTried && st.mapInfo[id].nRefCount == 0 then
      DeletedSound(st, id);
      Pruned(Deleted(st, id), id + 1)
    else Pruned(st, id + 1)
  }

  lemma DeletedSound(st: State, id: int)
    requires Sound(st) && id in st.mapInfo && !Held(st.mapInfo[id])
    ensures ListOk(st) && Listed(st, id) && st.vRandom[|st.vRandom| - 1] in st.mapInfo
    ensures Sound(Deleted(st, id)) && Deleted(st, id).nIdCount == st.nIdCount
  {
    hide ListOk;
    DeletedIs(st, id);
    DeletedList(st, id);
    hide Listed;
  }

  /** The tables name entries that are there. */
  ghost predicate TablesKnown(st: State)
  {
    (forall s <- st.vvNew :: st.vvNew[s] in st.mapInfo) && (forall s <- st.vvTried :: st.vvTried[s] in st.mapInfo)
  }

  /** What holds of a manager at every point of a load, also where it fails. */
  ghost predicate Loading(st: State) { Sound(st) && TablesKnown(st) }

  /** The entries listed so far have ids below n. */
  ghost predicate ListedBelow(st: State, n: int) { forall k :: 0 <= k < |st.vRandom| ==> st.vRandom[k] < n }

  /** Whatever the stream holds, vRandom and the entries stay in step while loading. */
  lemma {:induction false} ReadNewSound(env: Env, st: State, n: int, format: Format, s: seq<Token>)
    requires Sound(st) && ListedBelow(st, n)
    ensures var r := ReadNew(env, st, n, format, s);
            r.Some? ==> Sound(r.value.0) && ListedBelow(r.value.0, if n < st.nNew then st.nNew else n) && r.value.0.nNew == st.nNew
    decreases |s|
  {
    if n < st.nNew && s != [] && s[0].Record? {
      LoadedNewSound(env, st, n, s[0], format);
      ReadNewSound(env, LoadedNew(env, st, n, s[0], format), n + 1, format, s[1..]);
    }
  }

  lemma LoadedNewSound(env: Env, st: State, n: int, t: Token, format: Format)
    requires Sound(st) && ListedBelow(st, n) && t.Record?
    ensures var r := LoadedNew(env, st, n, t, format);
            Sound(r) && ListedBelow(r, n + 1) && r.nNew == st.nNew && (TablesKnown(st) ==> TablesKnown(r))
  {
    hide Env.NewSlot, Env.NewBucket;
  }

  lemma LoadedTriedSound(env: Env, st: State, t: Token)
    requires Sound(st) && ListedBelow(st, st.nIdCount) && t.Record?
    ensures var r := LoadedTried(env, st, t);
            Sound(r) && ListedBelow(r, r.nIdCount) && (TablesKnown(st) ==> TablesKnown(r))
  {
    hide Env.TriedSlot;
  }

  lemma {:induction false} ReadTriedSound(env: Env, st: State, left: int, s: seq<Token>)
    requires Sound(st) && ListedBelow(st, st.nIdCount)
    ensures var r := ReadTried(env, st, left, s); r.Some? ==> Sound(r.value.0)
    decreases |s|
  {
    hide Sound, LoadedTried;
    if left > 0 && s != [] && s[0].Record? {
      LoadedTriedSound(env, st, s[0]);
      ReadTriedSound(env, LoadedTried(env, st, s[0]), left - 1, s[1..]);
    }
  }

  lemma ReferencedSound(env: Env, st: State, bucket: nat, n: int, format: Format)
    requires Sound(st)
    ensures var r := LoadedIndex(env, st, bucket, n, format); Sound(r) && (TablesKnown(st) ==> TablesKnown(r))
  {
    hide Env.NewSlot;
  }

  lemma {:induction false} LoadedIndicesSound(env: Env, st: State, bucket: nat, ns: seq<int>, format: Format)
    requires Sound(st)
    ensures Sound(LoadedIndices(env, st, bucket, ns, format))
  {
    hide Sound, LoadedIndex;
    if ns != [] {
      LoadedIndicesSound(env, st, bucket, ns[..|ns| - 1], format);
      ReferencedSound(env, LoadedIndices(env, st, bucket, ns[..|ns| - 1], format), bucket, ns[|ns| - 1], format);
    }
  }

  lemma {:induction false} ReadBucketsSound(env: Env, st: State, bucket: nat, format: Format, s: seq<Token>)
    requires Sound(st)
    ensures var r := ReadBuckets(env, st, bucket, format, s); r.Some? ==> Sound(r.value.0)
    decreases if bucket < format.buckets then format.buckets - bucket else 0
  {
    hide Sound;
    if bucket < format.buckets && s != [] && s[0].Int? {
      var list := TakeInts(s[1..], s[0].n);
      if list.Some? {
        LoadedIndicesSound(env, st, bucket, list.value.0, format);
        ReadBucketsSound(env, LoadedIndices(env, st, bucket, list.value.0, format), bucket + 1, format, list.value.1);
      }
    }
  }

  predicate HeaderShape(s: seq<Token>)
  {
    |s| >= 6 && (forall i :: 0 <= i < 6 ==> s[i].Int?) && s[1].n == 32 && s[2].n >= 0
  }

  function FormatOf(s: seq<Token>): Format
    requires HeaderShape(s)
  {
    Format(s[0].n, if s[0].n != 0 then XorMark(s[5].n) else s[5].n)
  }

  /** The manager is cleared, and then key and counters are read. */
  function Start(was: State, s: seq<Token>): State
    requires HeaderShape(s)
  {
    Emptied(was, s[2].n).(nNew := s[3].n, nTried := s[4].n)
  }

  lemma ReadNewOk(env: Env, was: State, s: seq<Token>)
    requires HeaderShape(s) && AllHeld(was)
    ensures var r := ReadNew(env, Start(was, s), 0, FormatOf(s), s[6..]);
            r.Some? ==> var st := r.value.0.(nIdCount := r.value.0.nNew); Sound(st) && ListedBelow(st, st.nIdCount)
  {
    ReadNewSound(env, Start(was, s), 0, FormatOf(s), s[6..]);
    var r := ReadNew(env, Start(was, s), 0, FormatOf(s), s[6..]);
    if r.Some? && r.value.0.nNew < 0 { assert r.value.0 == Start(was, s); }
  }

  /** The three parts of the stream after the header, read onto a state. */
  function Read(env: Env, start: State, format: Format, s: seq<Token>): Option<State>
  {
    var news := ReadNew(env, start, 0, format, s);
    if news.None? then None else
      var st := news.value.0.(nIdCount := news.value.0.nNew);
      var trieds := ReadTried(env, st, st.nTried, news.value.1);
      if trieds.None? then None else
        var buckets := ReadBuckets(env, trieds.value.0, 0, format, trieds.value.1);
        if buckets.None? then None else Some(buckets.value.0)
  }

  lemma ReadSound(env: Env, was: State, s: seq<Token>)
    requires HeaderShape(s) && AllHeld(was)
    ensures var r := Read(env, Start(was, s), FormatOf(s), s[6..]); r.Some? ==> Sound(r.value)
  {
    hide Sound, AllHeld, ListedBelow, ReadNew, ReadTried, ReadBuckets, Start, FormatOf;
    var news := ReadNew(env, Start(was, s), 0, FormatOf(s), s[6..]);
    ReadNewOk(env, was, s);
    if news.Some? {
      var st := news.value.0.(nIdCount := news.value.0.nNew);
      var trieds := ReadTried(env, st, st.nTried, news.value.1);
      ReadTriedSound(env, st, st.nTried, news.value.1);
      if trieds.Some? {
        ReadBucketsSound(env, trieds.value.0, 0, FormatOf(s), trieds.value.1);
      }
    }
  }

  /** Loading into a manager; None where the source fails for lack of input or on a bad key size. */
  ghost function Load(env: Env, was: State, s: seq<Token>): Option<State>
    requires AllHeld(was)
  {
    if !HeaderShape(s) then None else
      var r := Read(env, Start(was, s), FormatOf(s), s[6..]);
      ReadSound(env, was, s);
      if r.None? then None else Some(Pruned(r.value, 0))
  }

  // ---- The lists of a valid manager ----

  ghost predicate Distinct(s: seq<int>) { forall i, j :: 0 <= i < j < |s| ==> s[i] != s[j] }

  lemma {:induction false} NewListAll(m: map<int, AddrInfo>, n: nat)
    ensures forall id :: id in NewList(m, n) <==> id in m && 0 <= id < n && m[id].nRefCount != 0
    ensures Distinct(NewList(m, n))
  {
    if n > 0 { NewListAll(m, n - 1); }
  }

  lemma {:induction false} TriedListAll(m: map<int, AddrInfo>, n: nat)
    ensures forall id :: id in TriedList(m, n) <==> id in m && 0 <= id < n && m[id].fInTried
    ensures Distinct(TriedList(m, n))
  {
    if n > 0 { TriedListAll(m, n - 1); }
  }

  /** The index under which an entry is saved is its place in the list. */
  lemma {:induction false} IndexIsPlace(m: map<int, AddrInfo>, n: nat, id: int)
    requires id in NewList(m, n)
    ensures Index(m, id) < |NewList(m, n)| && NewList(m, n)[Index(m, id)] == id
  {
    hide NewList;
    NewListAll(m, n);
    if id < n - 1 {
      NewListAll(m, n - 1);
      NewListNext(m, n - 1);
      IndexIsPlace(m, n - 1, id);
    } else {
      NewListNext(m, id);
    }
  }

  lemma NewListNext(m: map<int, AddrInfo>, n: nat)
    ensures NewList(m, n + 1) == NewList(m, n) + if n in m && m[n].nRefCount != 0 then [n] else []
  {
  }

  /** A new entry and a tried one are told apart by their references. */
  lemma ListsOfValid(env: Env, st: State)
    requires Valid(env, st)
    ensures var L, K := NewList(st.mapInfo, st.nIdCount), TriedList(st.mapInfo, st.nIdCount);
            && (forall id :: id in L <==> id in NewIds(st)) && Distinct(L) && |L| == st.nNew
            && (forall id :: id in K <==> id in TriedIds(st)) && Distinct(K) && |K| == st.nTried
  {
    var L, K := NewList(st.mapInfo, st.nIdCount), TriedList(st.mapInfo, st.nIdCount);
    NewListAll(st.mapInfo, st.nIdCount);
    TriedListAll(st.mapInfo, st.nIdCount);
    hide NewList, TriedList, AddrOk, RandOk, TriedOk, NewOk, StampOk, Slots;
    DistinctElements(L, NewIds(st));
    DistinctElements(K, TriedIds(st));
  }

  // ---- The states that loading goes through ----

  /** An entry as it is read back, at its new place. */
  function Reloaded(info: AddrInfo, pos: int, tried: bool, refs: int): AddrInfo
  {
    AddrInfo(info.address, info.source, info.nLastSuccess, 0, info.nAttempts, refs, tried, pos)
  }

  ghost predicate Known(st: State, ids: seq<int>) { forall i :: 0 <= i < |ids| ==> ids[i] in st.mapInfo }

  /** After the first n new entries. */
  ghost function NewUpTo(st: State, L: seq<int>, n: nat): State
    requires n <= |L| && Known(st, L)
  {
    if n == 0 then State(st.nKey, 0, map[], map[], [], st.nTried, map[], st.nNew, map[]) else
      var s, info := NewUpTo(st, L, n - 1), st.mapInfo[L[n - 1]];
      s.(mapInfo := s.mapInfo[n - 1 := Reloaded(info, n - 1, false, 0)],
         mapAddr := s.mapAddr[info.Ip() := n - 1],
         vRandom := s.vRandom + [n - 1])
  }

  /** And after the first k tried entries. */
  ghost function TriedUpTo(env: Env, st: State, L: seq<int>, K: seq<int>, k: nat): State
    requires k <= |K| && Known(st, L) && Known(st, K)
  {
    if k == 0 then NewUpTo(st, L, |L|).(nIdCount := |L|) else
      var s, info, id := TriedUpTo(env, st, L, K, k - 1), st.mapInfo[K[k - 1]], |L| + k - 1;
      s.(mapInfo := s.mapInfo[id := Reloaded(info, id, true, 0)],
         mapAddr := s.mapAddr[info.Ip() := id],
         vRandom := s.vRandom + [id],
         vvTried := Numbered(TriedSlots(env, st, K), |L|, k),
         nIdCount := id + 1)
  }

  ghost function TriedSlots(env: Env, st: State, K: seq<int>): (r: seq<Slot>)
    requires Known(st, K)
    ensures |r| == |K| && forall i :: 0 <= i < |K| ==> r[i] == env.TriedSlot(st.nKey, st.Service(K[i]))
  {
    seq(|K|, i requires 0 <= i < |K| && K[i] in st.mapInfo => env.TriedSlot(st.nKey, st.Service(K[i])))
  }

  /** The first k slots of a list, filled with consecutive numbers. */
  ghost function Numbered(slots: seq<Slot>, first: int, k: nat): Table
    requires k <= |slots|
  {
    if k == 0 then map[] else Numbered(slots, first, k - 1)[slots[k - 1] := first + k - 1]
  }

  ghost predicate Apart(slots: seq<Slot>) { forall i, j :: 0 <= i < j < |slots| ==> slots[i] != slots[j] }

  lemma {:induction false} NumberedAt(slots: seq<Slot>, first: int, k: nat, j: nat)
    requires k <= |slots| && j < |slots| && Apart(slots)
    ensures slots[j] in Numbered(slots, first, k) <==> j < k
    ensures j < k ==> Numbered(slots, first, k)[slots[j]] == first + j
  {
    if k > 0 {
      NumberedAt(slots, first, k - 1, j);
      assert j != k - 1 ==> slots[j] != slots[k - 1];
    }
  }

  lemma {:induction false} NumberedBack(slots: seq<Slot>, first: int, k: nat, t: Slot)
    requires k <= |slots| && t in Numbered(slots, first, k)
    ensures var j := Numbered(slots, first, k)[t] - first; 0 <= j < k && slots[j] == t
  {
    if k > 0 && t != slots[k - 1] { NumberedBack(slots, first, k - 1, t); }
  }

  lemma {:induction false} NewUpToIs(st: State, L: seq<int>, n: nat)
    requires n <= |L| && Known(st, L)
    ensures var s := NewUpTo(st, L, n);
            && s.nKey == st.nKey && s.nNew == st.nNew && s.nTried == st.nTried && s.vvNew == map[] && s.vvTried == map[]
            && (forall k :: k in s.mapInfo <==> 0 <= k < n)
            && (forall k :: 0 <= k < n ==> s.mapInfo[k] == Reloaded(st.mapInfo[L[k]], k, false, 0))
            && |s.vRandom| == n && (forall k :: 0 <= k < n ==> s.vRandom[k] == k)
  {
    if n > 0 { NewUpToIs(st, L, n - 1); }
  }

  lemma {:induction false} TriedUpToIs(env: Env, st: State, L: seq<int>, K: seq<int>, k: nat)
    requires k <= |K| && Known(st, L) && Known(st, K)
    ensures var s := TriedUpTo(env, st, L, K, k);
            && s.nKey == st.nKey && s.nNew == st.nNew && s.nTried == st.nTried && s.vvNew == map[] && s.nIdCount == |L| + k
            && (forall i :: i in s.mapInfo <==> 0 <= i < |L| + k)
            && (forall i :: 0 <= i < |L| ==> s.mapInfo[i] == Reloaded(st.mapInfo[L[i]], i, false, 0))
            && (forall j :: 0 <= j < k ==> s.mapInfo[|L| + j] == Reloaded(st.mapInfo[K[j]], |L| + j, true, 0))
            && |s.vRandom| == |L| + k && (forall i :: 0 <= i < |L| + k ==> s.vRandom[i] == i)
  {
    hide Env.TriedSlot, NewUpTo, Reloaded, TriedSlots, Numbered;
    if k == 0 { NewUpToIs(st, L, |L|); } else { TriedUpToIs(env, st, L, K, k - 1); }
  }

  lemma TriedTableIs(env: Env, st: State, L: seq<int>, K: seq<int>, k: nat)
    requires k <= |K| && Known(st, L) && Known(st, K)
    ensures TriedUpTo(env, st, L, K, k).vvTried == Numbered(TriedSlots(env, st, K), |L|, k)
  {
    NewUpToIs(st, L, |L|);
  }

  lemma TriedSlotsApart(env: Env, st: State, K: seq<int>)
    requires TriedOk(env, st) && Distinct(K) && forall i :: 0 <= i < |K| ==> K[i] in st.mapInfo && st.mapInfo[K[i]].fInTried
    ensures Apart(TriedSlots(env, st, K))
  {
    hide Env.TriedSlot;
  }

  // ---- Reading back the entries ----

  lemma {:induction false} RecordsFrom(m: map<int, AddrInfo>, ids: seq<int>, n: nat)
    requires n < |ids| && forall i :: 0 <= i < |ids| ==> ids[i] in m
    ensures Records(m, ids[n..]) == [RecordOf(m[ids[n]])] + Records(m, ids[n + 1..])
  {
    assert ids[n..][1..] == ids[n + 1..];
  }

  lemma {:induction false} ReadsNew(env: Env, st: State, L: seq<int>, n: nat, rest: seq<Token>)
    requires n <= |L| && Known(st, L) && |L| == st.nNew
    ensures ReadNew(env, NewUpTo(st, L, n), n, Format(1, NEW_BUCKET_COUNT), Records(st.mapInfo, L[n..]) + rest)
         == Some((NewUpTo(st, L, |L|), rest))
    decreases |L| - n
  {
    NewUpToIs(st, L, n);
    if n == |L| {
      assert Records(st.mapInfo, L[n..]) + rest == rest;
    } else {
      RecordsFrom(st.mapInfo, L, n);
      var s := Records(st.mapInfo, L[n..]) + rest;
      assert s[1..] == Records(st.mapInfo, L[n + 1..]) + rest;
      assert LoadedNew(env, NewUpTo(st, L, n), n, s[0], Format(1, NEW_BUCKET_COUNT)) == NewUpTo(st, L, n + 1);
      ReadsNew(env, st, L, n + 1, rest);
    }
  }

  lemma LoadsTried(env: Env, st: State, L: seq<int>, K: seq<int>, k: nat)
    requires k < |K| && Known(st, L) && Known(st, K) && Apart(TriedSlots(env, st, K))
    ensures LoadedTried(env, TriedUpTo(env, st, L, K, k), RecordOf(st.mapInfo[K[k]])) == TriedUpTo(env, st, L, K, k + 1)
  {
    TriedUpToIs(env, st, L, K, k);
    TriedTableIs(env, st, L, K, k);
    NumberedAt(TriedSlots(env, st, K), |L|, k, k);
    hide Env.TriedSlot, NewUpTo, Apart, Known, Numbered;
    var s := TriedUpTo(env, st, L, K, k);
    assert env.TriedSlot(st.nKey, st.Service(K[k])) !in s.vvTried;
    assert s.vvTried[env.TriedSlot(st.nKey, st.Service(K[k])) := |L| + k] == Numbered(TriedSlots(env, st, K), |L|, k + 1)
    by { NumberedNext(TriedSlots(env, st, K), |L|, k); }
  }

  lemma NumberedNext(slots: seq<Slot>, first: int, k: nat)
    requires k < |slots|
    ensures Numbered(slots, first, k + 1) == Numbered(slots, first, k)[slots[k] := first + k]
  {
  }

  lemma {:induction false} ReadsTried(env: Env, st: State, L: seq<int>, K: seq<int>, k: nat, rest: seq<Token>)
    requires k <= |K| && Known(st, L) && Known(st, K) && Apart(TriedSlots(env, st, K))
    ensures ReadTried(env, TriedUpTo(env, st, L, K, k), |K| - k, Records(st.mapInfo, K[k..]) + rest)
         == Some((TriedUpTo(env, st, L, K, |K|), rest))
    decreases |K| - k
  {
    hide Env.TriedSlot, TriedUpTo, LoadedTried, Apart;
    if k == |K| {
      assert Records(st.mapInfo, K[k..]) + rest == rest;
    } else {
      RecordsFrom(st.mapInfo, K, k);
      var s := Records(st.mapInfo, K[k..]) + rest;
      assert s[0] == RecordOf(st.mapInfo[K[k]]) && s[1..] == Records(st.mapInfo, K[k + 1..]) + rest;
      LoadsTried(env, st, L, K, k);
      ReadsTried(env, st, L, K, k + 1, rest);
    }
  }

  // ---- Reading back the buckets ----

  ghost predicate Before(s: Slot, b: nat, p: nat) { s.0 < b || (s.0 == b && s.1 < p) }

  ghost function SlotsBefore(table: Table, id: int, b: nat, p: nat): set<Slot>
  {
    set s <- table | table[s] == id && Before(s, b, p)
  }

  /** The new table as far as it has been read: the slots before (b, p), renumbered. */
  ghost function TableBefore(st: State, b: nat, p: nat): Table
  {
    map s <- st.vvNew | Before(s, b, p) :: Index(st.mapInfo, st.vvNew[s])
  }

  ghost function InfosBefore(st: State, infos: map<int, AddrInfo>, L: seq<int>, b: nat, p: nat): map<int, AddrInfo>
  {
    map k <- infos :: infos[k].(nRefCount := if 0 <= k < |L| then |SlotsBefore(st.vvNew, L[k], b, p)| else 0)
  }

  ghost function Filled(st: State, base: State, L: seq<int>, b: nat, p: nat): State
  {
    base.(vvNew := TableBefore(st, b, p), mapInfo := InfosBefore(st, base.mapInfo, L, b, p))
  }

  /** What the buckets are read onto: the entries of the list, without references. */
  ghost predicate Ready(env: Env, st: State, base: State, L: seq<int>)
  {
    && Valid(env, st) && L == NewList(st.mapInfo, st.nIdCount)
    && base.nKey == st.nKey && base.nNew == |L|
    && (forall i :: 0 <= i < |L| ==> L[i] in st.mapInfo && i in base.mapInfo
                                     && base.mapInfo[i].address.service == st.mapInfo[L[i]].address.service)
  }

  lemma SlotsBeforeNext(table: Table, id: int, b: nat, p: nat)
    ensures (b, p) !in SlotsBefore(table, id, b, p)
    ensures SlotsBefore(table, id, b, p + 1)
         == if (b, p) in table && table[(b, p)] == id then SlotsBefore(table, id, b, p) + {(b, p)} else SlotsBefore(table, id, b, p)
    ensures SlotsBefore(table, id, b, p) <= Slots(table, id)
    ensures (b, p) in table && table[(b, p)] == id ==> (b, p) in Slots(table, id)
  {
  }

  lemma TableBeforeNext(st: State, b: nat, p: nat)
    ensures (b, p) !in TableBefore(st, b, p)
    ensures TableBefore(st, b, p + 1)
         == if (b, p) in st.vvNew then TableBefore(st, b, p)[(b, p) := Index(st.mapInfo, st.vvNew[(b, p)])] else TableBefore(st, b, p)
  {
    hide Index;
  }

  /** Where an occupied slot comes in: its entry is in the list and has room for one more reference. */
  lemma SlotComesIn(env: Env, st: State, base: State, L: seq<int>, b: nat, p: nat)
    requires Ready(env, st, base, L) && (b, p) in st.vvNew
    ensures var id := st.vvNew[(b, p)];
            var k := Index(st.mapInfo, id);
            && k < |L| && L[k] == id
            && |SlotsBefore(st.vvNew, id, b, p)| < NEW_BUCKETS_PER_ADDRESS
            && env.NewSlot(base.nKey, base.Service(k), b) == (b, p)
            && (forall j :: 0 <= j < |L| && j != k ==> L[j] != id)
  {
    hide Slots, SlotsBefore, NewList, Index, Env.NewSlot, AddrOk, RandOk, TriedOk, StampOk, NewOk;
    var id := st.vvNew[(b, p)];
    SlotIsKnown(env, st, (b, p));
    NewListAll(st.mapInfo, st.nIdCount);
    SlotsBeforeNext(st.vvNew, id, b, p);
    Subset(SlotsBefore(st.vvNew, id, b, p) + {(b, p)}, Slots(st.vvNew, id));
    IndexIsPlace(st.mapInfo, st.nIdCount, id);
  }

  lemma {:induction false} Subset<T>(a: set<T>, b: set<T>)
    requires a <= b
    ensures |a| <= |b|
  {
    if a != {} {
      var x :| x in a;
      Subset(a - {x}, b - {x});
    }
  }

  lemma InfosStay(st: State, infos: map<int, AddrInfo>, L: seq<int>, b: nat, p: nat)
    requires (b, p) !in st.vvNew
    ensures InfosBefore(st, infos, L, b, p + 1) == InfosBefore(st, infos, L, b, p)
  {
    hide SlotsBefore;
    forall k | 0 <= k < |L| ensures SlotsBefore(st.vvNew, L[k], b, p + 1) == SlotsBefore(st.vvNew, L[k], b, p) {
      SlotsBeforeNext(st.vvNew, L[k], b, p);
    }
  }

  lemma InfosGrow(st: State, infos: map<int, AddrInfo>, L: seq<int>, b: nat, p: nat, i: nat)
    requires (b, p) in st.vvNew && i < |L| && i in infos && L[i] == st.vvNew[(b, p)]
    requires forall j :: 0 <= j < |L| && j != i ==> L[j] != st.vvNew[(b, p)]
    ensures var f := InfosBefore(st, infos, L, b, p);
            && f.Keys == infos.Keys
            && f[i] == infos[i].(nRefCount := |SlotsBefore(st.vvNew, L[i], b, p)|)
            && InfosBefore(st, infos, L, b, p + 1) == f[i := f[i].(nRefCount := f[i].nRefCount + 1)]
  {
    hide SlotsBefore;
    forall k | 0 <= k < |L|
      ensures |SlotsBefore(st.vvNew, L[k], b, p + 1)| == |SlotsBefore(st.vvNew, L[k], b, p)| + if k == i then 1 else 0
    {
      SlotsBeforeNext(st.vvNew, L[k], b, p);
    }
  }

  lemma FilledNext(env: Env, st: State, base: State, L: seq<int>, b: nat, p: nat)
    requires Ready(env, st, base, L)
    ensures Filled(st, base, L, b, p + 1)
         == if (b, p) in st.vvNew
            then LoadedIndex(env, Filled(st, base, L, b, p), b, Index(st.mapInfo, st.vvNew[(b, p)]), Format(1, NEW_BUCKET_COUNT))
            else Filled(st, base, L, b, p)
  {
    hide Valid, Index, NewList, SlotsBefore, TableBefore, Env.NewSlot, Slots, InfosBefore;
    TableBeforeNext(st, b, p);
    if (b, p) in st.vvNew {
      SlotComesIn(env, st, base, L, b, p);
      InfosGrow(st, base.mapInfo, L, b, p, Index(st.mapInfo, st.vvNew[(b, p)]));
    } else {
      InfosStay(st, base.mapInfo, L, b, p);
    }
  }

  /** Reading the list of a bucket brings in its slots, position by position. */
  lemma {:induction false} LoadsBucket(env: Env, st: State, base: State, L: seq<int>, b: nat, p: nat)
    requires Ready(env, st, base, L)
    ensures LoadedIndices(env, Filled(st, base, L, b, 0), b, Indices(st.mapInfo, BucketIds(st.vvNew, b, p)), Format(1, NEW_BUCKET_COUNT))
         == Filled(st, base, L, b, p)
  {
    hide Ready, Index, LoadedIndex, Filled;
    if p > 0 {
      LoadsBucket(env, st, base, L, b, p - 1);
      FilledNext(env, st, base, L, b, p - 1);
      if (b, p - 1) in st.vvNew {
        var before, now := BucketIds(st.vvNew, b, p - 1), BucketIds(st.vvNew, b, p);
        var ns := Indices(st.mapInfo, now);
        assert |ns| == |before| + 1 && ns[|ns| - 1] == Index(st.mapInfo, st.vvNew[(b, p - 1)]);
        assert ns[..|ns| - 1] == Indices(st.mapInfo, before);
      } else {
        assert BucketIds(st.vvNew, b, p) == BucketIds(st.vvNew, b, p - 1);
      }
    }
  }

  lemma BucketEnds(env: Env, st: State, base: State, L: seq<int>, b: nat)
    requires NewOk(env, st)
    ensures Filled(st, base, L, b, BUCKET_SIZE) == Filled(st, base, L, b + 1, 0)
  {
    forall s | s in st.vvNew ensures Before(s, b, BUCKET_SIZE) <==> Before(s, b + 1, 0) { SlotIsKnown(env, st, s); }
    assert TableBefore(st, b, BUCKET_SIZE) == TableBefore(st, b + 1, 0);
    forall k ensures SlotsBefore(st.vvNew, k, b, BUCKET_SIZE) == SlotsBefore(st.vvNew, k, b + 1, 0) { }
  }

  lemma {:induction false} TakesInts(ns: seq<int>, rest: seq<Token>)
    ensures TakeInts(Ints(ns) + rest, |ns|) == Some((ns, rest))
  {
    if ns == [] {
      assert Ints(ns) + rest == rest;
    } else {
      TakesInts(ns[1..], rest);
      assert (Ints(ns) + rest)[1..] == Ints(ns[1..]) + rest;
      assert [ns[0]] + ns[1..] == ns;
    }
  }

  lemma {:induction false} ReadsBuckets(env: Env, st: State, base: State, L: seq<int>, b: nat)
    requires Ready(env, st, base, L) && b <= NEW_BUCKET_COUNT
    ensures ReadBuckets(env, Filled(st, base, L, b, 0), b, Format(1, NEW_BUCKET_COUNT), BucketsFrom(st, b))
         == Some((Filled(st, base, L, NEW_BUCKET_COUNT, 0), []))
    decreases NEW_BUCKET_COUNT - b
  {
    hide Ready, Filled, LoadedIndices, BucketIds, TakeInts, BucketsFrom, Ints, Indices, Index, ReadBuckets;
    if b < NEW_BUCKET_COUNT {
      ReadyNew(env, st, base, L);
      var ns := Indices(st.mapInfo, BucketIds(st.vvNew, b, BUCKET_SIZE));
      BucketsUnfold(st, b);
      TakesInts(ns, BucketsFrom(st, b + 1));
      ReadUnfold(env, Filled(st, base, L, b, 0), b, Format(1, NEW_BUCKET_COUNT), ns, BucketsFrom(st, b + 1));
      LoadsBucket(env, st, base, L, b, BUCKET_SIZE);
      BucketEnds(env, st, base, L, b);
      ReadsBuckets(env, st, base, L, b + 1);
    } else {
      BucketsDone(env, Filled(st, base, L, b, 0), st, Format(1, NEW_BUCKET_COUNT));
    }
  }

  lemma BucketsUnfold(st: State, b: nat)
    requires b < NEW_BUCKET_COUNT
    ensures var ns := Indices(st.mapInfo, BucketIds(st.vvNew, b, BUCKET_SIZE));
            BucketsFrom(st, b) == [Int(|ns|)] + (Ints(ns) + BucketsFrom(st, b + 1))
  {
    hide BucketIds, Index;
  }

  lemma BucketsDone(env: Env, cur: State, st: State, format: Format)
    requires format.buckets == NEW_BUCKET_COUNT
    ensures BucketsFrom(st, NEW_BUCKET_COUNT) == []
    ensures ReadBuckets(env, cur, NEW_BUCKET_COUNT, format, []) == Some((cur, []))
  {
  }

  lemma ReadUnfold(env: Env, cur: State, b: nat, format: Format, ns: seq<int>, rest: seq<Token>)
    requires b < format.buckets && TakeInts(Ints(ns) + rest, |ns|) == Some((ns, rest))
    ensures ReadBuckets(env, cur, b, format, [Int(|ns|)] + (Ints(ns) + rest))
         == ReadBuckets(env, LoadedIndices(env, cur, b, ns, format), b + 1, format, rest)
  {
    hide LoadedIndices, TakeInts;
    assert ([Int(|ns|)] + (Ints(ns) + rest))[1..] == Ints(ns) + rest;
  }

  lemma ReadyNew(env: Env, st: State, base: State, L: seq<int>)
    requires Ready(env, st, base, L)
    ensures NewOk(env, st)
  {
  }

  // ---- The manager that comes back ----

  /** An order of the ids: the place of an id in it is its new id. */
  function Order(st: State): seq<int>
    requires st.nIdCount >= 0
  {
    NewList(st.mapInfo, st.nIdCount) + TriedList(st.mapInfo, st.nIdCount)
  }

  /** One table holds the new ids where the other holds the old ones. */
  ghost predicate SameTable<K>(t: map<K, int>, u: map<K, int>, order: seq<int>)
  {
    t.Keys == u.Keys && forall k <- t :: 0 <= u[k] < |order| && order[u[k]] == t[k]
  }

  /**
    r is st with its ids replaced by their places in the order, vRandom in that order, and the
    times of the last tries forgotten.
   */
  ghost predicate Renames(st: State, r: State, order: seq<int>)
  {
    && Distinct(order) && (forall id :: id in order <==> id in st.mapInfo)
    && r.nKey == st.nKey && r.nNew == st.nNew && r.nTried == st.nTried && r.nIdCount == |order|
    && (forall i :: i in r.mapInfo <==> 0 <= i < |order|)
    && (forall i :: 0 <= i < |order| ==>
          var info := st.mapInfo[order[i]]; r.mapInfo[i] == Reloaded(info, i, info.fInTried, info.nRefCount))
    && |r.vRandom| == |order| && (forall i :: 0 <= i < |order| ==> r.vRandom[i] == i)
    && SameTable(st.vvNew, r.vvNew, order) && SameTable(st.vvTried, r.vvTried, order) && SameTable(st.mapAddr, r.mapAddr, order)
  }

  ghost function Renumbered(env: Env, st: State): State
    requires Valid(env, st)
  {
    var L, K := NewList(st.mapInfo, st.nIdCount), TriedList(st.mapInfo, st.nIdCount);
    Filled(st, TriedUpTo(env, st, L, K, |K|), L, NEW_BUCKET_COUNT, 0)
  }

  /** Every address seen so far is mapped to an entry with that address. */
  ghost predicate AddrUpTo(st: State, addr: map<NetAddr, int>, order: seq<int>, n: nat)
    requires n <= |order| && Known(st, order)
  {
    && (forall a <- addr :: 0 <= addr[a] < n && st.mapInfo[order[addr[a]]].Ip() == a)
    && (forall i :: 0 <= i < n ==> st.mapInfo[order[i]].Ip() in addr)
  }

  lemma {:induction false} NewUpToAddr(st: State, L: seq<int>, K: seq<int>, n: nat)
    requires n <= |L| && Known(st, L) && Known(st, K)
    ensures AddrUpTo(st, NewUpTo(st, L, n).mapAddr, L + K, n)
  {
    if n > 0 { NewUpToAddr(st, L, K, n - 1); }
  }

  lemma AddrNext(st: State, addr: map<NetAddr, int>, order: seq<int>, n: nat)
    requires n < |order| && Known(st, order) && AddrUpTo(st, addr, order, n)
    ensures AddrUpTo(st, addr[st.mapInfo[order[n]].Ip() := n], order, n + 1)
  {
  }

  lemma TriedAddrIs(env: Env, st: State, L: seq<int>, K: seq<int>, k: nat)
    requires k <= |K| && Known(st, L) && Known(st, K)
    ensures Known(st, L + K)
    ensures k == 0 ==> TriedUpTo(env, st, L, K, k).mapAddr == NewUpTo(st, L, |L|).mapAddr
    ensures k > 0 ==> && K[k - 1] in st.mapInfo && (L + K)[|L| + k - 1] == K[k - 1]
                      && TriedUpTo(env, st, L, K, k).mapAddr == TriedUpTo(env, st, L, K, k - 1).mapAddr[st.mapInfo[K[k - 1]].Ip() := |L| + k - 1]
  {
    hide NewUpTo, TriedSlots, Numbered, Reloaded;
  }

  lemma {:induction false} TriedUpToAddr(env: Env, st: State, L: seq<int>, K: seq<int>, k: nat)
    requires k <= |K| && Known(st, L) && Known(st, K)
    ensures Known(st, L + K) && AddrUpTo(st, TriedUpTo(env, st, L, K, k).mapAddr, L + K, |L| + k)
  {
    hide NewUpTo, TriedUpTo, AddrUpTo, Known;
    TriedAddrIs(env, st, L, K, k);
    if k == 0 {
      NewUpToAddr(st, L, K, |L|);
    } else {
      TriedUpToAddr(env, st, L, K, k - 1);
      AddrNext(st, TriedUpTo(env, st, L, K, k - 1).mapAddr, L + K, |L| + k - 1);
    }
  }

  lemma AddrMatches(st: State, addr: map<NetAddr, int>, order: seq<int>)
    requires AddrOk(st) && Known(st, order) && (forall id :: id in order <==> id in st.mapInfo)
    requires AddrUpTo(st, addr, order, |order|)
    ensures SameTable(st.mapAddr, addr, order)
  {
    forall a | a in addr ensures a in st.mapAddr && order[addr[a]] == st.mapAddr[a] {
      var id := order[addr[a]];
      assert id in order && st.mapInfo[id].Ip() == a;
    }
    forall a | a in st.mapAddr ensures a in addr {
      var id := st.mapAddr[a];
      assert id in st.mapInfo && id in order;
      var i :| 0 <= i < |order| && order[i] == id;
    }
  }

  lemma TriedComesBack(env: Env, st: State, L: seq<int>, K: seq<int>, s: Slot)
    requires TriedOk(env, st) && Known(st, K) && Apart(TriedSlots(env, st, K)) && (forall id :: id in K <==> id in TriedIds(st)) && s in st.vvTried
    ensures var table := Numbered(TriedSlots(env, st, K), |L|, |K|);
            s in table && 0 <= table[s] < |L + K| && (L + K)[table[s]] == st.vvTried[s]
  {
    hide Env.TriedSlot, Numbered, Apart;
    var id := st.vvTried[s];
    assert id in TriedIds(st) && id in K;
    var j :| 0 <= j < |K| && K[j] == id;
    NumberedAt(TriedSlots(env, st, K), |L|, |K|, j);
  }

  lemma TriedWasThere(env: Env, st: State, L: seq<int>, K: seq<int>, s: Slot)
    requires TriedOk(env, st) && Known(st, K) && (forall i :: 0 <= i < |K| ==> st.mapInfo[K[i]].fInTried)
    requires s in Numbered(TriedSlots(env, st, K), |L|, |K|)
    ensures s in st.vvTried
  {
    hide Env.TriedSlot, Numbered;
    NumberedBack(TriedSlots(env, st, K), |L|, |K|, s);
  }

  lemma TriedMatches(env: Env, st: State, L: seq<int>, K: seq<int>)
    requires TriedOk(env, st) && Known(st, K) && Distinct(K) && (forall id :: id in K <==> id in TriedIds(st))
    ensures SameTable(st.vvTried, Numbered(TriedSlots(env, st, K), |L|, |K|), L + K)
  {
    forall i | 0 <= i < |K| ensures st.mapInfo[K[i]].fInTried { var id := K[i]; assert id in K; }
    TriedSlotsApart(env, st, K);
    hide TriedOk, Numbered, Apart, TriedSlots, Distinct, TriedIds;
    var table := Numbered(TriedSlots(env, st, K), |L|, |K|);
    forall s | s in st.vvTried ensures s in table && 0 <= table[s] < |L + K| && (L + K)[table[s]] == st.vvTried[s] {
      TriedComesBack(env, st, L, K, s);
    }
    forall s | s in table ensures s in st.vvTried { TriedWasThere(env, st, L, K, s); }
  }

  lemma NewMatches(env: Env, st: State, L: seq<int>, K: seq<int>)
    requires NewOk(env, st) && RefOk(st, {}) && IdsOk(st) && L == NewList(st.mapInfo, st.nIdCount)
    ensures SameTable(st.vvNew, TableBefore(st, NEW_BUCKET_COUNT, 0), L + K)
  {
    hide NewList, Index, Slots, NewOk, Env.NewSlot;
    NewListAll(st.mapInfo, st.nIdCount);
    forall s | s in st.vvNew ensures var k := Index(st.mapInfo, st.vvNew[s]);
        Before(s, NEW_BUCKET_COUNT, 0) && k < |L| && L[k] == st.vvNew[s]
    {
      SlotIsKnown(env, st, s);
      SlotCounts(st.vvNew, s);
      IndexIsPlace(st.mapInfo, st.nIdCount, st.vvNew[s]);
    }
  }

  lemma SlotCounts(table: Table, s: Slot)
    requires s in table
    ensures |Slots(table, table[s])| > 0
  {
    assert s in Slots(table, table[s]);
  }

  lemma AllSlotsBefore(env: Env, st: State, id: int)
    requires NewOk(env, st)
    ensures SlotsBefore(st.vvNew, id, NEW_BUCKET_COUNT, 0) == Slots(st.vvNew, id)
  {
    forall s | s in st.vvNew ensures Before(s, NEW_BUCKET_COUNT, 0) { SlotIsKnown(env, st, s); }
  }

  /** The entries of one manager at their places in the order. */
  ghost predicate InfosOk(st: State, infos: map<int, AddrInfo>, order: seq<int>)
  {
    forall i :: 0 <= i < |order| ==>
      && order[i] in st.mapInfo && i in infos
      && infos[i] == Reloaded(st.mapInfo[order[i]], i, st.mapInfo[order[i]].fInTried, st.mapInfo[order[i]].nRefCount)
  }

  lemma InfosMatch(env: Env, st: State, base: State, L: seq<int>, K: seq<int>)
    requires NewOk(env, st) && RefOk(st, {}) && Known(st, L) && Known(st, K)
    requires (forall id :: id in L <==> id in NewIds(st)) && (forall id :: id in K <==> id in TriedIds(st))
    requires forall i :: i in base.mapInfo <==> 0 <= i < |L| + |K|
    requires forall i :: 0 <= i < |L| ==> base.mapInfo[i] == Reloaded(st.mapInfo[L[i]], i, false, 0)
    requires forall j :: 0 <= j < |K| ==> base.mapInfo[|L| + j] == Reloaded(st.mapInfo[K[j]], |L| + j, true, 0)
    ensures InfosOk(st, InfosBefore(st, base.mapInfo, L, NEW_BUCKET_COUNT, 0), L + K)
  {
    hide Slots, SlotsBefore, NewOk;
    var order, infos := L + K, InfosBefore(st, base.mapInfo, L, NEW_BUCKET_COUNT, 0);
    forall i | 0 <= i < |order| ensures
      && order[i] in st.mapInfo && i in infos
      && infos[i] == Reloaded(st.mapInfo[order[i]], i, st.mapInfo[order[i]].fInTried, st.mapInfo[order[i]].nRefCount)
    {
      if i < |L| {
        AllSlotsBefore(env, st, L[i]);
        var id := L[i];
        assert id in L;
      } else {
        var id := K[i - |L|];
        assert id in K;
        assert base.mapInfo[|L| + (i - |L|)] == base.mapInfo[i];
      }
    }
  }

  lemma Concatenated(a: seq<int>, b: seq<int>)
    requires Distinct(a) && Distinct(b) && forall x :: !(x in a && x in b)
    ensures Distinct(a + b) && forall x :: x in a + b <==> x in a || x in b
  {
    forall i, j | 0 <= i < j < |a + b| ensures (a + b)[i] != (a + b)[j] {
      if i < |a| <= j { assert (a + b)[i] in a && (a + b)[j] in b; }
    }
  }

  /** The lists cover the entries and the buckets can be read onto them. */
  lemma Prepared(env: Env, st: State)
    requires Valid(env, st)
    ensures var L, K := NewList(st.mapInfo, st.nIdCount), TriedList(st.mapInfo, st.nIdCount);
            && Known(st, L) && Known(st, K) && |L| == st.nNew && |K| == st.nTried
            && Apart(TriedSlots(env, st, K))
            && Ready(env, st, TriedUpTo(env, st, L, K, |K|), L)
  {
    var L, K := NewList(st.mapInfo, st.nIdCount), TriedList(st.mapInfo, st.nIdCount);
    hide *;
    PartsOfValid(env, st);
    ListsOfValid(env, st);
    ListIsKnown(st, L, K);
    TriedSlotsApart(env, st, K);
    TriedUpToIs(env, st, L, K, |K|);
    ReadyFrom(env, st, TriedUpTo(env, st, L, K, |K|), L);
  }

  lemma ListIsKnown(st: State, L: seq<int>, K: seq<int>)
    requires (forall id :: id in L <==> id in NewIds(st)) && (forall id :: id in K <==> id in TriedIds(st))
    ensures Known(st, L) && Known(st, K)
    ensures forall i :: 0 <= i < |K| ==> K[i] in st.mapInfo && st.mapInfo[K[i]].fInTried
  {
    forall i | 0 <= i < |L| ensures L[i] in st.mapInfo { var id := L[i]; assert id in L; }
    forall i | 0 <= i < |K| ensures K[i] in st.mapInfo && st.mapInfo[K[i]].fInTried { var id := K[i]; assert id in K; }
  }

  lemma ReadyFrom(env: Env, st: State, base: State, L: seq<int>)
    requires Valid(env, st) && L == NewList(st.mapInfo, st.nIdCount) && Known(st, L)
    requires base.nKey == st.nKey && base.nNew == |L|
    requires forall i :: 0 <= i < |L| ==> i in base.mapInfo && base.mapInfo[i] == Reloaded(st.mapInfo[L[i]], i, false, 0)
    ensures Ready(env, st, base, L)
  {
    hide Valid, NewList;
  }

  lemma PartsOfValid(env: Env, st: State)
    requires Valid(env, st)
    ensures IdsOk(st) && AddrOk(st) && RandOk(st) && TriedOk(env, st) && NewOk(env, st) && RefOk(st, {}) && StampOk(st)
  {
  }

  lemma RenumberedRenames(env: Env, st: State)
    requires Valid(env, st)
    ensures Renames(st, Renumbered(env, st), Order(st))
  {
    hide *;
    PartsOfValid(env, st);
    ListsOfValid(env, st);
    Prepared(env, st);
    var L, K := NewList(st.mapInfo, st.nIdCount), TriedList(st.mapInfo, st.nIdCount);
    var base := TriedUpTo(env, st, L, K, |K|);
    TriedUpToIs(env, st, L, K, |K|);
    TriedUpToAddr(env, st, L, K, |K|);
    TriedTableIs(env, st, L, K, |K|);
    OrderCovers(st, L, K);
    AddrMatches(st, base.mapAddr, L + K);
    TriedMatches(env, st, L, K);
    NewMatches(env, st, L, K);
    InfosMatch(env, st, base, L, K);
    RenamesFrom(env, st, L, K);
  }

  lemma OrderCovers(st: State, L: seq<int>, K: seq<int>)
    requires (forall id :: id in L <==> id in NewIds(st)) && (forall id :: id in K <==> id in TriedIds(st))
    requires Distinct(L) && Distinct(K)
    ensures Distinct(L + K) && forall id :: id in L + K <==> id in st.mapInfo
  {
    assert forall x :: !(x in NewIds(st) && x in TriedIds(st));
    Concatenated(L, K);
  }

  lemma RenamesFrom(env: Env, st: State, L: seq<int>, K: seq<int>)
    requires Valid(env, st) && L == NewList(st.mapInfo, st.nIdCount) && K == TriedList(st.mapInfo, st.nIdCount)
    requires Known(st, L) && Known(st, K) && Distinct(L + K) && forall id :: id in L + K <==> id in st.mapInfo
    requires var base := TriedUpTo(env, st, L, K, |K|);
             && base.nKey == st.nKey && base.nNew == st.nNew && base.nTried == st.nTried && base.nIdCount == |L| + |K|
             && (forall i :: i in base.mapInfo <==> 0 <= i < |L| + |K|)
             && |base.vRandom| == |L| + |K| && (forall i :: 0 <= i < |L| + |K| ==> base.vRandom[i] == i)
             && SameTable(st.mapAddr, base.mapAddr, L + K) && SameTable(st.vvTried, base.vvTried, L + K)
             && SameTable(st.vvNew, TableBefore(st, NEW_BUCKET_COUNT, 0), L + K)
             && InfosOk(st, InfosBefore(st, base.mapInfo, L, NEW_BUCKET_COUNT, 0), L + K)
    ensures Renames(st, Renumbered(env, st), Order(st))
  {
    hide TriedUpTo, NewList, TriedList, Valid, SameTable, TableBefore, SlotsBefore, Distinct, Reloaded;
  }

  lemma {:induction false} PrunesNothing(st: State, id: int)
    requires ListOk(st) && AllHeld(st)
    ensures Sound(st) && Pruned(st, id) == st
    decreases if id < st.nIdCount then st.nIdCount - id else 0
  {
    if id < st.nIdCount { PrunesNothing(st, id + 1); }
  }

  lemma NothingFilled(env: Env, st: State, L: seq<int>, K: seq<int>)
    requires Known(st, L) && Known(st, K)
    ensures Filled(st, TriedUpTo(env, st, L, K, |K|), L, 0, 0) == TriedUpTo(env, st, L, K, |K|)
  {
    hide TriedUpTo, Index;
    TriedUpToIs(env, st, L, K, |K|);
    var base := TriedUpTo(env, st, L, K, |K|);
    assert TableBefore(st, 0, 0) == map[];
    forall id ensures SlotsBefore(st.vvNew, id, 0, 0) == {} { }
    forall k | k in base.mapInfo ensures base.mapInfo[k].nRefCount == 0 {
      if k >= |L| {
        var j := k - |L|;
        assert base.mapInfo[|L| + j] == Reloaded(st.mapInfo[K[j]], |L| + j, true, 0);
      }
    }
  }

  /** No entries yet, but the key and the counters that were saved. */
  function Blank(st: State): State { State(st.nKey, 0, map[], map[], [], st.nTried, map[], st.nNew, map[]) }

  lemma HeaderIs(st: State, was: State, s: seq<Token>)
    requires |s| >= 6 && s[..6] == Header(st)
    ensures HeaderShape(s) && FormatOf(s) == Format(1, NEW_BUCKET_COUNT)
    ensures Start(was, s) == Emptied(was, st.nKey).(nNew := st.nNew, nTried := st.nTried)
  {
    assert forall i :: 0 <= i < 6 ==> s[i] == Header(st)[i];
  }

  lemma DumpShape(st: State)
    requires st.nIdCount >= 0
    ensures var s := Dump(st);
            && |s| >= 6 && s[..6] == Header(st)
            && s[6..] == Records(st.mapInfo, NewList(st.mapInfo, st.nIdCount))
                         + (Records(st.mapInfo, TriedList(st.mapInfo, st.nIdCount)) + BucketsFrom(st, 0))
  {
    hide Records, NewList, TriedList, BucketsFrom;
  }

  lemma NothingReadYet(env: Env, st: State, L: seq<int>, K: seq<int>)
    requires Known(st, L) && Known(st, K)
    ensures NewUpTo(st, L, 0) == Blank(st)
    ensures TriedUpTo(env, st, L, K, 0) == NewUpTo(st, L, |L|).(nIdCount := |L|)
    ensures L[0..] == L && K[0..] == K
  {
  }

  lemma NothingToPrune(env: Env, st: State, r: State, order: seq<int>)
    requires Valid(env, st) && Renames(st, r, order)
    ensures RandOk(r) && ListOk(r) && AllHeld(r)
  {
    hide Slots, AddrOk, TriedOk, NewOk, CountsOk, SameTable, Distinct;
    forall i | i in r.mapInfo ensures Held(r.mapInfo[i]) {
      var id := order[i];
      assert id in order;
    }
  }

  /** Reading what was saved gives back the manager, renumbered. */
  lemma ReadsWhatWasSaved(env: Env, st: State)
    requires Valid(env, st)
    ensures var r := Renumbered(env, st);
            && st.nIdCount >= 0 && |Dump(st)| >= 6 && Dump(st)[..6] == Header(st)
            && Read(env, Blank(st), Format(1, NEW_BUCKET_COUNT), Dump(st)[6..]) == Some(r)
            && Renames(st, r, Order(st)) && ListOk(r) && AllHeld(r)
  {
    hide *;
    PartsOfValid(env, st);
    Prepared(env, st);
    assert st.nIdCount >= 0 by { IdCountOk(st); }
    var L, K := NewList(st.mapInfo, st.nIdCount), TriedList(st.mapInfo, st.nIdCount);
    DumpShape(st);
    RenumberedIs(env, st, L, K);
    NothingReadYet(env, st, L, K);
    ReadsNew(env, st, L, 0, Records(st.mapInfo, K) + BucketsFrom(st, 0));
    NewUpToIs(st, L, |L|);
    ReadsTried(env, st, L, K, 0, BucketsFrom(st, 0));
    NothingFilled(env, st, L, K);
    ReadsBuckets(env, st, TriedUpTo(env, st, L, K, |K|), L, 0);
    RenumberedRenames(env, st);
    NothingToPrune(env, st, Renumbered(env, st), Order(st));
    ReadsInTurn(env, st, L, K);
  }

  /** Loading what was saved gives back the manager, renumbered. */
  lemma LoadsWhatWasSaved(env: Env, st: State, key: Key)
    requires Valid(env, st)
    ensures AllHeld(Empty(key)) && Load(env, Empty(key), Dump(st)) == Some(Renumbered(env, st))
  {
    hide Valid, Dump, Renumbered, Read, Renames, HeaderShape, FormatOf, Start, Order, Pruned, ListOk, Header;
    ReadsWhatWasSaved(env, st);
    HeaderIs(st, Empty(key), Dump(st));
    PrunesNothing(Renumbered(env, st), 0);
  }

  lemma RenumberedIs(env: Env, st: State, L: seq<int>, K: seq<int>)
    requires Valid(env, st) && L == NewList(st.mapInfo, st.nIdCount) && K == TriedList(st.mapInfo, st.nIdCount)
    requires Known(st, L) && Known(st, K)
    ensures 0 <= NEW_BUCKET_COUNT && Renumbered(env, st) == Filled(st, TriedUpTo(env, st, L, K, |K|), L, NEW_BUCKET_COUNT, 0)
  {
    hide NewList, TriedList, Filled, TriedUpTo, Valid;
  }

  lemma IdCountOk(st: State)
    requires IdsOk(st)
    ensures st.nIdCount >= 0
  {
  }

  lemma ReadsInTurn(env: Env, st: State, L: seq<int>, K: seq<int>)
    requires Valid(env, st) && L == NewList(st.mapInfo, st.nIdCount) && K == TriedList(st.mapInfo, st.nIdCount)
    requires Known(st, L) && Known(st, K) && |L| == st.nNew && |K| == st.nTried
    requires NewUpTo(st, L, |L|).nNew == st.nNew && NewUpTo(st, L, |L|).nTried == st.nTried
    requires |Dump(st)| >= 6
    requires ReadNew(env, Blank(st), 0, Format(1, NEW_BUCKET_COUNT), Dump(st)[6..])
             == Some((NewUpTo(st, L, |L|), Records(st.mapInfo, K) + BucketsFrom(st, 0)))
    requires ReadTried(env, NewUpTo(st, L, |L|).(nIdCount := |L|), |K|, Records(st.mapInfo, K) + BucketsFrom(st, 0))
             == Some((TriedUpTo(env, st, L, K, |K|), BucketsFrom(st, 0)))
    requires ReadBuckets(env, TriedUpTo(env, st, L, K, |K|), 0, Format(1, NEW_BUCKET_COUNT), BucketsFrom(st, 0))
             == Some((Renumbered(env, st), []))
    ensures Read(env, Blank(st), Format(1, NEW_BUCKET_COUNT), Dump(st)[6..]) == Some(Renumbered(env, st))
  {
    hide ReadNew, ReadTried, ReadBuckets, Renumbered, Dump, BucketsFrom, Records, NewUpTo, TriedUpTo, Valid, Blank;
  }

  // ---- The manager that comes back is valid ----

  lemma {:induction false} SameSize(a: set<int>, b: set<int>, order: seq<int>)
    requires Distinct(order) && (forall i <- a :: 0 <= i < |order| && order[i] in b)
    requires forall x <- b :: exists i :: 0 <= i < |order| && order[i] == x && i in a
    ensures |a| == |b|
    decreases a
  {
    if i :| i in a {
      forall x | x in b - {order[i]} ensures exists j :: 0 <= j < |order| && order[j] == x && j in a - {i} {
        var j :| 0 <= j < |order| && order[j] == x && j in a;
        assert j in a - {i};
      }
      SameSize(a - {i}, b - {order[i]}, order);
    } else {
      assert forall i :: i !in a;
      assert a == {};
      assert forall x :: x !in b;
    }
  }

  lemma PlaceOf(order: seq<int>, id: int) returns (i: int)
    requires id in order
    ensures 0 <= i < |order| && order[i] == id
  {
    i :| 0 <= i < |order| && order[i] == id;
  }

  lemma RenamedAddr(st: State, r: State, order: seq<int>)
    requires AddrOk(st) && Renames(st, r, order)
    ensures AddrOk(r)
  {
    forall i | i in r.mapInfo ensures r.mapInfo[i].Ip() in r.mapAddr && r.mapAddr[r.mapInfo[i].Ip()] == i {
      var id := order[i];
      assert id in order;
    }
    forall a | a in r.mapAddr ensures r.mapAddr[a] in r.mapInfo && r.mapInfo[r.mapAddr[a]].Ip() == a {
      assert a in st.mapAddr;
    }
  }

  lemma RenamedTried(env: Env, st: State, r: State, order: seq<int>)
    requires TriedOk(env, st) && Renames(st, r, order)
    ensures TriedOk(env, r)
  {
    hide Env.TriedSlot;
    forall i | i in r.mapInfo && r.mapInfo[i].fInTried
      ensures var s := env.TriedSlot(r.nKey, r.Service(i)); s in r.vvTried && r.vvTried[s] == i
    {
      var id := order[i];
      assert id in order;
    }
    forall s | s in r.vvTried ensures r.vvTried[s] in r.mapInfo && r.mapInfo[r.vvTried[s]].fInTried
                                      && s == env.TriedSlot(r.nKey, r.Service(r.vvTried[s]))
    {
      assert s in st.vvTried;
    }
  }

  lemma RenamedNew(env: Env, st: State, r: State, order: seq<int>)
    requires NewOk(env, st) && Renames(st, r, order)
    ensures NewOk(env, r)
  {
    hide Env.NewSlot;
    forall s | s in r.vvNew
      ensures s.0 < NEW_BUCKET_COUNT && r.vvNew[s] in r.mapInfo && !r.mapInfo[r.vvNew[s]].fInTried
              && s == env.NewSlot(r.nKey, r.Service(r.vvNew[s]), s.0)
    {
      assert s in st.vvNew;
    }
  }

  lemma RenamedSlots(st: State, r: State, order: seq<int>, i: int)
    requires Renames(st, r, order) && 0 <= i < |order|
    ensures Slots(r.vvNew, i) == Slots(st.vvNew, order[i])
  {
    forall s ensures s in Slots(r.vvNew, i) <==> s in Slots(st.vvNew, order[i]) {
      assert s in r.vvNew.Keys <==> s in st.vvNew.Keys;
    }
  }

  lemma RenamedRef(st: State, r: State, order: seq<int>)
    requires RefOk(st, {}) && Renames(st, r, order)
    ensures RefOk(r, {})
  {
    hide Slots, SameTable;
    forall i | i in r.mapInfo
      ensures r.mapInfo[i].nRefCount == |Slots(r.vvNew, i)| <= NEW_BUCKETS_PER_ADDRESS
      ensures r.mapInfo[i].nRefCount == 0 <==> r.mapInfo[i].fInTried
    {
      var id := order[i];
      assert id in order;
      RenamedSlots(st, r, order, i);
    }
  }

  lemma RenamedStamp(st: State, r: State, order: seq<int>)
    requires StampOk(st) && Renames(st, r, order)
    ensures StampOk(r) && IdsOk(r)
  {
    hide SameTable;
    forall i | i in r.mapInfo ensures r.mapInfo[i].nLastSuccess >= 0 && (r.mapInfo[i].fInTried ==> r.mapInfo[i].nLastSuccess != 0) {
      var id := order[i];
      assert id in order;
    }
  }

  lemma RenamedCounts(st: State, r: State, order: seq<int>)
    requires CountsOk(st, 0) && Renames(st, r, order)
    ensures CountsOk(r, 0)
  {
    hide SameTable;
    forall i | i in r.mapInfo ensures order[i] in st.mapInfo && r.mapInfo[i].fInTried == st.mapInfo[order[i]].fInTried {
      var id := order[i];
      assert id in order;
    }
    forall id | id in st.mapInfo
      ensures exists i :: 0 <= i < |order| && order[i] == id && i in r.mapInfo && r.mapInfo[i].fInTried == st.mapInfo[id].fInTried
    {
      var i := PlaceOf(order, id);
    }
    hide Renames, Distinct;
    forall id | id in NewIds(st) ensures exists i :: 0 <= i < |order| && order[i] == id && i in NewIds(r) {
      assert id in st.mapInfo;
    }
    forall id | id in TriedIds(st) ensures exists i :: 0 <= i < |order| && order[i] == id && i in TriedIds(r) {
      assert id in st.mapInfo;
    }
    SameSize(NewIds(r), NewIds(st), order);
    SameSize(TriedIds(r), TriedIds(st), order);
  }

  /** Renumbering keeps a manager valid. */
  lemma RenamedIsValid(env: Env, st: State, r: State, order: seq<int>)
    requires Valid(env, st) && Renames(st, r, order)
    ensures Valid(env, r)
  {
    hide *;
    PartsOfValid(env, st);
    NothingToPrune(env, st, r, order);
    RenamedAddr(st, r, order);
    RenamedTried(env, st, r, order);
    RenamedNew(env, st, r, order);
    RenamedRef(st, r, order);
    RenamedStamp(st, r, order);
    assert CountsOk(st, 0) by { CountsOfValid(env, st); }
    RenamedCounts(st, r, order);
    ValidFrom(env, r);
  }

  lemma CountsOfValid(env: Env, st: State)
    requires Valid(env, st)
    ensures CountsOk(st, 0)
  {
  }

  lemma ValidFrom(env: Env, r: State)
    requires IdsOk(r) && AddrOk(r) && RandOk(r) && TriedOk(env, r) && NewOk(env, r) && RefOk(r, {}) && StampOk(r) && CountsOk(r, 0)
    ensures Valid(env, r)
  {
  }

  /** Saving and loading a valid manager gives a valid manager with the same entries, tables and counts. */
  lemma SaveLoadRoundTrip(env: Env, st: State, key: Key)
    requires Valid(env, st)
    ensures AllHeld(Empty(key))
    ensures var r := Load(env, Empty(key), Dump(st));
            r.Some? && Valid(env, r.value) && Renames(st, r.value, Order(st))
  {
    hide *;
    LoadsWhatWasSaved(env, st, key);
    RenumberedRenames(env, st);
    assert st.nIdCount >= 0 by { PartsOfValid(env, st); IdCountOk(st); }
    RenamedIsValid(env, st, Renumbered(env, st), Order(st));
  }
}
