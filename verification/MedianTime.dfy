/**
  Median time past: the median of the times of the last eleven blocks. If every block is later than
  the median of its parent, the median never decreases along a branch.
 */
module MedianTime {
  import opened BlockTree

  const MEDIAN_TIME_SPAN := 11

  // ---- Sorting and counting ----

  predicate IsSorted(s: seq<int>) { forall i, j :: 0 <= i <= j < |s| ==> s[i] <= s[j] }

  function Insert(x: int, s: seq<int>): (r: seq<int>)
    ensures |r| == |s| + 1
  {
    if s == [] || x <= s[0] then [x] + s else [s[0]] + Insert(x, s[1..])
  }

  function Sort(s: seq<int>): (r: seq<int>)
    ensures |r| == |s|
  {
    if s == [] then [] else Insert(s[0], Sort(s[1..]))
  }

  lemma {:induction false} InsertFrom(x: int, s: seq<int>, low: int)
    requires low <= x && forall i :: 0 <= i < |s| ==> low <= s[i]
    ensures forall i :: 0 <= i < |Insert(x, s)| ==> low <= Insert(x, s)[i]
  {
    if s != [] && x > s[0] { InsertFrom(x, s[1..], low); }
  }

  lemma {:induction false} InsertSorts(x: int, s: seq<int>)
    requires IsSorted(s)
    ensures IsSorted(Insert(x, s))
  {
    if s != [] && x > s[0] {
      InsertSorts(x, s[1..]);
      InsertFrom(x, s[1..], s[0]);
    }
  }

  lemma {:induction false} SortSorts(s: seq<int>)
    ensures IsSorted(Sort(s))
  {
    if s != [] {
      SortSorts(s[1..]);
      InsertSorts(s[0], Sort(s[1..]));
    }
  }

  function Median(s: seq<int>): int
    requires s != []
  {
    Sort(s)[|s| / 2]
  }

  /** How many are at least m. */
  function CountFrom(s: seq<int>, m: int): (n: nat)
    ensures n <= |s|
  {
    if s == [] then 0 else CountFrom(s[1..], m) + if s[0] >= m then 1 else 0
  }

  lemma {:induction false} CountInsert(x: int, s: seq<int>, m: int)
    ensures CountFrom(Insert(x, s), m) == CountFrom(s, m) + if x >= m then 1 else 0
  {
    if s != [] && x > s[0] {
      CountInsert(x, s[1..], m);
      assert ([s[0]] + Insert(x, s[1..]))[1..] == Insert(x, s[1..]);
    } else {
      assert ([x] + s)[1..] == s;
    }
  }

  /** Sorting keeps every count, so it rearranges. */
  lemma {:induction false} CountSort(s: seq<int>, m: int)
    ensures CountFrom(Sort(s), m) == CountFrom(s, m)
  {
    if s != [] {
      CountSort(s[1..], m);
      CountInsert(s[0], Sort(s[1..]), m);
    }
  }

  lemma {:induction false} CountSplit(s: seq<int>, k: nat, m: int)
    requires k <= |s|
    ensures CountFrom(s, m) == CountFrom(s[..k], m) + CountFrom(s[k..], m)
  {
    if k > 0 {
      CountSplit(s[1..], k - 1, m);
      assert s[..k][1..] == s[1..][..k - 1] && s[k..] == s[1..][k - 1..];
    } else {
      assert s[..0] == [] && s[0..] == s;
    }
  }

  lemma {:induction false} CountAll(s: seq<int>, m: int)
    requires forall i :: 0 <= i < |s| ==> s[i] >= m
    ensures CountFrom(s, m) == |s|
  {
    if s != [] { CountAll(s[1..], m); }
  }

  lemma {:induction false} CountNone(s: seq<int>, m: int)
    requires forall i :: 0 <= i < |s| ==> s[i] < m
    ensures CountFrom(s, m) == 0
  {
    if s != [] { CountNone(s[1..], m); }
  }

  /** The median reaches m exactly if the upper half does. */
  lemma MedianReaches(s: seq<int>, m: int)
    requires s != []
    ensures Median(s) >= m <==> CountFrom(s, m) >= |s| - |s| / 2
  {
    hide Insert;
    var t, k := Sort(s), |s| / 2;
    SortSorts(s);
    CountSort(s, m);
    if t[k] >= m {
      CountSplit(t, k, m);
      CountAll(t[k..], m);
    } else {
      CountSplit(t, k + 1, m);
      CountNone(t[..k + 1], m);
    }
  }

  // ---- Windows of blocks ----

  /** The times of the last n blocks, or of all if there are fewer. */
  ghost function Window(b: BlockIndex, n: nat): (s: seq<int>)
    requires Rooted(b)
    ensures |s| <= n && (n > 0 ==> s != [])
  {
    if n == 0 then [] else [b.nTime] + if b.pprev == null then [] else Window(b.pprev, n - 1)
  }

  ghost function MedianTimePast(b: BlockIndex): int
    requires Rooted(b)
  {
    Median(Window(b, MEDIAN_TIME_SPAN))
  }

  /** The window holds the times of the last blocks, newest first. */
  lemma {:induction false} WindowIs(b: BlockIndex, n: nat)
    requires Rooted(b)
    ensures |Window(b, n)| == if n <= b.nHeight then n else b.nHeight + 1
    ensures forall i :: 0 <= i < |Window(b, n)| ==> Window(b, n)[i] == Ancestor(b, b.nHeight - i).nTime
    decreases n
  {
    if n > 0 && b.pprev != null {
      WindowIs(b.pprev, n - 1);
      var rest := Window(b.pprev, n - 1);
      assert Window(b, n) == [b.nTime] + rest;
      forall i | 0 <= i < |Window(b, n)| ensures Window(b, n)[i] == Ancestor(b, b.nHeight - i).nTime {
        if i > 0 { assert Window(b, n)[i] == rest[i - 1]; }
      }
    }
  }

  /** How many of the last n blocks are not earlier than m. */
  ghost function LateBlocks(b: BlockIndex, n: nat, m: int): set<int>
    requires Rooted(b)
  {
    set h | 0 <= h <= b.nHeight && b.nHeight - n < h && Ancestor(b, h).nTime >= m
  }

  lemma {:induction false} LateIsCount(b: BlockIndex, n: nat, m: int)
    requires Rooted(b)
    ensures CountFrom(Window(b, n), m) == |LateBlocks(b, n, m)|
    decreases n
  {
    if n == 0 {
      assert LateBlocks(b, 0, m) == {};
    } else if b.pprev == null {
      assert LateBlocks(b, n, m) == if b.nTime >= m then {0} else {};
    } else {
      LateIsCount(b.pprev, n - 1, m);
      var below := LateBlocks(b.pprev, n - 1, m);
      assert Window(b, n)[1..] == Window(b.pprev, n - 1);
      assert LateBlocks(b, n, m) == if b.nTime >= m then below + {b.nHeight as int} else below;
    }
  }

  /** From the eleventh block on the median time reaches m exactly if six of the last eleven blocks do. */
  lemma SixOfEleven(b: BlockIndex, m: int)
    requires Rooted(b) && b.nHeight >= 10
    ensures MedianTimePast(b) >= m <==> |LateBlocks(b, 11, m)| >= 6
  {
    hide Median, Window, LateBlocks;
    WindowIs(b, 11);
    LateIsCount(b, 11, m);
    MedianReaches(Window(b, 11), m);
  }

  method GetMedianTimePast(b: BlockIndex) returns (m: int)
    requires Rooted(b)
    ensures m == MedianTimePast(b)
  {
    hide Sort, Insert;
    var times: seq<int> := [];
    var p: BlockIndex?, i := b, 0;
    while i < MEDIAN_TIME_SPAN && p != null
      invariant 0 <= i <= MEDIAN_TIME_SPAN && (p != null ==> Rooted(p))
      invariant times + (if p == null then [] else Window(p, MEDIAN_TIME_SPAN - i)) == Window(b, MEDIAN_TIME_SPAN)
    {
      times := times + [p.nTime];
      p, i := p.pprev, i + 1;
    }
    assert times == Window(b, MEDIAN_TIME_SPAN);
    m := Sort(times)[|times| / 2];
  }

  /** A shorter window is a prefix of a longer one. */
  lemma {:induction false} WindowPrefix(b: BlockIndex, n: nat)
    requires Rooted(b)
    ensures Window(b, n) <= Window(b, n + 1) && |Window(b, n + 1)| <= |Window(b, n)| + 1
    ensures |Window(b, n)| < n ==> Window(b, n + 1) == Window(b, n)
  {
    if n > 0 && b.pprev != null { WindowPrefix(b.pprev, n - 1); }
  }

  /** A time that is not below the median, in place of the oldest time or beside the others, does not lower it. */
  lemma MedianKeeps(before: seq<int>, after: seq<int>, t: int)
    requires before != [] && after != [] && t >= Median(before)
    requires after == [t] + before || (|before| % 2 == 1 && after == [t] + before[..|before| - 1])
    ensures Median(after) >= Median(before)
  {
    hide Median;
    var m := Median(before);
    MedianReaches(before, m);
    MedianReaches(after, m);
    assert after[1..] == before || after[1..] == before[..|before| - 1];
    if after[1..] != before {
      var n := |before| - 1;
      CountSplit(before, n, m);
      assert before[n..] == [before[n]];
    }
  }

  /** Every block is later than the median of its parent, as block validation demands. */
  ghost predicate TimesOk(tree: set<BlockIndex>)
    reads tree
  {
    forall b <- tree :: Rooted(b) && (b.pprev != null ==> b.pprev in tree && b.nTime > MedianTimePast(b.pprev))
  }

  lemma MedianOfChild(b: BlockIndex)
    requires Rooted(b) && b.pprev != null && b.nTime >= MedianTimePast(b.pprev)
    ensures MedianTimePast(b) >= MedianTimePast(b.pprev)
  {
    hide Median;
    var n := MEDIAN_TIME_SPAN;
    var before, after := Window(b.pprev, n), Window(b, n);
    WindowPrefix(b.pprev, n - 1);
    assert after == [b.nTime] + Window(b.pprev, n - 1);
    if |Window(b.pprev, n - 1)| == n - 1 && |before| == n {
      assert Window(b.pprev, n - 1) == before[..n - 1];
    }
    MedianKeeps(before, after, b.nTime);
  }

  /** Along a branch the median time never decreases. */
  lemma {:induction false} MedianNeverDecreases(b: BlockIndex, h: int, tree: set<BlockIndex>)
    requires TimesOk(tree) && b in tree && Rooted(b) && 0 <= h <= b.nHeight
    ensures MedianTimePast(Ancestor(b, h)) <= MedianTimePast(b)
    decreases b.nHeight
  {
    hide Median, Window;
    if h < b.nHeight {
      MedianOfChild(b);
      MedianNeverDecreases(b.pprev, h, tree);
    }
  }
}
