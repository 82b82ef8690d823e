/**
  The tree of block headers, its skip list, and the active chain as a vector indexed by height.
 */
module BlockTree {
  import opened Basics
  import opened Arithmetic
  import opened Limbs

  // ---- Skip heights ----

  function BitAnd(x: nat, y: nat): nat
    decreases x
  {
    if x == 0 || y == 0 then 0 else 2 * BitAnd(x / 2, y / 2) + (if x % 2 == 1 && y % 2 == 1 then 1 else 0)
  }

  /** n & (n - 1), which is 0 for 0. */
  function InvertLowestOne(n: nat): nat { if n == 0 then 0 else BitAnd(n, n - 1) }

  lemma {:induction false} AndBelow(x: nat, y: nat)
    ensures BitAnd(x, y) <= y
  {
    if x > 0 && y > 0 { AndBelow(x / 2, y / 2); }
  }

  function GetSkipHeight(height: nat): (h: nat)
    ensures height > 0 ==> h < height
  {
    if height < 2 then 0
    else if height % 2 == 1 then
      AndBelow(height - 1, height - 2);
      var n := InvertLowestOne(height - 1);
      if n > 0 then AndBelow(n, n - 1); InvertLowestOne(n) + 1 else InvertLowestOne(n) + 1
    else
      AndBelow(height, height - 1);
      InvertLowestOne(height)
  }

  /** For even heights the lowest one bit is cleared: a multiple of a power of two skips that power. */
  lemma {:induction false} LowestOneCleared(k: nat, j: nat)
    ensures InvertLowestOne(Pow2(k) * (2 * j + 1)) == Pow2(k) * (2 * j)
  {
    var n := Pow2(k) * (2 * j + 1);
    if k == 0 {
      assert BitAnd(n / 2, (n - 1) / 2) == j by { AndSame(j); }
    } else {
      LowestOneCleared(k - 1, j);
      var half := Pow2(k - 1) * (2 * j + 1);
      Associate(2, Pow2(k - 1), 2 * j + 1);
      Associate(2, Pow2(k - 1), 2 * j);
      assert n == 2 * half;
      Monotone(1, 2 * j + 1, Pow2(k - 1));
      assert half >= 1 && (n - 1) / 2 == half - 1 && n / 2 == half;
    }
  }

  lemma {:induction false} AndSame(x: nat)
    ensures BitAnd(x, x) == x
  {
    if x > 0 { AndSame(x / 2); }
  }

  lemma SkipOfEven(k: nat, j: nat)
    requires k > 0
    ensures GetSkipHeight(Pow2(k) * (2 * j + 1)) == Pow2(k) * (2 * j)
  {
    var half := Pow2(k - 1) * (2 * j + 1);
    Associate(2, Pow2(k - 1), 2 * j + 1);
    Monotone(1, 2 * j + 1, Pow2(k - 1));
    assert Pow2(k) * (2 * j + 1) == 2 * half && half >= 1;
    LowestOneCleared(k, j);
  }

  // ---- Blocks ----

  class BlockIndex {
    const pprev: BlockIndex?
    const nHeight: nat
    const nTime: int
    const nVersion: int
    var pskip: BlockIndex?

    /** A block is entered under its parent, and then gets its skip pointer. */
    constructor (prev: BlockIndex?, nTime: int, nVersion: int)
      ensures pprev == prev && pskip == null && this.nTime == nTime && this.nVersion == nVersion
      ensures nHeight == if prev == null then 0 else prev.nHeight + 1
    {
      pprev, pskip := prev, null;
      nHeight := if prev == null then 0 else prev.nHeight + 1;
      this.nTime, this.nVersion := nTime, nVersion;
    }

    /** The fast way down: equal to following the parents. */
    method GetAncestor(height: int, ghost tree: set<BlockIndex>) returns (r: BlockIndex?)
      requires this in tree && SkipsOk(tree)
      ensures r == null <==> height < 0 || height > nHeight
      ensures r != null ==> r in tree && r == Ancestor(this, height)
    {
      if height > nHeight || height < 0 { return null; }
      var pindexWalk := this;
      var heightWalk := nHeight;
      while heightWalk > height
        invariant pindexWalk in tree && heightWalk == pindexWalk.nHeight >= height
        invariant Rooted(this) && Rooted(pindexWalk) && Ancestor(pindexWalk, height) == Ancestor(this, height)
      {
        var heightSkip := GetSkipHeight(heightWalk);
        var heightSkipPrev := GetSkipHeight(heightWalk - 1);
        if heightSkip == height || (heightSkip > height && !(heightSkipPrev < heightSkip - 2 && heightSkipPrev >= height)) {
          SkipIsAncestor(pindexWalk, tree);
          AncestorOfAncestor(pindexWalk, heightSkip, height);
          pindexWalk := pindexWalk.pskip;
          heightWalk := heightSkip;
        } else {
          pindexWalk := pindexWalk.pprev;
          heightWalk := heightWalk - 1;
        }
      }
      r := pindexWalk;
    }

    method BuildSkip(ghost tree: set<BlockIndex>)
      requires SkipsOk(tree) && this !in tree && Rooted(this) && (pprev != null ==> pprev in tree)
      modifies this`pskip
      ensures SkipsOk(tree + {this})
    {
      if pprev != null {
        pskip := pprev.GetAncestor(GetSkipHeight(nHeight), tree);
      }
    }
  }

  /** Heights count the parents down to a block without parent. */
  ghost predicate Rooted(b: BlockIndex)
    decreases b.nHeight
  {
    if b.pprev == null then b.nHeight == 0 else b.nHeight == b.pprev.nHeight + 1 && Rooted(b.pprev)
  }

  /** Following the parents down to a height. */
  ghost function Ancestor(b: BlockIndex, h: int): (r: BlockIndex)
    requires Rooted(b) && 0 <= h <= b.nHeight
    ensures Rooted(r) && r.nHeight == h
    decreases b.nHeight
  {
    if h == b.nHeight then b else Ancestor(b.pprev, h)
  }

  /** A set of blocks that holds every parent, with all skip pointers built. */
  ghost predicate SkipsOk(tree: set<BlockIndex>)
    reads tree
  {
    forall b <- tree :: Rooted(b) && (b.pprev != null ==> b.pprev in tree && b.pskip == Ancestor(b.pprev, GetSkipHeight(b.nHeight)))
  }

  lemma {:induction false} AncestorInTree(b: BlockIndex, h: int, tree: set<BlockIndex>)
    requires SkipsOk(tree) && b in tree && 0 <= h <= b.nHeight
    ensures Ancestor(b, h) in tree
    decreases b.nHeight
  {
    if h < b.nHeight { AncestorInTree(b.pprev, h, tree); }
  }

  lemma SkipIsAncestor(b: BlockIndex, tree: set<BlockIndex>)
    requires SkipsOk(tree) && b in tree && b.nHeight > 0
    ensures b.pskip != null && b.pskip in tree && b.pskip == Ancestor(b, GetSkipHeight(b.nHeight))
  {
    AncestorInTree(b.pprev, GetSkipHeight(b.nHeight), tree);
  }

  lemma {:induction false} AncestorOfAncestor(b: BlockIndex, h: int, k: int)
    requires Rooted(b) && 0 <= k <= h <= b.nHeight
    ensures Ancestor(Ancestor(b, h), k) == Ancestor(b, k)
    decreases b.nHeight
  {
    if h < b.nHeight { AncestorOfAncestor(b.pprev, h, k); }
  }

  /** a is b or one of its ancestors. */
  ghost predicate IsAncestor(a: BlockIndex, b: BlockIndex)
    requires Rooted(b)
  {
    a.nHeight <= b.nHeight && Ancestor(b, a.nHeight) == a
  }

  // ---- The last common ancestor ----

  /** Null if the two branches have different roots, otherwise the highest block that both hold. */
  method LastCommonAncestor(a: BlockIndex, b: BlockIndex, ghost tree: set<BlockIndex>) returns (r: BlockIndex?)
    requires SkipsOk(tree) && a in tree && b in tree
    ensures Rooted(a) && Rooted(b) && (r == null <==> Ancestor(a, 0) != Ancestor(b, 0))
    ensures r != null ==> r in tree && IsAncestor(r, a) && IsAncestor(r, b)
    ensures forall c <- tree :: IsAncestor(c, a) && IsAncestor(c, b) ==> r != null && IsAncestor(c, r)
  {
    hide Rooted, Ancestor, SkipsOk;
    InTree(a, tree);
    InTree(b, tree);
    var pa: BlockIndex?, pb: BlockIndex? := a, b;
    if a.nHeight > b.nHeight {
      pa := a.GetAncestor(b.nHeight, tree);
    } else if b.nHeight > a.nHeight {
      pb := b.GetAncestor(a.nHeight, tree);
    }
    ghost var top: int := pa.nHeight;
    ghost var h := top;
    while pa != pb && pa != null && pb != null
      invariant -1 <= h <= top && (pa == null <==> h == -1) && (pb == null <==> h == -1)
      invariant top <= a.nHeight && top <= b.nHeight && (top == a.nHeight || top == b.nHeight)
      invariant h >= 0 ==> pa in tree && pb in tree && pa == Ancestor(a, h) && pb == Ancestor(b, h)
      invariant forall i :: h < i <= top ==> Ancestor(a, i) != Ancestor(b, i)
      decreases h
    {
      InTree(pa, tree);
      InTree(pb, tree);
      AncestorStep(a, h);
      AncestorStep(b, h);
      pa := pa.pprev;
      pb := pb.pprev;
      h := h - 1;
    }
    assert pa == pb;   // the assertion of the source
    r := pa;
    if r != null {
      InTree(r, tree);
      AncestorOfAncestor(a, h, 0);
      AncestorOfAncestor(b, h, 0);
    }
    forall c | c in tree && IsAncestor(c, a) && IsAncestor(c, b) ensures r != null && IsAncestor(c, r) {
      InTree(c, tree);
      assert c.nHeight <= h;
      AncestorOfAncestor(a, h, c.nHeight);
    }
  }

  lemma InTree(b: BlockIndex, tree: set<BlockIndex>)
    requires SkipsOk(tree) && b in tree
    ensures Rooted(b) && Ancestor(b, b.nHeight) == b && (b.pprev != null ==> b.pprev in tree && b.pprev.nHeight == b.nHeight - 1)
    ensures b.pprev == null <==> b.nHeight == 0
  {
  }

  // ---- The active chain ----

  class Chain {
    var vChain: seq<BlockIndex?>

    /** Every slot holds the ancestor of the tip at its height. */
    ghost predicate Valid()
      reads this
    {
      |vChain| > 0 ==>
        var tip := vChain[|vChain| - 1];
        tip != null && Rooted(tip) && tip.nHeight == |vChain| - 1 && forall i :: 0 <= i < |vChain| ==> vChain[i] == Ancestor(tip, i)
    }

    function Height(): int
      reads this
    {
      |vChain| - 1
    }

    function At(h: int): BlockIndex?
      reads this
    {
      if 0 <= h < |vChain| then vChain[h] else null
    }

    predicate Contains(b: BlockIndex)
      reads this
    {
      At(b.nHeight) == b
    }

    constructor ()
      ensures Valid() && vChain == []
    {
      vChain := [];
    }

    /** The loop stops where the old chain agrees, and what is below agrees too. */
    method SetTip(pindex: BlockIndex?)
      requires Valid() && (pindex != null ==> Rooted(pindex))
      modifies this
      ensures Valid()
      ensures pindex == null ==> vChain == []
      ensures pindex != null ==> |vChain| == pindex.nHeight + 1 && vChain[pindex.nHeight] == pindex
    {
      hide Rooted, Ancestor;
      if pindex == null {
        vChain := [];
        return;
      }
      SelfAncestor(pindex);
      ghost var before := vChain;
      var n := pindex.nHeight + 1;
      vChain := if n <= |vChain| then vChain[..n] else vChain + seq(n - |vChain|, _ => null);
      var p: BlockIndex? := pindex;
      ghost var h := pindex.nHeight as int;
      while p != null && vChain[p.nHeight] != p
        invariant |vChain| == n && -1 <= h < n
        invariant p != null ==> h >= 0 && p == Ancestor(pindex, h)
        invariant p == null ==> h == -1
        invariant forall i :: h < i < n ==> vChain[i] == Ancestor(pindex, i)
        invariant forall i :: 0 <= i <= h ==> vChain[i] == if i < |before| then before[i] else null
        decreases h
      {
        vChain := vChain[p.nHeight := p];
        AncestorStep(pindex, h);
        p := p.pprev;
        h := h - 1;
      }
      if p != null { AgreesBelow(before, pindex, h); }
    }

    /** Down to a height: through the chain if the block is in it, else through the skip list. */
    method StepDown(p: BlockIndex, nHeight: nat, ghost tree: set<BlockIndex>) returns (q: BlockIndex)
      requires Valid() && SkipsOk(tree) && p in tree && nHeight <= p.nHeight
      ensures q in tree && Rooted(p) && q == Ancestor(p, nHeight)
    {
      InTree(p, tree);
      AncestorInTree(p, nHeight, tree);
      if Contains(p) {
        ChainHasAncestors(this, p, nHeight);
        q := At(nHeight);
      } else {
        q := p.GetAncestor(nHeight, tree);
      }
    }

    /** Blocks at the heights of a locator, down the branch of a block. */
    method LocatorFrom(start: BlockIndex, ghost tree: set<BlockIndex>) returns (vHave: seq<BlockIndex>)
      requires Valid() && SkipsOk(tree) && start in tree
      ensures Rooted(start) && |vHave| == |LocatorHeights(start.nHeight, 1, 0)|
      ensures forall i :: 0 <= i < |vHave| ==> vHave[i] == Ancestor(start, LocatorHeights(start.nHeight, 1, 0)[i])
    {
      hide Rooted, Ancestor, SkipsOk, Valid, LocatorHeights, GetSkipHeight, LocatorBlocks;
      vHave := [];
      InTree(start, tree);
      var p, nStep := start, 1;
      NoLocatorYet(start);
      while true
        invariant p in tree && nStep > 0 && p.nHeight <= start.nHeight && p == Ancestor(start, p.nHeight)
        invariant LocatorBlocks(start, vHave, p.nHeight, nStep)
        decreases p.nHeight
      {
        LocatorGrows(start, vHave, p, nStep);
        vHave := vHave + [p];
        if p.nHeight == 0 { break; }
        var nHeight := if p.nHeight > nStep then p.nHeight - nStep else 0;
        AncestorOfAncestor(start, p.nHeight, nHeight);
        p := StepDown(p, nHeight, tree);
        if |vHave| > 10 { nStep := nStep * 2; }
      }
    }

    /** A locator of the given block, or of the tip; empty if there is neither. */
    method GetLocator(b: BlockIndex?, ghost tree: set<BlockIndex>) returns (vHave: seq<BlockIndex>)
      requires Valid() && SkipsOk(tree) && (b != null ==> b in tree)
      requires |vChain| > 0 ==> vChain[|vChain| - 1] in tree
      ensures var start := if b == null then At(Height()) else b;
              && (start == null ==> vHave == [])
              && (start != null ==>
                    && Rooted(start) && |vHave| == |LocatorHeights(start.nHeight, 1, 0)|
                    && forall i :: 0 <= i < |vHave| ==> vHave[i] == Ancestor(start, LocatorHeights(start.nHeight, 1, 0)[i]))
    {
      hide Rooted, Ancestor, SkipsOk, Valid, LocatorHeights;
      TipInTree(tree);
      var p := if b == null then At(Height()) else b;
      if p == null { return []; }
      vHave := LocatorFrom(p, tree);
    }

    lemma TipInTree(tree: set<BlockIndex>)
      requires Valid() && SkipsOk(tree) && (|vChain| > 0 ==> vChain[|vChain| - 1] in tree)
      ensures At(Height()) == null || At(Height()) in tree
    {
    }

    /** The highest block of the chain that the given block descends from or is; null if there is none. */
    method FindFork(b: BlockIndex, ghost tree: set<BlockIndex>) returns (r: BlockIndex?)
      requires Valid() && SkipsOk(tree) && b in tree
      ensures r != null ==> r in tree && Contains(r) && IsAncestor(r, b)
      ensures forall c <- tree :: IsAncestor(c, b) && Contains(c) ==> r != null && IsAncestor(c, r)
    {
      hide Rooted, Ancestor, SkipsOk, Valid;
      InTree(b, tree);
      var p: BlockIndex? := b;
      if b.nHeight > Height() { p := b.GetAncestor(Height(), tree); }
      ghost var top: int := if b.nHeight > Height() then Height() else b.nHeight;
      ghost var h := top;
      while p != null && !Contains(p)
        invariant -1 <= h <= top && (p == null <==> h == -1)
        invariant p != null ==> p in tree && p == Ancestor(b, h)
        invariant forall i :: h < i <= top ==> !Contains(Ancestor(b, i))
        decreases h
      {
        InTree(p, tree);
        AncestorStep(b, h);
        p := p.pprev;
        h := h - 1;
      }
      r := p;
      if r != null { InTree(r, tree); }
      forall c | c in tree && IsAncestor(c, b) && Contains(c) ensures r != null && IsAncestor(c, r) {
        assert c.nHeight <= top && c == Ancestor(b, c.nHeight);
        assert c.nHeight <= h;
        AncestorOfAncestor(b, h, c.nHeight);
      }
    }
  }

  /** The block is in the chain, so the chain holds its ancestors. */
  lemma ChainHasAncestors(c: Chain, b: BlockIndex, h: int)
    requires c.Valid() && Rooted(b) && c.Contains(b) && 0 <= h <= b.nHeight
    ensures c.At(h) == Ancestor(b, h)
  {
    hide Rooted, Ancestor;
    SelfAncestor(b);
    AgreesBelow(c.vChain, b, b.nHeight);
  }

  // ---- Locators ----

  /** The heights that a locator names: ten steps of one, then steps that double, down to zero. */
  function LocatorHeights(height: nat, nStep: nat, have: nat): (hs: seq<nat>)
    requires nStep > 0
    ensures |hs| > 0
    ensures forall i :: 0 <= i < |hs| ==> hs[i] <= height
    decreases height
  {
    if height == 0 then [0]
    else [height] + LocatorHeights(if height > nStep then height - nStep else 0, if have + 1 > 10 then 2 * nStep else nStep, have + 1)
  }

  /** From the block itself strictly down to the first block. */
  lemma {:induction false} LocatorDescends(height: nat, nStep: nat, have: nat)
    requires nStep > 0
    ensures var hs := LocatorHeights(height, nStep, have);
            hs[0] == height && hs[|hs| - 1] == 0 && forall i, j :: 0 <= i < j < |hs| ==> hs[j] < hs[i]
    decreases height
  {
    if height > 0 {
      LocatorDescends(if height > nStep then height - nStep else 0, if have + 1 > 10 then 2 * nStep else nStep, have + 1);
    }
  }

  /** How far back the i-th block of a locator lies. */
  function LocatorOffset(i: nat): nat { if i <= 11 then i else 9 + Pow2(i - 10) }

  /** The step after the i-th block. */
  function LocatorStep(i: nat): (s: nat)
    ensures s > 0
  {
    if i <= 10 then 1 else Pow2(i - 10)
  }

  function LocatorAt(height: nat, i: nat): nat { if LocatorOffset(i) < height then height - LocatorOffset(i) else 0 }

  lemma {:induction false} LocatorFromThere(height: nat, have: nat, hs: seq<nat>)
    requires hs == LocatorHeights(LocatorAt(height, have), LocatorStep(have), have)
    ensures forall i :: 0 <= i < |hs| ==> hs[i] == LocatorAt(height, have + i)
    decreases LocatorAt(height, have)
  {
    if LocatorOffset(have) < height {
      assert LocatorOffset(have + 1) == LocatorOffset(have) + LocatorStep(have);
      assert LocatorStep(have + 1) == if have + 1 > 10 then 2 * LocatorStep(have) else LocatorStep(have);
      var rest := LocatorHeights(LocatorAt(height, have + 1), LocatorStep(have + 1), have + 1);
      LocatorFromThere(height, have + 1, rest);
      assert hs == [LocatorAt(height, have)] + rest;
      forall i | 0 <= i < |hs| ensures hs[i] == LocatorAt(height, have + i) {
        if i > 0 { assert hs[i] == rest[i - 1] == LocatorAt(height, have + 1 + (i - 1)); }
      }
    }
  }

  /** A locator names the last twelve blocks, and then blocks at distances that double. */
  lemma LocatorDistances(height: nat, i: nat)
    requires i < |LocatorHeights(height, 1, 0)|
    ensures LocatorHeights(height, 1, 0)[i] == if LocatorOffset(i) < height then height - LocatorOffset(i) else 0
  {
    LocatorFromThere(height, 0, LocatorHeights(height, 1, 0));
  }

  /** The blocks so far are at the first heights of the locator, and the rest of it starts at the given height. */
  ghost predicate LocatorBlocks(start: BlockIndex, vHave: seq<BlockIndex>, height: nat, nStep: nat)
    requires Rooted(start) && nStep > 0
  {
    var hs := LocatorHeights(start.nHeight, 1, 0);
    && |vHave| <= |hs| && hs[|vHave|..] == LocatorHeights(height, nStep, |vHave|)
    && forall i :: 0 <= i < |vHave| ==> vHave[i] == Ancestor(start, hs[i])
  }

  lemma NoLocatorYet(start: BlockIndex)
    requires Rooted(start)
    ensures LocatorBlocks(start, [], start.nHeight, 1)
  {
    hide LocatorHeights, Ancestor;
  }

  lemma LocatorGrows(start: BlockIndex, vHave: seq<BlockIndex>, p: BlockIndex, nStep: nat)
    requires Rooted(start) && nStep > 0 && LocatorBlocks(start, vHave, p.nHeight, nStep)
    requires p.nHeight <= start.nHeight && p == Ancestor(start, p.nHeight)
    ensures var hs, next := LocatorHeights(start.nHeight, 1, 0), vHave + [p];
            && (p.nHeight == 0 ==> |next| == |hs| && forall i :: 0 <= i < |next| ==> next[i] == Ancestor(start, hs[i]))
            && (p.nHeight > 0 ==>
                  LocatorBlocks(start, next, if p.nHeight > nStep then p.nHeight - nStep else 0,
                                if |next| > 10 then 2 * nStep else nStep))
  {
    LocatorNext(p.nHeight, nStep, |vHave|);
    hide LocatorHeights, Ancestor, Rooted;
    var hs, n := LocatorHeights(start.nHeight, 1, 0), |vHave|;
    assert hs[n] == hs[n..][0] == p.nHeight;
    assert hs[n + 1..] == hs[n..][1..];
  }

  lemma LocatorNext(height: nat, nStep: nat, have: nat)
    requires nStep > 0
    ensures var hs := LocatorHeights(height, nStep, have);
            && (height == 0 ==> hs == [0])
            && (height > 0 ==>
                  hs == [height] + LocatorHeights(if height > nStep then height - nStep else 0, if have + 1 > 10 then 2 * nStep else nStep, have + 1))
  {
  }

  lemma {:induction false} DoublingIsShort(height: nat, nStep: nat, have: nat, n: nat)
    requires nStep > 0 && have >= 10 && height < nStep * Pow2(n)
    ensures |LocatorHeights(height, nStep, have)| <= n + 2
    decreases height
  {
    if height > 0 {
      if n == 0 {
        assert Pow2(0) == 1;
        assert |LocatorHeights(0, 2 * nStep, have + 1)| == 1;
      } else {
        var next := if height > nStep then height - nStep else 0;
        assert nStep * Pow2(n) == 2 * nStep * Pow2(n - 1) by { assert Pow2(n) == 2 * Pow2(n - 1); }
        DoublingIsShort(next, 2 * nStep, have + 1, n - 1);
      }
    }
  }

  /** A locator names a number of blocks that grows with the logarithm of the height. */
  lemma {:induction false} LocatorIsShort(height: nat, have: nat, n: nat)
    requires have <= 10 && height < Pow2(n)
    ensures |LocatorHeights(height, 1, have)| <= 10 - have + n + 2
    decreases 10 - have
  {
    if have == 10 {
      assert 1 * Pow2(n) == Pow2(n);
      DoublingIsShort(height, 1, have, n);
    } else if height > 0 {
      LocatorIsShort(height - 1, have + 1, n);
    }
  }

  lemma SelfAncestor(b: BlockIndex)
    requires Rooted(b)
    ensures Ancestor(b, b.nHeight) == b
  {
  }

  lemma AncestorStep(b: BlockIndex, h: int)
    requires Rooted(b) && 0 <= h <= b.nHeight
    ensures h > 0 ==> Ancestor(b, h).pprev == Ancestor(b, h - 1)
    ensures h == 0 ==> Ancestor(b, h).pprev == null
  {
    if h > 0 { AncestorOfAncestor(b, h, h - 1); }
  }

  /** Two chains that share a block share everything below it. */
  lemma AgreesBelow(chain: seq<BlockIndex?>, b: BlockIndex, h: int)
    requires |chain| > 0 && Rooted(b) && 0 <= h < |chain| && h <= b.nHeight
    requires var tip := chain[|chain| - 1];
             tip != null && Rooted(tip) && tip.nHeight == |chain| - 1 && forall i :: 0 <= i < |chain| ==> chain[i] == Ancestor(tip, i)
    requires chain[h] == Ancestor(b, h)
    ensures forall i :: 0 <= i <= h ==> chain[i] == Ancestor(b, i)
  {
    var tip := chain[|chain| - 1];
    forall i | 0 <= i <= h ensures chain[i] == Ancestor(b, i) {
      AncestorOfAncestor(tip, h, i);
      AncestorOfAncestor(b, h, i);
    }
  }
}
