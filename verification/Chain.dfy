/** The tree of block indexes with links back over many blocks, and the chain of the best
    branch indexed by height. */
module Chain {

  // ---------- where a block links back to ----------

  /** The bits that both have. */
  function And(x: nat, y: nat): (r: nat)
    ensures r <= x && r <= y
  {
    if x == 0 || y == 0 then 0
    else (if x % 2 == 1 && y % 2 == 1 then 1 else 0) + 2 * And(x / 2, y / 2)
  }

  lemma {:induction false} AndSame(x: nat)
    ensures And(x, x) == x
  {
    if x > 0 {
      AndSame(x / 2);
    }
  }

  function InvertLowestOne(n: nat): (r: nat)
    ensures n > 0 ==> r < n
  {
    if n == 0 then 0 else And(n, n - 1)
  }

  function Pow2(k: nat): (p: nat)
    ensures p > 0
  {
    if k == 0 then 1 else 2 * Pow2(k - 1)
  }

  /** The lowest one becomes a zero and the other bits stay. */
  lemma {:induction false} LowestOneInverted(m: nat, k: nat)
    ensures InvertLowestOne((2 * m + 1) * Pow2(k)) == 2 * m * Pow2(k)
    decreases k
  {
    hide InvertLowestOne;
    if k == 0 {
      OddInverted(m);
    } else {
      LowestOneInverted(m, k - 1);
      Halves(m, Pow2(k - 1));
      InvertDouble((2 * m + 1) * Pow2(k - 1));
    }
  }

  lemma OddInverted(m: nat)
    ensures InvertLowestOne(2 * m + 1) == 2 * m
  {
    AndSame(m);
    assert (2 * m + 1) / 2 == m && 2 * m / 2 == m;
  }

  lemma Halves(m: nat, p: nat)
    requires p > 0
    ensures (2 * m + 1) * (2 * p) == 2 * ((2 * m + 1) * p) && 2 * m * (2 * p) == 2 * (2 * m * p)
    ensures (2 * m + 1) * p > 0
  {
  }

  lemma InvertDouble(x: nat)
    requires x > 0
    ensures InvertLowestOne(2 * x) == 2 * InvertLowestOne(x)
  {
    assert 2 * x / 2 == x && (2 * x - 1) / 2 == x - 1 && 2 * x % 2 == 0;
  }

  /** The height that a block links back to: below its own, except for the first block. */
  function GetSkipHeight(height: nat): (r: nat)
    ensures height > 0 ==> r < height
    ensures height == 0 ==> r == 0
  {
    if height < 2 then 0
    else if height % 2 == 1 then InvertLowestOne(InvertLowestOne(height - 1)) + 1
    else InvertLowestOne(height)
  }

  lemma {:induction false} Pow2Add(j: nat, k: nat)
    ensures Pow2(j + k) == Pow2(j) * Pow2(k)
    decreases j
  {
    if j > 0 {
      Pow2Add(j - 1, k);
      Twice(Pow2(j - 1), Pow2(k));
    }
  }

  lemma Twice(x: nat, y: nat)
    ensures 2 * (x * y) == 2 * x * y
  {
  }

  /** From an even height the link clears its lowest one bit. */
  lemma SkipOfEven(m: nat, k: nat)
    requires k > 0
    ensures GetSkipHeight((2 * m + 1) * Pow2(k)) == 2 * m * Pow2(k)
  {
    hide InvertLowestOne;
    LowestOneInverted(m, k);
    Halves(m, Pow2(k - 1));
  }

  lemma OddSkips(x: nat)
    requires x >= 2 && x % 2 == 0
    ensures GetSkipHeight(x + 1) == InvertLowestOne(InvertLowestOne(x)) + 1
  {
  }

  lemma EvenShift(n: nat, k: nat)
    requires k > 0
    ensures (2 * n + 1) * Pow2(k) % 2 == 0 && (2 * n + 1) * Pow2(k) >= 2
  {
    Halves(n, Pow2(k - 1));
    var half := (2 * n + 1) * Pow2(k - 1);
    assert (2 * n + 1) * Pow2(k) == 2 * half && half > 0;
  }

  lemma TwoBits(m: nat, i: nat, k: nat) returns (n: nat)
    requires 0 < k < i
    ensures (2 * n + 1) * Pow2(k) == (2 * m + 1) * Pow2(i) + Pow2(k) && 2 * n * Pow2(k) == (2 * m + 1) * Pow2(i)
  {
    n := (2 * m + 1) * Pow2(i - k - 1);
    Pow2Add(i - k, k);
    Regroup(2 * m + 1, Pow2(i - k - 1), Pow2(k));
  }

  /** From an odd height with at least three one bits it clears the two lowest above the last. */
  lemma SkipOfOdd(m: nat, i: nat, k: nat)
    requires 0 < k < i
    ensures GetSkipHeight((2 * m + 1) * Pow2(i) + Pow2(k) + 1) == 2 * m * Pow2(i) + 1
  {
    hide InvertLowestOne, GetSkipHeight, Pow2;
    var n := TwoBits(m, i, k);
    EvenShift(n, k);
    OddSkips((2 * n + 1) * Pow2(k));
    LowestOneInverted(n, k);
    LowestOneInverted(m, i);
  }

  lemma Regroup(x: nat, y: nat, z: nat)
    ensures (2 * (x * y) + 1) * z == x * (2 * y * z) + z && 2 * (x * y) * z == x * (2 * y * z)
  {
  }

  /** And from one with two of them it leads to height one. */
  lemma SkipOfOddWithTwo(k: nat)
    requires k > 0
    ensures GetSkipHeight(Pow2(k) + 1) == 1
  {
    LowestOneInverted(0, k);
    assert Pow2(k) % 2 == 0;
    hide InvertLowestOne;
    assert InvertLowestOne(0) == 0 by { LowestOfZero(); }
  }

  lemma LowestOfZero()
    ensures InvertLowestOne(0) == 0
  {
  }

  class BlockIndex {
    const hash: int
    const pprev: BlockIndex?
    const nHeight: nat
    var pskip: BlockIndex?

    constructor (hash: int, pprev: BlockIndex?)
      ensures this.hash == hash && this.pprev == pprev && pskip == null
      ensures nHeight == if pprev == null then 0 else pprev.nHeight + 1
    {
      this.hash := hash;
      this.pprev := pprev;
      nHeight := if pprev == null then 0 else pprev.nHeight + 1;
      pskip := null;
    }

    /** The ancestor at a height, or none. */
    method GetAncestor(height: int, ghost blocks: set<BlockIndex>) returns (r: BlockIndex?)
      requires this in blocks && Tree(blocks) && SkipsIn(blocks)
      ensures r == if 0 <= height <= nHeight then Up(this, nHeight - height) else null
    {
      if height > nHeight || height < 0 {
        return null;
      }
      hide GetSkipHeight, Up, SkipsIn;
      var pindexWalk: BlockIndex := this;
      var heightWalk := nHeight;
      while heightWalk > height
        invariant height <= heightWalk && pindexWalk.nHeight == heightWalk && pindexWalk in blocks
        invariant heightWalk <= nHeight && Up(pindexWalk, heightWalk - height) == Up(this, nHeight - height)
        decreases heightWalk
      {
        var heightSkip := GetSkipHeight(heightWalk);
        var heightSkipPrev := GetSkipHeight(heightWalk - 1);
        SkipIsAbove(pindexWalk, height, blocks);
        if pindexWalk.pskip != null
          && (heightSkip == height
              || (heightSkip > height && !(heightSkipPrev < heightSkip - 2 && heightSkipPrev >= height)))
        {
          pindexWalk := pindexWalk.pskip;
          heightWalk := heightSkip;
        } else {
          assert pindexWalk.pprev != null;
          pindexWalk := pindexWalk.pprev;
          heightWalk := heightWalk - 1;
        }
      }
      UpZero(pindexWalk);
      r := pindexWalk;
    }

    /** Links back. It keeps what every search relies on. */
    method BuildSkip(ghost blocks: set<BlockIndex>)
      requires this in blocks && Tree(blocks) && SkipsIn(blocks)
      modifies this`pskip
      ensures pskip == if pprev == null then old(pskip) else SkipOf(this)
      ensures SkipsIn(blocks)
    {
      if pprev != null {
        SkipIsOfParent(this, blocks);
        pskip := pprev.GetAncestor(GetSkipHeight(nHeight), blocks);
      }
    }
  }

  /** The block reached by k parent steps, or none. */
  function Up(b: BlockIndex, k: nat): (r: BlockIndex?)
  {
    if k == 0 then b else if b.pprev == null then null else Up(b.pprev, k - 1)
  }

  /** Blocks with their ancestors, each one higher than its parent: a tree, or several. */
  predicate Tree(blocks: set<BlockIndex>) {
    forall b :: b in blocks ==>
                  if b.pprev == null then b.nHeight == 0
                  else b.pprev in blocks && b.nHeight == b.pprev.nHeight + 1
  }

  function SkipOf(b: BlockIndex): (r: BlockIndex?)
    requires b.nHeight > 0
  {
    Up(b, b.nHeight - GetSkipHeight(b.nHeight))
  }

  /** Every link back that was built leads to the right ancestor. */
  ghost predicate SkipsIn(blocks: set<BlockIndex>)
    reads blocks`pskip
  {
    forall b :: b in blocks && b.pskip != null ==> b.nHeight > 0 && b.pskip == SkipOf(b)
  }

  lemma UpZero(b: BlockIndex)
    ensures Up(b, 0) == b
  {
  }

  lemma {:induction false} UpInTree(b: BlockIndex, k: nat, blocks: set<BlockIndex>)
    requires b in blocks && Tree(blocks) && k <= b.nHeight
    ensures var r := Up(b, k); r != null && r in blocks && r.nHeight == b.nHeight - k
    decreases k
  {
    if k > 0 {
      UpInTree(b.pprev, k - 1, blocks);
    }
  }

  lemma {:induction false} UpAbove(b: BlockIndex, k: nat, blocks: set<BlockIndex>)
    requires b in blocks && Tree(blocks) && k > b.nHeight
    ensures Up(b, k) == null
    decreases k
  {
    if b.pprev != null {
      UpAbove(b.pprev, k - 1, blocks);
    }
  }

  /** Steps add up. */
  lemma {:induction false} UpUp(b: BlockIndex, j: nat, k: nat)
    requires Up(b, j) != null
    ensures Up(b, j + k) == Up(Up(b, j), k)
    decreases j
  {
    if j > 0 {
      UpUp(b.pprev, j - 1, k);
    }
  }

  /** From a block above the wanted height, both the parent and the link back lead on to the
      wanted ancestor, if the link does not lead below it. */
  lemma SkipIsAbove(b: BlockIndex, height: nat, blocks: set<BlockIndex>)
    requires b in blocks && Tree(blocks) && SkipsIn(blocks) && height < b.nHeight
    ensures b.pprev != null && b.pprev in blocks && b.pprev.nHeight == b.nHeight - 1
    ensures Up(b.pprev, b.nHeight - 1 - height) == Up(b, b.nHeight - height)
    ensures b.pskip != null ==> b.pskip in blocks && b.pskip.nHeight == GetSkipHeight(b.nHeight) < b.nHeight
    ensures b.pskip != null && height <= GetSkipHeight(b.nHeight) ==>
              Up(b.pskip, GetSkipHeight(b.nHeight) - height) == Up(b, b.nHeight - height)
  {
    hide InvertLowestOne;
    if b.pskip != null {
      var s := GetSkipHeight(b.nHeight);
      UpInTree(b, b.nHeight - s, blocks);
      if height <= s {
        UpUp(b, b.nHeight - s, s - height);
        assert b.nHeight - s + (s - height) == b.nHeight - height;
      }
    }
  }

  lemma SkipIsOfParent(b: BlockIndex, blocks: set<BlockIndex>)
    requires b in blocks && Tree(blocks) && b.pprev != null
    ensures GetSkipHeight(b.nHeight) <= b.pprev.nHeight
    ensures Up(b.pprev, b.pprev.nHeight - GetSkipHeight(b.nHeight)) == SkipOf(b)
  {
    hide InvertLowestOne;
  }

  /** A block added to a tree and linked back leaves every search right. */
  method AddBlock(hash: int, pprev: BlockIndex?, ghost blocks: set<BlockIndex>)
      returns (b: BlockIndex, ghost more: set<BlockIndex>)
    requires Tree(blocks) && SkipsIn(blocks) && (pprev != null ==> pprev in blocks)
    ensures fresh(b) && b.hash == hash && b.pprev == pprev && more == blocks + {b}
    ensures Tree(more) && SkipsIn(more) && (pprev != null ==> b.pskip == SkipOf(b))
  {
    hide GetSkipHeight, Up;
    b := new BlockIndex(hash, pprev);
    more := blocks + {b};
    b.BuildSkip(more);
  }

  // ---------- the active chain ----------

  /** Every height up to that of the last block holds its ancestor there. */
  predicate IsChain(v: seq<BlockIndex?>)
  {
    v != [] ==>
      var tip := v[|v| - 1];
      && tip != null && tip.nHeight == |v| - 1
      && forall i :: 0 <= i < |v| ==> v[i] == Up(tip, |v| - 1 - i)
  }

  /** Below a block of a chain are its ancestors. */
  lemma BelowInChain(v: seq<BlockIndex?>, h: nat, i: nat, blocks: set<BlockIndex>)
    requires IsChain(v) && i <= h < |v| && Tree(blocks) && v[|v| - 1] in blocks
    ensures v[h] != null && v[h] in blocks && v[h].nHeight == h && v[i] == Up(v[h], h - i)
  {
    hide Up;
    var tip := v[|v| - 1];
    UpInTree(tip, |v| - 1 - h, blocks);
    UpUp(tip, |v| - 1 - h, h - i);
    assert |v| - 1 - h + (h - i) == |v| - 1 - i;
  }

  function Resized(v: seq<BlockIndex?>, n: nat): (r: seq<BlockIndex?>)
    ensures |r| == n && forall i :: 0 <= i < n ==> r[i] == if i < |v| then v[i] else null
  {
    if n <= |v| then v[..n] else v + seq(n - |v|, i => null)
  }

  class ActiveChain {
    var vChain: seq<BlockIndex?>

    constructor ()
      ensures vChain == []
    {
      vChain := [];
    }

    ghost predicate Valid(blocks: set<BlockIndex>)
      reads this
    {
      Tree(blocks) && IsChain(vChain) && (vChain != [] ==> vChain[|vChain| - 1] in blocks)
    }

    function Tip(): (tip: BlockIndex?)
      reads this
    {
      if |vChain| > 0 then vChain[|vChain| - 1] else null
    }

    function At(nHeight: int): (b: BlockIndex?)
      reads this
    {
      if nHeight < 0 || nHeight >= |vChain| then null else vChain[nHeight]
    }

    predicate Contains(b: BlockIndex)
      reads this
    {
      At(b.nHeight) == b
    }

    function Height(): (h: int)
      reads this
    {
      |vChain| - 1
    }

    /** Makes this the chain that ends in a block, from whatever chain it was. */
    method SetTip(pindex: BlockIndex?, ghost blocks: set<BlockIndex>)
      requires Valid(blocks) && (pindex != null ==> pindex in blocks)
      modifies this
      ensures Valid(blocks) && Tip() == pindex
      ensures pindex != null ==>
                |vChain| == pindex.nHeight + 1 && forall i ::
                    0 <= i < |vChain| ==> vChain[i] == Up(pindex, pindex.nHeight - i)
    {
      hide Up, IsChain;
      if pindex == null {
        vChain := [];
        EmptyIsChain();
        return;
      }
      ghost var before := vChain;
      ghost var h := pindex.nHeight;
      vChain := Resized(vChain, pindex.nHeight + 1);
      var walk: BlockIndex? := pindex;
      UpZero(pindex);
      while walk != null && vChain[walk.nHeight] != walk
        invariant |vChain| == h + 1
        invariant walk != null ==> walk in blocks && walk.nHeight <= h && walk == Up(pindex, h - walk.nHeight)
        invariant walk != null ==> forall i :: 0 <= i <= walk.nHeight ==> vChain[i] == Resized(before, h + 1)[i]
        invariant forall i ::
            (if walk == null then 0 else walk.nHeight + 1) <= i <= h ==> vChain[i] == Up(pindex, h - i)
        decreases if walk == null then 0 else walk.nHeight + 1
      {
        vChain := vChain[walk.nHeight := walk];
        UpNext(pindex, h - walk.nHeight);
        walk := walk.pprev;
      }
      if walk != null {
        forall i | 0 <= i <= walk.nHeight
          ensures vChain[i] == Up(pindex, h - i)
        {
          BelowInChain(before, walk.nHeight, i, blocks);
          UpUp(pindex, h - walk.nHeight, walk.nHeight - i);
        }
      }
      NewChain(vChain, pindex, blocks);
    }

    /** The highest block that is both in this chain and an ancestor, or none. */
    method FindFork(pindex: BlockIndex?, ghost blocks: set<BlockIndex>) returns (r: BlockIndex?)
      requires Valid(blocks) && SkipsIn(blocks) && (pindex != null ==> pindex in blocks)
      ensures r != null
          ==> pindex != null && Contains(r) && r.nHeight <= pindex.nHeight
              && r == Up(pindex, pindex.nHeight - r.nHeight)
      ensures pindex != null ==>
                forall k: nat :: k <= pindex.nHeight && Up(pindex, k) != null && Contains(Up(pindex, k)) ==>
                                   r != null && Up(pindex, k).nHeight <= r.nHeight
    {
      hide Up, IsChain, SkipsIn;
      if pindex == null {
        return null;
      }
      var p: BlockIndex? := pindex;
      UpZero(pindex);
      if p.nHeight > Height() {
        NotContained(pindex, blocks);
        p := p.GetAncestor(Height(), blocks);
        if Height() >= 0 {
          UpInTree(pindex, pindex.nHeight - Height(), blocks);
        }
      }
      while p != null && !Contains(p)
        invariant p != null
            ==> p in blocks && p.nHeight <= pindex.nHeight && p == Up(pindex, pindex.nHeight - p.nHeight)
        invariant forall k: nat :: k <= pindex.nHeight && (p == null || k < pindex.nHeight - p.nHeight) ==>
                                     Up(pindex, k) != null && !Contains(Up(pindex, k))
        decreases if p == null then 0 else p.nHeight + 1
      {
        UpNext(pindex, pindex.nHeight - p.nHeight);
        p := p.pprev;
      }
      r := p;
      if r != null {
        FarUp(pindex, blocks);
      }
    }

    /** The hashes of the start block, or else the tip, and of ancestors of it at the locator's
        heights, whether they are looked up in this chain or by the links back. */
    method GetLocator(pindex: BlockIndex?, ghost blocks: set<BlockIndex>) returns (vHave: seq<int>)
      requires Valid(blocks) && SkipsIn(blocks) && (pindex != null ==> pindex in blocks)
      ensures var start := if pindex == null then Tip() else pindex;
              if start == null then vHave == []
              else HashesAt(start, LocatorHeights(start.nHeight, 1, 0), vHave)
    {
      hide Up, SkipsIn, LocatorHeights, HashesAt, IsChain, Tree;
      vHave := [];
      var nStep := 1;
      var start: BlockIndex? := if pindex == null then Tip() else pindex;
      if start == null {
        return;
      }
      var p: BlockIndex := start;
      ghost var heights: seq<nat> := [];
      UpZero(start);
      StartInTree(start, pindex, blocks);
      NoHashes(start);
      while true
        invariant nStep > 0 && p in blocks && p.nHeight <= start.nHeight && p == Up(start, start.nHeight - p.nHeight)
        invariant heights + LocatorHeights(p.nHeight, nStep, |vHave|) == LocatorHeights(start.nHeight, 1, 0)
        invariant HashesAt(start, heights, vHave)
        decreases p.nHeight
      {
        LocatorNext(p.nHeight, nStep, |vHave|);
        HashesNext(start, heights, vHave, p);
        ListedNext(heights, p.nHeight, nStep, |vHave|);
        vHave := vHave + [p.hash];
        heights := heights + [p.nHeight];
        if p.nHeight == 0 {
          break;
        }
        var nHeight := if p.nHeight - nStep > 0 then p.nHeight - nStep else 0;
        UpInTree(p, p.nHeight - nHeight, blocks);
        UpUp(start, start.nHeight - p.nHeight, p.nHeight - nHeight);
        p := Lookup(p, nHeight, blocks);
        if |vHave| > 10 {
          nStep := nStep * 2;
        }
      }
    }

    lemma StartInTree(start: BlockIndex, pindex: BlockIndex?, blocks: set<BlockIndex>)
      requires Valid(blocks) && (pindex != null ==> pindex in blocks)
      requires start == if pindex == null then Tip() else pindex
      ensures start in blocks && Tree(blocks)
    {
      hide IsChain, Tree;
    }

    /** An ancestor, from this chain's index if it can be. */
    method Lookup(p: BlockIndex, nHeight: nat, ghost blocks: set<BlockIndex>) returns (r: BlockIndex)
      requires Valid(blocks) && SkipsIn(blocks) && p in blocks && nHeight <= p.nHeight
      ensures r == Up(p, p.nHeight - nHeight)
    {
      hide Up, SkipsIn, IsChain;
      UpInTree(p, p.nHeight - nHeight, blocks);
      if Contains(p) {
        BelowInChain(vChain, p.nHeight, nHeight, blocks);
        r := At(nHeight);
      } else {
        r := p.GetAncestor(nHeight, blocks);
      }
    }

    lemma NotContained(b: BlockIndex, blocks: set<BlockIndex>)
      requires b in blocks && Tree(blocks) && b.nHeight > Height()
      ensures forall k: nat :: k <= b.nHeight && k < b.nHeight - Height() ==> Up(b, k) != null && !Contains(Up(b, k))
    {
      hide Up;
      forall k: nat | k <= b.nHeight && k < b.nHeight - Height()
        ensures Up(b, k) != null && !Contains(Up(b, k))
      {
        UpInTree(b, k, blocks);
      }
    }
  }

  lemma EmptyIsChain()
    ensures IsChain([])
  {
  }

  lemma NewChain(v: seq<BlockIndex?>, tip: BlockIndex, blocks: set<BlockIndex>)
    requires |v| == tip.nHeight + 1 && forall i :: 0 <= i < |v| ==> v[i] == Up(tip, tip.nHeight - i)
    ensures IsChain(v) && v[|v| - 1] == tip
  {
    UpZero(tip);
    assert v[tip.nHeight] == Up(tip, 0);
  }

  lemma {:induction false} UpNext(b: BlockIndex, k: nat)
    requires Up(b, k) != null
    ensures Up(b, k + 1) == Up(b, k).pprev
  {
    UpUp(b, k, 1);
    assert Up(Up(b, k), 1) == Up(b, k).pprev;
  }

  lemma FarUp(b: BlockIndex, blocks: set<BlockIndex>)
    requires b in blocks && Tree(blocks)
    ensures forall k: nat :: k <= b.nHeight ==> Up(b, k) != null && Up(b, k).nHeight == b.nHeight - k
  {
    hide Up;
    forall k: nat | k <= b.nHeight
      ensures Up(b, k) != null && Up(b, k).nHeight == b.nHeight - k
    {
      UpInTree(b, k, blocks);
    }
  }

  // ---------- the heights in a locator ----------

  /** The hashes of the ancestors at some heights. */
  ghost predicate HashesAt(start: BlockIndex, heights: seq<nat>, hashes: seq<int>) {
    |hashes| == |heights|
    && forall i :: 0 <= i < |heights| ==>
                     heights[i] <= start.nHeight
                     && Up(start, start.nHeight - heights[i]) != null
                     && hashes[i] == Up(start, start.nHeight - heights[i]).hash
  }

  /** The heights from a block on, when that many were listed before: steps of one at first,
      then ever larger ones, down to zero. */
  function LocatorHeights(height: nat, step: nat, listed: nat): (r: seq<nat>)
    requires step > 0
    ensures r != [] && r[0] == height
    decreases height
  {
    if height == 0 then [0]
    else [height] + LocatorHeights(if height > step then height - step else 0,
                                   if listed + 1 > 10 then step * 2 else step, listed + 1)
  }

  lemma LocatorNext(height: nat, step: nat, listed: nat)
    requires step > 0
    ensures LocatorHeights(height, step, listed)
            == if height == 0 then [0]
               else [height] + LocatorHeights(if height > step then height - step else 0,
                                              if listed + 1 > 10 then step * 2 else step, listed + 1)
  {
  }

  lemma ListedNext(heights: seq<nat>, height: nat, step: nat, listed: nat)
    requires step > 0
    ensures heights + LocatorHeights(height, step, listed)
            == heights + [height]
               + if height == 0 then []
                 else LocatorHeights(if height > step then height - step else 0,
                                     if listed + 1 > 10 then step * 2 else step, listed + 1)
  {
    LocatorNext(height, step, listed);
    hide LocatorHeights;
  }

  lemma NoHashes(start: BlockIndex)
    ensures HashesAt(start, [], [])
  {
  }

  lemma HashesNext(start: BlockIndex, heights: seq<nat>, hashes: seq<int>, p: BlockIndex)
    requires HashesAt(start, heights, hashes) && p.nHeight <= start.nHeight && p == Up(start, start.nHeight - p.nHeight)
    ensures HashesAt(start, heights + [p.nHeight], hashes + [p.hash])
  {
    hide Up;
  }

  /** The heights descend strictly and end with the first block. */
  lemma {:induction false} LocatorDescends(height: nat, step: nat, listed: nat, i: nat)
    requires step > 0 && i < |LocatorHeights(height, step, listed)|
    ensures var r := LocatorHeights(height, step, listed);
            && (i + 1 < |r| ==> r[i] > r[i + 1])
            && (i + 1 == |r| <==> r[i] == 0)
    decreases height
  {
    if height > 0 && i > 0 {
      LocatorDescends(if height > step then height - step else 0, if listed + 1 > 10 then step * 2
          else step, listed + 1, i - 1);
    }
  }

  /** After ten single steps they double, so there are few. */
  lemma LocatorIsShort(height: nat)
    ensures var n := |LocatorHeights(height, 1, 0)|; n > 12 ==> Pow2(n - 12) < height - 9
  {
    SingleSteps(height, 0);
  }

  lemma {:induction false} SingleSteps(height: nat, listed: nat)
    requires listed <= 10
    ensures var n := |LocatorHeights(height, 1, listed)|;
            n + listed > 12 ==> Pow2(n + listed - 12) < height + listed - 9
    decreases 10 - listed
  {
    LocatorNext(height, 1, listed);
    if height > 0 {
      if listed < 10 {
        SingleSteps(height - 1, listed + 1);
      } else {
        DoublingSteps(height - 1, 1);
      }
    }
  }

  /** Once steps double, n further heights are at least the sum of n - 1 of them apart. */
  lemma {:induction false} DoublingSteps(height: nat, k: nat)
    requires k > 0
    ensures var n := |LocatorHeights(height, Pow2(k), 10 + k)|;
            n > 1 ==> Pow2(k + n - 2) < height + Pow2(k)
    decreases height
  {
    LocatorNext(height, Pow2(k), 10 + k);
    if height > 0 {
      var next := if height > Pow2(k) then height - Pow2(k) else 0;
      DoublingSteps(next, k + 1);
      LocatorNext(next, Pow2(k + 1), 11 + k);
    }
  }

  // ---------- which heights exactly ----------

  /** The heights below the start of a locator: single steps as far as the entry 11, and then
      twice as far each time, but none below zero. */
  function Back(i: nat): nat
  {
    if i <= 11 then i else 9 + Pow2(i - 10)
  }

  lemma LocatorAt(height: nat, i: nat)
    requires i < |LocatorHeights(height, 1, 0)|
    ensures LocatorHeights(height, 1, 0)[i] == if Back(i) < height then height - Back(i) else 0
  {
    SinglesAt(height, 0, i);
    assert Pow2(0) == 1 && Pow2(1) == 2;
  }

  lemma {:induction false} SinglesAt(height: nat, listed: nat, i: nat)
    requires listed <= 10 && i < |LocatorHeights(height, 1, listed)|
    ensures var back := if i + listed <= 10 then i else 10 - listed + Pow2(i + listed - 10) - 1;
            LocatorHeights(height, 1, listed)[i] == if back < height then height - back else 0
    decreases 10 - listed
  {
    LocatorNext(height, 1, listed);
    if listed == 10 {
      DoublesAt(height, 0, i);
    } else if i > 0 {
      SinglesAt(height - 1, listed + 1, i - 1);
    }
  }

  lemma {:induction false} DoublesAt(height: nat, k: nat, i: nat)
    requires i < |LocatorHeights(height, Pow2(k), 10 + k)|
    ensures Pow2(k + i) >= Pow2(k)
    ensures var back := Pow2(k + i) - Pow2(k);
            LocatorHeights(height, Pow2(k), 10 + k)[i] == if back < height then height - back else 0
    decreases i
  {
    LocatorNext(height, Pow2(k), 10 + k);
    if i > 0 {
      var next := if height > Pow2(k) then height - Pow2(k) else 0;
      DoublesAt(next, k + 1, i - 1);
    }
  }
}
