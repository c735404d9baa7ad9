/** The block index with its skip pointers and the active chain, src/chain.h and src/chain.cpp. */
module BlockChain {
  import opened Numbers
  import opened BlockSkips

  // ---------------------------------------------------------------- blocks

  class BlockIndex {
    const pprev: BlockIndex?
    const nHeight: nat
    const hash: nat
    var pskip: BlockIndex?

    constructor (parent: BlockIndex?, hash: nat)
      ensures pprev == parent && this.hash == hash && pskip == null
      ensures nHeight == if parent == null then 0 else parent.nHeight + 1
    {
      pprev := parent;
      nHeight := if parent == null then 0 else parent.nHeight + 1;
      this.hash := hash;
      pskip := null;
    }
  }

  /** Heights count the steps to a block without a parent. */
  ghost predicate Proper(b: BlockIndex)
    decreases b.nHeight
  {
    if b.pprev == null then b.nHeight == 0
    else b.pprev.nHeight + 1 == b.nHeight && Proper(b.pprev)
  }

  /** Parent walking: the ancestor at a height. */
  ghost function Ancestor(b: BlockIndex, h: nat): (a: BlockIndex)
    requires Proper(b) && h <= b.nHeight
    ensures a.nHeight == h && Proper(a)
    decreases b.nHeight
  {
    if h == b.nHeight then b else Ancestor(b.pprev, h)
  }

  lemma {:induction false} AncestorOfAncestor(b: BlockIndex, h: nat, k: nat)
    requires Proper(b) && k <= h <= b.nHeight
    ensures Ancestor(Ancestor(b, h), k) == Ancestor(b, k)
    decreases b.nHeight
  {
    if h < b.nHeight {
      AncestorOfAncestor(b.pprev, h, k);
    }
  }

  lemma AncestorStep(b: BlockIndex, h: nat)
    requires Proper(b) && h < b.nHeight
    ensures Ancestor(b, h + 1).pprev == Ancestor(b, h)
  {
    AncestorOfAncestor(b, h + 1, h);
  }

  /** The block and all blocks below it. */
  ghost function Path(b: BlockIndex): set<BlockIndex>
    requires Proper(b)
    decreases b.nHeight
  {
    {b} + if b.pprev == null then {} else Path(b.pprev)
  }

  lemma {:induction false} PathBelow(b: BlockIndex, x: BlockIndex)
    requires Proper(b) && x in Path(b)
    ensures x.nHeight <= b.nHeight && Ancestor(b, x.nHeight) == x
    decreases b.nHeight
  {
    if x != b {
      PathBelow(b.pprev, x);
    }
  }

  /** Blocks are only ever linked to blocks that exist. */
  lemma {:induction false} PathExists(b: BlockIndex)
    requires Proper(b)
    ensures forall x :: x in Path(b) ==> allocated(x)
    decreases b.nHeight
  {
    if b.pprev != null {
      PathExists(b.pprev);
    }
  }

  lemma NotBelow(b: BlockIndex, x: BlockIndex)
    requires Proper(b) && x.nHeight > b.nHeight
    ensures x !in Path(b)
  {
    if x in Path(b) {
      PathBelow(b, x);
    }
  }

  /** Every skip pointer from here down is unset or leads to the ancestor at its skip height. */
  ghost predicate SkipsOk(b: BlockIndex)
    requires Proper(b)
    reads Path(b)
    decreases b.nHeight
  {
    && (b.pskip != null ==> b.nHeight > 0 && b.pskip == Ancestor(b, GetSkipHeight(b.nHeight)))
    && (b.pprev != null ==> SkipsOk(b.pprev))
  }

  /** Every block from here down that has a parent has a skip pointer. */
  ghost predicate SkipsSet(b: BlockIndex)
    requires Proper(b)
    reads Path(b)
    decreases b.nHeight
  {
    b.pprev != null ==> b.pskip != null && SkipsSet(b.pprev)
  }

  lemma {:induction false} SkipsBelow(b: BlockIndex, h: nat)
    requires Proper(b) && h <= b.nHeight && SkipsOk(b)
    ensures SkipsOk(Ancestor(b, h)) && (SkipsSet(b) ==> SkipsSet(Ancestor(b, h)))
    decreases b.nHeight
  {
    if h < b.nHeight {
      SkipsBelow(b.pprev, h);
    }
  }

  /** GetAncestor: following skip pointers where they help finds the block that parent walking finds, and takes the
      rounds of the walk by heights, which are few. */
  method GetAncestor(b: BlockIndex, height: int) returns (r: BlockIndex?, ghost rounds: nat)
    requires Proper(b) && SkipsOk(b)
    ensures if 0 <= height <= b.nHeight then r == Ancestor(b, height) else r == null
    ensures rounds <= b.nHeight && (SkipsSet(b) ==> rounds < RoundLimit(BitLength(b.nHeight)))
    ensures SkipsSet(b) && 0 <= height <= b.nHeight ==> rounds == Rounds(b.nHeight, height)
  {
    hide RoundLimit, BitLength;
    rounds := 0;
    RoundsBound(b.nHeight, if 0 <= height <= b.nHeight then height else 0);
    if height > b.nHeight || height < 0 {
      return null, rounds;
    }
    var walk := b;
    var heightWalk := b.nHeight;
    while heightWalk > height
      invariant height <= heightWalk <= b.nHeight
      invariant walk == Ancestor(b, heightWalk) && SkipsOk(b)
      invariant rounds + heightWalk <= b.nHeight
      invariant SkipsSet(b) ==> rounds + Rounds(heightWalk, height) == Rounds(b.nHeight, height)
    {
      SkipsBelow(b, heightWalk);
      ghost var before := heightWalk;
      var heightSkip := GetSkipHeight(heightWalk);
      var heightSkipPrev := GetSkipHeight(heightWalk - 1);
      if walk.pskip != null && (heightSkip == height ||
                                (heightSkip > height && !(heightSkipPrev < heightSkip - 2 &&
                                    heightSkipPrev >= height))) {
        AncestorOfAncestor(b, heightWalk, heightSkip);
        walk := walk.pskip;
        heightWalk := heightSkip;
      } else {
        assert walk.pprev != null;
        AncestorStep(b, heightWalk - 1);
        walk := walk.pprev;
        heightWalk := heightWalk - 1;
      }
      rounds := rounds + 1;
      assert SkipsSet(b) ==> heightWalk == NextHeight(before, height);
    }
    return walk, rounds;
  }

  /** BuildSkip */
  method BuildSkip(b: BlockIndex)
    requires Proper(b) && (b.pprev != null ==> SkipsOk(b.pprev))
    requires b.pprev == null ==> b.pskip == null
    modifies b`pskip
    ensures SkipsOk(b) && (b.pprev == null || old(SkipsSet(b.pprev)) ==> SkipsSet(b))
    ensures b.pprev != null ==> b.pskip == Ancestor(b.pprev, GetSkipHeight(b.nHeight))
  {
    if b.pprev != null {
      PathExists(b.pprev);
      NotBelow(b.pprev, b);
      var skip, rounds := GetAncestor(b.pprev, GetSkipHeight(b.nHeight));
      b.pskip := skip;
      assert SkipsOk(b.pprev);
    }
  }

  // ---------------------------------------------------------------- trees

  /** Closed under parents, with every skip pointer in place. */
  ghost predicate TreeOk(tree: set<BlockIndex>)
    reads tree
  {
    forall b :: b in tree ==> Proper(b) && Path(b) <= tree && SkipsOk(b) && SkipsSet(b)
  }

  /** Adds a block below `parent`, or a root, and sets its skip pointer. */
  method AddBlock(ghost tree: set<BlockIndex>, parent: BlockIndex?, hash: nat) returns (b: BlockIndex)
    requires TreeOk(tree) && (parent != null ==> parent in tree)
    ensures fresh(b) && b.pprev == parent && TreeOk(tree + {b})
  {
    b := new BlockIndex(parent, hash);
    BuildSkip(b);
  }

  /** Builds a tree block by block, each below an earlier block or a root of its own: in any such tree
      every ancestor query agrees with parent walking. */
  method Grow(parents: seq<nat>) returns (blocks: seq<BlockIndex>)
    ensures |blocks| == |parents|
    ensures forall i :: 0 <= i < |blocks| ==> blocks[i].pprev == if parents[i] < i then blocks[parents[i]] else null
    ensures TreeOk(set b | b in blocks)
  {
    blocks := [];
    for n := 0 to |parents|
      invariant |blocks| == n && (forall b :: b in blocks ==> fresh(b))
      invariant forall i :: 0 <= i < n ==> blocks[i].pprev == if parents[i] < i then blocks[parents[i]] else null
      invariant TreeOk(set b | b in blocks)
    {
      ghost var tree := set b | b in blocks;
      var parent: BlockIndex? := if parents[n] < n then blocks[parents[n]] else null;
      var b := AddBlock(tree, parent, n);
      blocks := blocks + [b];
      assert (set c | c in blocks) == tree + {b};
    }
  }

  // ---------------------------------------------------------------- the active chain

  /** The block and its ancestors, by height. */
  ghost function ChainOf(b: BlockIndex): (s: seq<BlockIndex?>)
    requires Proper(b)
    ensures |s| == b.nHeight + 1 && forall h :: 0 <= h <= b.nHeight ==> s[h] == Ancestor(b, h)
  {
    seq(b.nHeight + 1, h requires 0 <= h <= b.nHeight => Ancestor(b, h))
  }

  /** `x` is `b` or an ancestor of it. */
  ghost predicate Above(x: BlockIndex, b: BlockIndex)
    requires Proper(b)
  {
    x.nHeight <= b.nHeight && Ancestor(b, x.nHeight) == x
  }

  function Resized(s: seq<BlockIndex?>, n: nat): (r: seq<BlockIndex?>)
    ensures |r| == n && forall i :: 0 <= i < n ==> r[i] == if i < |s| then s[i] else null
  {
    if n <= |s| then s[..n] else s + seq(n - |s|, _ => null)
  }

  class Chain {
    var vChain: seq<BlockIndex?>

    constructor ()
      ensures Valid() && vChain == []
    {
      vChain := [];
    }

    /** The entry at each height is the tip's ancestor at that height. */
    ghost predicate Valid()
      reads this
    {
      vChain == [] || (Tip() != null && Proper(Tip()) && vChain == ChainOf(Tip()))
    }

    function Tip(): BlockIndex?
      reads this
    {
      if vChain == [] then null else vChain[|vChain| - 1]
    }

    function At(h: int): BlockIndex?
      reads this
    {
      if h < 0 || h >= |vChain| then null else vChain[h]
    }

    function Height(): int
      reads this
    {
      |vChain| - 1
    }

    /** A block is found at its own height exactly if it lies on the chain. */
    predicate Contains(b: BlockIndex)
      reads this
      ensures Valid() && Proper(b) ==> (Contains(b) <==> Tip() != null && Proper(Tip()) && Above(b, Tip()))
    {
      At(b.nHeight) == b
    }

    function Next(b: BlockIndex): BlockIndex?
      reads this
    {
      if Contains(b) then At(b.nHeight + 1) else null
    }

    /** The successor of a block is its child on the chain; only the tip and blocks elsewhere have none. */
    lemma NextIsChild(b: BlockIndex)
      requires Valid() && Proper(b)
      ensures Next(b) != null ==> Next(b).pprev == b && Proper(Next(b)) && Contains(Next(b))
      ensures Next(b) == null <==> !Contains(b) || b == Tip()
    {
      if Contains(b) && b.nHeight < Height() {
        AncestorStep(Tip(), b.nHeight);
      }
    }

    /** SetTip: stops as soon as it meets a block already in place. */
    method SetTip(tip: BlockIndex?)
      requires Valid() && (tip != null ==> Proper(tip))
      modifies this
      ensures Valid() && vChain == if tip == null then [] else ChainOf(tip)
    {
      if tip == null {
        vChain := [];
        return;
      }
      ghost var before := vChain;
      vChain := Resized(vChain, tip.nHeight + 1);
      var p: BlockIndex? := tip;
      while p != null && vChain[p.nHeight] != p
        invariant |vChain| == tip.nHeight + 1
        invariant p != null ==> Proper(p) && Above(p, tip)
        invariant forall h :: 0 <= h < |vChain| && (p != null ==> p.nHeight < h) ==> vChain[h] == Ancestor(tip, h)
        invariant forall h :: 0 <= h < |vChain| && p != null && h <= p.nHeight ==>
          vChain[h] == if h < |before| then before[h] else null
        decreases if p == null then 0 else p.nHeight + 1
      {
        if p.nHeight > 0 {
          AncestorStep(tip, p.nHeight - 1);
        }
        vChain := vChain[p.nHeight := p];
        p := p.pprev;
      }
      if p != null {
        InPlace(before, p, tip);
      }
    }

    /** FindFork: the last block common to the chain and the branch of a block. */
    method FindFork(b: BlockIndex?) returns (fork: BlockIndex?)
      requires Valid() && (b != null ==> Proper(b) && SkipsOk(b))
      ensures b == null || Tip() == null ==> fork == null
      ensures b != null && Tip() != null ==> HighestCommon(fork, b, Tip())
    {
      if b == null {
        return null;
      }
      fork := b;
      ghost var rounds;
      if b.nHeight > Height() {
        fork, rounds := GetAncestor(b, Height());
      }
      ghost var low: int := Min(b.nHeight, Height());
      while fork != null && !Contains(fork)
        invariant fork != null ==> Proper(fork) && Above(fork, b) && fork.nHeight <= low
        invariant forall h :: 0 <= h <= low && (fork != null ==> fork.nHeight < h) ==> Ancestor(b, h) != vChain[h]
        decreases if fork == null then 0 else fork.nHeight + 1
      {
        if fork.nHeight > 0 {
          AncestorStep(b, fork.nHeight - 1);
        }
        fork := fork.pprev;
      }
    }

    /** A step back, by the chain's index if possible and otherwise by skip pointers. */
    method StepBack(p: BlockIndex, h: nat) returns (q: BlockIndex)
      requires Valid() && Proper(p) && SkipsOk(p) && h <= p.nHeight
      ensures q == Ancestor(p, h)
    {
      if Contains(p) {
        AncestorOfAncestor(Tip(), p.nHeight, h);
        q := At(h);
      } else {
        var found, rounds := GetAncestor(p, h);
        q := found;
      }
    }

    /** GetLocator: whether it reads the chain or follows skip pointers, it collects ancestors of its starting point. */
    method GetLocator(b: BlockIndex?) returns (have: seq<nat>)
      requires Valid() && (b != null ==> Proper(b) && SkipsOk(b)) && (Tip() != null ==> SkipsOk(Tip()))
      ensures
        var start := if b == null then Tip() else b;
        have == if start == null then [] else Hashes(start, LocatorHeights(start.nHeight, 1, 0))
    {
      if b != null {
        have := LocateFrom(b);
      } else if Tip() != null {
        have := LocateFrom(Tip());
      } else {
        have := [];
      }
    }

    method LocateFrom(start: BlockIndex) returns (have: seq<nat>)
      requires Valid() && Proper(start) && SkipsOk(start)
      ensures have == Hashes(start, LocatorHeights(start.nHeight, 1, 0))
    {
      hide SkipsOk, ChainOf, Located, Hashes, LocatorHeights;
      var p := start;
      var step := 1;
      have := [];
      LocatedStart(start);
      PathExists(start);
      while true
        invariant step >= 1 && Valid() && SkipsOk(start)
        invariant Proper(p) && Above(p, start)
        invariant Located(start, have, p.nHeight, step)
        decreases p.nHeight
      {
        LocatedStep(start, have, p.nHeight, step);
        have := have + [p.hash];
        if p.nHeight == 0 {
          break;
        }
        var h := Max(p.nHeight - step, 0);
        AncestorOfAncestor(start, p.nHeight, h);
        SkipsBelow(start, p.nHeight);
        p := StepBack(p, h);
        if |have| > 10 {
          step := step * 2;
        }
      }
    }
  }

  /** The hashes collected so far and those still to come make up the locator. */
  ghost predicate Located(start: BlockIndex, have: seq<nat>, h: nat, step: nat)
    requires Proper(start) && h <= start.nHeight
  {
    step >= 1 && Hashes(start, LocatorHeights(start.nHeight, 1, 0)) ==
        have + Hashes(start, LocatorHeights(h, step, |have|))
  }

  lemma LocatedStart(start: BlockIndex)
    requires Proper(start)
    ensures Located(start, [], start.nHeight, 1)
  {
    hide LocatorHeights, Hashes;
  }

  lemma LocatedStep(start: BlockIndex, have: seq<nat>, h: nat, step: nat)
    requires Proper(start) && h <= start.nHeight && Located(start, have, h, step)
    ensures
      var more := have + [Ancestor(start, h).hash];
      if h == 0 then more == Hashes(start, LocatorHeights(start.nHeight, 1, 0))
      else Located(start, more, Max(h - step, 0), if |more| > 10 then step * 2 else step)
  {
    var r := LocatorHeights(h, step, |have|);
    if h == 0 {
      assert r[1..] == [];
    } else {
      assert r[1..] == LocatorHeights(Max(h - step, 0), if |have| + 1 > 10 then step * 2 else step, |have| + 1);
    }
    hide LocatorHeights;
    HashesStep(start, r);
    JoinHashes(have, Ancestor(start, h).hash, Hashes(start, r[1..]));
    assert h == 0 ==> Hashes(start, r[1..]) == [];
    hide Hashes;
  }

  lemma JoinHashes(have: seq<nat>, x: nat, rest: seq<nat>)
    ensures have + ([x] + rest) == have + [x] + rest && have + [x] + [] == have + [x]
  {
  }

  /** The heights a locator visits: one by one at first, then in steps that double, down to zero. */
  ghost function LocatorHeights(h: nat, step: nat, count: nat): (r: seq<nat>)
    requires step >= 1
    ensures |r| > 0 && r[0] == h && forall i :: 0 <= i < |r| ==> r[i] <= h
    decreases h
  {
    if h == 0 then [0]
    else [h] + LocatorHeights(Max(h - step, 0), if count + 1 > 10 then step * 2 else step, count + 1)
  }

  ghost function Hashes(b: BlockIndex, heights: seq<nat>): seq<nat>
    requires Proper(b) && forall i :: 0 <= i < |heights| ==> heights[i] <= b.nHeight
  {
    seq(|heights|, i requires 0 <= i < |heights| => Ancestor(b, heights[i]).hash)
  }

  lemma HashesStep(b: BlockIndex, heights: seq<nat>)
    requires Proper(b) && heights != [] && forall i :: 0 <= i < |heights| ==> heights[i] <= b.nHeight
    ensures Hashes(b, heights) == [Ancestor(b, heights[0]).hash] + Hashes(b, heights[1..])
  {
  }

  /** A locator's heights strictly decrease to zero, and start one by one. */
  lemma {:induction false} LocatorShape(h: nat, step: nat, count: nat)
    requires step >= 1
    ensures
      var r := LocatorHeights(h, step, count);
      && (forall i, j :: 0 <= i < j < |r| ==> r[j] < r[i])
      && r[|r| - 1] == 0
      && (step == 1 ==> forall i :: 0 <= i < |r| && i + count <= 11 ==> r[i] == h - i)
    decreases h
  {
    if h > 0 {
      var next, doubled := Max(h - step, 0), if count + 1 > 10 then step * 2 else step;
      LocatorShape(next, doubled, count + 1);
      var s := LocatorHeights(next, doubled, count + 1);
      var r := LocatorHeights(h, step, count);
      assert r == [h] + s;
      forall i | 0 < i < |r| && i + count <= 11 && step == 1
        ensures r[i] == h - i
      {
        assert r[i] == s[i - 1];
      }
    }
  }

  lemma StepDoubles(count: nat)
    ensures Pow2(Max(count - 9, 0)) == if count + 1 > 10 then Pow2(Max(count - 10, 0)) * 2 else Pow2(Max(count - 10, 0))
  {
  }

  lemma LocatorFirst(h: nat, step: nat, count: nat)
    requires step >= 1 && |LocatorHeights(h, step, count)| > 1
    ensures
      var s := LocatorHeights(Max(h - step, 0), if count + 1 > 10 then step * 2 else step, count + 1);
      LocatorHeights(h, step, count) == [h] + s && s[0] == Max(h - step, 0)
  {
  }

  /** The first eleven steps of a locator go down by one, every later one by twice as much as the one before. */
  lemma {:induction false} LocatorSteps(h: nat, step: nat, count: nat, i: nat)
    requires step == Pow2(Max(count - 10, 0)) && i + 1 < |LocatorHeights(h, step, count)|
    ensures
      var r := LocatorHeights(h, step, count);
      r[i + 1] == Max(r[i] - Pow2(Max(count + i - 10, 0)), 0)
    decreases i
  {
    hide LocatorHeights, Pow2;
    LocatorFirst(h, step, count);
    StepDoubles(count);
    var next, doubled := Max(h - step, 0), Pow2(Max(count - 9, 0));
    var r, s := LocatorHeights(h, step, count), LocatorHeights(next, doubled, count + 1);
    assert r == [h] + s;
    if i > 0 {
      LocatorSteps(next, doubled, count + 1, i - 1);
      assert r[i] == s[i - 1] && r[i + 1] == s[i];
    }
  }

  /** A valid chain holds, below any block of it, that block's ancestors. */
  lemma InPlace(before: seq<BlockIndex?>, p: BlockIndex, tip: BlockIndex)
    requires Proper(tip) && Above(p, tip) && Proper(p)
    requires before == [] || (before[|before| - 1] != null && Proper(before[|before| - 1]) &&
      before == ChainOf(before[|before| - 1]))
    requires p.nHeight < |before| && before[p.nHeight] == p
    ensures forall h :: 0 <= h <= p.nHeight ==> before[h] == Ancestor(tip, h)
  {
    var last := before[|before| - 1];
    forall h | 0 <= h <= p.nHeight
      ensures before[h] == Ancestor(tip, h)
    {
      AncestorOfAncestor(last, p.nHeight, h);
      AncestorOfAncestor(tip, p.nHeight, h);
    }
  }

  /** `x` is on both branches and no block above it is; there is no such block if the branches have different roots. */
  ghost predicate HighestCommon(x: BlockIndex?, a: BlockIndex, b: BlockIndex)
    requires Proper(a) && Proper(b)
  {
    && (x != null ==> Above(x, a) && Above(x, b))
    && (forall h :: 0 <= h <= a.nHeight && h <= b.nHeight && Ancestor(a, h) == Ancestor(b, h) ==>
      x != null && h <= x.nHeight)
  }

  /** Two branches meet exactly if they have the same root. */
  lemma CommonRoot(x: BlockIndex?, a: BlockIndex, b: BlockIndex)
    requires Proper(a) && Proper(b) && HighestCommon(x, a, b)
    ensures x == null <==> Ancestor(a, 0) != Ancestor(b, 0)
  {
    if x != null {
      AncestorOfAncestor(a, x.nHeight, 0);
      AncestorOfAncestor(b, x.nHeight, 0);
    }
  }

  /** LastCommonAncestor; its final assertion cannot fail. */
  method LastCommonAncestor(a: BlockIndex, b: BlockIndex) returns (x: BlockIndex?)
    requires Proper(a) && Proper(b) && SkipsOk(a) && SkipsOk(b)
    ensures HighestCommon(x, a, b)
  {
    var pa: BlockIndex?, pb: BlockIndex? := a, b;
    ghost var rounds;
    if a.nHeight > b.nHeight {
      pa, rounds := GetAncestor(a, b.nHeight);
    } else if b.nHeight > a.nHeight {
      pb, rounds := GetAncestor(b, a.nHeight);
    }
    while pa != pb && pa != null && pb != null
      invariant (pa == null) == (pb == null)
      invariant pa != null ==> pa.nHeight == pb.nHeight && Above(pa, a) && Above(pb, b) && Proper(pa) && Proper(pb)
      invariant forall h :: 0 <= h <= a.nHeight && h <= b.nHeight && (pa != null ==> pa.nHeight < h) ==>
        Ancestor(a, h) != Ancestor(b, h)
      decreases if pa == null then 0 else pa.nHeight + 1
    {
      if pa.nHeight > 0 {
        AncestorStep(a, pa.nHeight - 1);
        AncestorStep(b, pa.nHeight - 1);
      }
      pa, pb := pa.pprev, pb.pprev;
    }
    assert pa == pb;
    return pa;
  }

  /** Any sequence of re-organisations leaves the chain of the last tip. */
  method Reorganise(c: Chain, tips: seq<BlockIndex?>)
    requires c.Valid() && forall i :: 0 <= i < |tips| && tips[i] != null ==> Proper(tips[i])
    modifies c
    ensures c.Valid()
    ensures tips != [] ==> c.vChain == if tips[|tips| - 1] == null then [] else ChainOf(tips[|tips| - 1])
  {
    for i := 0 to |tips|
      invariant c.Valid()
      invariant i > 0 ==> c.vChain == if tips[i - 1] == null then [] else ChainOf(tips[i - 1])
    {
      c.SetTip(tips[i]);
    }
  }
}
