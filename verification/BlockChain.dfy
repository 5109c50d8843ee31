/**
 * The block tree with its skip list, and the active chain as an array: fast
 * walks that agree with plain steps from block to parent.
 */
module BlockChain {
  import opened Arith
  import opened Bits

  /******* Skip heights *******/

  /** The number with its lowest binary one cleared. */
  function InvertLowestOne(n: nat): (r: nat)
    ensures r <= n && (n > 0 ==> r < n)
  {
    if n == 0 then 0 else if n % 2 == 1 then n - 1 else 2 * InvertLowestOne(n / 2)
  }

  /** Clearing the lowest one is the bitwise and with the number before. */
  lemma {:induction false} InvertIsAnd(n: nat)
    requires n > 0
    ensures InvertLowestOne(n) == And(n, n - 1)
  {
    if n % 2 == 1 {
      AndSame(n / 2);
    } else {
      InvertIsAnd(n / 2);
      assert (n - 1) / 2 == n / 2 - 1;
    }
  }

  /** Where the skip pointer of a block leads: always strictly down. */
  function GetSkipHeight(height: nat): (r: nat)
    ensures r <= height && (height > 0 ==> r < height)
  {
    if height < 2 then 0
    else if height % 2 == 1 then InvertLowestOne(InvertLowestOne(height - 1)) + 1
    else InvertLowestOne(height)
  }

  /** The heights in terms of bits: an even one loses its lowest one, an odd one keeps its last bit and loses two others. */
  lemma SkipIs(height: nat)
    ensures height < 2 ==> GetSkipHeight(height) == 0
    ensures height >= 2 && height % 2 == 0 ==> GetSkipHeight(height) == And(height, height - 1)
    ensures height >= 3 && height % 2 == 1 ==>
              var even := And(height - 1, height - 2);
              GetSkipHeight(height) == (if even == 0 then 0 else And(even, even - 1)) + 1
  {
    hide And;
    if height >= 2 && height % 2 == 0 {
      InvertIsAnd(height);
    } else if height >= 3 {
      InvertIsAnd(height - 1);
      var even := And(height - 1, height - 2);
      if even > 0 {
        InvertIsAnd(even);
      }
    }
  }

  /** What is cleared is the largest power of two that divides the number. */
  lemma {:induction false} LowestOne(n: nat) returns (k: nat, m: nat)
    requires n > 0
    ensures n == (2 * m + 1) * Pow(2, k) && InvertLowestOne(n) == 2 * m * Pow(2, k)
  {
    if n % 2 == 1 {
      k, m := 0, n / 2;
    } else {
      k, m := LowestOne(n / 2);
      var p := Pow(2, k);
      PowNext(2, k);
      assert (2 * m + 1) * (2 * p) == 2 * ((2 * m + 1) * p);
      assert 2 * m * (2 * p) == 2 * (2 * m * p);
      k := k + 1;
    }
  }

  /******* Blocks *******/

  class BlockIndex {
    const nHeight: nat
    const pprev: BlockIndex?
    const pskip: BlockIndex?

    /** Heights count the steps to the root of the tree. */
    ghost predicate Linked()
      decreases nHeight
    {
      (pprev == null ==> nHeight == 0) && (pprev != null ==> nHeight == pprev.nHeight + 1 && pprev.Linked())
    }

    /** The ancestor at a height, by plain steps to the parent. */
    ghost function At(height: nat): (r: BlockIndex)
      requires Linked() && height <= nHeight
      ensures r.nHeight == height && r.Linked()
      decreases nHeight
    {
      if height == nHeight then this else pprev.At(height)
    }

    /** Every block below was given its skip pointer. */
    ghost predicate Valid()
      decreases nHeight
    {
      Linked() && (pprev != null ==> pskip == pprev.At(GetSkipHeight(nHeight)) && pprev.Valid())
    }

    constructor Genesis()
      ensures Valid() && nHeight == 0 && pprev == null
    {
      nHeight, pprev, pskip := 0, null, null;
    }

    /** A new block on top of another; its skip pointer is built at once. */
    constructor OnTop(prev: BlockIndex)
      requires prev.Valid()
      ensures Valid() && pprev == prev && nHeight == prev.nHeight + 1
    {
      var skip := prev.GetAncestor(GetSkipHeight(prev.nHeight + 1));
      nHeight, pprev, pskip := prev.nHeight + 1, prev, skip;
    }

    /** The ancestor at a height, by way of the skip pointers; null outside the range. */
    method GetAncestor(height: int) returns (r: BlockIndex?)
      requires Valid() && Linked()
      ensures 0 <= height <= nHeight ==> r == At(height)
      ensures height < 0 || height > nHeight ==> r == null
    {
      if height > nHeight || height < 0 {
        return null;
      }
      hide Valid, Linked, At;
      ValidFacts(this);
      AtSelf(this);
      var walk: BlockIndex := this;
      var heightWalk := nHeight;
      while heightWalk > height
        invariant walk.Valid() && walk.Linked() && walk.nHeight == heightWalk >= height && walk.At(height) == At(height)
        decreases heightWalk
      {
        ValidFacts(walk);
        var heightSkip := GetSkipHeight(heightWalk);
        var heightSkipPrev := GetSkipHeight(heightWalk - 1);
        if heightSkip == height
           || (heightSkip > height && !(heightSkipPrev < heightSkip - 2 && heightSkipPrev >= height)) {
          AtAt(walk, heightSkip, height);
          AtValid(walk, heightSkip);
          walk := walk.pskip;
          heightWalk := heightSkip;
        } else {
          walk := walk.pprev;
          heightWalk := heightWalk - 1;
        }
      }
      AtSelf(walk);
      r := walk;
    }
  }

  /** What the predicates say about one block. */
  lemma ValidFacts(b: BlockIndex)
    requires b.Valid()
    ensures b.Linked() && (b.pprev == null <==> b.nHeight == 0)
    ensures b.pprev != null ==>
              && b.pprev.Valid() && b.pprev.Linked() && b.nHeight == b.pprev.nHeight + 1
              && b.pskip == b.At(GetSkipHeight(b.nHeight))
              && forall h: nat | h < b.nHeight :: b.At(h) == b.pprev.At(h)
  {
  }

  lemma AtSelf(b: BlockIndex)
    requires b.Linked()
    ensures b.At(b.nHeight) == b
  {
  }

  lemma {:induction false} AtValid(b: BlockIndex, h: nat)
    requires b.Valid() && b.Linked() && h <= b.nHeight
    ensures b.At(h).Valid()
    decreases b.nHeight
  {
    if h < b.nHeight {
      AtValid(b.pprev, h);
    }
  }

  /** An ancestor's ancestor is an ancestor. */
  lemma {:induction false} AtAt(b: BlockIndex, high: nat, low: nat)
    requires b.Linked() && low <= high <= b.nHeight
    ensures b.At(high).At(low) == b.At(low)
    decreases b.nHeight
  {
    if high < b.nHeight {
      AtAt(b.pprev, high, low);
    }
  }

  /** Is r an ancestor of b, or b itself? */
  ghost predicate IsAncestor(r: BlockIndex, b: BlockIndex)
    requires b.Linked()
  {
    r.nHeight <= b.nHeight && b.At(r.nHeight) == r
  }

  /** The deepest block that both descend from; null when there is none. */
  method LastCommonAncestor(a: BlockIndex, b: BlockIndex) returns (r: BlockIndex?)
    requires a.Valid() && b.Valid() && a.Linked() && b.Linked()
    ensures r != null ==> IsAncestor(r, a) && IsAncestor(r, b)
    ensures forall h: nat | h <= a.nHeight && h <= b.nHeight ::
              a.At(h) == b.At(h) <==> r != null && h <= r.nHeight
  {
    hide BlockIndex.Valid, BlockIndex.Linked, BlockIndex.At;
    AtSelf(a);
    AtSelf(b);
    var low := if a.nHeight < b.nHeight then a.nHeight else b.nHeight;
    var pa: BlockIndex?, pb: BlockIndex? := a, b;
    if a.nHeight > b.nHeight {
      pa := a.GetAncestor(b.nHeight);
    } else if b.nHeight > a.nHeight {
      pb := b.GetAncestor(a.nHeight);
    }
    ghost var top: int := low;
    while pa != pb && pa != null && pb != null
      invariant -1 <= top <= low
      invariant if top == -1 then pa == null && pb == null else pa == a.At(top) && pb == b.At(top)
      invariant forall h: nat | top < h <= low :: a.At(h) != b.At(h)
      decreases top
    {
      AtValid(a, top);
      AtValid(b, top);
      Step(a, pa);
      Step(b, pb);
      pa, pb := pa.pprev, pb.pprev;
      top := top - 1;
    }
    assert pa == pb;
    r := pa;
    if r != null {
      forall h: nat | h <= r.nHeight ensures a.At(h) == b.At(h) {
        AtAt(a, r.nHeight, h);
        AtAt(b, r.nHeight, h);
      }
    }
  }

  /******* The active chain *******/

  class Chain {
    var vChain: seq<BlockIndex?>

    ghost predicate Valid()
      reads this
    {
      IsBranch(vChain)
    }

    constructor ()
      ensures Valid() && vChain == []
    {
      vChain := [];
    }

    function Height(): int
      reads this
    {
      |vChain| - 1
    }

    function Get(height: int): BlockIndex?
      reads this
    {
      if height < 0 || height >= |vChain| then null else vChain[height]
    }

    predicate Contains(b: BlockIndex)
      reads this
    {
      Get(b.nHeight) == b
    }

    /** The successor in the chain; null for the tip and for blocks of other branches. */
    function Next(b: BlockIndex): BlockIndex?
      reads this
    {
      if Contains(b) then Get(b.nHeight + 1) else null
    }

    /**
     * Make a block the tip.  Rewriting stops at the first entry that is right
     * already, and still leaves the whole branch in place.
     */
    method SetTip(tip: BlockIndex?)
      requires Valid() && (tip != null ==> tip.Valid() && tip.Linked())
      modifies this
      ensures Valid()
      ensures if tip == null then vChain == []
              else |vChain| == tip.nHeight + 1 && forall i | 0 <= i <= tip.nHeight :: vChain[i] == tip.At(i)
    {
      hide BlockIndex.Valid, BlockIndex.Linked, BlockIndex.At;
      if tip == null {
        vChain := [];
        return;
      }
      ghost var before := vChain;
      var size := tip.nHeight + 1;
      vChain := if |vChain| >= size then vChain[..size] else vChain + seq(size - |vChain|, i => null);
      AtSelf(tip);
      var p: BlockIndex? := tip;
      while p != null && vChain[p.nHeight] != p
        invariant |vChain| == size
        invariant p != null ==> p.Valid() && p.nHeight <= tip.nHeight && p == tip.At(p.nHeight)
        invariant forall i | 0 <= i < size && (p == null || i > p.nHeight) :: vChain[i] == tip.At(i)
        invariant p != null ==> forall i | 0 <= i <= p.nHeight :: vChain[i] == if i < |before| then before[i] else null
        decreases if p == null then 0 else p.nHeight + 1
      {
        vChain := vChain[p.nHeight := p];
        Step(tip, p);
        p := p.pprev;
      }
      if p != null {
        forall i | 0 <= i <= p.nHeight ensures vChain[i] == tip.At(i) {
          StoredBelow(before, p, i);
          AtAt(tip, p.nHeight, i);
        }
      }
      AncestryIsBranch(tip, vChain);
    }

    /** The highest block of the chain that a block descends from. */
    method FindFork(b: BlockIndex?) returns (r: BlockIndex?)
      requires Valid() && (b != null ==> b.Valid() && b.Linked())
      ensures b == null ==> r == null
      ensures b != null && r != null ==> Contains(r) && IsAncestor(r, b)
      ensures b != null ==> forall h: nat | h <= b.nHeight :: Contains(b.At(h)) <==> r != null && h <= r.nHeight
    {
      hide BlockIndex.Valid, BlockIndex.Linked, BlockIndex.At;
      r := b;
      if b == null {
        return;
      }
      AtSelf(b);
      if b.nHeight > Height() {
        r := b.GetAncestor(Height());
        if r != null {
          AtValid(b, r.nHeight);
        }
      }
      while r != null && !Contains(r)
        invariant r != null ==> r.Valid() && IsAncestor(r, b)
        invariant forall h: nat | h <= b.nHeight && (r == null || h > r.nHeight) :: !Contains(b.At(h))
        decreases if r == null then 0 else r.nHeight + 1
      {
        Step(b, r);
        r := r.pprev;
      }
      if r != null {
        forall h: nat | h <= r.nHeight ensures Contains(b.At(h)) {
          StoredBelow(vChain, r, h);
          AtAt(b, r.nHeight, h);
        }
      }
    }

    /** Where a locator begins: the given block, or else the tip; null if there is neither. */
    function LocatorStart(start: BlockIndex?): BlockIndex?
      reads this
    {
      if start != null then start else Get(Height())
    }

    /** Heights going down to zero in growing steps; every entry is an ancestor of the first. */
    method GetLocator(start: BlockIndex?) returns (have: seq<BlockIndex>)
      requires Valid() && (start != null ==> start.Valid() && start.Linked())
      ensures LocatorStart(start) == null <==> have == []
      ensures have != [] ==> have[0] == LocatorStart(start) && have[0].Linked() && have[|have| - 1].nHeight == 0
      ensures forall k | 0 <= k < |have| :: IsAncestor(have[k], have[0])
      ensures forall k | 0 < k < |have| :: Follows(have[k - 1], have[k], k)
    {
      hide BlockIndex.Valid, BlockIndex.Linked, BlockIndex.At;
      var first := LocatorStart(start);
      if first == null {
        return [];
      }
      ValidFacts(first);
      AtSelf(first);
      have := LocatorFrom(first);
    }

    method LocatorFrom(first: BlockIndex) returns (have: seq<BlockIndex>)
      requires Valid() && first.Valid() && first.Linked()
      ensures have != [] && have[0] == first && have[|have| - 1].nHeight == 0
      ensures forall k | 0 <= k < |have| :: IsAncestor(have[k], first)
      ensures forall k | 0 < k < |have| :: Follows(have[k - 1], have[k], k)
    {
      hide BlockIndex.Valid, BlockIndex.Linked, BlockIndex.At;
      var nStep := 1;
      AtSelf(first);
      have := [first];
      var p: BlockIndex := first;
      while p.nHeight != 0
        invariant have != [] && nStep == Stride(|have| - 1) && p.Valid() && have[0] == first && have[|have| - 1] == p
        invariant forall k | 0 <= k < |have| :: IsAncestor(have[k], first)
        invariant forall k | 0 < k < |have| :: Follows(have[k - 1], have[k], k)
        decreases p.nHeight
      {
        var height := if p.nHeight - nStep > 0 then p.nHeight - nStep else 0;
        ValidFacts(p);
        AtAt(first, p.nHeight, height);
        AtValid(p, height);
        if Contains(p) {
          StoredBelow(vChain, p, height);
          p := Get(height);
        } else {
          p := p.GetAncestor(height);
        }
        if |have| > 10 {
          nStep := nStep * 2;
        }
        have := have + [p];
      }
    }
  }

  /** How far a locator goes back after entry k: one block at first, then twice as far each time. */
  function Stride(k: nat): (n: nat)
    ensures n >= 1
  {
    if k <= 10 then 1 else 2 * Stride(k - 1)
  }

  /** The next entry of a locator, which ends at height zero. */
  ghost predicate Follows(before: BlockIndex, b: BlockIndex, k: nat)
    requires k > 0
  {
    before.nHeight > 0 && b.nHeight == if before.nHeight > Stride(k - 1) then before.nHeight - Stride(k - 1) else 0
  }

  /** Each entry is the block at that height of one branch. */
  ghost predicate IsBranch(stored: seq<BlockIndex?>) {
    forall i | 0 <= i < |stored| ::
      stored[i] != null && stored[i].Valid() && stored[i].nHeight == i && (i > 0 ==> stored[i].pprev == stored[i - 1])
  }

  /** One step down from an ancestor of b. */
  lemma Step(b: BlockIndex, p: BlockIndex)
    requires b.Linked() && p.Valid() && IsAncestor(p, b)
    ensures p.pprev == null <==> p.nHeight == 0
    ensures p.pprev != null ==> p.pprev.Valid() && p.pprev.nHeight == p.nHeight - 1 && IsAncestor(p.pprev, b)
  {
    ValidFacts(p);
    if p.nHeight > 0 {
      AtAt(b, p.nHeight, p.nHeight - 1);
      AtSelf(p.pprev);
    }
  }

  lemma AncestryIsBranch(tip: BlockIndex, stored: seq<BlockIndex?>)
    requires tip.Valid() && tip.Linked() && |stored| == tip.nHeight + 1
    requires forall i | 0 <= i <= tip.nHeight :: stored[i] == tip.At(i)
    ensures IsBranch(stored)
  {
    hide BlockIndex.Valid, BlockIndex.Linked, BlockIndex.At;
    forall i | 0 <= i < |stored|
      ensures stored[i] != null && stored[i].Valid() && stored[i].nHeight == i
      ensures i > 0 ==> stored[i].pprev == stored[i - 1]
    {
      AtValid(tip, i);
      AtSelf(stored[i]);
      Step(tip, stored[i]);
    }
  }

  /** What is stored below a block of the chain is its ancestry. */
  lemma {:induction false} StoredBelow(stored: seq<BlockIndex?>, p: BlockIndex, h: nat)
    requires IsBranch(stored)
    requires p.Linked() && p.nHeight < |stored| && stored[p.nHeight] == p && h <= p.nHeight
    ensures p.At(h) == stored[h]
    decreases p.nHeight
  {
    if h < p.nHeight {
      ValidFacts(p);
      StoredBelow(stored, p.pprev, h);
    }
  }
}
