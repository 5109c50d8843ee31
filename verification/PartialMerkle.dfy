/**
 * Partial Merkle trees: a block's transaction tree cut down to the branches
 * that lead to matched transactions, written as flag bits and hashes in
 * depth-first order.
 */
module PartialMerkle {
  import opened Arith
  import opened PackedFlags

  type Hash = int

  const ZERO: Hash := 0
  const MAX_TRANSACTIONS: nat := 2000000 / 60

  type Combine = (Hash, Hash) -> Hash

  /******* The shape of the tree *******/

  function Width(n: nat, h: nat): nat {
    (n + Pow(2, h) - 1) / Pow(2, h)
  }

  /** A node exists when its leftmost leaf does. */
  lemma {:induction false} NodeExists(n: nat, h: nat, pos: nat)
    ensures pos < Width(n, h) <==> pos * Pow(2, h) < n
  {
    hide Pow;
    var b := Pow(2, h);
    var w := Width(n, h);
    DivMod(n + b - 1, b);
    if pos < w {
      MulLe(pos + 1, w, b);
    } else {
      MulLe(w, pos, b);
    }
  }

  lemma Doubled(h: nat, pos: nat)
    requires h > 0
    ensures pos * 2 * Pow(2, h - 1) == pos * Pow(2, h)
    ensures (pos * 2 + 1) * Pow(2, h - 1) == pos * Pow(2, h) + Pow(2, h - 1)
    ensures (pos + 1) * Pow(2, h) == pos * Pow(2, h) + 2 * Pow(2, h - 1)
  {
    assert Pow(2, h) == 2 * Pow(2, h - 1);
    assert pos * 2 * Pow(2, h - 1) == pos * (2 * Pow(2, h - 1));
    assert (pos * 2 + 1) * Pow(2, h - 1) == pos * 2 * Pow(2, h - 1) + Pow(2, h - 1);
    assert (pos + 1) * Pow(2, h) == pos * Pow(2, h) + Pow(2, h);
  }

  predicate Exists(n: nat, h: nat, pos: nat) {
    pos < Width(n, h)
  }

  /** The leaves below a node are numbered from First up to, not including, Beyond. */
  ghost function First(h: nat, pos: nat): nat {
    pos * Pow(2, h)
  }

  ghost function Beyond(n: nat, h: nat, pos: nat): nat {
    if (pos + 1) * Pow(2, h) < n then (pos + 1) * Pow(2, h) else n
  }

  /** A node covers some leaves, and its children share them. */
  lemma Children(n: nat, h: nat, pos: nat)
    requires Exists(n, h, pos)
    ensures First(h, pos) < Beyond(n, h, pos) <= n
    ensures h == 0 ==> First(h, pos) == pos && Beyond(n, h, pos) == pos + 1
    ensures h > 0 ==>
              && Exists(n, h - 1, pos * 2) && First(h - 1, pos * 2) == First(h, pos)
              && (Exists(n, h - 1, pos * 2 + 1) ==>
                    && Beyond(n, h - 1, pos * 2) == First(h - 1, pos * 2 + 1)
                    && Beyond(n, h - 1, pos * 2 + 1) == Beyond(n, h, pos))
              && (!Exists(n, h - 1, pos * 2 + 1) ==> Beyond(n, h - 1, pos * 2) == Beyond(n, h, pos))
  {
    hide Width, Pow;
    NodeExists(n, h, pos);
    if h == 0 {
      LeafSize();
    } else {
      NodeExists(n, h - 1, pos * 2);
      NodeExists(n, h - 1, pos * 2 + 1);
      Doubled(h, pos);
      Doubled(h, pos + 1);
      assert pos * 2 + 1 + 1 == (pos + 1) * 2;
    }
    assert (pos + 1) * Pow(2, h) == pos * Pow(2, h) + Pow(2, h);
  }

  lemma LeafSize()
    ensures Pow(2, 0) == 1
  {
  }

  /******* The full tree *******/

  function CalcHash(hash: Combine, txids: seq<Hash>, h: nat, pos: nat): Hash
    requires Exists(|txids|, h, pos)
    decreases h
  {
    Children(|txids|, h, pos);
    if h == 0 then txids[pos]
    else
      var left := CalcHash(hash, txids, h - 1, pos * 2);
      var right := if Exists(|txids|, h - 1, pos * 2 + 1) then CalcHash(hash, txids, h - 1, pos * 2 + 1) else left;
      hash(left, right)
  }

  /** The matched transactions among a range of leaves, in order. */
  ghost function Matches(txids: seq<Hash>, match': seq<bool>, from: nat, to: nat): seq<Hash>
    requires from <= to <= |txids| == |match'|
  {
    if from == to then []
    else Matches(txids, match', from, to - 1) + if match'[to - 1] then [txids[to - 1]] else []
  }

  lemma {:induction false} MatchesSplit(txids: seq<Hash>, match': seq<bool>, from: nat, mid: nat, to: nat)
    requires from <= mid <= to <= |txids| == |match'|
    ensures Matches(txids, match', from, to) == Matches(txids, match', from, mid) + Matches(txids, match', mid, to)
  {
    if mid < to {
      MatchesSplit(txids, match', from, mid, to - 1);
    }
  }

  ghost function MatchesBelow(txids: seq<Hash>, match': seq<bool>, h: nat, pos: nat): seq<Hash>
    requires Exists(|txids|, h, pos) && |match'| == |txids|
  {
    Children(|txids|, h, pos);
    Matches(txids, match', First(h, pos), Beyond(|txids|, h, pos))
  }

  /******* Building *******/

  datatype Partial = Partial(bits: seq<bool>, hashes: seq<Hash>)

  ghost predicate AnyMatch(match': seq<bool>, from: nat, to: nat)
    requires to <= |match'|
  {
    exists p :: from <= p < to && match'[p]
  }

  ghost function Build(hash: Combine, txids: seq<Hash>, match': seq<bool>, h: nat, pos: nat): (r: Partial)
    requires Exists(|txids|, h, pos) && |match'| == |txids|
    decreases h
  {
    Children(|txids|, h, pos);
    var parent := AnyMatch(match', First(h, pos), Beyond(|txids|, h, pos));
    if h == 0 || !parent then Partial([parent], [CalcHash(hash, txids, h, pos)])
    else
      var left := Build(hash, txids, match', h - 1, pos * 2);
      var right := if Exists(|txids|, h - 1, pos * 2 + 1) then Build(hash, txids, match', h - 1, pos * 2 + 1)
                   else Partial([], []);
      Partial([parent] + left.bits + right.bits, left.hashes + right.hashes)
  }

  /******* Extracting *******/

  /** How far the extraction has read, what it has found, and whether it ran over an end. */
  datatype Cursor = Cursor(bitsUsed: nat, hashUsed: nat, found: seq<Hash>, bad: bool)

  ghost function Extract(hash: Combine, n: nat, p: Partial, h: nat, pos: nat, c: Cursor): (r: (Hash, Cursor))
    decreases h
  {
    if c.bitsUsed >= |p.bits| then (ZERO, c.(bad := true))
    else
      var parent := p.bits[c.bitsUsed];
      var d := c.(bitsUsed := c.bitsUsed + 1);
      if h == 0 || !parent then
        if d.hashUsed >= |p.hashes| then (ZERO, d.(bad := true))
        else
          var x := p.hashes[d.hashUsed];
          (x, d.(hashUsed := d.hashUsed + 1, found := if h == 0 && parent then d.found + [x] else d.found))
      else
        var (left, e) := Extract(hash, n, p, h - 1, pos * 2, d);
        if Exists(n, h - 1, pos * 2 + 1)
        then
          var (right, f) := Extract(hash, n, p, h - 1, pos * 2 + 1, e);
          (hash(left, right), f)
        else (hash(left, left), e)
  }

  /** From these positions on the stream continues with what was built for a node. */
  ghost predicate At(p: Partial, i: nat, j: nat, b: Partial) {
    && i + |b.bits| <= |p.bits| && (forall k | 0 <= k < |b.bits| :: b.bits[k] == p.bits[i + k])
    && j + |b.hashes| <= |p.hashes| && (forall k | 0 <= k < |b.hashes| :: b.hashes[k] == p.hashes[j + k])
  }

  lemma AtParts(p: Partial, i: nat, j: nat, parent: bool, left: Partial, right: Partial)
    requires At(p, i, j, Partial([parent] + left.bits + right.bits, left.hashes + right.hashes))
    ensures i < |p.bits| && p.bits[i] == parent
    ensures At(p, i + 1, j, left) && At(p, i + 1 + |left.bits|, j + |left.hashes|, right)
  {
    var bits := [parent] + left.bits + right.bits;
    var hashes := left.hashes + right.hashes;
    assert bits[0] == parent;
    forall k | 0 <= k < |left.bits| ensures left.bits[k] == p.bits[i + 1 + k] {
      assert bits[k + 1] == left.bits[k];
    }
    forall k | 0 <= k < |right.bits| ensures right.bits[k] == p.bits[i + 1 + |left.bits| + k] {
      assert bits[1 + |left.bits| + k] == right.bits[k];
    }
    forall k | 0 <= k < |left.hashes| ensures left.hashes[k] == p.hashes[j + k] {
      assert hashes[k] == left.hashes[k];
    }
    forall k | 0 <= k < |right.hashes| ensures right.hashes[k] == p.hashes[j + |left.hashes| + k] {
      assert hashes[|left.hashes| + k] == right.hashes[k];
    }
  }

  /** The cursor after all of b has been read. */
  ghost function Past(c: Cursor, b: Partial, found: seq<Hash>): Cursor {
    Cursor(c.bitsUsed + |b.bits|, c.hashUsed + |b.hashes|, c.found + found, c.bad)
  }

  lemma LeafHash(hash: Combine, txids: seq<Hash>, pos: nat)
    requires Exists(|txids|, 0, pos)
    ensures pos < |txids| && CalcHash(hash, txids, 0, pos) == txids[pos]
  {
    Children(|txids|, 0, pos);
  }

  lemma ExtractStored(hash: Combine, txids: seq<Hash>, match': seq<bool>, h: nat, pos: nat, p: Partial, c: Cursor)
    requires Exists(|txids|, h, pos) && |match'| == |txids|
    requires At(p, c.bitsUsed, c.hashUsed, Build(hash, txids, match', h, pos)) && |Build(hash, txids, match', h, pos).bits| == 1
    requires h == 0 || !Build(hash, txids, match', h, pos).bits[0]
    ensures Extract(hash, |txids|, p, h, pos, c) ==
            (CalcHash(hash, txids, h, pos),
             Past(c, Build(hash, txids, match', h, pos), MatchesBelow(txids, match', h, pos)))
  {
    hide Exists, CalcHash, First, Beyond;
    var b := Build(hash, txids, match', h, pos);
    var from, to := First(h, pos), Beyond(|txids|, h, pos);
    Children(|txids|, h, pos);
    assert p.bits[c.bitsUsed] == b.bits[0] && p.hashes[c.hashUsed] == b.hashes[0];
    if b.bits[0] {
      LeafHash(hash, txids, pos);
      assert Matches(txids, match', pos, pos) == [];
      assert Matches(txids, match', from, to) == [txids[pos]];
    } else {
      NoMatches(txids, match', from, to);
      assert c.found + [] == c.found;
    }
  }

  /** Extracting what was built for a node gives its hash and its matches, and reads no further. */
  lemma {:induction false} ExtractBuilt(hash: Combine, txids: seq<Hash>, match': seq<bool>, h: nat, pos: nat,
                                        p: Partial, c: Cursor)
    requires Exists(|txids|, h, pos) && |match'| == |txids|
    requires At(p, c.bitsUsed, c.hashUsed, Build(hash, txids, match', h, pos))
    ensures Extract(hash, |txids|, p, h, pos, c) ==
            (CalcHash(hash, txids, h, pos),
             Past(c, Build(hash, txids, match', h, pos), MatchesBelow(txids, match', h, pos)))
    decreases h
  {
    hide Exists, Matches, AnyMatch, First, Beyond, Build, Extract, CalcHash, At;
    var n := |txids|;
    Children(n, h, pos);
    UnfoldBuild(hash, txids, match', h, pos);
    if h == 0 || !AnyMatch(match', First(h, pos), Beyond(n, h, pos)) {
      ExtractStored(hash, txids, match', h, pos, p, c);
    } else {
      var left := Build(hash, txids, match', h - 1, pos * 2);
      var both := Exists(n, h - 1, pos * 2 + 1);
      var right := if both then Build(hash, txids, match', h - 1, pos * 2 + 1) else Partial([], []);
      AtParts(p, c.bitsUsed, c.hashUsed, true, left, right);
      var d := c.(bitsUsed := c.bitsUsed + 1);
      UnfoldExtract(hash, n, p, h, pos, c);
      ExtractBuilt(hash, txids, match', h - 1, pos * 2, p, d);
      if both {
        ExtractBuilt(hash, txids, match', h - 1, pos * 2 + 1, p, Past(d, left, MatchesBelow(txids, match', h - 1, pos * 2)));
      }
      UnfoldMatches(txids, match', h, pos, c.found);
      UnfoldHash(hash, txids, h, pos);
    }
  }

  lemma UnfoldBuild(hash: Combine, txids: seq<Hash>, match': seq<bool>, h: nat, pos: nat)
    requires Exists(|txids|, h, pos) && |match'| == |txids| && Beyond(|txids|, h, pos) <= |match'|
    ensures var n := |txids|;
            var b := Build(hash, txids, match', h, pos);
            if h == 0 || !AnyMatch(match', First(h, pos), Beyond(n, h, pos))
            then |b.bits| == 1 && (h == 0 || !b.bits[0])
            else
              && Exists(n, h - 1, pos * 2)
              && var left := Build(hash, txids, match', h - 1, pos * 2);
                 var right := if Exists(n, h - 1, pos * 2 + 1) then Build(hash, txids, match', h - 1, pos * 2 + 1)
                              else Partial([], []);
                 b == Partial([true] + left.bits + right.bits, left.hashes + right.hashes)
  {
    Children(|txids|, h, pos);
  }

  lemma UnfoldExtract(hash: Combine, n: nat, p: Partial, h: nat, pos: nat, c: Cursor)
    requires h > 0 && c.bitsUsed < |p.bits| && p.bits[c.bitsUsed]
    ensures var (left, d) := Extract(hash, n, p, h - 1, pos * 2, c.(bitsUsed := c.bitsUsed + 1));
            var (right, e) := if Exists(n, h - 1, pos * 2 + 1) then Extract(hash, n, p, h - 1, pos * 2 + 1, d) else (left, d);
            Extract(hash, n, p, h, pos, c) == (hash(left, right), e)
  {
  }

  lemma UnfoldMatches(txids: seq<Hash>, match': seq<bool>, h: nat, pos: nat, found: seq<Hash>)
    requires Exists(|txids|, h, pos) && |match'| == |txids| && h > 0
    ensures Exists(|txids|, h - 1, pos * 2)
    ensures var a := MatchesBelow(txids, match', h - 1, pos * 2);
            if Exists(|txids|, h - 1, pos * 2 + 1)
            then found + MatchesBelow(txids, match', h, pos) == found + a + MatchesBelow(txids, match', h - 1, pos * 2 + 1)
            else MatchesBelow(txids, match', h, pos) == a
  {
    hide Exists, First, Beyond;
    var n := |txids|;
    Children(n, h, pos);
    Children(n, h - 1, pos * 2);
    if Exists(n, h - 1, pos * 2 + 1) {
      Children(n, h - 1, pos * 2 + 1);
      MatchesSplit(txids, match', First(h, pos), First(h - 1, pos * 2 + 1), Beyond(n, h, pos));
      var a, b := MatchesBelow(txids, match', h - 1, pos * 2), MatchesBelow(txids, match', h - 1, pos * 2 + 1);
      assert found + a + b == found + (a + b);
    }
  }

  lemma UnfoldHash(hash: Combine, txids: seq<Hash>, h: nat, pos: nat)
    requires Exists(|txids|, h, pos) && h > 0
    ensures Exists(|txids|, h - 1, pos * 2)
    ensures var left := CalcHash(hash, txids, h - 1, pos * 2);
            CalcHash(hash, txids, h, pos) ==
            hash(left, if Exists(|txids|, h - 1, pos * 2 + 1) then CalcHash(hash, txids, h - 1, pos * 2 + 1) else left)
  {
    Children(|txids|, h, pos);
  }

  lemma {:induction false} NoMatches(txids: seq<Hash>, match': seq<bool>, from: nat, to: nat)
    requires from <= to <= |txids| == |match'| && !AnyMatch(match', from, to)
    ensures Matches(txids, match', from, to) == []
  {
    if from < to {
      NoMatches(txids, match', from, to - 1);
    }
  }

  /******* Size bounds *******/

  /**
   * A node stores at most one hash per leaf, at most one more than its
   * matches times its height, and never more hashes than bits.
   */
  lemma {:induction false} HashCount(hash: Combine, txids: seq<Hash>, match': seq<bool>, h: nat, pos: nat)
    requires Exists(|txids|, h, pos) && |match'| == |txids|
    ensures var b := Build(hash, txids, match', h, pos);
            && 1 <= |b.hashes| <= |b.bits|
            && |b.hashes| <= Beyond(|txids|, h, pos) - First(h, pos)
            && |b.hashes| <= 1 + |MatchesBelow(txids, match', h, pos)| * h
    decreases h
  {
    hide Exists, First, Beyond, Build, MatchesBelow;
    var n := |txids|;
    Children(n, h, pos);
    UnfoldBuild(hash, txids, match', h, pos);
    if h == 0 || !AnyMatch(match', First(h, pos), Beyond(n, h, pos)) {
      OneHash(hash, txids, match', h, pos);
    } else {
      var m := |MatchesBelow(txids, match', h, pos)|;
      SomeMatch(txids, match', h, pos);
      UnfoldMatches(txids, match', h, pos, []);
      HashCount(hash, txids, match', h - 1, pos * 2);
      var a := |MatchesBelow(txids, match', h - 1, pos * 2)|;
      if Exists(n, h - 1, pos * 2 + 1) {
        HashCount(hash, txids, match', h - 1, pos * 2 + 1);
        var b := |MatchesBelow(txids, match', h - 1, pos * 2 + 1)|;
        assert m == a + b;
        assert a * (h - 1) + b * (h - 1) + m == m * h;
      } else {
        assert m * (h - 1) + m == m * h;
      }
    }
  }

  lemma OneHash(hash: Combine, txids: seq<Hash>, match': seq<bool>, h: nat, pos: nat)
    requires Exists(|txids|, h, pos) && |match'| == |txids| && Beyond(|txids|, h, pos) <= |match'|
    requires h == 0 || !AnyMatch(match', First(h, pos), Beyond(|txids|, h, pos))
    ensures |Build(hash, txids, match', h, pos).hashes| == |Build(hash, txids, match', h, pos).bits| == 1
  {
  }

  lemma SomeMatch(txids: seq<Hash>, match': seq<bool>, h: nat, pos: nat)
    requires Exists(|txids|, h, pos) && |match'| == |txids| && Beyond(|txids|, h, pos) <= |match'|
    requires AnyMatch(match', First(h, pos), Beyond(|txids|, h, pos))
    ensures |MatchesBelow(txids, match', h, pos)| > 0
  {
    Children(|txids|, h, pos);
    var k :| First(h, pos) <= k < Beyond(|txids|, h, pos) && match'[k];
    MatchesSplit(txids, match', First(h, pos), k + 1, Beyond(|txids|, h, pos));
  }

  /******* The whole tree *******/

  lemma {:induction false} PowerGrows(h: nat)
    ensures Pow(2, h) > h
  {
    if h > 0 {
      PowerGrows(h - 1);
    }
  }

  /** The height of the tree: the first level with one node. */
  function HeightFrom(n: nat, h: nat): (r: nat)
    ensures Width(n, r) <= 1
    decreases n - h
  {
    if Width(n, h) <= 1 then h
    else
      PowerGrows(h);
      NodeExists(n, h, 1);
      HeightFrom(n, h + 1)
  }

  lemma Top(n: nat)
    requires n >= 1
    ensures Exists(n, HeightFrom(n, 0), 0)
    ensures First(HeightFrom(n, 0), 0) == 0 && Beyond(n, HeightFrom(n, 0), 0) == n
  {
    var h := HeightFrom(n, 0);
    NodeExists(n, h, 0);
    NodeExists(n, h, 1);
  }

  /** The merkle root of a non-empty list of transactions. */
  ghost function Root(hash: Combine, txids: seq<Hash>): Hash
    requires txids != []
  {
    Top(|txids|);
    CalcHash(hash, txids, HeightFrom(|txids|, 0), 0)
  }

  ghost function BuildAll(hash: Combine, txids: seq<Hash>, match': seq<bool>): Partial
    requires txids != [] && |match'| == |txids|
  {
    Top(|txids|);
    Build(hash, txids, match', HeightFrom(|txids|, 0), 0)
  }

  /******* The root level by level *******/

  /** The level above: neighbours are combined, and a last one that is alone is combined with itself. */
  ghost function PairUp(hash: Combine, level: seq<Hash>): (r: seq<Hash>)
    ensures |r| == (|level| + 1) / 2
  {
    seq((|level| + 1) / 2, i requires 0 <= i < (|level| + 1) / 2 =>
      hash(level[2 * i], if 2 * i + 1 < |level| then level[2 * i + 1] else level[2 * i]))
  }

  /** The merkle root of a list: pair up until one hash is left. */
  ghost function RootByLevels(hash: Combine, level: seq<Hash>): Hash
    requires level != []
    decreases |level|
  {
    if |level| == 1 then level[0] else RootByLevels(hash, PairUp(hash, level))
  }

  ghost function Level(hash: Combine, txids: seq<Hash>, h: nat): seq<Hash> {
    if h == 0 then txids else PairUp(hash, Level(hash, txids, h - 1))
  }

  lemma ParentExists(n: nat, h: nat, pos: nat)
    ensures pos < Width(n, h + 1) <==> 2 * pos < Width(n, h)
  {
    hide Width, Pow;
    NodeExists(n, h + 1, pos);
    NodeExists(n, h, 2 * pos);
    PowNext(2, h);
    SameFirst(pos, Pow(2, h));
  }

  lemma HalfWidth(n: nat, h: nat)
    ensures Width(n, h + 1) == (Width(n, h) + 1) / 2
  {
    hide Width;
    var half := (Width(n, h) + 1) / 2;
    ParentExists(n, h, half);
    if half > 0 {
      ParentExists(n, h, half - 1);
    }
  }

  lemma SameFirst(pos: nat, b: nat)
    ensures pos * (2 * b) == 2 * pos * b
  {
  }

  lemma WidthOfLeaves(n: nat)
    ensures Width(n, 0) == n
  {
    assert (n + 1 - 1) / 1 == n;
  }

  /** Each level holds the hashes that the recursion over height and position computes. */
  ghost predicate LevelMatches(hash: Combine, txids: seq<Hash>, h: nat, level: seq<Hash>) {
    |level| == Width(|txids|, h) &&
    forall pos: nat | pos < |level| :: Exists(|txids|, h, pos) && level[pos] == CalcHash(hash, txids, h, pos)
  }

  lemma {:induction false} LeavesMatch(hash: Combine, txids: seq<Hash>)
    ensures LevelMatches(hash, txids, 0, txids)
  {
    WidthOfLeaves(|txids|);
  }

  lemma {:induction false} ParentHash(hash: Combine, txids: seq<Hash>, h: nat, pos: nat, level: seq<Hash>)
    requires Exists(|txids|, h + 1, pos) && LevelMatches(hash, txids, h, level) && 2 * pos < |level|
    ensures CalcHash(hash, txids, h + 1, pos) == hash(level[2 * pos], if 2 * pos + 1 < |level| then level[2 * pos + 1] else level[2 * pos])
  {
    hide Width, First, Beyond;
    Children(|txids|, h + 1, pos);
    assert pos * 2 == 2 * pos;
  }

  lemma {:induction false} NextMatches(hash: Combine, txids: seq<Hash>, h: nat, level: seq<Hash>)
    requires LevelMatches(hash, txids, h, level)
    ensures LevelMatches(hash, txids, h + 1, PairUp(hash, level))
  {
    hide Width, CalcHash;
    HalfWidth(|txids|, h);
    var r := PairUp(hash, level);
    forall pos: nat | pos < |r| ensures Exists(|txids|, h + 1, pos) && r[pos] == CalcHash(hash, txids, h + 1, pos) {
      ParentHash(hash, txids, h, pos, level);
    }
  }

  lemma {:induction false} LevelIs(hash: Combine, txids: seq<Hash>, h: nat)
    ensures LevelMatches(hash, txids, h, Level(hash, txids, h))
  {
    hide LevelMatches, PairUp;
    if h == 0 {
      LeavesMatch(hash, txids);
    } else {
      LevelIs(hash, txids, h - 1);
      NextMatches(hash, txids, h - 1, Level(hash, txids, h - 1));
    }
  }

  lemma {:induction false} RootOfLevel(hash: Combine, txids: seq<Hash>, h: nat, height: nat)
    requires txids != [] && h <= height && forall g: nat | g < height :: Width(|txids|, g) > 1
    ensures |Level(hash, txids, h)| > 0 && RootByLevels(hash, Level(hash, txids, h)) == RootByLevels(hash, txids)
    decreases h
  {
    hide Width, PairUp;
    if h > 0 {
      RootOfLevel(hash, txids, h - 1, height);
      LevelIs(hash, txids, h - 1);
    }
  }

  /** The recursion gives the same root as pairing up level by level. */
  lemma RootIsByLevels(hash: Combine, txids: seq<Hash>)
    requires txids != []
    ensures Root(hash, txids) == RootByLevels(hash, txids)
  {
    hide Width, Level, CalcHash, RootByLevels;
    var height := HeightFrom(|txids|, 0);
    Top(|txids|);
    HeightIs(|txids|, 0);
    RootOfLevel(hash, txids, height, height);
    LevelIs(hash, txids, height);
    OneLeft(hash, Level(hash, txids, height));
  }

  /** The levels below the top have more than one node. */
  lemma {:induction false} HeightIs(n: nat, h: nat)
    ensures forall g: nat | h <= g < HeightFrom(n, h) :: Width(n, g) > 1
    decreases n - h
  {
    hide Width, Pow;
    if Width(n, h) > 1 {
      PowerGrows(h);
      NodeExists(n, h, 1);
      HeightIs(n, h + 1);
    }
  }

  lemma OneLeft(hash: Combine, level: seq<Hash>)
    requires |level| == 1
    ensures RootByLevels(hash, level) == level[0]
  {
  }

  /** What a received tree yields; the zero hash means that it is refused. */
  ghost function ExtractMatches(hash: Combine, n: nat, p: Partial): (r: (Hash, seq<Hash>)) {
    if n == 0 || n > MAX_TRANSACTIONS || |p.hashes| > n || |p.bits| < |p.hashes| then (ZERO, [])
    else
      var (root, c) := Extract(hash, n, p, HeightFrom(n, 0), 0, Cursor(0, 0, [], false));
      if c.bad || (c.bitsUsed + 7) / 8 != (|p.bits| + 7) / 8 || c.hashUsed != |p.hashes| then (ZERO, c.found)
      else (root, c.found)
  }

  ghost predicate Packs(bits: seq<bool>, bytes: seq<bv8>) {
    && |bytes| == (|bits| + 7) / 8
    && (forall i | 0 <= i < 8 * |bytes| :: Bit(bytes[i / 8], i % 8) == (i < |bits| && bits[i]))
  }

  ghost function Unpacked(bytes: seq<bv8>): seq<bool> {
    seq(8 * |bytes|, i requires 0 <= i < 8 * |bytes| => Bit(bytes[i / 8], i % 8))
  }

  /**
   * A tree built from any transactions and any matches, packed into bytes and
   * back, is accepted and yields the merkle root and the matched transactions
   * in order.
   */
  lemma RoundTrip(hash: Combine, txids: seq<Hash>, match': seq<bool>, bytes: seq<bv8>)
    requires 1 <= |txids| <= MAX_TRANSACTIONS && |match'| == |txids|
    requires Packs(BuildAll(hash, txids, match').bits, bytes)
    ensures ExtractMatches(hash, |txids|, Partial(Unpacked(bytes), BuildAll(hash, txids, match').hashes)) ==
            (Root(hash, txids), Matches(txids, match', 0, |txids|))
  {
    hide Build, Exists, First, Beyond, Bit, HeightFrom, CalcHash;
    var n := |txids|;
    var h := HeightFrom(n, 0);
    Top(n);
    var b := BuildAll(hash, txids, match');
    var p := Partial(Unpacked(bytes), b.hashes);
    HashCount(hash, txids, match', h, 0);
    forall k | 0 <= k < |b.bits| ensures b.bits[k] == p.bits[0 + k] {
    }
    var c := Cursor(0, 0, [], false);
    ExtractBuilt(hash, txids, match', h, 0, p, c);
    assert c.found + Matches(txids, match', 0, n) == Matches(txids, match', 0, n);
  }

  /** What an extraction has read it reads again if more follows. */
  lemma {:induction false} ExtractIgnoresRest(hash: Combine, n: nat, p: Partial, more: Partial, h: nat, pos: nat, c: Cursor)
    requires !Extract(hash, n, p, h, pos, c).1.bad
    ensures Extract(hash, n, Partial(p.bits + more.bits, p.hashes + more.hashes), h, pos, c) == Extract(hash, n, p, h, pos, c)
    decreases h
  {
    hide Exists;
    if h > 0 && p.bits[c.bitsUsed] {
      var d := c.(bitsUsed := c.bitsUsed + 1);
      var e := Extract(hash, n, p, h - 1, pos * 2, d).1;
      if e.bad && Exists(n, h - 1, pos * 2 + 1) {
        BadStays(hash, n, p, h - 1, pos * 2 + 1, e);
      }
      ExtractIgnoresRest(hash, n, p, more, h - 1, pos * 2, d);
      if Exists(n, h - 1, pos * 2 + 1) {
        ExtractIgnoresRest(hash, n, p, more, h - 1, pos * 2 + 1, e);
      }
    }
  }

  /**
   * An accepted tree with something appended is refused, unless that is a few
   * bits within its last byte, which make no difference.
   */
  lemma PaddingRefused(hash: Combine, n: nat, p: Partial, more: Partial)
    requires ExtractMatches(hash, n, p).0 != ZERO
    ensures var q := ExtractMatches(hash, n, Partial(p.bits + more.bits, p.hashes + more.hashes));
            if more.hashes == [] && (|p.bits| + |more.bits| + 7) / 8 == (|p.bits| + 7) / 8 then q == ExtractMatches(hash, n, p)
            else q.0 == ZERO
  {
    hide Extract, HeightFrom;
    ExtractIgnoresRest(hash, n, p, more, HeightFrom(n, 0), 0, Cursor(0, 0, [], false));
  }

  /** An honest tree stays within the promised sizes. */
  lemma SizeBound(hash: Combine, txids: seq<Hash>, match': seq<bool>)
    requires txids != [] && |match'| == |txids|
    ensures var b, m := BuildAll(hash, txids, match'), |Matches(txids, match', 0, |txids|)|;
            |b.hashes| <= |txids| && |b.hashes| <= 1 + m * HeightFrom(|txids|, 0)
  {
    Top(|txids|);
    HashCount(hash, txids, match', HeightFrom(|txids|, 0), 0);
  }

  /******* What an accepted tree proves *******/

  ghost predicate Injective(hash: Combine) {
    forall a, b, c, d :: hash(a, b) == hash(c, d) ==> a == c && b == d
  }

  lemma {:induction false} BadStays(hash: Combine, n: nat, p: Partial, h: nat, pos: nat, c: Cursor)
    requires c.bad
    ensures Extract(hash, n, p, h, pos, c).1.bad
    decreases h
  {
    if h > 0 && c.bitsUsed < |p.bits| && p.bits[c.bitsUsed] {
      var d := c.(bitsUsed := c.bitsUsed + 1);
      BadStays(hash, n, p, h - 1, pos * 2, d);
      BadStays(hash, n, p, h - 1, pos * 2 + 1, Extract(hash, n, p, h - 1, pos * 2, d).1);
    }
  }

  lemma {:induction false} SameMatches(txids: seq<Hash>, a: seq<bool>, b: seq<bool>, from: nat, to: nat)
    requires from <= to <= |txids| == |a| == |b| && forall i | from <= i < to :: a[i] == b[i]
    ensures Matches(txids, a, from, to) == Matches(txids, b, from, to)
  {
    if from < to {
      SameMatches(txids, a, b, from, to - 1);
    }
  }

  /** Two selections, one for the leaves before mid and one for the others. */
  lemma JoinMatches(txids: seq<Hash>, a: seq<bool>, b: seq<bool>, from: nat, mid: nat, to: nat) returns (m: seq<bool>)
    requires from <= mid <= to <= |txids| == |a| == |b|
    ensures |m| == |txids|
    ensures Matches(txids, m, from, to) == Matches(txids, a, from, mid) + Matches(txids, b, mid, to)
  {
    m := a[..mid] + b[mid..];
    SameMatches(txids, m, a, from, mid);
    SameMatches(txids, m, b, mid, to);
    MatchesSplit(txids, m, from, mid, to);
  }

  lemma SoundStored(hash: Combine, txids: seq<Hash>, p: Partial, h: nat, pos: nat, c: Cursor) returns (m: seq<bool>)
    requires Exists(|txids|, h, pos)
    requires h == 0 || (c.bitsUsed < |p.bits| ==> !p.bits[c.bitsUsed])
    requires var (x, d) := Extract(hash, |txids|, p, h, pos, c); !d.bad && x == CalcHash(hash, txids, h, pos)
    ensures |m| == |txids|
    ensures Extract(hash, |txids|, p, h, pos, c).1.found == c.found + MatchesBelow(txids, m, h, pos)
  {
    hide First, Beyond, Exists;
    var n := |txids|;
    Children(n, h, pos);
    var matched := h == 0 && p.bits[c.bitsUsed];
    m := seq(n, i => matched);
    if matched {
      LeafHash(hash, txids, pos);
      assert Matches(txids, m, pos, pos) == [];
      assert Matches(txids, m, pos, pos + 1) == [txids[pos]];
    } else {
      NoMatches(txids, m, First(h, pos), Beyond(n, h, pos));
      assert c.found + [] == c.found;
    }
  }

  /**
   * Any tree, however made, that claims the right number of transactions and
   * whose extraction arrives at the true hash of a node, yields transactions of
   * the block in their order.
   */
  lemma {:induction false} Sound(hash: Combine, txids: seq<Hash>, p: Partial, h: nat, pos: nat, c: Cursor)
    returns (m: seq<bool>)
    requires Injective(hash) && Exists(|txids|, h, pos)
    requires var (x, d) := Extract(hash, |txids|, p, h, pos, c); !d.bad && x == CalcHash(hash, txids, h, pos)
    ensures |m| == |txids|
    ensures Extract(hash, |txids|, p, h, pos, c).1.found == c.found + MatchesBelow(txids, m, h, pos)
    decreases h
  {
    hide First, Beyond, Exists, Extract, CalcHash, Matches;
    var n := |txids|;
    Children(n, h, pos);
    if h == 0 || c.bitsUsed >= |p.bits| || !p.bits[c.bitsUsed] {
      m := SoundStored(hash, txids, p, h, pos, c);
    } else {
      UnfoldExtract(hash, n, p, h, pos, c);
      UnfoldHash(hash, txids, h, pos);
      var d := c.(bitsUsed := c.bitsUsed + 1);
      var (left, e) := Extract(hash, n, p, h - 1, pos * 2, d);
      if !Exists(n, h - 1, pos * 2 + 1) {
        m := Sound(hash, txids, p, h - 1, pos * 2, d);
      } else {
        if e.bad {
          BadStays(hash, n, p, h - 1, pos * 2 + 1, e);
        }
        var a := Sound(hash, txids, p, h - 1, pos * 2, d);
        var b := Sound(hash, txids, p, h - 1, pos * 2 + 1, e);
        Children(n, h - 1, pos * 2);
        Children(n, h - 1, pos * 2 + 1);
        m := JoinMatches(txids, a, b, First(h, pos), First(h - 1, pos * 2 + 1), Beyond(n, h, pos));
        var u, v := MatchesBelow(txids, a, h - 1, pos * 2), MatchesBelow(txids, b, h - 1, pos * 2 + 1);
        assert c.found + u + v == c.found + (u + v);
      }
    }
  }

  /** Whatever tree is accepted with the true root lists transactions of the block, in order. */
  lemma AcceptedIsSound(hash: Combine, txids: seq<Hash>, p: Partial) returns (m: seq<bool>)
    requires Injective(hash) && txids != [] && Root(hash, txids) != ZERO
    requires ExtractMatches(hash, |txids|, p).0 == Root(hash, txids)
    ensures |m| == |txids| && ExtractMatches(hash, |txids|, p).1 == Matches(txids, m, 0, |txids|)
  {
    hide Extract, Matches, HeightFrom, First, Beyond, Exists;
    Top(|txids|);
    var c := Cursor(0, 0, [], false);
    m := Sound(hash, txids, p, HeightFrom(|txids|, 0), 0, c);
    assert c.found + Matches(txids, m, 0, |txids|) == Matches(txids, m, 0, |txids|);
  }
}

/** The partial tree object. */
module PartialMerkleTrees {
  import opened Arith
  import opened PackedFlags
  import opened PartialMerkle

  method BitsToBytes(bits: seq<bool>) returns (bytes: seq<bv8>)
    ensures Packs(bits, bytes)
  {
    hide Bit, With;
    bytes := seq((|bits| + 7) / 8, i => 0);
    forall i | 0 <= i < 8 * |bytes| ensures !Bit(bytes[i / 8], i % 8) {
      NoBits(i % 8);
    }
    for p := 0 to |bits|
      invariant |bytes| == (|bits| + 7) / 8
      invariant forall i | 0 <= i < 8 * |bytes| :: Bit(bytes[i / 8], i % 8) == (i < p && bits[i])
    {
      if bits[p] {
        ghost var before := bytes;
        bytes := bytes[p / 8 := With(bytes[p / 8], p % 8)];
        forall i | 0 <= i < 8 * |bytes| ensures Bit(bytes[i / 8], i % 8) == (i == p || Bit(before[i / 8], i % 8)) {
          BitLaws(before[p / 8], p % 8, i % 8);
        }
      }
    }
  }

  lemma NoBits(k: nat)
    requires k < 8
    ensures !Bit(0, k)
  {
  }

  method BytesToBits(bytes: seq<bv8>) returns (bits: seq<bool>)
    ensures bits == Unpacked(bytes)
  {
    hide Bit;
    bits := [];
    for p := 0 to 8 * |bytes|
      invariant bits == Unpacked(bytes)[..p]
    {
      bits := bits + [Bit(bytes[p / 8], p % 8)];
    }
  }

  class PartialMerkleTree {
    const hash: Combine
    var nTransactions: nat
    var bits: seq<bool>
    var hashes: seq<Hash>
    var bad: bool

    /** Build from a non-empty list of transactions and a mask. */
    constructor (hash: Combine, txids: seq<Hash>, match': seq<bool>)
      requires txids != [] && |match'| == |txids|
      ensures this.hash == hash && nTransactions == |txids| && !bad
      ensures Partial(bits, hashes) == BuildAll(hash, txids, match')
    {
      this.hash := hash;
      nTransactions, bits, hashes, bad := |txids|, [], [], false;
      new;
      var h := CalcHeight();
      Top(|txids|);
      TraverseAndBuild(h, 0, txids, match');
    }

    /** Receive a tree whose flag bits come in bytes. */
    constructor Receive(hash: Combine, nTransactions: nat, hashes: seq<Hash>, bytes: seq<bv8>)
      ensures this.hash == hash && this.nTransactions == nTransactions && this.hashes == hashes && !bad
      ensures bits == Unpacked(bytes)
    {
      this.hash, this.nTransactions, this.hashes := hash, nTransactions, hashes;
      var b := BytesToBits(bytes);
      bits, bad := b, false;
    }

    method CalcHeight() returns (h: nat)
      ensures h == HeightFrom(nTransactions, 0)
    {
      h := 0;
      while Width(nTransactions, h) > 1
        invariant HeightFrom(nTransactions, 0) == HeightFrom(nTransactions, h)
        decreases nTransactions - h
      {
        PowerGrows(h);
        NodeExists(nTransactions, h, 1);
        h := h + 1;
      }
    }

    method TraverseAndBuild(h: nat, pos: nat, txids: seq<Hash>, match': seq<bool>)
      requires nTransactions == |txids| == |match'| && Exists(|txids|, h, pos)
      modifies this
      ensures bits == old(bits) + Build(hash, txids, match', h, pos).bits
      ensures hashes == old(hashes) + Build(hash, txids, match', h, pos).hashes
      ensures nTransactions == old(nTransactions) && bad == old(bad)
      decreases h
    {
      hide Exists, First, Beyond, Build;
      Children(|txids|, h, pos);
      UnfoldBuild(hash, txids, match', h, pos);
      var parent := ParentOfMatch(h, pos, match');
      bits := bits + [parent];
      if h == 0 || !parent {
        StoredNode(hash, txids, match', h, pos, parent);
        hashes := hashes + [CalcHash(hash, txids, h, pos)];
      } else {
        TraverseAndBuild(h - 1, pos * 2, txids, match');
        if Exists(nTransactions, h - 1, pos * 2 + 1) {
          TraverseAndBuild(h - 1, pos * 2 + 1, txids, match');
        }
      }
    }

    method ParentOfMatch(h: nat, pos: nat, match': seq<bool>) returns (parent: bool)
      requires nTransactions == |match'| && Exists(nTransactions, h, pos) && Beyond(nTransactions, h, pos) <= |match'|
      ensures parent == AnyMatch(match', First(h, pos), Beyond(nTransactions, h, pos))
    {
      hide Pow, Exists;
      Children(nTransactions, h, pos);
      parent := false;
      var p, end := pos * Pow(2, h), (pos + 1) * Pow(2, h);
      ghost var first, beyond := First(h, pos), Beyond(nTransactions, h, pos);
      assert first == p && beyond == if end < nTransactions then end else nTransactions;
      while p < end && p < nTransactions
        invariant first <= p <= beyond && parent == AnyMatch(match', first, p)
        decreases nTransactions - p
      {
        parent := parent || match'[p];
        p := p + 1;
      }
    }

    method TraverseAndExtract(h: nat, pos: nat, ghost c: Cursor, bitsUsed: nat, hashUsed: nat, found: seq<Hash>)
      returns (x: Hash, bitsUsed': nat, hashUsed': nat, found': seq<Hash>)
      requires c == Cursor(bitsUsed, hashUsed, found, bad)
      modifies this`bad
      ensures Extract(hash, nTransactions, Partial(bits, hashes), h, pos, c) ==
              (x, Cursor(bitsUsed', hashUsed', found', bad))
      decreases h
    {
      hide Exists;
      bitsUsed', hashUsed', found' := bitsUsed, hashUsed, found;
      if bitsUsed >= |bits| {
        bad := true;
        return ZERO, bitsUsed', hashUsed', found';
      }
      var parent := bits[bitsUsed];
      bitsUsed' := bitsUsed + 1;
      if h == 0 || !parent {
        if hashUsed >= |hashes| {
          bad := true;
          return ZERO, bitsUsed', hashUsed', found';
        }
        x := hashes[hashUsed];
        hashUsed' := hashUsed + 1;
        if h == 0 && parent {
          found' := found + [x];
        }
      } else {
        UnfoldExtract(hash, nTransactions, Partial(bits, hashes), h, pos, c);
        var left, right;
        left, bitsUsed', hashUsed', found' :=
          TraverseAndExtract(h - 1, pos * 2, c.(bitsUsed := bitsUsed'), bitsUsed', hashUsed', found');
        right := left;
        if Exists(nTransactions, h - 1, pos * 2 + 1) {
          right, bitsUsed', hashUsed', found' := TraverseAndExtract(h - 1, pos * 2 + 1,
            Cursor(bitsUsed', hashUsed', found', bad), bitsUsed', hashUsed', found');
        }
        x := hash(left, right);
      }
    }

    /** A tree that was bad before stays so, and has no root. */
    method ExtractMatches() returns (root: Hash, found: seq<Hash>)
      modifies this`bad
      ensures !old(bad) ==> (root, found) == PartialMerkle.ExtractMatches(hash, nTransactions, Partial(bits, hashes))
      ensures old(bad) ==> bad && root == ZERO
    {
      hide Extract;
      if nTransactions == 0 || nTransactions > MAX_TRANSACTIONS || |hashes| > nTransactions || |bits| < |hashes| {
        return ZERO, [];
      }
      var h := CalcHeight();
      if bad {
        BadStays(hash, nTransactions, Partial(bits, hashes), h, 0, Cursor(0, 0, [], true));
      }
      var bitsUsed, hashUsed;
      root, bitsUsed, hashUsed, found := TraverseAndExtract(h, 0, Cursor(0, 0, [], bad), 0, 0, []);
      if bad || (bitsUsed + 7) / 8 != (|bits| + 7) / 8 || hashUsed != |hashes| {
        root := ZERO;
      }
    }
  }

  lemma StoredNode(hash: Combine, txids: seq<Hash>, match': seq<bool>, h: nat, pos: nat, parent: bool)
    requires Exists(|txids|, h, pos) && |match'| == |txids| && Beyond(|txids|, h, pos) <= |match'|
    requires parent == AnyMatch(match', First(h, pos), Beyond(|txids|, h, pos)) && (h == 0 || !parent)
    ensures Build(hash, txids, match', h, pos) == Partial([parent], [CalcHash(hash, txids, h, pos)])
  {
  }
}
