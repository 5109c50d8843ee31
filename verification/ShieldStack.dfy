/**
 * The nullifiers of a stack of caches: a flat set, with every layer holding
 * the answers it has been asked for and the changes made to it.
 */
module NullifierStack {
  type Hash = int

  datatype Entry = Entry(entered: bool, dirty: bool)

  datatype View = Base(spent: set<Hash>) | Layer(entries: map<Hash, Entry>, parent: View)

  ghost predicate Spent(v: View, n: Hash) {
    match v
    case Base(spent) => n in spent
    case Layer(entries, parent) => if n in entries then entries[n].entered else Spent(parent, n)
  }

  /** A clean entry agrees with the view below. */
  ghost predicate FlagsRight(v: View) {
    match v
    case Base(_) => true
    case Layer(entries, parent) =>
      FlagsRight(parent) && forall n | n in entries && !entries[n].dirty :: entries[n].entered == Spent(parent, n)
  }

  ghost predicate SameSpent(v: View, w: View) {
    forall n :: Spent(v, n) == Spent(w, n)
  }

  ghost predicate Shows(v: View, flat: set<Hash>) {
    forall n :: Spent(v, n) <==> n in flat
  }

  /** Asking leaves the answer behind in every layer that had none. */
  ghost function Ask(v: View, n: Hash): (r: View) {
    match v
    case Base(_) => v
    case Layer(entries, parent) =>
      if n in entries then v else Layer(entries[n := Entry(Spent(parent, n), false)], Ask(parent, n))
  }

  lemma {:induction false} AskShowsSame(v: View, n: Hash)
    requires FlagsRight(v)
    ensures FlagsRight(Ask(v, n)) && SameSpent(Ask(v, n), v)
  {
    match v
    case Base(_) =>
    case Layer(entries, parent) =>
      if n !in entries {
        AskShowsSame(parent, n);
        forall k ensures Spent(Ask(v, n), k) == Spent(v, k) {
          assert Spent(Ask(parent, n), k) == Spent(parent, k);
        }
      }
  }

  ghost function SetOne(v: View, n: Hash, spent: bool): (r: View)
    requires v.Layer?
  {
    v.(entries := v.entries[n := Entry(spent, true)])
  }

  /** Mark all the nullifiers of a transaction. */
  ghost function SetAll(v: View, ns: seq<Hash>, spent: bool): (r: View)
    requires v.Layer?
    ensures r.Layer?
  {
    if ns == [] then v else SetOne(SetAll(v, ns[..|ns| - 1], spent), ns[|ns| - 1], spent)
  }

  lemma {:induction false} SetAllShows(v: View, ns: seq<Hash>, spent: bool)
    requires FlagsRight(v) && v.Layer?
    ensures FlagsRight(SetAll(v, ns, spent)) && SetAll(v, ns, spent).parent == v.parent
    ensures forall n :: Spent(SetAll(v, ns, spent), n) == if n in ns then spent else Spent(v, n)
  {
    if ns != [] {
      SetAllShows(v, ns[..|ns| - 1], spent);
      assert ns == ns[..|ns| - 1] + [ns[|ns| - 1]];
    }
  }

  /** A dirty child entry is copied up; one that agrees with mine leaves mine as it is. */
  ghost function Merge(mine: map<Hash, Entry>, child: map<Hash, Entry>): (r: map<Hash, Entry>)
    ensures r.Keys == mine.Keys + set n | n in child && child[n].dirty
  {
    map n | n in mine.Keys + child.Keys && (n in mine || child[n].dirty) ::
      if !(n in child && child[n].dirty) then mine[n]
      else if n !in mine then Entry(child[n].entered, true)
      else if mine[n].entered != child[n].entered then Entry(child[n].entered, true)
      else mine[n]
  }

  ghost function BatchWrite(v: View, child: map<Hash, Entry>): (r: View) {
    match v
    case Base(spent) =>
      Base((spent - set n | n in child && child[n].dirty && !child[n].entered)
           + set n | n in child && child[n].dirty && child[n].entered)
    case Layer(entries, parent) => Layer(Merge(entries, child), parent)
  }

  ghost function Flush(v: View): (r: View)
    requires v.Layer?
  {
    Layer(map[], BatchWrite(v.parent, v.entries))
  }

  lemma FlushShows(v: View)
    requires FlagsRight(v) && v.Layer?
    ensures FlagsRight(Flush(v)) && SameSpent(Flush(v), v) && SameSpent(Flush(v).parent, v)
  {
    var r := BatchWrite(v.parent, v.entries);
    forall n ensures Spent(r, n) == Spent(v, n) {
      assert v.parent.Layer? ==> r.Layer? && r.parent == v.parent.parent;
    }
  }

  datatype Op = OpAsk(n: Hash) | OpSet(ns: seq<Hash>, spent: bool) | OpFlush

  ghost function Step(v: View, op: Op): (r: View)
    requires v.Layer?
    ensures r.Layer?
  {
    match op
    case OpAsk(n) => Ask(v, n)
    case OpSet(ns, spent) => SetAll(v, ns, spent)
    case OpFlush => Flush(v)
  }

  ghost function FlatStep(flat: set<Hash>, op: Op): set<Hash> {
    match op
    case OpSet(ns, spent) => if spent then flat + set n | n in ns else flat - set n | n in ns
    case _ => flat
  }

  ghost function Run(v: View, ops: seq<Op>): (r: View)
    requires v.Layer?
    ensures r.Layer?
    decreases |ops|
  {
    if ops == [] then v else Run(Step(v, ops[0]), ops[1..])
  }

  ghost function FlatRun(flat: set<Hash>, ops: seq<Op>): set<Hash>
    decreases |ops|
  {
    if ops == [] then flat else FlatRun(FlatStep(flat, ops[0]), ops[1..])
  }

  lemma StepRefines(v: View, op: Op, flat: set<Hash>)
    requires FlagsRight(v) && v.Layer? && Shows(v, flat)
    ensures FlagsRight(Step(v, op)) && Shows(Step(v, op), FlatStep(flat, op))
  {
    hide FlagsRight;
    match op
    case OpAsk(n) => AskShowsSame(v, n);
    case OpSet(ns, spent) => SetAllShows(v, ns, spent);
    case OpFlush => FlushShows(v);
  }

  /** Any sequence of operations on the top of any stack behaves as one flat set. */
  lemma {:induction false} RunRefines(v: View, ops: seq<Op>, flat: set<Hash>)
    requires FlagsRight(v) && v.Layer? && Shows(v, flat)
    ensures FlagsRight(Run(v, ops)) && Shows(Run(v, ops), FlatRun(flat, ops))
    decreases |ops|
  {
    if ops != [] {
      StepRefines(v, ops[0], flat);
      RunRefines(Step(v, ops[0]), ops[1..], FlatStep(flat, ops[0]));
    }
  }
}

/**
 * The commitment tree anchors of a stack of caches: a flat set of roots with a
 * best one, where every tree shown for a root hashes to that root.
 */
module AnchorStack {
  import opened Options

  type Hash = int
  type Tree = seq<int>
  type Root = Tree -> Hash

  // The hash that stands for "not known here".
  const NULL := 0

  datatype Entry = Entry(entered: bool, tree: Tree, dirty: bool)

  /** best is NULL in a layer that has neither read nor set it, and in a new database. */
  datatype View =
    | Base(trees: map<Hash, Tree>, best: Hash)
    | Layer(entries: map<Hash, Entry>, best: Hash, parent: View)

  /** The tree shown for a root.  The database always knows the empty tree. */
  ghost function AnchorAt(v: View, root: Root, rt: Hash): Option<Tree> {
    match v
    case Base(trees, _) =>
      if rt == root([]) then Some([]) else if rt in trees then Some(trees[rt]) else None
    case Layer(entries, _, parent) =>
      if rt in entries then (if entries[rt].entered then Some(entries[rt].tree) else None)
      else AnchorAt(parent, root, rt)
  }

  ghost predicate Anchored(v: View, root: Root, rt: Hash) {
    AnchorAt(v, root, rt).Some?
  }

  ghost function Best(v: View, root: Root): Hash {
    match v
    case Base(_, best) => if best == NULL then root([]) else best
    case Layer(_, best, parent) => if best == NULL then Best(parent, root) else best
  }

  /** Clean entries agree with the view below, and trees hash to their roots. */
  ghost predicate Right(v: View, root: Root) {
    match v
    case Base(trees, _) => forall rt | rt in trees :: root(trees[rt]) == rt
    case Layer(entries, _, parent) =>
      && Right(parent, root)
      && (forall rt | rt in entries ::
            && root(entries[rt].tree) == rt
            && (!entries[rt].dirty ==> entries[rt].entered == Anchored(parent, root, rt)))
  }

  ghost predicate SameAnchors(v: View, w: View, root: Root) {
    forall rt :: Anchored(v, root, rt) == Anchored(w, root, rt)
  }

  /** Whatever tree a view shows for a root does have that root. */
  lemma {:induction false} ShownTreeHasRoot(v: View, root: Root, rt: Hash)
    requires Right(v, root) && Anchored(v, root, rt)
    ensures root(AnchorAt(v, root, rt).value) == rt
  {
    match v
    case Base(_, _) =>
    case Layer(entries, _, parent) =>
      if rt !in entries {
        ShownTreeHasRoot(parent, root, rt);
      }
  }

  /******* Reading *******/

  ghost function GetAnchor(v: View, root: Root, rt: Hash): (r: View) {
    match v
    case Base(_, _) => v
    case Layer(entries, best, parent) =>
      if rt in entries then v
      else
        var below := GetAnchor(parent, root, rt);
        if Anchored(below, root, rt)
        then Layer(entries[rt := Entry(true, AnchorAt(below, root, rt).value, false)], best, below)
        else Layer(entries, best, below)
  }

  lemma {:induction false} GetAnchorShowsSame(v: View, root: Root, rt: Hash)
    requires Right(v, root)
    ensures Right(GetAnchor(v, root, rt), root) && Best(GetAnchor(v, root, rt), root) == Best(v, root)
    ensures forall k :: AnchorAt(GetAnchor(v, root, rt), root, k) == AnchorAt(v, root, k)
  {
    match v
    case Base(_, _) =>
    case Layer(entries, _, parent) =>
      if rt !in entries {
        GetAnchorShowsSame(parent, root, rt);
        var below := GetAnchor(parent, root, rt);
        if Anchored(below, root, rt) {
          ShownTreeHasRoot(below, root, rt);
        }
        forall k ensures AnchorAt(GetAnchor(v, root, rt), root, k) == AnchorAt(v, root, k) {
          assert AnchorAt(below, root, k) == AnchorAt(parent, root, k);
        }
      }
  }

  /** Reading the best anchor leaves it behind in every layer that did not know it. */
  ghost function GetBest(v: View, root: Root): (r: View) {
    match v
    case Base(_, _) => v
    case Layer(entries, best, parent) =>
      if best != NULL then v else Layer(entries, Best(parent, root), GetBest(parent, root))
  }

  lemma {:induction false} GetBestShowsSame(v: View, root: Root)
    requires Right(v, root)
    ensures Right(GetBest(v, root), root) && Best(GetBest(v, root), root) == Best(v, root)
    ensures forall k :: AnchorAt(GetBest(v, root), root, k) == AnchorAt(v, root, k)
  {
    match v
    case Base(_, _) =>
    case Layer(entries, best, parent) =>
      if best == NULL {
        GetBestShowsSame(parent, root);
        forall k ensures AnchorAt(GetBest(v, root), root, k) == AnchorAt(v, root, k) {
          assert AnchorAt(GetBest(parent, root), root, k) == AnchorAt(parent, root, k);
        }
      }
  }

  /******* Pushing and popping *******/

  ghost function Push(v: View, root: Root, tree: Tree): (r: View)
    requires v.Layer?
    ensures r.Layer?
  {
    var w := GetBest(v, root);
    if Best(v, root) == root(tree) then w
    else w.(entries := w.entries[root(tree) := Entry(true, tree, true)], best := root(tree))
  }

  lemma PushShows(v: View, root: Root, tree: Tree)
    requires Right(v, root) && v.Layer? && root(tree) != NULL
    ensures Right(Push(v, root, tree), root) && Best(Push(v, root, tree), root) == root(tree)
    ensures Best(v, root) != root(tree) ==>
              forall k :: Anchored(Push(v, root, tree), root, k) == (k == root(tree) || Anchored(v, root, k))
    ensures Best(v, root) == root(tree) ==> SameAnchors(Push(v, root, tree), v, root)
  {
    GetBestShowsSame(v, root);
    var w := GetBest(v, root);
    forall k
      ensures Best(v, root) != root(tree) ==>
                Anchored(Push(v, root, tree), root, k) == (k == root(tree) || Anchored(v, root, k))
      ensures Best(v, root) == root(tree) ==> Anchored(Push(v, root, tree), root, k) == Anchored(v, root, k)
    {
      assert AnchorAt(w, root, k) == AnchorAt(v, root, k);
    }
  }

  /** Popping needs the tree of the current best anchor; the node asserts that it is there. */
  ghost predicate PopAsserts(v: View, root: Root, rt: Hash) {
    Best(v, root) != rt ==> Anchored(v, root, Best(v, root))
  }

  ghost function Pop(v: View, root: Root, rt: Hash): (r: View)
    requires v.Layer? && PopAsserts(v, root, rt) && Right(v, root)
    ensures r.Layer?
  {
    GetBestShowsSame(v, root);
    var w := GetBest(v, root);
    var current := Best(v, root);
    if current == rt then w
    else
      GetAnchorShowsSame(w, root, current);
      var x := GetAnchor(w, root, current);
      x.(entries := x.entries[current := Entry(false, x.entries[current].tree, true)], best := rt)
  }

  lemma PopShows(v: View, root: Root, rt: Hash)
    requires Right(v, root) && v.Layer? && PopAsserts(v, root, rt) && rt != NULL
    ensures Right(Pop(v, root, rt), root) && Best(Pop(v, root, rt), root) == rt
    ensures Best(v, root) != rt ==>
              forall k :: Anchored(Pop(v, root, rt), root, k) == (k != Best(v, root) && Anchored(v, root, k))
    ensures Best(v, root) == rt ==> SameAnchors(Pop(v, root, rt), v, root)
  {
    GetBestShowsSame(v, root);
    var w := GetBest(v, root);
    var current := Best(v, root);
    if current == rt {
      forall k ensures Anchored(Pop(v, root, rt), root, k) == Anchored(v, root, k) {
        assert AnchorAt(w, root, k) == AnchorAt(v, root, k);
      }
    } else {
      GetAnchorShowsSame(w, root, current);
      var x := GetAnchor(w, root, current);
      forall k ensures Anchored(Pop(v, root, rt), root, k) == (k != current && Anchored(v, root, k)) {
        assert AnchorAt(x, root, k) == AnchorAt(w, root, k);
        assert AnchorAt(w, root, k) == AnchorAt(v, root, k);
      }
    }
  }

  /** Pushing a tree whose root is not an anchor and popping back undoes it. */
  lemma PushThenPop(v: View, root: Root, tree: Tree)
    requires Right(v, root) && v.Layer? && root(tree) != NULL && Best(v, root) != NULL
    requires !Anchored(v, root, root(tree)) && Best(v, root) != root(tree)
    ensures Right(Push(v, root, tree), root) && PopAsserts(Push(v, root, tree), root, Best(v, root))
    ensures var r := Pop(Push(v, root, tree), root, Best(v, root));
            SameAnchors(r, v, root) && Best(r, root) == Best(v, root)
  {
    PushShows(v, root, tree);
    var w := Push(v, root, tree);
    PopShows(w, root, Best(v, root));
  }

  /******* Flushing *******/

  ghost function Merge(mine: map<Hash, Entry>, child: map<Hash, Entry>): (r: map<Hash, Entry>)
    ensures r.Keys == mine.Keys + set rt | rt in child && child[rt].dirty
  {
    map rt | rt in mine.Keys + child.Keys && (rt in mine || child[rt].dirty) ::
      if !(rt in child && child[rt].dirty) then mine[rt]
      else if rt !in mine then child[rt]
      else if mine[rt].entered != child[rt].entered then mine[rt].(entered := child[rt].entered, dirty := true)
      else mine[rt]
  }

  /** The database never stores the empty tree. */
  ghost function WriteAll(trees: map<Hash, Tree>, root: Root, child: map<Hash, Entry>): map<Hash, Tree> {
    map rt | rt in trees.Keys + child.Keys &&
             (if rt in child && child[rt].dirty
              then if child[rt].entered then rt != root([]) || rt in trees else false
              else rt in trees) ::
      if rt in child && child[rt].dirty && rt != root([]) then child[rt].tree else trees[rt]
  }

  ghost function BatchWrite(v: View, root: Root, child: map<Hash, Entry>, best: Hash): (r: View) {
    match v
    case Base(trees, b) => Base(WriteAll(trees, root, child), if best != NULL then best else b)
    case Layer(entries, _, parent) => Layer(Merge(entries, child), best, parent)
  }

  ghost function Flush(v: View, root: Root): (r: View)
    requires v.Layer?
    ensures r.Layer?
  {
    Layer(map[], v.best, BatchWrite(v.parent, root, v.entries, v.best))
  }

  /** The one thing that cannot be written down is the removal of the empty tree. */
  lemma FlushShows(v: View, root: Root)
    requires Right(v, root) && v.Layer?
    ensures Right(Flush(v, root), root)
    ensures SameAnchors(Flush(v, root), v, root) <==> v.parent.Layer? || Anchored(v, root, root([]))
    ensures SameAnchors(Flush(v, root), v, root) ==> SameAnchors(Flush(v, root).parent, v, root)
  {
    var p := v.parent;
    var r := BatchWrite(p, root, v.entries, v.best);
    forall rt ensures (rt == root([]) && p.Base?) || Anchored(r, root, rt) == Anchored(v, root, rt) {
      assert Anchored(v, root, rt) == if rt in v.entries then v.entries[rt].entered else Anchored(p, root, rt);
      if p.Layer? {
        var merged := Merge(p.entries, v.entries);
        assert Anchored(r, root, rt) == if rt in merged then merged[rt].entered else Anchored(p.parent, root, rt);
        assert Anchored(p, root, rt) == if rt in p.entries then p.entries[rt].entered else Anchored(p.parent, root, rt);
      } else {
        assert rt != root([]) ==> (Anchored(r, root, rt) <==> rt in WriteAll(p.trees, root, v.entries));
      }
    }
    assert p.Base? ==> Anchored(r, root, root([]));
    forall rt ensures Anchored(Flush(v, root), root, rt) == Anchored(r, root, rt) {
    }
  }

  /** The best anchor survives a flush exactly when it was known above, or nothing below changes it. */
  lemma FlushBest(v: View, root: Root)
    requires v.Layer?
    ensures Best(Flush(v, root), root) == Best(v, root) <==>
            || v.best != NULL
            || v.parent.Base?
            || Best(v.parent.parent, root) == Best(v.parent, root)
  {
    var r := BatchWrite(v.parent, root, v.entries, v.best);
    assert v.parent.Layer? ==> r.parent == v.parent.parent;
  }

  /******* Whole runs *******/

  datatype Op = OpGet(rt: Hash) | OpBest | OpPush(tree: Tree) | OpPop(rt: Hash) | OpFlush

  /** A flat set of anchors with its best one. */
  datatype Flat = Flat(anchors: set<Hash>, best: Hash)

  ghost predicate Shows(v: View, root: Root, flat: Flat) {
    (forall rt :: Anchored(v, root, rt) <==> rt in flat.anchors) && Best(v, root) == flat.best
  }

  /**
   * A flush that is visible neither in the anchors nor in the best anchor.
   * The first part fails only for a cache that never read or set its best
   * anchor, above another cache that did; the second only for a removal of
   * the empty root that reaches the database.
   */
  ghost predicate FlushAllowed(v: View, root: Root, flat: Flat)
    requires v.Layer?
  {
    && (v.best != NULL || v.parent.Base? || Best(v.parent.parent, root) == Best(v.parent, root))
    && (v.parent.Layer? || root([]) in flat.anchors)
  }

  /**
   * Roots of trees are never the null hash, what is popped is there, and a
   * flush is one of those that FlushAllowed describes.
   */
  ghost predicate Allowed(v: View, root: Root, flat: Flat, op: Op)
    requires v.Layer?
  {
    match op
    case OpPush(tree) => root(tree) != NULL
    case OpPop(rt) => rt != NULL && (flat.best != rt ==> flat.best in flat.anchors)
    case OpFlush => FlushAllowed(v, root, flat)
    case _ => true
  }

  ghost function Step(v: View, root: Root, op: Op): (r: View)
    requires v.Layer? && Right(v, root) && (op.OpPop? ==> PopAsserts(v, root, op.rt))
    ensures r.Layer?
  {
    match op
    case OpGet(rt) => GetAnchor(v, root, rt)
    case OpBest => GetBest(v, root)
    case OpPush(tree) => Push(v, root, tree)
    case OpPop(rt) => Pop(v, root, rt)
    case OpFlush => Flush(v, root)
  }

  ghost function FlatStep(root: Root, flat: Flat, op: Op): Flat {
    match op
    case OpPush(tree) => Flat(if flat.best != root(tree) then flat.anchors + {root(tree)} else flat.anchors, root(tree))
    case OpPop(rt) => Flat(if flat.best != rt then flat.anchors - {flat.best} else flat.anchors, rt)
    case _ => flat
  }

  lemma StepRefines(v: View, root: Root, op: Op, flat: Flat)
    requires v.Layer? && Right(v, root) && Shows(v, root, flat) && Allowed(v, root, flat, op)
    ensures op.OpPop? ==> PopAsserts(v, root, op.rt)
    ensures Right(Step(v, root, op), root) && Shows(Step(v, root, op), root, FlatStep(root, flat, op))
  {
    hide Right;
    match op
    case OpGet(rt) =>
      GetAnchorShowsSame(v, root, rt);
      forall k ensures Anchored(GetAnchor(v, root, rt), root, k) == Anchored(v, root, k) {
        assert AnchorAt(GetAnchor(v, root, rt), root, k) == AnchorAt(v, root, k);
      }
    case OpBest =>
      GetBestShowsSame(v, root);
      forall k ensures Anchored(GetBest(v, root), root, k) == Anchored(v, root, k) {
        assert AnchorAt(GetBest(v, root), root, k) == AnchorAt(v, root, k);
      }
    case OpPush(tree) => PushShows(v, root, tree);
    case OpPop(rt) => PopShows(v, root, rt);
    case OpFlush =>
      FlushShows(v, root);
      FlushBest(v, root);
  }

  /** No weaker condition on a flush would do. */
  lemma FlushAllowedExactly(v: View, root: Root, flat: Flat)
    requires v.Layer? && Right(v, root) && Shows(v, root, flat)
    ensures Shows(Flush(v, root), root, flat) <==> FlushAllowed(v, root, flat)
  {
    hide Right;
    FlushShows(v, root);
    FlushBest(v, root);
    var r := Flush(v, root);
    if Shows(r, root, flat) {
      forall rt ensures Anchored(r, root, rt) == Anchored(v, root, rt) {
      }
    }
  }

  /** All operations of a run are allowed where they happen. */
  ghost predicate RunAllowed(v: View, root: Root, flat: Flat, ops: seq<Op>)
    requires v.Layer? && Right(v, root) && Shows(v, root, flat)
    decreases |ops|
  {
    ops == [] ||
    (&& Allowed(v, root, flat, ops[0])
     && (StepRefines(v, root, ops[0], flat);
         RunAllowed(Step(v, root, ops[0]), root, FlatStep(root, flat, ops[0]), ops[1..])))
  }

  /** Each step of a run meets what Step asks for, the assertion of a pop included. */
  ghost function Run(v: View, root: Root, flat: Flat, ops: seq<Op>): (r: View)
    requires v.Layer? && Right(v, root) && Shows(v, root, flat) && RunAllowed(v, root, flat, ops)
    ensures r.Layer?
    decreases |ops|
  {
    if ops == [] then v
    else
      StepRefines(v, root, ops[0], flat);
      Run(Step(v, root, ops[0]), root, FlatStep(root, flat, ops[0]), ops[1..])
  }

  ghost function FlatRun(root: Root, flat: Flat, ops: seq<Op>): Flat
    decreases |ops|
  {
    if ops == [] then flat else FlatRun(root, FlatStep(root, flat, ops[0]), ops[1..])
  }

  /** Any such run of the top of any stack behaves as one flat set with a best anchor. */
  lemma {:induction false} RunRefines(v: View, root: Root, flat: Flat, ops: seq<Op>)
    requires v.Layer? && Right(v, root) && Shows(v, root, flat) && RunAllowed(v, root, flat, ops)
    ensures Right(Run(v, root, flat, ops), root) && Shows(Run(v, root, flat, ops), root, FlatRun(root, flat, ops))
    decreases |ops|
  {
    if ops != [] {
      StepRefines(v, root, ops[0], flat);
      RunRefines(Step(v, root, ops[0]), root, FlatStep(root, flat, ops[0]), ops[1..]);
    }
  }

  /** Wherever a run has got to, the assertion of a pop that comes next holds. */
  lemma {:induction false} RunNeverAsserts(v: View, root: Root, flat: Flat, ops: seq<Op>, i: nat)
    requires v.Layer? && Right(v, root) && Shows(v, root, flat) && RunAllowed(v, root, flat, ops)
    requires i < |ops| && ops[i].OpPop?
    ensures RunAllowed(v, root, flat, ops[..i]) && PopAsserts(Run(v, root, flat, ops[..i]), root, ops[i].rt)
    decreases i
  {
    StepRefines(v, root, ops[0], flat);
    if i > 0 {
      RunNeverAsserts(Step(v, root, ops[0]), root, FlatStep(root, flat, ops[0]), ops[1..], i - 1);
      assert ops[..i][1..] == ops[1..][..i - 1];
    }
  }

  /******* Flushes that are visible *******/

  /**
   * A cache that never asked for its best anchor, above one where a tree was
   * pushed: flushing the upper one loses the pushed best anchor.
   */
  lemma FlushLosesBest(root: Root, tree: Tree, h: Hash)
    requires root(tree) != h && h != NULL && root(tree) != NULL
    ensures var v := Layer(map[], NULL, Push(Layer(map[], NULL, Base(map[], h)), root, tree));
            && Right(v, root) && Best(v, root) == root(tree) && Best(Flush(v, root), root) == h
  {
    var lower := Layer(map[], NULL, Base(map[], h));
    PushShows(lower, root, tree);
    assert GetBest(lower, root) == Layer(map[], h, Base(map[], h));
  }

  /**
   * On an empty database the empty root is popped away, and the flush brings
   * it back.
   */
  lemma FlushRestoresEmptyRoot(root: Root, rt: Hash)
    requires rt != NULL && rt != root([])
    ensures var v := Layer(map[], NULL, Base(map[], NULL));
            && Right(v, root) && PopAsserts(v, root, rt)
            && !Anchored(Pop(v, root, rt), root, root([]))
            && Anchored(Flush(Pop(v, root, rt), root), root, root([]))
  {
    var v := Layer(map[], NULL, Base(map[], NULL));
    assert Best(v, root) == root([]);
    PopShows(v, root, rt);
    var w := Pop(v, root, rt);
    GetBestShowsSame(v, root);
    GetAnchorShowsSame(GetBest(v, root), root, root([]));
    assert w.parent.Base?;
    FlushShows(w, root);
  }
}
