/**
 * What a cache spares the views below it: what was read once is answered by
 * the cache, what was made and undone in it is not written down, and a flush
 * leaves it empty.
 */
module CacheTraffic {
  import C = CoinStack
  import N = NullifierStack
  import A = AnchorStack
  import opened Options

  /** A database, and a new cache on any view with right flags, have right flags. */
  lemma NewCachesAreRight(coins: map<C.OutPoint, C.Coin>, v: C.View, spent: set<N.Hash>, w: N.View, best: A.Hash, x: A.View, root: A.Root)
    ensures C.FlagsRight(C.Base(coins)) && (C.FlagsRight(v) ==> C.FlagsRight(C.Layer(map[], v)))
    ensures N.FlagsRight(N.Base(spent)) && (N.FlagsRight(w) ==> N.FlagsRight(N.Layer(map[], w)))
    ensures A.Right(A.Base(map[], best), root) && (A.Right(x, root) ==> A.Right(A.Layer(map[], A.NULL, x), root))
  {
  }

  /******* Coins *******/

  /** A coin that is found is kept, with no other entry changed; nothing is kept of one that is not. */
  lemma ReadIsKept(v: C.View, o: C.OutPoint)
    requires v.Layer? && C.FlagsRight(v)
    ensures var r := C.Fetch(v, o);
            && r.Layer?
            && (forall p | p != o :: C.EntryAt(r.entries, p) == C.EntryAt(v.entries, p))
            && (C.Lookup(v, o).Some? ==> o in r.entries && r.entries[o].coin == C.Lookup(v, o).value)
            && (C.Lookup(v, o).Some? && o !in v.entries ==>
                  !r.entries[o].dirty && (r.entries[o].isFresh <==> r.entries[o].coin.IsSpent()))
            && (C.Lookup(v, o) == None ==> r.entries == v.entries)
  {
    if o !in v.entries {
      C.FetchShowsSame(v.parent, o);
    }
  }

  /** Reading again changes nothing in any layer, and asks nothing of the layers below one that has the coin. */
  lemma {:induction false} ReadAgain(v: C.View, o: C.OutPoint)
    ensures C.Fetch(C.Fetch(v, o), o) == C.Fetch(v, o)
  {
    match v
    case Base(_) =>
    case Layer(entries, parent) =>
      if o !in entries {
        ReadAgain(parent, o);
      }
  }

  /** A coin that is made and spent in one cache leaves no trace there, and a flush writes nothing of it. */
  lemma MadeAndSpent(v: C.View, o: C.OutPoint, coin: C.Coin)
    requires v.Layer? && o !in v.entries
    ensures C.SpendCoin(C.AddCoin(v, o, coin, false), o) == v
    ensures C.Flush(C.SpendCoin(C.AddCoin(v, o, coin, false), o)) == C.Flush(v)
  {
    var w := C.AddCoin(v, o, coin, false);
    assert w.entries - {o} == v.entries;
  }

  /** Nor does one that is made in a cache, flushed to the next one, and spent there. */
  lemma MadeAndSpentBelow(p: C.View, o: C.OutPoint, coin: C.Coin)
    requires p.Layer? && o !in p.entries && !coin.IsSpent()
    ensures var v := C.Flush(C.AddCoin(C.Layer(map[], p), o, coin, false));
            v.parent.Layer? && C.SpendCoin(v.parent, o) == p
  {
    var child := C.AddCoin(C.Layer(map[], p), o, coin, false);
    var below := C.Flush(child).parent;
    var merged := C.MergeAll(p.entries, child.entries);
    assert C.EntryAt(merged, o) == Some(C.Entry(coin, true, true));
    assert forall q | q != o :: C.EntryAt(merged, q) == C.EntryAt(p.entries, q);
    assert merged - {o} == p.entries;
  }

  /** Uncaching drops the entry exactly if it has nothing to write down, and touches no other one. */
  lemma UncacheDrops(v: C.View, o: C.OutPoint)
    requires v.Layer?
    ensures var r := C.Uncache(v, o);
            && (o in r.entries <==> o in v.entries && (v.entries[o].dirty || v.entries[o].isFresh))
            && (forall p | p != o :: C.EntryAt(r.entries, p) == C.EntryAt(v.entries, p))
  {
  }

  /** After a flush the cache is empty, and a second flush writes nothing. */
  lemma CoinsFlushed(v: C.View)
    requires v.Layer?
    ensures C.Flush(v).entries == map[] && C.Flush(C.Flush(v)) == C.Flush(v)
  {
    hide C.BatchWrite;
    NothingWritten(C.Flush(v).parent);
  }

  lemma NullifiersFlushed(v: N.View)
    requires v.Layer?
    ensures N.Flush(v).entries == map[] && N.Flush(N.Flush(v)) == N.Flush(v)
  {
    var below := N.Flush(v).parent;
    if below.Layer? {
      assert N.Merge(below.entries, map[]) == below.entries;
    }
  }

  lemma AnchorsFlushed(v: A.View, root: A.Root)
    requires v.Layer?
    ensures A.Flush(v, root).entries == map[] && A.Flush(A.Flush(v, root), root) == A.Flush(v, root)
  {
    var below := A.Flush(v, root).parent;
    if below.Layer? {
      assert A.Merge(below.entries, map[]) == below.entries;
    } else {
      assert A.WriteAll(below.trees, root, map[]) == below.trees;
    }
  }

  lemma NothingWritten(v: C.View)
    ensures C.BatchWrite(v, map[]) == v
  {
    match v
    case Base(coins) => assert C.WriteAll(coins, map[]) == coins;
    case Layer(entries, parent) => assert C.MergeAll(entries, map[]) == entries;
  }

  /******* Nullifiers and anchors *******/

  lemma {:induction false} AskIsKept(v: N.View, n: N.Hash)
    ensures N.Ask(N.Ask(v, n), n) == N.Ask(v, n)
    ensures v.Layer? ==>
              && n in N.Ask(v, n).entries && N.Ask(v, n).entries[n].entered == N.Spent(v, n)
              && N.Ask(v, n).entries - {n} == v.entries - {n}
  {
  }

  lemma {:induction false} AnchorIsKept(v: A.View, root: A.Root, rt: A.Hash)
    requires A.Right(v, root)
    ensures v.Layer? && A.Anchored(v, root, rt) ==> rt in A.GetAnchor(v, root, rt).entries
    ensures v.Layer? ==> A.GetAnchor(v, root, rt).entries - {rt} == v.entries - {rt}
    ensures A.GetAnchor(A.GetAnchor(v, root, rt), root, rt) == A.GetAnchor(v, root, rt)
  {
    match v
    case Base(_, _) =>
    case Layer(entries, _, parent) =>
      if rt !in entries {
        A.GetAnchorShowsSame(parent, root, rt);
        AnchorIsKept(parent, root, rt);
      }
  }

  lemma BestIsKept(v: A.View, root: A.Root)
    requires v.Layer?
    ensures A.GetBest(v, root).best == A.Best(v, root) && A.GetBest(v, root).entries == v.entries
  {
  }
}
