/**
 * The coin view objects: a database, and caches that write back to the view
 * below them.  A cache changes itself and every cache below it even when it
 * is only read.  Each method is proved against the stack models.
 */
module CoinsViews {
  import C = CoinStack
  import N = NullifierStack
  import A = AnchorStack
  import SetFacts
  import opened Options

  type OutPoint = C.OutPoint
  type Hash = int

  const NULL: Hash := A.NULL

  class CoinsDb {
    const root: A.Root
    var coins: map<OutPoint, C.Coin>
    var nullifiers: set<Hash>
    var anchors: map<Hash, A.Tree>
    var bestAnchor: Hash
    var bestBlock: Hash

    constructor (root: A.Root)
      ensures this.root == root && coins == map[] && nullifiers == {} && anchors == map[]
      ensures bestAnchor == NULL && bestBlock == NULL
    {
      this.root := root;
      coins, nullifiers, anchors, bestAnchor, bestBlock := map[], {}, map[], NULL, NULL;
    }

    method GetCoin(o: OutPoint) returns (found: bool, coin: C.Coin)
      ensures (if found then Some(coin) else None) == C.Lookup(C.Base(coins), o)
    {
      found := o in coins;
      coin := if found then coins[o] else C.EMPTY_COIN;
    }

    method GetAnchor(rt: Hash) returns (found: bool, tree: A.Tree)
      ensures (if found then Some(tree) else None) == A.AnchorAt(A.Base(anchors, bestAnchor), root, rt)
    {
      if rt == root([]) {
        return true, [];
      }
      found := rt in anchors;
      tree := if found then anchors[rt] else [];
    }

    /** The database is written in one atomic batch. */
    method BatchWrite(childCoins: map<OutPoint, C.Entry>, block: Hash, anchor: Hash,
                      childAnchors: map<Hash, A.Entry>, childNullifiers: map<Hash, N.Entry>)
      requires block != NULL
      modifies this
      ensures C.Base(coins) == C.BatchWrite(old(C.Base(coins)), childCoins)
      ensures N.Base(nullifiers) == N.BatchWrite(old(N.Base(nullifiers)), childNullifiers)
      ensures A.Base(anchors, bestAnchor) == A.BatchWrite(old(A.Base(anchors, bestAnchor)), root, childAnchors, anchor)
      ensures bestBlock == block
    {
      WriteCoins(childCoins);
      WriteAnchors(childAnchors);
      WriteNullifiers(childNullifiers);
      if anchor != NULL {
        bestAnchor := anchor;
      }
      bestBlock := block;
    }

    method WriteCoins(child: map<OutPoint, C.Entry>)
      modifies this`coins
      ensures coins == C.WriteAll(old(coins), child)
    {
      var todo := child.Keys;
      while todo != {}
        invariant todo <= child.Keys
        invariant forall o :: o in coins <==>
                    if o in child && o !in todo && child[o].dirty then !child[o].coin.IsSpent() else o in old(coins)
        invariant forall o | o in coins ::
                    coins[o] == if o in child && o !in todo && child[o].dirty then child[o].coin else old(coins)[o]
        decreases todo
      {
        SetFacts.EmptyOrInhabited(todo);
        var o :| o in todo;
        if child[o].dirty {
          if child[o].coin.IsSpent() {
            coins := coins - {o};
          } else {
            coins := coins[o := child[o].coin];
          }
        }
        todo := todo - {o};
      }
      ghost var spec := C.WriteAll(old(coins), child);
      assert forall o :: o in spec <==> o in coins;
      assert forall o | o in spec :: spec[o] == coins[o];
    }

    method WriteNullifiers(child: map<Hash, N.Entry>)
      modifies this`nullifiers
      ensures N.Base(nullifiers) == N.BatchWrite(N.Base(old(nullifiers)), child)
    {
      var todo := child.Keys;
      while todo != {}
        invariant todo <= child.Keys
        invariant forall n :: n in nullifiers <==>
                    if n in child && n !in todo && child[n].dirty then child[n].entered else n in old(nullifiers)
        decreases todo
      {
        SetFacts.EmptyOrInhabited(todo);
        var n :| n in todo;
        if child[n].dirty {
          if !child[n].entered {
            nullifiers := nullifiers - {n};
          } else {
            nullifiers := nullifiers + {n};
          }
        }
        todo := todo - {n};
      }
      ghost var spec := N.BatchWrite(N.Base(old(nullifiers)), child).spent;
      assert forall n :: n in spec <==> n in nullifiers;
    }

    method WriteAnchors(child: map<Hash, A.Entry>)
      modifies this`anchors
      ensures anchors == A.WriteAll(old(anchors), root, child)
    {
      var todo := child.Keys;
      while todo != {}
        invariant todo <= child.Keys
        invariant forall rt :: rt in anchors <==>
                    if rt in child && rt !in todo && child[rt].dirty
                    then child[rt].entered && (rt != root([]) || rt in old(anchors))
                    else rt in old(anchors)
        invariant forall rt | rt in anchors ::
                    anchors[rt] == if rt in child && rt !in todo && child[rt].dirty && rt != root([])
                                   then child[rt].tree else old(anchors)[rt]
        decreases todo
      {
        SetFacts.EmptyOrInhabited(todo);
        var rt :| rt in todo;
        if child[rt].dirty {
          if !child[rt].entered {
            anchors := anchors - {rt};
          } else if rt != root([]) {
            anchors := anchors[rt := child[rt].tree];
          }
        }
        todo := todo - {rt};
      }
      ghost var spec := A.WriteAll(old(anchors), root, child);
      assert forall rt :: rt in spec <==> rt in anchors;
      assert forall rt | rt in spec :: spec[rt] == anchors[rt];
    }
  }

  class CoinsCache {
    const db: CoinsDb
    // The cache below, or null for one that sits directly on the database.
    const parent: CoinsCache?
    ghost const Repr: set<object>

    var coins: map<OutPoint, C.Entry>
    var nullifiers: map<Hash, N.Entry>
    var anchors: map<Hash, A.Entry>
    var bestAnchor: Hash
    var bestBlock: Hash

    ghost predicate Valid()
      decreases Repr
    {
      && this in Repr && db in Repr
      && (parent == null ==> Repr == {this, db})
      && (parent != null ==>
            parent.db == db && this !in parent.Repr && Repr == {this} + parent.Repr && parent.Valid())
    }

    ghost function CoinsBelow(): C.View
      requires Valid()
      reads Repr - {this}
      decreases Repr, 0
    {
      if parent == null then C.Base(db.coins) else parent.CoinView()
    }

    ghost function CoinView(): (v: C.View)
      requires Valid()
      reads Repr
      ensures v.Layer? && v.entries == coins
      decreases Repr, 1
    {
      C.Layer(coins, CoinsBelow())
    }

    ghost function NullifiersBelow(): N.View
      requires Valid()
      reads Repr - {this}
      decreases Repr, 0
    {
      if parent == null then N.Base(db.nullifiers) else parent.NullifierView()
    }

    ghost function NullifierView(): (v: N.View)
      requires Valid()
      reads Repr
      ensures v.Layer? && v.entries == nullifiers
      decreases Repr, 1
    {
      N.Layer(nullifiers, NullifiersBelow())
    }

    ghost function AnchorsBelow(): A.View
      requires Valid()
      reads Repr - {this}
      decreases Repr, 0
    {
      if parent == null then A.Base(db.anchors, db.bestAnchor) else parent.AnchorView()
    }

    ghost function AnchorView(): (v: A.View)
      requires Valid()
      reads Repr
      ensures v.Layer? && v.entries == anchors && v.best == bestAnchor
      decreases Repr, 1
    {
      A.Layer(anchors, bestAnchor, AnchorsBelow())
    }

    ghost function BlockBelow(): Hash
      requires Valid()
      reads Repr - {this}
      decreases Repr, 0
    {
      if parent == null then db.bestBlock else parent.BestBlock()
    }

    ghost function BestBlock(): Hash
      requires Valid()
      reads Repr
      decreases Repr, 1
    {
      if bestBlock != NULL then bestBlock else BlockBelow()
    }

    constructor OnDatabase(db: CoinsDb)
      ensures Valid() && Repr == {this, db} && this.db == db && parent == null
      ensures coins == map[] && nullifiers == map[] && anchors == map[] && bestAnchor == NULL && bestBlock == NULL
    {
      this.db, this.parent, this.Repr := db, null, {this, db};
      coins, nullifiers, anchors, bestAnchor, bestBlock := map[], map[], map[], NULL, NULL;
    }

    constructor OnCache(parent: CoinsCache)
      requires parent.Valid()
      ensures Valid() && Repr == {this} + parent.Repr && db == parent.db && this.parent == parent
      ensures coins == map[] && nullifiers == map[] && anchors == map[] && bestAnchor == NULL && bestBlock == NULL
    {
      this.db, this.parent, this.Repr := parent.db, parent, {this} + parent.Repr;
      coins, nullifiers, anchors, bestAnchor, bestBlock := map[], map[], map[], NULL, NULL;
    }

    /******* Coins *******/

    method FetchCoin(o: OutPoint) returns (found: bool)
      requires Valid()
      modifies Repr
      ensures CoinView() == C.Fetch(old(CoinView()), o)
      ensures found <==> o in coins
      ensures NullifierView() == old(NullifierView()) && AnchorView() == old(AnchorView())
      ensures BestBlock() == old(BestBlock())
      decreases Repr, 0
    {
      if o in coins {
        return true;
      }
      var coin: C.Coin;
      if parent == null {
        found, coin := db.GetCoin(o);
      } else {
        found, coin := parent.GetCoin(o);
      }
      if found {
        coins := coins[o := C.Entry(coin, false, coin.IsSpent())];
      }
    }

    method GetCoin(o: OutPoint) returns (found: bool, coin: C.Coin)
      requires Valid()
      modifies Repr
      ensures CoinView() == C.Fetch(old(CoinView()), o)
      ensures (if found then Some(coin) else None) == C.Lookup(CoinView(), o)
      ensures NullifierView() == old(NullifierView()) && AnchorView() == old(AnchorView())
      ensures BestBlock() == old(BestBlock())
      decreases Repr, 1
    {
      ghost var v := CoinView();
      found := FetchCoin(o);
      coin := if found then coins[o].coin else C.EMPTY_COIN;
      if !found {
        FetchMisses(v, o);
      }
    }

    /** The coin as it stands in the cache, spent or not; an empty one when there is none. */
    method AccessCoin(o: OutPoint) returns (coin: C.Coin)
      requires Valid()
      modifies Repr
      ensures CoinView() == C.Fetch(old(CoinView()), o)
      ensures C.AsUnspent(coin) == C.Unspent(CoinView(), o)
      ensures NullifierView() == old(NullifierView()) && AnchorView() == old(AnchorView())
      ensures BestBlock() == old(BestBlock())
    {
      var found;
      found, coin := GetCoin(o);
      if !found {
        coin := C.EMPTY_COIN;
      }
    }

    method HaveCoin(o: OutPoint) returns (have: bool)
      requires Valid()
      modifies Repr
      ensures CoinView() == C.Fetch(old(CoinView()), o)
      ensures have <==> C.Unspent(CoinView(), o).Some?
      ensures NullifierView() == old(NullifierView()) && AnchorView() == old(AnchorView())
      ensures BestBlock() == old(BestBlock())
    {
      var found, coin := GetCoin(o);
      have := found && !coin.IsSpent();
    }

    /** Outputs that can never be spent are not stored.  Answers false where the node throws. */
    method AddCoin(o: OutPoint, coin: C.Coin, overwrite: bool, unspendable: C.TxOut -> bool) returns (ok: bool)
      requires Valid() && !coin.IsSpent()
      modifies this`coins
      ensures ok <==> unspendable(coin.out) || !C.AddThrows(old(CoinView()), o, overwrite)
      ensures CoinView() == if !ok || unspendable(coin.out) then old(CoinView())
                            else C.AddCoin(old(CoinView()), o, coin, overwrite)
    {
      if unspendable(coin.out) {
        return true;
      }
      var entry := if o in coins then coins[o] else C.Entry(C.EMPTY_COIN, false, false);
      var isFresh := false;
      if !overwrite {
        if !entry.coin.IsSpent() {
          return false;
        }
        isFresh := !entry.dirty;
      }
      coins := coins[o := C.Entry(coin, true, entry.isFresh || isFresh)];
      ok := true;
    }

    /** Also hands out the coin that was spent. */
    method SpendCoin(o: OutPoint) returns (moved: Option<C.Coin>)
      requires Valid()
      modifies Repr
      ensures CoinView() == C.SpendCoin(old(CoinView()), o)
      ensures moved == C.Lookup(C.Fetch(old(CoinView()), o), o)
      ensures NullifierView() == old(NullifierView()) && AnchorView() == old(AnchorView())
      ensures BestBlock() == old(BestBlock())
    {
      ghost var v := CoinView();
      var found := FetchCoin(o);
      if !found {
        FetchMisses(v, o);
        return None;
      }
      var entry := coins[o];
      moved := Some(entry.coin);
      if entry.isFresh {
        coins := coins - {o};
      } else {
        coins := coins[o := C.Entry(C.EMPTY_COIN, true, false)];
      }
    }

    method Uncache(o: OutPoint)
      requires Valid()
      modifies this`coins
      ensures CoinView() == C.Uncache(old(CoinView()), o)
    {
      if o in coins && !coins[o].dirty && !coins[o].isFresh {
        coins := coins - {o};
      }
    }

    /******* Best block, anchors, nullifiers *******/

    method GetBestBlock() returns (block: Hash)
      requires Valid()
      modifies Repr
      ensures block == old(BestBlock()) && BestBlock() == block && bestBlock == block
      ensures CoinView() == old(CoinView()) && NullifierView() == old(NullifierView())
      ensures AnchorView() == old(AnchorView())
      decreases Repr
    {
      if bestBlock == NULL {
        if parent == null {
          bestBlock := db.bestBlock;
        } else {
          var below := parent.GetBestBlock();
          bestBlock := below;
        }
      }
      block := bestBlock;
    }

    method SetBestBlock(block: Hash)
      requires Valid()
      modifies this`bestBlock
      ensures bestBlock == block
    {
      bestBlock := block;
    }

    method GetSaplingAnchorAt(rt: Hash) returns (found: bool, tree: A.Tree)
      requires Valid()
      modifies Repr
      ensures AnchorView() == A.GetAnchor(old(AnchorView()), db.root, rt)
      ensures (if found then Some(tree) else None) == A.AnchorAt(AnchorView(), db.root, rt)
      ensures CoinView() == old(CoinView()) && NullifierView() == old(NullifierView())
      ensures BestBlock() == old(BestBlock())
      decreases Repr
    {
      if rt in anchors {
        return anchors[rt].entered, anchors[rt].tree;
      }
      if parent == null {
        found, tree := db.GetAnchor(rt);
      } else {
        found, tree := parent.GetSaplingAnchorAt(rt);
      }
      if found {
        anchors := anchors[rt := A.Entry(true, tree, false)];
      }
    }

    method GetNullifier(n: Hash) returns (spent: bool)
      requires Valid()
      modifies Repr
      ensures NullifierView() == N.Ask(old(NullifierView()), n)
      ensures spent <==> N.Spent(old(NullifierView()), n)
      ensures CoinView() == old(CoinView()) && AnchorView() == old(AnchorView())
      ensures BestBlock() == old(BestBlock())
      decreases Repr
    {
      if n in nullifiers {
        return nullifiers[n].entered;
      }
      if parent == null {
        spent := n in db.nullifiers;
      } else {
        spent := parent.GetNullifier(n);
      }
      nullifiers := nullifiers[n := N.Entry(spent, false)];
    }

    method SetNullifiers(ns: seq<Hash>, spent: bool)
      requires Valid()
      modifies this`nullifiers
      ensures NullifierView() == N.SetAll(old(NullifierView()), ns, spent)
    {
      for i := 0 to |ns|
        invariant NullifierView() == N.SetAll(old(NullifierView()), ns[..i], spent)
      {
        nullifiers := nullifiers[ns[i] := N.Entry(spent, true)];
        assert ns[..i + 1][..i] == ns[..i];
      }
      assert ns[..|ns|] == ns;
    }

    method GetBestAnchor() returns (best: Hash)
      requires Valid()
      modifies Repr
      ensures AnchorView() == A.GetBest(old(AnchorView()), db.root)
      ensures best == A.Best(old(AnchorView()), db.root) == bestAnchor
      ensures CoinView() == old(CoinView()) && NullifierView() == old(NullifierView())
      ensures BestBlock() == old(BestBlock())
      decreases Repr
    {
      if bestAnchor == NULL {
        if parent == null {
          bestAnchor := if db.bestAnchor == NULL then db.root([]) else db.bestAnchor;
        } else {
          var below := parent.GetBestAnchor();
          bestAnchor := below;
        }
      }
      best := bestAnchor;
    }

    method PushAnchor(tree: A.Tree)
      requires Valid()
      modifies Repr
      ensures AnchorView() == A.Push(old(AnchorView()), db.root, tree)
      ensures CoinView() == old(CoinView()) && NullifierView() == old(NullifierView())
      ensures BestBlock() == old(BestBlock())
    {
      var newRoot := db.root(tree);
      var current := GetBestAnchor();
      if current != newRoot {
        anchors := anchors[newRoot := A.Entry(true, tree, true)];
        bestAnchor := newRoot;
      }
    }

    /** Answers false where the node's assertion fails, which ends the program. */
    method PopAnchor(newRoot: Hash) returns (ok: bool)
      requires Valid() && A.Right(AnchorView(), db.root)
      modifies Repr
      ensures ok <==> A.PopAsserts(old(AnchorView()), db.root, newRoot)
      ensures ok ==> AnchorView() == A.Pop(old(AnchorView()), db.root, newRoot)
      ensures CoinView() == old(CoinView()) && NullifierView() == old(NullifierView())
      ensures BestBlock() == old(BestBlock())
    {
      hide A.Right, A.Best, A.GetAnchor;
      A.GetBestShowsSame(AnchorView(), db.root);
      var current := GetBestAnchor();
      ok := true;
      if current != newRoot {
        A.GetAnchorShowsSame(AnchorView(), db.root, current);
        ok := RemoveAnchor(current);
        if ok {
          bestAnchor := newRoot;
        }
      }
    }

    /** Bring an anchor into the cache and mark it as removed; answers false if there is none. */
    method RemoveAnchor(rt: Hash) returns (ok: bool)
      requires Valid()
      modifies Repr
      ensures ok <==> A.Anchored(A.GetAnchor(old(AnchorView()), db.root, rt), db.root, rt)
      ensures var x := A.GetAnchor(old(AnchorView()), db.root, rt);
              ok ==>
              && rt in x.entries
              && AnchorView() == x.(entries := x.entries[rt := A.Entry(false, x.entries[rt].tree, true)])
      ensures CoinView() == old(CoinView()) && NullifierView() == old(NullifierView())
      ensures BestBlock() == old(BestBlock())
    {
      var found, _ := GetSaplingAnchorAt(rt);
      if !found {
        return false;
      }
      ok := true;
      anchors := anchors[rt := A.Entry(false, anchors[rt].tree, true)];
    }

    /******* Writing back *******/

    /** Takes over a child's entries; answers false where the node throws. */
    method BatchWrite(childCoins: map<OutPoint, C.Entry>, block: Hash, anchor: Hash,
                      childAnchors: map<Hash, A.Entry>, childNullifiers: map<Hash, N.Entry>) returns (ok: bool)
      requires Valid()
      modifies this
      ensures ok <==> !C.WriteThrows(old(CoinView()), childCoins)
      ensures ok ==> CoinView() == C.BatchWrite(old(CoinView()), childCoins)
      ensures ok ==> NullifierView() == N.BatchWrite(old(NullifierView()), childNullifiers)
      ensures ok ==> AnchorView() == A.BatchWrite(old(AnchorView()), db.root, childAnchors, anchor)
      ensures ok ==> bestBlock == block
      ensures !ok ==> NullifierView() == old(NullifierView()) && AnchorView() == old(AnchorView()) && bestBlock == old(bestBlock)
    {
      hide C.MergeAll, C.WriteThrows, N.Merge, A.Merge;
      ok := MergeCoins(childCoins);
      if !ok {
        return;
      }
      MergeAnchors(childAnchors);
      MergeNullifiers(childNullifiers);
      bestAnchor := anchor;
      bestBlock := block;
    }

    /** The merge loop, which ends early where it throws. */
    method MergeCoins(child: map<OutPoint, C.Entry>) returns (ok: bool)
      requires Valid()
      modifies this`coins
      ensures ok <==> !C.WriteThrows(old(CoinView()), child)
      ensures ok ==> coins == C.MergeAll(old(coins), child)
    {
      var todo := child.Keys;
      while todo != {}
        invariant todo <= child.Keys
        invariant forall o | o in child && o !in todo :: !C.MergeThrows(C.EntryAt(old(coins), o), C.EntryAt(child, o))
        invariant forall o :: C.EntryAt(coins, o) ==
                    if o in todo then C.EntryAt(old(coins), o) else C.Merge(C.EntryAt(old(coins), o), C.EntryAt(child, o))
        decreases todo
      {
        SetFacts.EmptyOrInhabited(todo);
        var o :| o in todo;
        ok := MergeCoin(o, child[o]);
        if !ok {
          assert C.MergeThrows(C.EntryAt(old(coins), o), C.EntryAt(child, o));
          return;
        }
        todo := todo - {o};
      }
      ok := true;
      SameEntries(coins, C.MergeAll(old(coins), child));
    }

    /** One turn of the merge loop. */
    method MergeCoin(o: OutPoint, child: C.Entry) returns (ok: bool)
      modifies this`coins
      ensures ok <==> !C.MergeThrows(old(C.EntryAt(coins, o)), Some(child))
      ensures if ok then C.EntryAt(coins, o) == C.Merge(old(C.EntryAt(coins, o)), Some(child)) else coins == old(coins)
      ensures forall p :: p != o ==> C.EntryAt(coins, p) == old(C.EntryAt(coins, p))
    {
      ok := true;
      if !child.dirty {
        return;
      }
      if o !in coins {
        if !(child.isFresh && child.coin.IsSpent()) {
          coins := coins[o := C.Entry(child.coin, true, child.isFresh)];
        }
      } else {
        if child.isFresh && !coins[o].coin.IsSpent() {
          return false;
        }
        if coins[o].isFresh && child.coin.IsSpent() {
          coins := coins - {o};
        } else {
          coins := coins[o := C.Entry(child.coin, true, coins[o].isFresh)];
        }
      }
    }

    method MergeNullifiers(child: map<Hash, N.Entry>)
      modifies this`nullifiers
      ensures nullifiers == N.Merge(old(nullifiers), child)
    {
      var todo := child.Keys;
      while todo != {}
        invariant todo <= child.Keys
        invariant forall n :: n in nullifiers <==> n in old(nullifiers) || (n in child && n !in todo && child[n].dirty)
        invariant forall n | n in nullifiers ::
                    nullifiers[n] == if n in todo then old(nullifiers)[n] else N.Merge(old(nullifiers), child)[n]
        decreases todo
      {
        SetFacts.EmptyOrInhabited(todo);
        var n :| n in todo;
        if child[n].dirty {
          if n !in nullifiers || nullifiers[n].entered != child[n].entered {
            nullifiers := nullifiers[n := N.Entry(child[n].entered, true)];
          }
        }
        todo := todo - {n};
      }
      ghost var spec := N.Merge(old(nullifiers), child);
      assert forall n :: n in spec <==> n in nullifiers;
      assert forall n | n in spec :: spec[n] == nullifiers[n];
    }

    method MergeAnchors(child: map<Hash, A.Entry>)
      modifies this`anchors
      ensures anchors == A.Merge(old(anchors), child)
    {
      var todo := child.Keys;
      while todo != {}
        invariant todo <= child.Keys
        invariant forall rt :: rt in anchors <==> rt in old(anchors) || (rt in child && rt !in todo && child[rt].dirty)
        invariant forall rt | rt in anchors ::
                    anchors[rt] == if rt in todo then old(anchors)[rt] else A.Merge(old(anchors), child)[rt]
        decreases todo
      {
        SetFacts.EmptyOrInhabited(todo);
        var rt :| rt in todo;
        if child[rt].dirty {
          if rt !in anchors {
            anchors := anchors[rt := A.Entry(child[rt].entered, child[rt].tree, true)];
          } else if anchors[rt].entered != child[rt].entered {
            anchors := anchors[rt := A.Entry(child[rt].entered, anchors[rt].tree, true)];
          }
        }
        todo := todo - {rt};
      }
      ghost var spec := A.Merge(old(anchors), child);
      assert forall rt :: rt in spec <==> rt in anchors;
      assert forall rt | rt in spec :: spec[rt] == anchors[rt];
    }

    /**
     * Write back and empty this cache; the best block and anchor are pushed as
     * they stand, and kept.  The database refuses a null block.  The best block
     * shown survives exactly when it was known here, or nothing below changes it.
     */
    method Flush()
      requires Valid() && C.FlagsRight(CoinView()) && (parent == null ==> bestBlock != NULL)
      modifies Repr
      ensures CoinView() == C.Flush(old(CoinView()))
      ensures NullifierView() == N.Flush(old(NullifierView()))
      ensures AnchorView() == A.Flush(old(AnchorView()), db.root)
      ensures bestBlock == old(bestBlock)
      ensures if parent == null then db.bestBlock == bestBlock else parent.bestBlock == bestBlock
      ensures BestBlock() == old(BestBlock()) <==>
              bestBlock != NULL || (parent != null && old(parent.BlockBelow() == parent.BestBlock()))
    {
      hide C.FlagsRight, C.MergeAll, C.WriteAll, C.SameCoins, N.Merge, A.Merge, A.WriteAll;
      C.WriteShows(CoinView());
      if parent == null {
        db.BatchWrite(coins, bestBlock, bestAnchor, anchors, nullifiers);
      } else {
        var ok := parent.BatchWrite(coins, bestBlock, bestAnchor, anchors, nullifiers);
      }
      coins, anchors, nullifiers := map[], map[], map[];
      assert parent != null ==> parent.BlockBelow() == old(parent.BlockBelow());
      if parent != null && bestBlock == NULL {
        assert parent.BestBlock() == parent.BlockBelow();
        assert BlockBelow() == parent.BestBlock();
        assert old(BlockBelow()) == old(parent.BestBlock());
      }
    }
  }

  /** When fetching leaves nothing in the top layer there was nothing to find. */
  lemma FetchMisses(v: C.View, o: OutPoint)
    requires v.Layer? && o !in C.Fetch(v, o).entries
    ensures C.Lookup(C.Fetch(v, o), o) == None
  {
  }

  lemma SameEntries(m: map<OutPoint, C.Entry>, n: map<OutPoint, C.Entry>)
    requires forall o :: C.EntryAt(m, o) == C.EntryAt(n, o)
    ensures m == n
  {
    forall o
      ensures o in m <==> o in n
      ensures o in m && o in n ==> m[o] == n[o]
    {
      assert C.EntryAt(m, o) == C.EntryAt(n, o);
    }
  }
}
