/**
 * A stack of write-back coin caches over a database, and what it means: at
 * every moment the stack shows one flat set of unspent coins.
 */
module CoinStack {
  import opened Options

  type OutPoint = int
  type Script = int

  datatype TxOut = NullOut | TxOut(amount: int, script: Script)

  /** A spent coin is one with a null output. */
  datatype Coin = Coin(coinBase: bool, coinStake: bool, out: TxOut, height: nat)
  {
    predicate IsSpent() {
      out.NullOut?
    }
  }

  const EMPTY_COIN := Coin(false, false, NullOut, 0)

  datatype Entry = Entry(coin: Coin, dirty: bool, isFresh: bool)

  /** A database, or a cache on top of another view. */
  datatype View = Base(coins: map<OutPoint, Coin>) | Layer(entries: map<OutPoint, Entry>, parent: View)

  /** What GetCoin finds: the entry of the uppermost layer that has one, spent or not. */
  ghost function Lookup(v: View, o: OutPoint): Option<Coin> {
    match v
    case Base(coins) => if o in coins then Some(coins[o]) else None
    case Layer(entries, parent) => if o in entries then Some(entries[o].coin) else Lookup(parent, o)
  }

  /** The unspent coin that a view shows for an outpoint. */
  ghost function Unspent(v: View, o: OutPoint): Option<Coin> {
    var c := Lookup(v, o);
    if c.Some? && !c.value.IsSpent() then c else None
  }

  ghost function AsUnspent(c: Coin): Option<Coin> {
    if c.IsSpent() then None else Some(c)
  }

  /** The stated meaning of the flags, at every layer. */
  ghost predicate FlagsRight(v: View) {
    match v
    case Base(_) => true
    case Layer(entries, parent) =>
      && FlagsRight(parent)
      && (forall o | o in entries ::
            && (!entries[o].dirty ==> AsUnspent(entries[o].coin) == Unspent(parent, o))
            && (entries[o].isFresh ==> Unspent(parent, o) == None))
  }

  /** Two views show the same unspent coins. */
  ghost predicate SameCoins(v: View, w: View) {
    forall o :: Unspent(v, o) == Unspent(w, o)
  }

  /** The stack as one flat map. */
  ghost function Flatten(v: View): (m: map<OutPoint, Coin>)
    ensures forall o :: Unspent(v, o) == if o in m then Some(m[o]) else None
  {
    match v
    case Base(coins) => map o | o in coins && !coins[o].IsSpent() :: coins[o]
    case Layer(entries, parent) =>
      var below := Flatten(parent);
      map o | o in entries.Keys + below.Keys && (o in entries ==> !entries[o].coin.IsSpent()) ::
        if o in entries then entries[o].coin else below[o]
  }

  /******* Reading *******/

  /** Reading pulls the coin into every layer above the one that has it. */
  ghost function Fetch(v: View, o: OutPoint): (r: View) {
    match v
    case Base(_) => v
    case Layer(entries, parent) =>
      if o in entries then v
      else
        var below := Fetch(parent, o);
        match Lookup(below, o)
        case None => Layer(entries, below)
        case Some(c) => Layer(entries[o := Entry(c, false, c.IsSpent())], below)
  }

  /** Reading changes nothing that can be seen, and keeps the flags right. */
  lemma {:induction false} FetchShowsSame(v: View, o: OutPoint)
    requires FlagsRight(v)
    ensures FlagsRight(Fetch(v, o)) && SameCoins(Fetch(v, o), v)
    ensures Lookup(Fetch(v, o), o) == Lookup(v, o)
    decreases v
  {
    match v
    case Base(_) =>
    case Layer(entries, parent) =>
      if o !in entries {
        FetchShowsSame(parent, o);
        var below := Fetch(parent, o);
        forall p ensures Unspent(Fetch(v, o), p) == Unspent(v, p) {
          assert Unspent(below, p) == Unspent(parent, p);
        }
      }
  }

  /******* Writing *******/

  ghost function Cached(v: View, o: OutPoint): Entry
    requires v.Layer?
  {
    if o in v.entries then v.entries[o] else Entry(EMPTY_COIN, false, false)
  }

  /** Adding a coin without allowing overwrites fails on an unspent cached coin. */
  ghost predicate AddThrows(v: View, o: OutPoint, overwrite: bool)
    requires v.Layer?
  {
    !overwrite && !Cached(v, o).coin.IsSpent()
  }

  ghost function AddCoin(v: View, o: OutPoint, coin: Coin, overwrite: bool): (r: View)
    requires v.Layer?
  {
    var was := Cached(v, o);
    v.(entries := v.entries[o := Entry(coin, true, was.isFresh || (!overwrite && !was.dirty))])
  }

  /** Spend: a fresh entry is dropped, any other is kept as a spent one. */
  ghost function SpendCoin(v: View, o: OutPoint): (r: View)
    requires v.Layer?
  {
    var w := Fetch(v, o);
    if o !in w.entries then w
    else if w.entries[o].isFresh then w.(entries := w.entries - {o})
    else w.(entries := w.entries[o := Entry(EMPTY_COIN, true, false)])
  }

  ghost function Uncache(v: View, o: OutPoint): (r: View)
    requires v.Layer?
  {
    if o in v.entries && !v.entries[o].dirty && !v.entries[o].isFresh then v.(entries := v.entries - {o}) else v
  }

  /**
   * When a coin may be added without an overwrite, nothing is thrown; after
   * adding, exactly that outpoint shows exactly that coin.
   */
  lemma AddShows(v: View, o: OutPoint, coin: Coin, overwrite: bool)
    requires FlagsRight(v) && v.Layer? && !coin.IsSpent()
    requires overwrite || Unspent(v, o) == None
    ensures !AddThrows(v, o, overwrite)
    ensures FlagsRight(AddCoin(v, o, coin, overwrite))
    ensures forall p :: Unspent(AddCoin(v, o, coin, overwrite), p) == if p == o then Some(coin) else Unspent(v, p)
  {
    assert o !in v.entries ==> Unspent(v, o) == Unspent(v.parent, o);
  }

  /**
   * The condition is exact: without it, adding either throws or marks a coin
   * fresh that the parent still shows.
   */
  lemma AddSafeExactly(v: View, o: OutPoint, coin: Coin, overwrite: bool)
    requires FlagsRight(v) && v.Layer? && !coin.IsSpent()
    ensures !AddThrows(v, o, overwrite) && FlagsRight(AddCoin(v, o, coin, overwrite)) <==>
            overwrite || Unspent(v, o) == None
  {
    if overwrite || Unspent(v, o) == None {
      AddShows(v, o, coin, overwrite);
    } else if o !in v.entries {
      assert Unspent(v, o) == Unspent(v.parent, o);
      assert AddCoin(v, o, coin, overwrite).entries[o].isFresh;
    }
  }

  lemma SpendShows(v: View, o: OutPoint)
    requires FlagsRight(v) && v.Layer?
    ensures FlagsRight(SpendCoin(v, o))
    ensures forall p :: Unspent(SpendCoin(v, o), p) == if p == o then None else Unspent(v, p)
  {
    FetchShowsSame(v, o);
    var w := Fetch(v, o);
    forall p ensures Unspent(SpendCoin(v, o), p) == if p == o then None else Unspent(v, p) {
      assert Unspent(w, p) == Unspent(v, p);
    }
  }

  lemma UncacheShows(v: View, o: OutPoint)
    requires FlagsRight(v) && v.Layer?
    ensures FlagsRight(Uncache(v, o)) && SameCoins(Uncache(v, o), v)
  {
    forall p ensures Unspent(Uncache(v, o), p) == Unspent(v, p) {
    }
  }

  /******* Flushing *******/

  ghost function EntryAt(entries: map<OutPoint, Entry>, o: OutPoint): Option<Entry> {
    if o in entries then Some(entries[o]) else None
  }

  /** The check that a fresh child entry never covers an unspent parent entry. */
  ghost predicate MergeThrows(mine: Option<Entry>, child: Option<Entry>) {
    child.Some? && child.value.dirty && child.value.isFresh && mine.Some? && !mine.value.coin.IsSpent()
  }

  /** What becomes of one entry of a cache when its child's entry is written to it. */
  ghost function Merge(mine: Option<Entry>, child: Option<Entry>): Option<Entry> {
    if child == None || !child.value.dirty then mine
    else
      var c := child.value;
      match mine
      case None => if c.isFresh && c.coin.IsSpent() then None else Some(Entry(c.coin, true, c.isFresh))
      case Some(u) => if u.isFresh && c.coin.IsSpent() then None else Some(Entry(c.coin, true, u.isFresh))
  }

  ghost function MergeAll(mine: map<OutPoint, Entry>, child: map<OutPoint, Entry>): (r: map<OutPoint, Entry>)
    ensures forall o :: EntryAt(r, o) == Merge(EntryAt(mine, o), EntryAt(child, o))
  {
    map o | o in mine.Keys + child.Keys && Merge(EntryAt(mine, o), EntryAt(child, o)).Some? ::
      Merge(EntryAt(mine, o), EntryAt(child, o)).value
  }

  /** The database keeps no spent coin that is written to it. */
  ghost function WriteAll(coins: map<OutPoint, Coin>, child: map<OutPoint, Entry>): map<OutPoint, Coin> {
    map o | o in coins.Keys + child.Keys &&
            (if o in child && child[o].dirty then !child[o].coin.IsSpent() else o in coins) ::
      if o in child && child[o].dirty then child[o].coin else coins[o]
  }

  ghost function BatchWrite(v: View, child: map<OutPoint, Entry>): (r: View)
    ensures Depth(r) == Depth(v)
  {
    match v
    case Base(coins) => Base(WriteAll(coins, child))
    case Layer(entries, parent) => Layer(MergeAll(entries, child), parent)
  }

  ghost predicate WriteThrows(v: View, child: map<OutPoint, Entry>) {
    v.Layer? && exists o :: MergeThrows(EntryAt(v.entries, o), EntryAt(child, o))
  }

  ghost function Flush(v: View): (r: View)
    requires v.Layer?
  {
    Layer(map[], BatchWrite(v.parent, v.entries))
  }

  /** Writing a child to its parent: never an error, and the parent then shows what the child showed. */
  lemma WriteShows(v: View)
    requires FlagsRight(v) && v.Layer?
    ensures !WriteThrows(v.parent, v.entries)
    ensures FlagsRight(BatchWrite(v.parent, v.entries)) && SameCoins(BatchWrite(v.parent, v.entries), v)
  {
    var p := v.parent;
    var r := BatchWrite(p, v.entries);
    if p.Layer? {
      forall o
        ensures !MergeThrows(EntryAt(p.entries, o), EntryAt(v.entries, o))
        ensures Unspent(r, o) == Unspent(v, o)
        ensures o in r.entries && !r.entries[o].dirty ==> AsUnspent(r.entries[o].coin) == Unspent(r.parent, o)
        ensures o in r.entries && r.entries[o].isFresh ==> Unspent(r.parent, o) == None
      {
        MergeShows(p, v.entries, o);
      }
    } else {
      forall o ensures Unspent(r, o) == Unspent(v, o) {
        assert Unspent(v, o) == if o in v.entries then AsUnspent(v.entries[o].coin) else Unspent(p, o);
        assert Unspent(r, o) ==
               if o in v.entries && v.entries[o].dirty then AsUnspent(v.entries[o].coin) else Unspent(p, o);
      }
    }
  }

  lemma MergeShows(p: View, child: map<OutPoint, Entry>, o: OutPoint)
    requires p.Layer? && FlagsRight(p) && FlagsRight(Layer(child, p))
    ensures !MergeThrows(EntryAt(p.entries, o), EntryAt(child, o))
    ensures var r := BatchWrite(p, child);
            && Unspent(r, o) == Unspent(Layer(child, p), o)
            && (o in r.entries && !r.entries[o].dirty ==> AsUnspent(r.entries[o].coin) == Unspent(r.parent, o))
            && (o in r.entries && r.entries[o].isFresh ==> Unspent(r.parent, o) == None)
  {
    var r := BatchWrite(p, child);
    var merged := EntryAt(r.entries, o);
    assert merged == Merge(EntryAt(p.entries, o), EntryAt(child, o));
    assert o !in p.entries ==> Unspent(p, o) == Unspent(p.parent, o);
    assert Lookup(r, o) == if merged.Some? then Some(merged.value.coin) else Lookup(p.parent, o);
    assert Lookup(Layer(child, p), o) == if o in child then Some(child[o].coin) else Lookup(p, o);
  }

  lemma FlushShows(v: View)
    requires FlagsRight(v) && v.Layer?
    ensures !WriteThrows(v.parent, v.entries)
    ensures FlagsRight(Flush(v)) && SameCoins(Flush(v), v) && SameCoins(Flush(v).parent, v)
  {
    WriteShows(v);
  }

  /******* Whole runs *******/

  datatype Op =
    | OpRead(o: OutPoint)
    | OpAdd(o: OutPoint, coin: Coin, overwrite: bool)
    | OpSpend(o: OutPoint)
    | OpUncache(o: OutPoint)
    | OpFlush

  /** What the node asks of its callers: a real coin, and no overwrite unless declared. */
  ghost predicate Allowed(v: View, op: Op) {
    op.OpAdd? ==> !op.coin.IsSpent() && (op.overwrite || Unspent(v, op.o) == None)
  }

  /** Does the operation throw? */
  ghost predicate Throws(v: View, op: Op)
    requires v.Layer?
  {
    match op
    case OpAdd(o, _, overwrite) => AddThrows(v, o, overwrite)
    case OpFlush => WriteThrows(v.parent, v.entries)
    case _ => false
  }

  ghost function Step(v: View, op: Op): (r: View)
    requires v.Layer?
    ensures r.Layer?
  {
    match op
    case OpRead(o) => Fetch(v, o)
    case OpAdd(o, coin, overwrite) => AddCoin(v, o, coin, overwrite)
    case OpSpend(o) => SpendCoin(v, o)
    case OpUncache(o) => Uncache(v, o)
    case OpFlush => Flush(v)
  }

  /** The same operation on one flat map of unspent coins. */
  ghost function FlatStep(m: map<OutPoint, Coin>, op: Op): map<OutPoint, Coin> {
    match op
    case OpAdd(o, coin, _) => m[o := coin]
    case OpSpend(o) => m - {o}
    case _ => m
  }

  ghost predicate Shows(v: View, m: map<OutPoint, Coin>) {
    forall o :: Unspent(v, o) == if o in m then Some(m[o]) else None
  }

  lemma StepRefines(v: View, op: Op, m: map<OutPoint, Coin>)
    requires FlagsRight(v) && v.Layer? && Shows(v, m) && Allowed(v, op)
    ensures !Throws(v, op) && FlagsRight(Step(v, op)) && Shows(Step(v, op), FlatStep(m, op))
  {
    hide FlagsRight;
    match op
    case OpRead(o) => FetchShowsSame(v, o);
    case OpAdd(o, coin, overwrite) => AddShows(v, o, coin, overwrite);
    case OpSpend(o) => SpendShows(v, o);
    case OpUncache(o) => UncacheShows(v, o);
    case OpFlush => FlushShows(v);
  }

  /** All operations of a run are allowed where they happen, as seen on the flat map. */
  ghost predicate RunAllowed(m: map<OutPoint, Coin>, ops: seq<Op>)
    decreases |ops|
  {
    ops == [] ||
    (&& (ops[0].OpAdd? ==> !ops[0].coin.IsSpent() && (ops[0].overwrite || ops[0].o !in m))
     && RunAllowed(FlatStep(m, ops[0]), ops[1..]))
  }

  ghost function Run(v: View, ops: seq<Op>): (r: View)
    requires v.Layer?
    ensures r.Layer?
    decreases |ops|
  {
    if ops == [] then v else Run(Step(v, ops[0]), ops[1..])
  }

  ghost function FlatRun(m: map<OutPoint, Coin>, ops: seq<Op>): map<OutPoint, Coin>
    decreases |ops|
  {
    if ops == [] then m else FlatRun(FlatStep(m, ops[0]), ops[1..])
  }

  ghost predicate RunThrows(v: View, ops: seq<Op>)
    requires v.Layer?
    decreases |ops|
  {
    ops != [] && (Throws(v, ops[0]) || RunThrows(Step(v, ops[0]), ops[1..]))
  }

  /**
   * A stack of any depth, driven by any allowed sequence of operations on its
   * top cache, behaves as one flat map; the flags keep their meaning and no
   * operation throws.
   */
  lemma {:induction false} RunRefines(v: View, ops: seq<Op>, m: map<OutPoint, Coin>)
    requires FlagsRight(v) && v.Layer? && Shows(v, m) && RunAllowed(m, ops)
    ensures !RunThrows(v, ops) && FlagsRight(Run(v, ops)) && Shows(Run(v, ops), FlatRun(m, ops))
    decreases |ops|
  {
    if ops != [] {
      StepRefines(v, ops[0], m);
      RunRefines(Step(v, ops[0]), ops[1..], FlatStep(m, ops[0]));
    }
  }

  /** Write everything down to the database, layer by layer. */
  ghost function FlushDown(v: View): (r: View)
    decreases Depth(v)
  {
    match v
    case Base(_) => v
    case Layer(entries, parent) => FlushDown(BatchWrite(parent, entries))
  }

  ghost function Depth(v: View): nat {
    match v
    case Base(_) => 0
    case Layer(_, parent) => 1 + Depth(parent)
  }

  /** In the end the database itself holds what the top of the stack showed. */
  lemma {:induction false} FlushDownShows(v: View)
    requires FlagsRight(v)
    ensures FlushDown(v).Base? && SameCoins(FlushDown(v), v)
    decreases Depth(v)
  {
    match v
    case Base(_) =>
    case Layer(entries, parent) =>
      WriteShows(v);
      FlushDownShows(BatchWrite(parent, entries));
  }
}
