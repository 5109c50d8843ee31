/** The order of database keys, and merging sorted runs of keys. */
module KeyOrder {
  type Key = seq<int>

  /** Lexicographic order on bytes. */
  predicate Less(a: Key, b: Key)
    decreases |a|
  {
    b != [] && (a == [] || a[0] < b[0] || (a[0] == b[0] && Less(a[1..], b[1..])))
  }

  /** The keys agree up to some place, where the first one ends or has the smaller byte. */
  ghost predicate SplitAt(a: Key, b: Key, k: nat) {
    k <= |a| && k < |b| && a[..k] == b[..k] && (k == |a| || a[k] < b[k])
  }

  lemma FirstAgree(a: Key, b: Key, k: nat)
    requires k <= |a| && k <= |b| && a[..k] == b[..k]
    ensures k > 0 ==> a[0] == b[0]
  {
    if k > 0 {
      assert a[..k][0] == a[0] && b[..k][0] == b[0];
    }
  }

  lemma {:induction false} LessIs(a: Key, b: Key)
    ensures Less(a, b) <==> exists k: nat :: SplitAt(a, b, k)
    decreases |a|
  {
    if b != [] && (a == [] || a[0] < b[0]) {
      assert SplitAt(a, b, 0);
    }
    if a != [] && b != [] && a[0] == b[0] {
      LessIs(a[1..], b[1..]);
      if Less(a[1..], b[1..]) {
        var k: nat :| SplitAt(a[1..], b[1..], k);
        assert a[..k + 1] == [a[0]] + a[1..][..k] && b[..k + 1] == [b[0]] + b[1..][..k];
        assert SplitAt(a, b, k + 1);
      }
      if exists k: nat :: SplitAt(a, b, k) {
        var k: nat :| SplitAt(a, b, k);
        assert a[1..][..k - 1] == a[..k][1..] && b[1..][..k - 1] == b[..k][1..];
        assert SplitAt(a[1..], b[1..], k - 1);
      }
    } else if a != [] && b != [] {
      forall k: nat | SplitAt(a, b, k) ensures k == 0 {
        FirstAgree(a, b, k);
      }
    }
  }

  lemma {:induction false} Irreflexive(a: Key)
    ensures !Less(a, a)
    decreases |a|
  {
    if a != [] {
      Irreflexive(a[1..]);
    }
  }

  lemma {:induction false} Transitive(a: Key, b: Key, c: Key)
    requires Less(a, b) && Less(b, c)
    ensures Less(a, c)
    decreases |a|
  {
    if a != [] && a[0] == b[0] == c[0] {
      Transitive(a[1..], b[1..], c[1..]);
    }
  }

  lemma {:induction false} Total(a: Key, b: Key)
    ensures Less(a, b) || Less(b, a) || a == b
    decreases |a|
  {
    if a != [] && b != [] && a[0] == b[0] {
      Total(a[1..], b[1..]);
      assert a == [a[0]] + a[1..] && b == [b[0]] + b[1..];
    }
  }

  ghost predicate Above(x: Key, s: seq<Key>) {
    forall k | k in s :: Less(x, k)
  }

  /** Strictly increasing. */
  ghost predicate Sorted(s: seq<Key>) {
    s == [] || (Above(s[0], s[1..]) && Sorted(s[1..]))
  }

  ghost function Members(s: seq<Key>): set<Key> {
    set k | k in s
  }

  /** The keys that are not hidden. */
  ghost function Visible(s: seq<Key>, hidden: set<Key>): seq<Key> {
    if s == [] then [] else (if s[0] in hidden then [] else [s[0]]) + Visible(s[1..], hidden)
  }

  lemma {:induction false} VisibleSorted(s: seq<Key>, hidden: set<Key>)
    requires Sorted(s)
    ensures Sorted(Visible(s, hidden)) && forall k :: k in Visible(s, hidden) <==> k in s && k !in hidden
  {
    if s != [] {
      VisibleSorted(s[1..], hidden);
      var v := Visible(s, hidden);
      assert s == [s[0]] + s[1..];
      if s[0] !in hidden {
        assert v[1..] == Visible(s[1..], hidden);
      } else {
        assert v == Visible(s[1..], hidden);
        Unrepeated(s);
      }
    }
  }

  lemma Unrepeated(s: seq<Key>)
    requires Sorted(s) && s != []
    ensures s[0] !in s[1..]
  {
    Irreflexive(s[0]);
  }

  /** Take the smaller head; on a tie, that of the second run. */
  ghost function Merge(a: seq<Key>, b: seq<Key>): seq<Key> {
    if a == [] then b
    else if b == [] then a
    else if Less(a[0], b[0]) then [a[0]] + Merge(a[1..], b)
    else [b[0]] + Merge(a, b[1..])
  }

  lemma {:induction false} MergeSorted(a: seq<Key>, b: seq<Key>)
    requires Sorted(a) && Sorted(b) && forall k | k in a :: k !in b
    ensures Sorted(Merge(a, b)) && forall k :: k in Merge(a, b) <==> k in a || k in b
    decreases |a| + |b|
  {
    if a != [] && b != [] {
      var m := Merge(a, b);
      if Less(a[0], b[0]) {
        assert forall k | k in a[1..] :: k in a;
        MergeSorted(a[1..], b);
        assert m[1..] == Merge(a[1..], b);
        AboveAll(a[0], b);
        assert a == [a[0]] + a[1..];
      } else {
        assert forall k | k in b[1..] :: k in b;
        MergeSorted(a, b[1..]);
        assert m[1..] == Merge(a, b[1..]);
        assert a[0] in a && b[0] in b;
        Total(a[0], b[0]);
        AboveAll(b[0], a);
        assert b == [b[0]] + b[1..];
      }
    }
  }

  lemma AboveAll(x: Key, s: seq<Key>)
    requires s != [] && Sorted(s) && Less(x, s[0])
    ensures Above(x, s)
  {
    assert s == [s[0]] + s[1..];
    forall k | k in s ensures Less(x, k) {
      if k != s[0] {
        Transitive(x, s[0], k);
      }
    }
  }

  /** A sorted run is determined by its members. */
  lemma {:induction false} SortedUnique(a: seq<Key>, b: seq<Key>)
    requires Sorted(a) && Sorted(b) && Members(a) == Members(b)
    ensures a == b
  {
    NoMembers(a);
    NoMembers(b);
    if a != [] {
      SameHead(a, b);
      assert a == [a[0]] + a[1..] && b == [b[0]] + b[1..];
      Unrepeated(a);
      Unrepeated(b);
      forall k ensures k in a[1..] <==> k in b[1..] {
        assert k in Members(a) <==> k in Members(b);
      }
      SortedUnique(a[1..], b[1..]);
    }
  }

  lemma NoMembers(s: seq<Key>)
    ensures Members(s) == {} <==> s == []
  {
    if s != [] {
      assert s[0] in Members(s);
    }
  }

  lemma SameHead(a: seq<Key>, b: seq<Key>)
    requires Sorted(a) && Sorted(b) && a != [] && b != [] && Members(a) == Members(b)
    ensures a[0] == b[0]
  {
    assert a[0] in Members(b) && b[0] in Members(a);
    assert a == [a[0]] + a[1..] && b == [b[0]] + b[1..];
    if a[0] != b[0] {
      Transitive(a[0], b[0], a[0]);
      Irreflexive(a[0]);
    }
  }

  /** The keys of a sorted run from a key on. */
  ghost function From(s: seq<Key>, key: Key): seq<Key> {
    if s == [] || !Less(s[0], key) then s else From(s[1..], key)
  }

  lemma {:induction false} FromSorted(s: seq<Key>, key: Key)
    requires Sorted(s)
    ensures Sorted(From(s, key)) && forall k :: k in From(s, key) <==> k in s && !Less(k, key)
  {
    if s != [] {
      assert s == [s[0]] + s[1..];
      if Less(s[0], key) {
        FromSorted(s[1..], key);
      } else {
        forall k | k in s ensures !Less(k, key) {
          if Less(k, key) && k != s[0] {
            Transitive(s[0], k, key);
          }
        }
      }
    }
  }
}

/** A transaction over a key-value store: edits held in memory until they are committed. */
module DbTransactions {
  import opened Options
  import opened KeyOrder
  import opened SetSum

  /** A stored value with its serialized size. */
  datatype Value = Value(data: int, size: nat)

  type Store = map<Key, Value>

  ghost function Find(m: Store, k: Key): Option<Value> {
    if k in m then Some(m[k]) else None
  }

  /** The store with the edits applied. */
  ghost function Overlaid(parent: Store, writes: Store, deletes: set<Key>): Store {
    (parent - deletes) + writes
  }

  /** The memory held for the edits. */
  ghost function Held(writes: Store, deletes: set<Key>): int {
    Sum((k: Key) => |k|, deletes) + Sum((k: Key) => WriteSize(writes, k), writes.Keys)
  }

  ghost function WriteSize(writes: Store, k: Key): int {
    if k in writes then |k| + writes[k].size else 0
  }

  class Database {
    var contents: Store

    constructor ()
      ensures contents == map[]
    {
      contents := map[];
    }
  }

  class Transaction {
    const parent: Database
    const target: Database
    var writes: Store
    var deletes: set<Key>
    var memoryUsage: int

    ghost predicate Valid()
      reads this
    {
      writes.Keys !! deletes && memoryUsage == Held(writes, deletes)
    }

    /** What a reader of the transaction sees. */
    ghost function View(): Store
      reads this, parent
    {
      Overlaid(parent.contents, writes, deletes)
    }

    constructor (parent: Database, target: Database)
      ensures Valid() && this.parent == parent && this.target == target && writes == map[] && deletes == {}
    {
      this.parent, this.target := parent, target;
      writes, deletes, memoryUsage := map[], {}, 0;
    }

    method Write(k: Key, v: Value)
      requires Valid()
      modifies this
      ensures Valid() && View() == old(View())[k := v]
    {
      hide Held, Sum;
      WriteHeld(writes, deletes, k, v);
      if k in deletes {
        deletes := deletes - {k};
        memoryUsage := memoryUsage - |k|;
      }
      if k in writes {
        memoryUsage := memoryUsage - (|k| + writes[k].size);
      }
      writes := writes[k := v];
      assert deletes == old(deletes) - {k};
      memoryUsage := memoryUsage + |k| + v.size;
      assert View() == old(View())[k := v];
    }

    method Erase(k: Key)
      requires Valid()
      modifies this
      ensures Valid() && View() == old(View()) - {k}
    {
      hide Held, Sum;
      EraseHeld(writes, deletes, k);
      if k in writes {
        memoryUsage := memoryUsage - (|k| + writes[k].size);
        writes := writes - {k};
      }
      if k !in deletes {
        deletes := deletes + {k};
        memoryUsage := memoryUsage + |k|;
      }
      assert writes == old(writes) - {k} && deletes == old(deletes) + {k};
      assert View() == old(View()) - {k};
    }

    method Read(k: Key) returns (r: Option<Value>)
      requires Valid()
      ensures r == Find(View(), k)
    {
      if k in deletes {
        return None;
      }
      if k in writes {
        return Some(writes[k]);
      }
      r := if k in parent.contents then Some(parent.contents[k]) else None;
    }

    method Exists(k: Key) returns (r: bool)
      requires Valid()
      ensures r <==> k in View()
    {
      if k in deletes {
        return false;
      }
      if k in writes {
        return true;
      }
      r := k in parent.contents;
    }

    method Clear()
      modifies this
      ensures Valid() && writes == map[] && deletes == {}
    {
      writes, deletes, memoryUsage := map[], {}, 0;
    }

    /** Apply the edits to the target; a target equal to the parent becomes what the reader saw. */
    method Commit()
      requires Valid()
      modifies this, target
      ensures Valid() && writes == map[] && deletes == {}
      ensures target.contents == Overlaid(old(target.contents), old(writes), old(deletes))
    {
      ghost var before := target.contents;
      var todo := deletes;
      while todo != {}
        invariant writes == old(writes) && deletes == old(deletes) && todo <= deletes
        invariant target.contents == before - (deletes - todo)
        decreases todo
      {
        var k :| k in todo;
        target.contents := target.contents - {k};
        todo := todo - {k};
      }
      ghost var erased := target.contents;
      assert erased == before - deletes;
      var left := writes.Keys;
      while left != {}
        invariant writes == old(writes) && deletes == old(deletes) && left <= writes.Keys
        invariant target.contents == erased + (writes - left)
        decreases left
      {
        var k :| k in left;
        target.contents := target.contents[k := writes[k]];
        left := left - {k};
      }
      assert writes - {} == writes;
      Clear();
    }

    method GetMemoryUsage() returns (r: int)
      requires Valid()
      ensures r == Held(writes, deletes)
    {
      HeldNonNegative(writes, deletes);
      r := if memoryUsage < 0 then 0 else memoryUsage;
    }
  }

  lemma HeldNonNegative(writes: Store, deletes: set<Key>)
    ensures Held(writes, deletes) >= 0
  {
    SumNonNegative((k: Key) => |k|, deletes);
    SumNonNegative((k: Key) => WriteSize(writes, k), writes.Keys);
  }

  lemma DropWrite(writes: Store, k: Key)
    ensures Sum((x: Key) => WriteSize(writes, x), writes.Keys) ==
            Sum((x: Key) => WriteSize(writes - {k}, x), (writes - {k}).Keys) + WriteSize(writes, k)
  {
    var f, g := (x: Key) => WriteSize(writes, x), (x: Key) => WriteSize(writes - {k}, x);
    if k in writes {
      SumRemove(f, writes.Keys, k);
      assert (writes - {k}).Keys == writes.Keys - {k};
      SumSame(f, g, writes.Keys - {k});
    } else {
      assert writes - {k} == writes;
    }
  }

  lemma WriteHeld(writes: Store, deletes: set<Key>, k: Key, v: Value)
    ensures Held(writes[k := v], deletes - {k}) ==
            Held(writes, deletes) - (if k in deletes then |k| else 0) - WriteSize(writes, k) + |k| + v.size
  {
    DropWrite(writes, k);
    DropWrite(writes[k := v], k);
    assert writes[k := v] - {k} == writes - {k};
    if k in deletes {
      SumRemove((x: Key) => |x|, deletes, k);
    } else {
      assert deletes - {k} == deletes;
    }
  }

  lemma EraseHeld(writes: Store, deletes: set<Key>, k: Key)
    ensures Held(writes - {k}, deletes + {k}) ==
            Held(writes, deletes) - WriteSize(writes, k) + if k in deletes then 0 else |k|
  {
    DropWrite(writes, k);
    if k !in deletes {
      SumAdd((x: Key) => |x|, deletes, k);
    } else {
      assert deletes + {k} == deletes;
    }
  }

  /** Walks through what a reader of the transaction sees, in key order. */
  class TransactionIterator {
    const tx: Transaction
    // The keys of the writes and of the parent, in the order their own iterators give them.
    const writeKeys: seq<Key>
    const parentKeys: seq<Key>
    var ti: nat
    var pi: nat
    var curIsParent: bool

    ghost predicate Valid()
      reads this, tx, tx.parent
    {
      && Sorted(writeKeys) && Members(writeKeys) == tx.writes.Keys
      && Sorted(parentKeys) && Members(parentKeys) == tx.parent.contents.Keys
      && ti <= |writeKeys| && pi <= |parentKeys|
    }

    ghost function Hidden(): set<Key>
      reads tx
    {
      tx.deletes + tx.writes.Keys
    }

    /** The keys still to come. */
    ghost function Rest(): seq<Key>
      requires Valid()
      reads this, tx, tx.parent
    {
      Merge(writeKeys[ti..], Visible(parentKeys[pi..], Hidden()))
    }

    /** The parent's position is on a visible key, and the current side is the one with the smaller key. */
    ghost predicate Settled()
      requires Valid()
      reads this, tx, tx.parent
    {
      && (pi < |parentKeys| ==> parentKeys[pi] !in Hidden())
      && (ti < |writeKeys| || pi < |parentKeys| ==>
            (curIsParent <==>
              pi < |parentKeys| && (ti < |writeKeys| ==> !Less(writeKeys[ti], parentKeys[pi]))))
    }

    constructor (tx: Transaction, writeKeys: seq<Key>, parentKeys: seq<Key>)
      requires Sorted(writeKeys) && Members(writeKeys) == tx.writes.Keys
      requires Sorted(parentKeys) && Members(parentKeys) == tx.parent.contents.Keys
      ensures Valid() && this.tx == tx
    {
      this.tx, this.writeKeys, this.parentKeys := tx, writeKeys, parentKeys;
      ti, pi, curIsParent := |writeKeys|, 0, false;
    }

    predicate HasCurrent()
      reads this
    {
      ti < |writeKeys| || pi < |parentKeys|
    }

    method SkipDeletedAndOverwritten()
      requires Valid()
      modifies this
      ensures Valid() && Rest() == old(Rest()) && ti == old(ti) && curIsParent == old(curIsParent)
      ensures pi < |parentKeys| ==> parentKeys[pi] !in Hidden()
    {
      while pi < |parentKeys| && (parentKeys[pi] in tx.deletes || parentKeys[pi] in tx.writes)
        invariant Valid() && ti == old(ti) && curIsParent == old(curIsParent)
        invariant Visible(parentKeys[pi..], Hidden()) == old(Visible(parentKeys[pi..], Hidden()))
        decreases |parentKeys| - pi
      {
        pi := pi + 1;
      }
    }

    method DecideCur()
      requires Valid() && (pi < |parentKeys| ==> parentKeys[pi] !in Hidden())
      modifies this`curIsParent
      ensures Valid() && Settled()
    {
      if ti < |writeKeys| && pi == |parentKeys| {
        curIsParent := false;
      } else if ti == |writeKeys| && pi < |parentKeys| {
        curIsParent := true;
      } else if ti < |writeKeys| && pi < |parentKeys| {
        curIsParent := !Less(writeKeys[ti], parentKeys[pi]);
      }
    }

    method SeekToFirst()
      requires Valid()
      modifies this
      ensures Valid() && Settled() && Sorted(Rest()) && Members(Rest()) == tx.View().Keys
    {
      ti, pi := 0, 0;
      RestSorted();
      SkipDeletedAndOverwritten();
      DecideCur();
    }

    /** Position on the first key that is not below the given one. */
    method Seek(key: Key)
      requires Valid()
      modifies this
      ensures Valid() && Settled() && Sorted(Rest())
      ensures Members(Rest()) == set k | k in tx.View() && !Less(k, key)
    {
      hide Sorted, Visible, Merge, From;
      ti := LowerBound(writeKeys, key);
      pi := LowerBound(parentKeys, key);
      RestFrom(key);
      SkipDeletedAndOverwritten();
      DecideCur();
    }

    method GetKey() returns (k: Key)
      requires Valid() && Settled() && HasCurrent()
      ensures Rest() != [] && k == Rest()[0]
    {
      VisibleHead(parentKeys, pi, Hidden());
      k := if curIsParent then parentKeys[pi] else writeKeys[ti];
    }

    /** One key further; nothing happens at the end. */
    method Next()
      requires Valid() && Settled()
      modifies this
      ensures Valid() && Settled()
      ensures Rest() == if old(HasCurrent()) then old(Rest())[1..] else old(Rest())
    {
      if ti == |writeKeys| && pi == |parentKeys| {
        return;
      }
      VisibleHead(parentKeys, pi, Hidden());
      if curIsParent {
        pi := pi + 1;
        SkipDeletedAndOverwritten();
      } else {
        ti := ti + 1;
      }
      DecideCur();
    }

    lemma AtEnd()
      requires Valid() && !HasCurrent()
      ensures Rest() == []
    {
    }

    lemma RestSorted()
      requires Valid() && ti == 0 && pi == 0
      ensures Sorted(Rest()) && Members(Rest()) == tx.View().Keys
    {
      assert writeKeys[0..] == writeKeys && parentKeys[0..] == parentKeys;
      VisibleSorted(parentKeys, Hidden());
      var v := Visible(parentKeys, Hidden());
      forall k | k in writeKeys ensures k !in v {
        assert k in Members(writeKeys);
      }
      MergeSorted(writeKeys, v);
      forall k ensures k in Members(Rest()) <==> k in tx.View() {
        assert k in Members(writeKeys) <==> k in tx.writes;
        assert k in Members(parentKeys) <==> k in tx.parent.contents;
      }
    }

    lemma RestFrom(key: Key)
      requires Valid() && writeKeys[ti..] == From(writeKeys, key) && parentKeys[pi..] == From(parentKeys, key)
      ensures Sorted(Rest()) && Members(Rest()) == set k | k in tx.View() && !Less(k, key)
    {
      FromSorted(writeKeys, key);
      FromSorted(parentKeys, key);
      var w, p := From(writeKeys, key), From(parentKeys, key);
      VisibleSorted(p, Hidden());
      var v := Visible(p, Hidden());
      forall k | k in w ensures k !in v {
        assert k in Members(writeKeys);
      }
      MergeSorted(w, v);
      forall k ensures k in Members(Rest()) <==> k in tx.View() && !Less(k, key) {
        assert k in Members(writeKeys) <==> k in tx.writes;
        assert k in Members(parentKeys) <==> k in tx.parent.contents;
      }
    }
  }

  lemma VisibleHead(keys: seq<Key>, i: nat, hidden: set<Key>)
    requires i <= |keys| && (i < |keys| ==> keys[i] !in hidden)
    ensures var v := Visible(keys[i..], hidden);
            if i < |keys| then v == [keys[i]] + Visible(keys[i + 1..], hidden) else v == []
  {
  }

  method LowerBound(keys: seq<Key>, key: Key) returns (i: nat)
    ensures i <= |keys| && keys[i..] == From(keys, key)
  {
    i := 0;
    while i < |keys| && Less(keys[i], key)
      invariant i <= |keys| && From(keys, key) == From(keys[i..], key)
    {
      i := i + 1;
    }
  }

  /** A walk from the first key to the end visits exactly the visible keys, in order, each once. */
  method AllKeys(it: TransactionIterator) returns (keys: seq<Key>)
    requires it.Valid()
    modifies it
    ensures Sorted(keys) && Members(keys) == it.tx.View().Keys
  {
    hide Sorted, Members, Visible, Merge, TransactionIterator.Settled, TransactionIterator.Rest;
    it.SeekToFirst();
    ghost var all := it.Rest();
    keys := [];
    while it.HasCurrent()
      invariant it.Valid() && it.Settled() && keys + it.Rest() == all
      decreases |it.Rest()|
    {
      var k := it.GetKey();
      keys := keys + [k];
      it.Next();
    }
    it.AtEnd();
    assert keys + [] == keys;
  }
}
