/**
 * The cuckoo cache: a hash table with eight slots per element, lazy deletion
 * and ageing, and what an insertion does to the set of kept elements.
 */
module CuckooTable {
  import opened Options

  type Element = int

  /** blank is the value a new table is filled with. */
  datatype Config = Config(size: nat, depthLimit: nat, epochSize: nat, hash: (nat, Element) -> nat, blank: Element)

  /** garbage marks slots that may be overwritten, recent those inserted in the current epoch. */
  datatype Table = Table(elems: seq<Element>, garbage: seq<bool>, recent: seq<bool>)

  const WAYS := 8
  const INVALID := -1

  ghost predicate Shaped(c: Config, t: Table) {
    c.size > 0 && |t.elems| == |t.garbage| == |t.recent| == c.size
  }

  /** The masked hashes; the size is a power of two, so masking is the remainder. */
  function Locs(c: Config, e: Element): (locs: seq<nat>)
    requires c.size > 0
    ensures |locs| == WAYS && forall k | 0 <= k < WAYS :: locs[k] < c.size
  {
    seq(WAYS, k requires 0 <= k < WAYS => c.hash(k, e) % c.size)
  }

  ghost predicate KeptAt(t: Table, i: int, x: Element)
    requires |t.elems| == |t.garbage|
  {
    0 <= i < |t.elems| && !t.garbage[i] && t.elems[i] == x
  }

  ghost predicate Keeps(t: Table, x: Element)
    requires |t.elems| == |t.garbage|
  {
    exists i :: KeptAt(t, i, x)
  }

  /** Every kept element lies at one of its eight slots, and so does garbage that was once kept. */
  ghost predicate AtHome(c: Config, t: Table)
    requires Shaped(c, t)
  {
    forall i | 0 <= i < c.size && (!t.garbage[i] || t.elems[i] != c.blank) :: IsHome(c, i, t.elems[i])
  }

  ghost predicate IsHome(c: Config, i: int, e: Element)
    requires c.size > 0
  {
    exists k :: 0 <= k < WAYS && Locs(c, e)[k] == i
  }

  /** No element but the blank one is in two slots. */
  ghost predicate NoDuplicates(c: Config, t: Table)
    requires Shaped(c, t)
  {
    forall i, j | 0 <= i < j < c.size && t.elems[i] == t.elems[j] :: t.elems[i] == c.blank
  }

  /******* Searching the slots of an element *******/

  ghost function FindElement(t: Table, locs: seq<nat>, e: Element): (k: nat)
    requires forall j | 0 <= j < |locs| :: locs[j] < |t.elems|
    ensures k <= |locs| && (k < |locs| ==> t.elems[locs[k]] == e) && forall j | 0 <= j < k :: t.elems[locs[j]] != e
  {
    if locs == [] || t.elems[locs[0]] == e then 0
    else
      assert forall j | 0 < j < |locs| :: locs[j] == locs[1..][j - 1];
      1 + FindElement(t, locs[1..], e)
  }

  ghost function FindGarbage(t: Table, locs: seq<nat>): (k: nat)
    requires forall j | 0 <= j < |locs| :: locs[j] < |t.garbage|
    ensures k <= |locs| && (k < |locs| ==> t.garbage[locs[k]]) && forall j | 0 <= j < k :: !t.garbage[locs[j]]
  {
    if locs == [] || t.garbage[locs[0]] then 0
    else
      assert forall j | 0 < j < |locs| :: locs[j] == locs[1..][j - 1];
      1 + FindGarbage(t, locs[1..])
  }

  /** The position of a slot among the eight, or eight. */
  ghost function PositionOf(locs: seq<nat>, last: int): (k: nat)
    ensures k <= |locs| && (k < |locs| ==> locs[k] == last) && (k == |locs| ==> last !in locs)
  {
    if locs == [] || locs[0] == last then 0 else 1 + PositionOf(locs[1..], last)
  }

  /** The slot after the last one; on the first displacement this is the second slot. */
  ghost function NextLoc(locs: seq<nat>, last: int): (loc: nat)
    requires |locs| == WAYS
    ensures exists k :: 0 <= k < WAYS && locs[k] == loc
  {
    locs[(1 + PositionOf(locs, last)) % WAYS]
  }

  /******* Inserting *******/

  ghost function Put(t: Table, loc: nat, e: Element, isRecent: bool): (r: Table)
    requires loc < |t.elems| == |t.garbage| == |t.recent|
  {
    Table(t.elems[loc := e], t.garbage[loc := false], t.recent[loc := isRecent])
  }

  /** Place an element in hand, displacing others up to a depth; says what was dropped in the end. */
  ghost function Displace(c: Config, t: Table, e: Element, last: int, isRecent: bool, depth: nat): (r: (Table, Option<Element>))
    requires Shaped(c, t)
    ensures Shaped(c, r.0)
    decreases depth
  {
    var locs := Locs(c, e);
    var k := FindGarbage(t, locs);
    if depth == 0 then (t, Some(e))
    else if k < WAYS then (Put(t, locs[k], e, isRecent), None)
    else
      var loc := NextLoc(locs, last);
      Displace(c, Put(t, loc, e, isRecent), t.elems[loc], loc, t.recent[loc], depth - 1)
  }

  /** An insertion, past the epoch check. */
  ghost function Insert(c: Config, t: Table, e: Element): (r: (Table, Option<Element>))
    requires Shaped(c, t)
    ensures Shaped(c, r.0)
  {
    var locs := Locs(c, e);
    var k := FindElement(t, locs, e);
    if k < WAYS then (Put(t, locs[k], e, true), None)
    else Displace(c, t, e, INVALID, true, c.depthLimit)
  }

  /** What an insertion does to the kept elements: e comes, one may go, all others stay. */
  ghost predicate Exchanged(t: Table, r: Table, e: Element, dropped: Option<Element>)
    requires |t.elems| == |t.garbage| && |r.elems| == |r.garbage|
  {
    && (forall x :: Keeps(r, x) ==> Keeps(t, x) || x == e)
    && (forall x :: Keeps(t, x) || x == e ==> Keeps(r, x) || dropped == Some(x))
  }

  lemma PutKeeps(t: Table, loc: nat, e: Element, isRecent: bool)
    requires loc < |t.elems| == |t.garbage| == |t.recent|
    ensures var r := Put(t, loc, e, isRecent);
            && (forall x :: Keeps(r, x) ==> Keeps(t, x) || x == e)
            && Keeps(r, e)
            && (forall x :: Keeps(t, x) ==> Keeps(r, x) || x == t.elems[loc])
            && (t.garbage[loc] ==> forall x :: Keeps(t, x) ==> Keeps(r, x))
  {
    var r := Put(t, loc, e, isRecent);
    assert KeptAt(r, loc, e);
    forall x | Keeps(t, x) ensures Keeps(r, x) || (x == t.elems[loc] && !t.garbage[loc]) {
      var i :| KeptAt(t, i, x);
      assert i != loc ==> KeptAt(r, i, x);
    }
    forall x | Keeps(r, x) ensures Keeps(t, x) || x == e {
      var i :| KeptAt(r, i, x);
      assert i != loc ==> KeptAt(t, i, x);
    }
  }

  lemma {:induction false} DisplaceExchanges(c: Config, t: Table, e: Element, last: int, isRecent: bool, depth: nat)
    requires Shaped(c, t)
    ensures var (r, dropped) := Displace(c, t, e, last, isRecent, depth); Exchanged(t, r, e, dropped)
    decreases depth
  {
    var locs := Locs(c, e);
    var k := FindGarbage(t, locs);
    if depth > 0 && k < WAYS {
      PutKeeps(t, locs[k], e, isRecent);
    } else if depth > 0 {
      var loc := NextLoc(locs, last);
      var u := Put(t, loc, e, isRecent);
      PutKeeps(t, loc, e, isRecent);
      assert KeptAt(t, loc, t.elems[loc]);
      DisplaceExchanges(c, u, t.elems[loc], loc, t.recent[loc], depth - 1);
    }
  }

  /** The kept set after an insertion is the old one plus e, minus at most one element. */
  lemma InsertExchanges(c: Config, t: Table, e: Element)
    requires Shaped(c, t)
    ensures var (r, dropped) := Insert(c, t, e); Exchanged(t, r, e, dropped)
  {
    var locs := Locs(c, e);
    var k := FindElement(t, locs, e);
    if k < WAYS {
      PutKeeps(t, locs[k], e, true);
    } else {
      DisplaceExchanges(c, t, e, INVALID, true, c.depthLimit);
    }
  }

  lemma {:induction false} DisplaceAtHome(c: Config, t: Table, e: Element, last: int, isRecent: bool, depth: nat)
    requires Shaped(c, t) && AtHome(c, t)
    ensures AtHome(c, Displace(c, t, e, last, isRecent, depth).0)
    decreases depth
  {
    var locs := Locs(c, e);
    var k := FindGarbage(t, locs);
    if depth > 0 && k == WAYS {
      var loc := NextLoc(locs, last);
      DisplaceAtHome(c, Put(t, loc, e, isRecent), t.elems[loc], loc, t.recent[loc], depth - 1);
    }
  }

  /******* Ages *******/

  /** An element is kept in a slot that is marked as of the current epoch. */
  ghost predicate Fresh(t: Table, x: Element)
    requires |t.elems| == |t.garbage| == |t.recent|
  {
    exists i :: KeptAt(t, i, x) && t.recent[i]
  }

  lemma PutFresh(t: Table, loc: nat, e: Element, isRecent: bool, x: Element)
    requires loc < |t.elems| == |t.garbage| == |t.recent|
    ensures var u := Put(t, loc, e, isRecent);
            && (isRecent ==> Fresh(u, e))
            && (Fresh(t, x) ==> Fresh(u, x) || (x == t.elems[loc] && t.recent[loc] && !t.garbage[loc]))
  {
    var u := Put(t, loc, e, isRecent);
    assert isRecent ==> KeptAt(u, loc, e) && u.recent[loc];
    if Fresh(t, x) {
      var i :| KeptAt(t, i, x) && t.recent[i];
      assert i != loc ==> KeptAt(u, i, x) && u.recent[i];
    }
  }

  /** The mark travels with its element through every displacement. */
  lemma {:induction false} DisplaceFresh(c: Config, t: Table, e: Element, last: int, isRecent: bool, depth: nat, x: Element)
    requires Shaped(c, t) && (Fresh(t, x) || (x == e && isRecent))
    ensures var (r, dropped) := Displace(c, t, e, last, isRecent, depth); Fresh(r, x) || dropped == Some(x)
    decreases depth
  {
    hide Fresh, FindGarbage, NextLoc, Locs;
    var locs := Locs(c, e);
    var k := FindGarbage(t, locs);
    if depth > 0 {
      var loc := if k < WAYS then locs[k] else NextLoc(locs, last);
      PutFresh(t, loc, e, isRecent, x);
      if k == WAYS {
        DisplaceFresh(c, Put(t, loc, e, isRecent), t.elems[loc], loc, t.recent[loc], depth - 1, x);
      }
    }
  }

  /** After an insertion the new element and all that were fresh are fresh, but for the one dropped. */
  lemma InsertFresh(c: Config, t: Table, e: Element, x: Element)
    requires Shaped(c, t) && (Fresh(t, x) || x == e)
    ensures var (r, dropped) := Insert(c, t, e); Fresh(r, x) || dropped == Some(x)
  {
    var locs := Locs(c, e);
    var k := FindElement(t, locs, e);
    if k < WAYS {
      PutFresh(t, locs[k], e, true, x);
    } else {
      DisplaceFresh(c, t, e, INVALID, true, c.depthLimit, x);
    }
  }

  /** An element in hand is nowhere else. */
  ghost predicate InHand(c: Config, t: Table, e: Element) {
    e == c.blank || e !in t.elems
  }

  lemma PutNoDuplicates(c: Config, t: Table, loc: nat, e: Element, isRecent: bool)
    requires Shaped(c, t) && loc < c.size && NoDuplicates(c, t) && InHand(c, t, e)
    ensures NoDuplicates(c, Put(t, loc, e, isRecent)) && InHand(c, Put(t, loc, e, isRecent), t.elems[loc])
  {
    var u := Put(t, loc, e, isRecent);
    assert forall i | 0 <= i < c.size && i != loc :: u.elems[i] == t.elems[i] && t.elems[i] in t.elems;
    var x := t.elems[loc];
    if x != c.blank {
      assert x in t.elems;
      assert x == e ==> e == c.blank || e in t.elems;
      forall i | 0 <= i < c.size ensures u.elems[i] != x {
      }
    }
  }

  lemma {:induction false} DisplaceNoDuplicates(c: Config, t: Table, e: Element, last: int, isRecent: bool, depth: nat)
    requires Shaped(c, t) && NoDuplicates(c, t) && InHand(c, t, e)
    ensures NoDuplicates(c, Displace(c, t, e, last, isRecent, depth).0)
    decreases depth
  {
    hide NoDuplicates, InHand, FindGarbage, NextLoc, Locs;
    var locs := Locs(c, e);
    var k := FindGarbage(t, locs);
    if depth > 0 {
      var loc := if k < WAYS then locs[k] else NextLoc(locs, last);
      PutNoDuplicates(c, t, loc, e, isRecent);
      if k == WAYS {
        DisplaceNoDuplicates(c, Put(t, loc, e, isRecent), t.elems[loc], loc, t.recent[loc], depth - 1);
      }
    }
  }

  /** An insertion leaves every element at home and in one slot only. */
  lemma InsertPlaces(c: Config, t: Table, e: Element)
    requires Shaped(c, t) && AtHome(c, t) && NoDuplicates(c, t)
    ensures var r := Insert(c, t, e).0; AtHome(c, r) && NoDuplicates(c, r)
  {
    var locs := Locs(c, e);
    var k := FindElement(t, locs, e);
    if k == WAYS {
      NotElsewhere(c, t, e);
      DisplaceAtHome(c, t, e, INVALID, true, c.depthLimit);
      DisplaceNoDuplicates(c, t, e, INVALID, true, c.depthLimit);
    }
  }

  /** An element that is in none of its slots is nowhere. */
  lemma NotElsewhere(c: Config, t: Table, e: Element)
    requires Shaped(c, t) && AtHome(c, t) && FindElement(t, Locs(c, e), e) == WAYS
    ensures e == c.blank || e !in t.elems
  {
    if e != c.blank {
      forall i | 0 <= i < |t.elems| ensures t.elems[i] != e {
        if IsHome(c, i, e) {
          var k :| 0 <= k < WAYS && Locs(c, e)[k] == i;
        }
      }
    }
  }

  /** How many of the first n slots hold kept elements of the current epoch. */
  ghost function Live(t: Table, n: nat): (k: nat)
    requires n <= |t.recent| == |t.garbage|
    ensures k <= n
  {
    if n == 0 then 0 else Live(t, n - 1) + One(t.recent[n - 1] && !t.garbage[n - 1])
  }

  function One(b: bool): nat {
    if b then 1 else 0
  }

  lemma {:induction false} PutLive(t: Table, loc: nat, e: Element, isRecent: bool, n: nat)
    requires loc < |t.elems| == |t.garbage| == |t.recent| && n <= |t.recent|
    ensures Live(Put(t, loc, e, isRecent), n) ==
            Live(t, n) + if loc < n then One(isRecent) - One(t.recent[loc] && !t.garbage[loc]) else 0
  {
    if n > 0 {
      PutLive(t, loc, e, isRecent, n - 1);
    }
  }

  lemma {:induction false} DisplaceLive(c: Config, t: Table, e: Element, last: int, isRecent: bool, depth: nat)
    requires Shaped(c, t)
    ensures Live(Displace(c, t, e, last, isRecent, depth).0, c.size) <= Live(t, c.size) + One(isRecent)
    decreases depth
  {
    var locs := Locs(c, e);
    var k := FindGarbage(t, locs);
    if depth > 0 {
      var loc := if k < WAYS then locs[k] else NextLoc(locs, last);
      PutLive(t, loc, e, isRecent, c.size);
      if k == WAYS {
        DisplaceLive(c, Put(t, loc, e, isRecent), t.elems[loc], loc, t.recent[loc], depth - 1);
      }
    }
  }

  /** An insertion makes at most one more slot live. */
  lemma InsertLive(c: Config, t: Table, e: Element)
    requires Shaped(c, t)
    ensures Live(Insert(c, t, e).0, c.size) <= Live(t, c.size) + 1
  {
    var locs := Locs(c, e);
    var k := FindElement(t, locs, e);
    if k < WAYS {
      PutLive(t, locs[k], e, true, c.size);
    } else {
      DisplaceLive(c, t, e, INVALID, true, c.depthLimit);
    }
  }

  /** Slots of the old epoch become garbage, those of the current one become old. */
  ghost function Age(t: Table): (r: Table)
    requires |t.garbage| == |t.recent|
  {
    Table(t.elems,
          seq(|t.garbage|, i requires 0 <= i < |t.garbage| => t.garbage[i] || !t.recent[i]),
          seq(|t.recent|, i => false))
  }

  /** Ageing keeps exactly what was fresh. */
  lemma AgeSpares(t: Table, x: Element)
    requires |t.elems| == |t.garbage| == |t.recent|
    ensures Keeps(Age(t), x) <==> Fresh(t, x)
  {
    if Fresh(t, x) {
      var i :| KeptAt(t, i, x) && t.recent[i];
      assert KeptAt(Age(t), i, x);
    }
    if Keeps(Age(t), x) {
      var i :| KeptAt(Age(t), i, x);
      assert KeptAt(t, i, x) && t.recent[i];
    }
  }

  lemma {:induction false} NothingLive(t: Table, n: nat)
    requires n <= |t.recent| == |t.garbage| && forall i | 0 <= i < n :: !t.recent[i]
    ensures Live(t, n) == 0
  {
    if n > 0 {
      NothingLive(t, n - 1);
    }
  }

  /******* Looking up *******/

  ghost predicate Contains(c: Config, t: Table, e: Element)
    requires Shaped(c, t)
  {
    FindElement(t, Locs(c, e), e) < WAYS
  }

  /** Looking up with the wish to erase marks the slot that was found. */
  ghost function Lookup(c: Config, t: Table, e: Element, erase: bool): (r: Table)
    requires Shaped(c, t)
    ensures Shaped(c, r)
  {
    var k := FindElement(t, Locs(c, e), e);
    if k < WAYS && erase then t.(garbage := t.garbage[Locs(c, e)[k] := true]) else t
  }

  /** Kept elements are found. */
  lemma KeptIsFound(c: Config, t: Table, x: Element)
    requires Shaped(c, t) && AtHome(c, t) && Keeps(t, x)
    ensures Contains(c, t, x)
  {
    var i :| KeptAt(t, i, x);
    assert IsHome(c, i, x);
  }

  /** An erased element can still be found until its slot is needed; no other element is touched. */
  lemma EraseIsLazy(c: Config, t: Table, e: Element, x: Element)
    requires Shaped(c, t)
    ensures Contains(c, Lookup(c, t, e, true), x) == Contains(c, t, x)
    ensures x != e ==> Keeps(Lookup(c, t, e, true), x) == Keeps(t, x)
    ensures x != e ==> Fresh(Lookup(c, t, e, true), x) == Fresh(t, x)
  {
    var r := Lookup(c, t, e, true);
    SameSearch(t, r, Locs(c, x), x);
    if x != e {
      assert forall i :: KeptAt(r, i, x) == KeptAt(t, i, x);
    }
  }

  /** An erased element is kept no more, and its slot is free. */
  lemma EraseForgets(c: Config, t: Table, e: Element)
    requires Shaped(c, t) && NoDuplicates(c, t) && e != c.blank
    ensures !Contains(c, t, e) ==> Lookup(c, t, e, true) == t
    ensures Contains(c, t, e) ==>
              var r := Lookup(c, t, e, true);
              !Keeps(r, e) && r.elems == t.elems && exists k :: 0 <= k < WAYS && r.garbage[Locs(c, e)[k]] && t.elems[Locs(c, e)[k]] == e
    ensures Lookup(c, t, e, false) == t
  {
    var k := FindElement(t, Locs(c, e), e);
    if k < WAYS {
      var loc := Locs(c, e)[k];
      var r := Lookup(c, t, e, true);
      assert t.elems[loc] == e && r.garbage[loc];
      forall i ensures !KeptAt(r, i, e) {
      }
    }
  }

  lemma {:induction false} SameSearch(t: Table, r: Table, locs: seq<nat>, e: Element)
    requires t.elems == r.elems && forall j | 0 <= j < |locs| :: locs[j] < |t.elems|
    ensures FindElement(t, locs, e) == FindElement(r, locs, e)
  {
    if locs != [] && t.elems[locs[0]] != e {
      assert forall j | 0 < j < |locs| :: locs[j] == locs[1..][j - 1];
      SameSearch(t, r, locs[1..], e);
    }
  }

  lemma {:induction false} EraseLive(t: Table, loc: nat, n: nat)
    requires loc < |t.garbage| == |t.recent| && n <= |t.recent|
    ensures Live(t.(garbage := t.garbage[loc := true]), n) <= Live(t, n)
  {
    if n > 0 {
      EraseLive(t, loc, n - 1);
    }
  }

  /******* Whole runs *******/

  /**
   * counter is the countdown to the next scan.  The other fields are not in
   * the program: the elements inserted since the last ageing and those
   * inserted between the last two ageings, in both cases without the ones
   * that have been erased or dropped since; the number of insertions; and the
   * number of insertions before each ageing.
   */
  datatype State = State(t: Table, counter: nat, young: set<Element>, grown: set<Element>, inserts: nat, agings: seq<nat>)

  function Max(a: int, b: int): int {
    if a < b then b else a
  }

  ghost function LastAging(s: State): nat {
    Before(s.agings, |s.agings|)
  }

  ghost predicate Inv(c: Config, s: State) {
    && c.epochSize >= 1 && Shaped(c, s.t) && AtHome(c, s.t) && NoDuplicates(c, s.t)
    && AllKept(s)
    && LastAging(s) <= s.inserts && Live(s.t, c.size) <= s.inserts - LastAging(s)
    && Live(s.t, c.size) + s.counter <= c.epochSize + Max(1, c.epochSize / 16)
    && Spaced(c, s.agings)
  }

  /** Nothing from the last two epochs is lost. */
  ghost predicate AllKept(s: State)
    requires |s.t.elems| == |s.t.garbage| == |s.t.recent|
  {
    && (forall x | x in s.young :: Fresh(s.t, x))
    && (forall x | x in s.grown :: Keeps(s.t, x))
  }

  /** Consecutive ageings are at least an epoch of insertions apart. */
  ghost predicate Spaced(c: Config, agings: seq<nat>) {
    forall i | 0 <= i < |agings| :: Before(agings, i) + c.epochSize <= agings[i]
  }

  ghost function Before(agings: seq<nat>, i: nat): nat
    requires i <= |agings|
  {
    if i == 0 then 0 else agings[i - 1]
  }

  ghost function EpochCheck(c: Config, s: State): (r: State)
    requires Shaped(c, s.t)
  {
    if s.counter != 0 then s.(counter := s.counter - 1)
    else
      var live := Live(s.t, c.size);
      if live >= c.epochSize
      then State(Age(s.t), c.epochSize, {}, s.young, s.inserts, s.agings + [s.inserts])
      else s.(counter := Max(1, Max(c.epochSize / 16, c.epochSize - live)))
  }

  datatype Op = OpInsert(e: Element) | OpLookup(e: Element, erase: bool)

  ghost function Step(c: Config, s: State, op: Op): (r: State)
    requires Shaped(c, s.t)
    ensures Shaped(c, r.t)
  {
    match op
    case OpInsert(e) =>
      var m := EpochCheck(c, s);
      var (t, dropped) := Insert(c, m.t, e);
      var gone := if dropped.Some? then {dropped.value} else {};
      State(t, m.counter, m.young + {e} - gone, m.grown - gone, m.inserts + 1, m.agings)
    case OpLookup(e, erase) =>
      var gone := if erase then {e} else {};
      s.(t := Lookup(c, s.t, e, erase), young := s.young - gone, grown := s.grown - gone)
  }

  lemma AgeKeeps(c: Config, t: Table)
    requires Shaped(c, t) && AtHome(c, t) && NoDuplicates(c, t)
    ensures Shaped(c, Age(t)) && AtHome(c, Age(t)) && NoDuplicates(c, Age(t))
    ensures Live(Age(t), c.size) == 0
  {
    NothingLive(Age(t), c.size);
  }

  lemma MoreSpaced(c: Config, agings: seq<nat>, inserts: nat)
    requires Spaced(c, agings) && Before(agings, |agings|) + c.epochSize <= inserts
    ensures Spaced(c, agings + [inserts])
  {
    var r := agings + [inserts];
    forall i | 0 <= i < |r| ensures Before(r, i) + c.epochSize <= r[i] {
      assert Before(r, i) == Before(agings, i);
    }
  }

  lemma EpochCheckKeeps(c: Config, s: State)
    requires Inv(c, s)
    ensures var m := EpochCheck(c, s);
            && Shaped(c, m.t) && AtHome(c, m.t) && NoDuplicates(c, m.t) && AllKept(m)
            && LastAging(m) <= m.inserts && Live(m.t, c.size) <= m.inserts - LastAging(m)
            && Live(m.t, c.size) + m.counter < c.epochSize + Max(1, c.epochSize / 16) && Spaced(c, m.agings)
  {
    hide AtHome, NoDuplicates, Spaced, Live, Age, Fresh, Keeps;
    if s.counter == 0 && Live(s.t, c.size) >= c.epochSize {
      AgeKeeps(c, s.t);
      MoreSpaced(c, s.agings, s.inserts);
      forall x | x in s.young ensures Keeps(Age(s.t), x) {
        AgeSpares(s.t, x);
      }
    }
  }

  lemma InsertKeepsAll(c: Config, m: State, e: Element)
    requires Shaped(c, m.t) && AllKept(m)
    ensures var (t, dropped) := Insert(c, m.t, e);
            && (forall x | x in m.young + {e} && dropped != Some(x) :: Fresh(t, x))
            && (forall x | x in m.grown && dropped != Some(x) :: Keeps(t, x))
  {
    hide Fresh, Keeps, Insert;
    var (t, dropped) := Insert(c, m.t, e);
    forall x | x in m.young + {e} && dropped != Some(x) ensures Fresh(t, x) {
      InsertFresh(c, m.t, e, x);
    }
    InsertExchanges(c, m.t, e);
  }

  lemma StepKeepsInv(c: Config, s: State, op: Op)
    requires Inv(c, s)
    ensures Inv(c, Step(c, s, op))
  {
    hide AtHome, NoDuplicates, Spaced, Live, Fresh, Keeps, Insert;
    match op
    case OpInsert(e) =>
      EpochCheckKeeps(c, s);
      var m := EpochCheck(c, s);
      InsertPlaces(c, m.t, e);
      InsertLive(c, m.t, e);
      InsertKeepsAll(c, m, e);
    case OpLookup(e, erase) =>
      LookupKeeps(c, s, e, erase);
      forall x ensures erase && x != e ==> Keeps(Lookup(c, s.t, e, erase), x) == Keeps(s.t, x)
               ensures erase && x != e ==> Fresh(Lookup(c, s.t, e, erase), x) == Fresh(s.t, x)
      {
        EraseIsLazy(c, s.t, e, x);
      }
  }

  lemma LookupKeeps(c: Config, s: State, e: Element, erase: bool)
    requires Inv(c, s)
    ensures var t := Lookup(c, s.t, e, erase);
            Shaped(c, t) && AtHome(c, t) && NoDuplicates(c, t) && Live(t, c.size) <= Live(s.t, c.size)
  {
    var k := FindElement(s.t, Locs(c, e), e);
    if k < WAYS {
      EraseLive(s.t, Locs(c, e)[k], c.size);
    }
  }

  ghost function Run(c: Config, s: State, ops: seq<Op>): (r: State)
    requires Shaped(c, s.t)
    ensures Shaped(c, r.t)
    decreases |ops|
  {
    if ops == [] then s else Run(c, Step(c, s, ops[0]), ops[1..])
  }

  ghost function Empty(c: Config): State {
    State(Table(seq(c.size, i => c.blank), seq(c.size, i => true), seq(c.size, i => false)), c.epochSize, {}, {}, 0, [])
  }

  lemma {:induction false} RunKeepsInv(c: Config, s: State, ops: seq<Op>)
    requires Inv(c, s)
    ensures Inv(c, Run(c, s, ops))
    decreases |ops|
  {
    if ops != [] {
      StepKeepsInv(c, s, ops[0]);
      RunKeepsInv(c, Step(c, s, ops[0]), ops[1..]);
    }
  }

  /**
   * After any run from an empty table: kept elements are at home and found,
   * and so are all elements inserted since the last but one ageing that have
   * not been erased or dropped; the current epoch is bounded, and ageings are
   * an epoch apart.
   */
  lemma EveryRun(c: Config, ops: seq<Op>)
    requires c.size > 0 && c.epochSize >= 1
    ensures var s := Run(c, Empty(c), ops);
            && AtHome(c, s.t) && Spaced(c, s.agings)
            && (forall x | Keeps(s.t, x) :: Contains(c, s.t, x))
            && (forall x | x in s.young + s.grown :: Keeps(s.t, x))
            && Live(s.t, c.size) <= c.epochSize + Max(1, c.epochSize / 16)
  {
    var s0 := Empty(c);
    NothingLive(s0.t, c.size);
    RunKeepsInv(c, s0, ops);
    var s := Run(c, s0, ops);
    forall x | Keeps(s.t, x) ensures Contains(c, s.t, x) {
      KeptIsFound(c, s.t, x);
    }
  }

  /******* How long an element stays *******/

  ghost function Inserts(ops: seq<Op>): nat {
    if ops == [] then 0 else One(ops[0].OpInsert?) + Inserts(ops[1..])
  }

  /** Some step of a run erases an element or drops it. */
  ghost predicate Lost(c: Config, s: State, ops: seq<Op>, x: Element)
    requires Shaped(c, s.t)
    decreases |ops|
  {
    && ops != []
    && (|| ops[0] == OpLookup(x, true)
        || (ops[0].OpInsert? && Insert(c, EpochCheck(c, s).t, ops[0].e).1 == Some(x))
        || Lost(c, Step(c, s, ops[0]), ops[1..], x))
  }

  /** Ageings happen during the insertions of a run. */
  lemma {:induction false} RunAgings(c: Config, s: State, ops: seq<Op>)
    requires Shaped(c, s.t)
    ensures var r := Run(c, s, ops);
            && r.inserts == s.inserts + Inserts(ops) && s.agings <= r.agings
            && forall i | |s.agings| <= i < |r.agings| :: s.inserts <= r.agings[i] < r.inserts
    decreases |ops|
  {
    hide Insert, Lookup, Age, Live;
    if ops != [] {
      var m := Step(c, s, ops[0]);
      RunAgings(c, m, ops[1..]);
      var r := Run(c, s, ops);
      forall i | |s.agings| <= i < |r.agings| ensures s.inserts <= r.agings[i] < r.inserts {
        if i < |m.agings| {
          assert r.agings[i] == m.agings[i];
        }
      }
    }
  }

  /** With at most one ageing during a run nothing young is forgotten, with none nothing at all. */
  lemma {:induction false} RunRemembers(c: Config, s: State, ops: seq<Op>, x: Element)
    requires Shaped(c, s.t) && !Lost(c, s, ops, x) && x in s.young + s.grown
    requires |Run(c, s, ops).agings| <= |s.agings| + One(x in s.young)
    ensures x in Run(c, s, ops).young + Run(c, s, ops).grown
    decreases |ops|
  {
    hide Insert, Lookup, Age, Live;
    if ops != [] {
      RunAgings(c, Step(c, s, ops[0]), ops[1..]);
      RunRemembers(c, Step(c, s, ops[0]), ops[1..], x);
    }
  }

  /**
   * An element inserted in the current epoch is still kept, and found, after
   * any run of up to an epoch of insertions, ageing included, unless it was
   * erased or dropped in the meantime.
   */
  lemma SurvivesAnEpoch(c: Config, s: State, ops: seq<Op>, x: Element)
    requires Inv(c, s) && x in s.young && Inserts(ops) <= c.epochSize && !Lost(c, s, ops, x)
    ensures var r := Run(c, s, ops); Keeps(r.t, x) && Contains(c, r.t, x)
  {
    hide Lost, Run, Live, AtHome, NoDuplicates, Fresh;
    RunKeepsInv(c, s, ops);
    RunAgings(c, s, ops);
    var r, n := Run(c, s, ops), |s.agings|;
    assert |r.agings| <= n + 1;
    RunRemembers(c, s, ops, x);
    FreshIsKept(r.t, x);
    KeptIsFound(c, r.t, x);
  }

  lemma FreshIsKept(t: Table, x: Element)
    requires |t.elems| == |t.garbage| == |t.recent|
    ensures Fresh(t, x) ==> Keeps(t, x)
  {
  }
}
