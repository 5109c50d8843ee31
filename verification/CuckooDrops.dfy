/** When an insertion into the cuckoo table stores its element, and when it drops one. */
module CuckooDrops {
  import opened CuckooTable
  import opened Options

  /** One of the eight slots of an element may be overwritten. */
  ghost predicate Free(c: Config, t: Table, e: Element)
    requires Shaped(c, t)
  {
    exists k :: 0 <= k < WAYS && t.garbage[Locs(c, e)[k]]
  }

  /** The element is in one of its slots, kept or not. */
  ghost predicate Present(c: Config, t: Table, e: Element)
    requires Shaped(c, t)
  {
    exists k :: 0 <= k < WAYS && t.elems[Locs(c, e)[k]] == e
  }

  lemma SearchFinds(c: Config, t: Table, e: Element)
    requires Shaped(c, t)
    ensures Present(c, t, e) <==> FindElement(t, Locs(c, e), e) < WAYS
    ensures Free(c, t, e) <==> FindGarbage(t, Locs(c, e)) < WAYS
  {
  }

  /** An element that is there already is kept, marked, and nothing moves. */
  lemma InsertPresent(c: Config, t: Table, e: Element)
    requires Shaped(c, t) && Present(c, t, e)
    ensures var (r, dropped) := Insert(c, t, e);
            dropped == None && Fresh(r, e) && r.elems == t.elems && forall x :: Keeps(t, x) ==> Keeps(r, x)
  {
    SearchFinds(c, t, e);
    var loc := Locs(c, e)[FindElement(t, Locs(c, e), e)];
    var r := Insert(c, t, e).0;
    assert KeptAt(r, loc, e) && r.recent[loc];
    forall x | Keeps(t, x) ensures Keeps(r, x) {
      var i :| KeptAt(t, i, x);
      assert KeptAt(r, i, x);
    }
  }

  /** A new element with a free slot goes into the first one, and nothing else changes. */
  lemma InsertFree(c: Config, t: Table, e: Element)
    requires Shaped(c, t) && c.depthLimit >= 1 && !Present(c, t, e) && Free(c, t, e)
    ensures var (r, dropped) := Insert(c, t, e);
            && dropped == None && Keeps(r, e) && Fresh(r, e)
            && exists k :: && 0 <= k < WAYS && t.garbage[Locs(c, e)[k]] && (forall j | 0 <= j < k :: !t.garbage[Locs(c, e)[j]])
                           && r == Put(t, Locs(c, e)[k], e, true)
  {
    SearchFinds(c, t, e);
    var k := FindGarbage(t, Locs(c, e));
    var r := Insert(c, t, e).0;
    assert r == Put(t, Locs(c, e)[k], e, true);
    assert KeptAt(r, Locs(c, e)[k], e) && r.recent[Locs(c, e)[k]];
  }

  /******* Displacements *******/

  /** Where an element without a free slot goes: one past the slot that was emptied for it, or the second. */
  lemma NextIs(locs: seq<nat>, last: int)
    requires |locs| == WAYS
    ensures last !in locs ==> NextLoc(locs, last) == locs[1]
    ensures last in locs ==>
              exists k :: 0 <= k < WAYS && locs[k] == last && last !in locs[..k] && NextLoc(locs, last) == locs[(k + 1) % WAYS]
  {
    var k := PositionOf(locs, last);
    if last in locs {
      FirstPosition(locs, last);
    }
  }

  lemma {:induction false} FirstPosition(locs: seq<nat>, last: int)
    ensures last !in locs[..PositionOf(locs, last)]
  {
    if locs != [] && locs[0] != last {
      FirstPosition(locs[1..], last);
      var k := PositionOf(locs, last);
      assert locs[..k] == [locs[0]] + locs[1..][..k - 1];
    }
  }

  /** The elements that are in hand, one after the other. */
  ghost function Hands(c: Config, t: Table, e: Element, last: int, isRecent: bool, depth: nat): seq<Element>
    requires Shaped(c, t)
    decreases depth
  {
    if depth == 0 then []
    else if Free(c, t, e) then [e]
    else
      var loc := NextLoc(Locs(c, e), last);
      [e] + Hands(c, Put(t, loc, e, isRecent), t.elems[loc], loc, t.recent[loc], depth - 1)
  }

  ghost predicate SameButOne(was: seq<bool>, now: seq<bool>) {
    |was| == |now| && exists loc :: 0 <= loc < |was| && was[loc] && now == was[loc := false]
  }

  /**
   * Something is dropped if and only if no element in hand has a free slot in
   * the table as it was.  Then no free slot is used up; otherwise exactly one is.
   */
  lemma {:induction false} DisplaceDrops(c: Config, t: Table, e: Element, last: int, isRecent: bool, depth: nat)
    requires Shaped(c, t)
    ensures var (r, dropped) := Displace(c, t, e, last, isRecent, depth);
            var hands := Hands(c, t, e, last, isRecent, depth);
            && (dropped.Some? <==> forall x | x in hands :: !Free(c, t, x))
            && (dropped.Some? ==> r.garbage == t.garbage && |hands| == depth)
            && (dropped == None ==> SameButOne(t.garbage, r.garbage))
    decreases depth
  {
    hide Locs, NextLoc;
    var locs := Locs(c, e);
    SearchFinds(c, t, e);
    var k := FindGarbage(t, locs);
    if depth > 0 {
      if k < WAYS {
        assert t.garbage[locs[k]];
        assert Hands(c, t, e, last, isRecent, depth) == [e];
      } else {
        var loc := NextLoc(locs, last);
        assert !t.garbage[loc];
        var u := Put(t, loc, e, isRecent);
        assert u.garbage == t.garbage;
        DisplaceDrops(c, u, t.elems[loc], loc, t.recent[loc], depth - 1);
        forall x ensures Free(c, u, x) == Free(c, t, x) {
        }
        var rest := Hands(c, u, t.elems[loc], loc, t.recent[loc], depth - 1);
        assert Hands(c, t, e, last, isRecent, depth) == [e] + rest;
      }
    }
  }

  /** One free slot is used up, and what was left in it is all that goes. */
  ghost predicate Overwrites(t: Table, e: Element, r: Table, g: int)
    requires |t.elems| == |t.garbage|
  {
    && 0 <= g < |t.elems| && t.garbage[g] && r.garbage == t.garbage[g := false]
    && multiset(t.elems) + multiset{e} == multiset(r.elems) + multiset{t.elems[g]}
  }

  /** The elements of the table and the one in hand are afterwards those of the table and the one that is out. */
  lemma {:induction false} DisplaceConserves(c: Config, t: Table, e: Element, last: int, isRecent: bool, depth: nat)
    requires Shaped(c, t)
    ensures var (r, dropped) := Displace(c, t, e, last, isRecent, depth);
            && (dropped.Some? ==> multiset(t.elems) + multiset{e} == multiset(r.elems) + multiset{dropped.value})
            && (dropped == None ==> exists g :: Overwrites(t, e, r, g))
    decreases depth
  {
    hide Locs, NextLoc;
    var locs := Locs(c, e);
    SearchFinds(c, t, e);
    var k := FindGarbage(t, locs);
    if depth > 0 {
      var loc := if k < WAYS then locs[k] else NextLoc(locs, last);
      var u := Put(t, loc, e, isRecent);
      PutConserves(t, loc, e, isRecent);
      if k < WAYS {
        assert Overwrites(t, e, u, loc);
      } else {
        assert !t.garbage[loc] && u.garbage == t.garbage;
        DisplaceConserves(c, u, t.elems[loc], loc, t.recent[loc], depth - 1);
        var (r, dropped) := Displace(c, u, t.elems[loc], loc, t.recent[loc], depth - 1);
        if dropped == None {
          var g :| Overwrites(u, t.elems[loc], r, g);
          assert u.elems[g] == t.elems[g];
          assert Overwrites(t, e, r, g);
        }
      }
    }
  }

  lemma PutConserves(t: Table, loc: nat, e: Element, isRecent: bool)
    requires loc < |t.elems| == |t.garbage| == |t.recent|
    ensures multiset(Put(t, loc, e, isRecent).elems) + multiset{t.elems[loc]} == multiset(t.elems) + multiset{e}
  {
    var s := t.elems;
    assert s == s[..loc] + [s[loc]] + s[loc + 1..];
    assert s[loc := e] == s[..loc] + [e] + s[loc + 1..];
  }

  /******* Whole insertions *******/

  /**
   * An insertion drops something if and only if the element is not there and
   * none of the elements that come to hand has a free slot.  No free slot is
   * used up then; otherwise, unless the element was there, exactly one is.
   */
  lemma InsertDrops(c: Config, t: Table, e: Element)
    requires Shaped(c, t)
    ensures var (r, dropped) := Insert(c, t, e);
            && (dropped.Some? <==>
                  !Present(c, t, e) && forall x | x in Hands(c, t, e, INVALID, true, c.depthLimit) :: !Free(c, t, x))
            && (dropped.Some? ==>
                  r.garbage == t.garbage && multiset(t.elems) + multiset{e} == multiset(r.elems) + multiset{dropped.value})
            && (!Present(c, t, e) && dropped == None ==> exists g :: Overwrites(t, e, r, g))
  {
    SearchFinds(c, t, e);
    if Present(c, t, e) {
      InsertPresent(c, t, e);
    } else {
      DisplaceDrops(c, t, e, INVALID, true, c.depthLimit);
      DisplaceConserves(c, t, e, INVALID, true, c.depthLimit);
    }
  }

  /** With a single displacement the element takes its second slot, and what was there is dropped. */
  lemma InsertAtDepthOne(c: Config, t: Table, e: Element)
    requires Shaped(c, t) && c.depthLimit == 1 && !Present(c, t, e) && !Free(c, t, e)
    ensures var (r, dropped) := Insert(c, t, e);
            && dropped == Some(t.elems[Locs(c, e)[1]]) && r.elems == t.elems[Locs(c, e)[1] := e]
            && r.garbage == t.garbage && Fresh(r, e)
  {
    SearchFinds(c, t, e);
    var locs := Locs(c, e);
    NextIs(locs, INVALID);
    var loc := locs[1];
    var u := Put(t, loc, e, true);
    assert Displace(c, u, t.elems[loc], loc, t.recent[loc], 0) == (u, Some(t.elems[loc]));
    assert !t.garbage[loc] && u.garbage == t.garbage;
    assert KeptAt(u, loc, e) && u.recent[loc];
  }

  /**
   * In any state of a run, an element that is there or has a free slot is
   * stored by its insertion, is found at once, and nothing is dropped.
   */
  lemma InsertStores(c: Config, s: State, e: Element)
    requires Inv(c, s) && c.depthLimit >= 1
    requires var t := EpochCheck(c, s).t; Shaped(c, t) && (Present(c, t, e) || Free(c, t, e))
    ensures Insert(c, EpochCheck(c, s).t, e).1 == None
    ensures var r := Step(c, s, OpInsert(e)); e in r.young && Keeps(r.t, e) && Contains(c, r.t, e)
  {
    hide Insert, Inv;
    StepKeepsInv(c, s, OpInsert(e));
    var t := EpochCheck(c, s).t;
    if Present(c, t, e) {
      InsertPresent(c, t, e);
    } else {
      InsertFree(c, t, e);
    }
    var r := Step(c, s, OpInsert(e));
    FreshIsKept(r.t, e);
    FoundAtOnce(c, r, e);
  }

  lemma FoundAtOnce(c: Config, r: State, e: Element)
    requires Inv(c, r) && Keeps(r.t, e)
    ensures Contains(c, r.t, e)
  {
    KeptIsFound(c, r.t, e);
  }

  /** The first insertion into a new table is stored, whatever the element. */
  lemma FirstInsertStores(c: Config, e: Element)
    requires c.size > 0 && c.epochSize >= 1 && c.depthLimit >= 1
    ensures var r := Step(c, Empty(c), OpInsert(e)); Keeps(r.t, e) && Contains(c, r.t, e)
  {
    var s := Empty(c);
    EmptyInv(c);
    var t := EpochCheck(c, s).t;
    assert t == s.t && t.garbage[Locs(c, e)[0]];
    assert Free(c, t, e);
    InsertStores(c, s, e);
  }

  lemma EmptyInv(c: Config)
    requires c.size > 0 && c.epochSize >= 1
    ensures Inv(c, Empty(c))
  {
    NothingLive(Empty(c).t, c.size);
  }

  /******* The epoch check *******/

  /**
   * A scan takes place exactly when the countdown is over.  It ages the table
   * exactly if the epoch is full, leaves fewer live elements than an epoch
   * holds, and the next one is as far off as the epoch has room, but no less
   * than a sixteenth of it.
   */
  lemma ScanIs(c: Config, s: State)
    requires Inv(c, s)
    ensures var m := EpochCheck(c, s);
            && (s.counter > 0 ==> m == s.(counter := s.counter - 1))
            && (s.counter == 0 ==>
                  && Live(m.t, c.size) < c.epochSize
                  && (m.agings != s.agings <==> Live(s.t, c.size) >= c.epochSize)
                  && (m.agings == s.agings ==> m.t == s.t && m.young == s.young && m.grown == s.grown)
                  && 1 <= m.counter && c.epochSize <= 16 * m.counter + 15 && Live(m.t, c.size) + m.counter >= c.epochSize
                  && (Live(m.t, c.size) + m.counter > c.epochSize ==> m.counter == Max(1, c.epochSize / 16)))
  {
    AgeKeeps(c, s.t);
  }
}
