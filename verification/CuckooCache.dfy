/** The cuckoo cache object, over arrays and packed flags. */
module CuckooCache {
  import opened CuckooTable
  import opened PackedFlags
  import opened Arith
  import opened Options

  /** The eight-slot search loops, on the values they read. */
  method SearchElement(elems: array<Element>, locs: seq<nat>, e: Element, ghost t: Table) returns (k: nat)
    requires elems[..] == t.elems && forall j | 0 <= j < |locs| :: locs[j] < elems.Length
    ensures k == FindElement(t, locs, e)
  {
    k := 0;
    while k < |locs| && elems[locs[k]] != e
      invariant k <= |locs| && forall j | 0 <= j < k :: t.elems[locs[j]] != e
    {
      k := k + 1;
    }
  }

  method SearchLoc(locs: seq<nat>, last: int) returns (k: nat)
    ensures k == PositionOf(locs, last)
  {
    k := 0;
    while k < |locs| && locs[k] != last
      invariant k <= |locs| && PositionOf(locs, last) == k + PositionOf(locs[k..], last)
    {
      k := k + 1;
    }
  }

  class Cache {
    const cfg: Config
    const elems: array<Element>
    const recent: array<bool>
    const flags: BitFlags
    var counter: nat

    ghost predicate Valid()
    {
      && cfg.size > 0 && elems.Length == recent.Length == cfg.size
      && flags.Valid() && flags.size == cfg.size
      && (recent as object) != flags.mem && (elems as object) != flags.mem && (elems as object) != recent
    }

    ghost function Now(): (t: Table)
      requires Valid()
      reads elems, recent, flags.mem
      ensures Shaped(cfg, t)
    {
      Table(elems[..], flags.Bits(), recent[..])
    }

    /** A table of two to the depth slots; the epoch size is computed in 32 bits. */
    constructor (depthLimit: nat, hash: (nat, Element) -> nat, blank: Element)
      requires depthLimit >= 1
      ensures Valid() && fresh(elems) && fresh(recent) && fresh(flags) && fresh(flags.mem)
      ensures cfg.size == Pow(2, depthLimit) && cfg.depthLimit == depthLimit && cfg.epochSize >= 1
      ensures 45 * cfg.size < 0x1_0000_0000 ==>
                if cfg.size < 3 then cfg.epochSize == 1 else 100 * cfg.epochSize <= 45 * cfg.size < 100 * (cfg.epochSize + 1)
      ensures Now() == Empty(cfg).t && counter == Empty(cfg).counter
    {
      var size := Pow(2, depthLimit);
      var epoch := Max(1, 45 * size % 0x1_0000_0000 / 100);
      cfg := Config(size, depthLimit, epoch, hash, blank);
      elems := new Element[size](i => blank);
      recent := new bool[size](i => false);
      flags := new BitFlags(size);
      counter := epoch;
      new;
      assert elems[..] == seq(cfg.size, i => blank);
      assert recent[..] == seq(cfg.size, i => false);
    }

    /** Count down; when the time has come, count the current epoch and age if it is full. */
    method EpochCheck(ghost s: State)
      requires Valid() && s.t == Now() && s.counter == counter
      modifies this, recent, flags.mem
      ensures var m := CuckooTable.EpochCheck(cfg, s); Now() == m.t && counter == m.counter
    {
      if counter != 0 {
        counter := counter - 1;
        return;
      }
      var unused: nat := 0;
      for i := 0 to cfg.size
        invariant unused == Live(s.t, i) && counter == s.counter && Now() == s.t
      {
        var garbage := flags.Test(i);
        if recent[i] && !garbage {
          unused := unused + 1;
        }
      }
      if unused >= cfg.epochSize {
        AgeAll();
        counter := cfg.epochSize;
      } else {
        counter := Max(1, Max(cfg.epochSize / 16, cfg.epochSize - unused));
      }
    }

    method AgeAll()
      requires Valid()
      modifies recent, flags.mem
      ensures Now() == Age(old(Now()))
    {
      ghost var t := Now();
      for i := 0 to cfg.size
        invariant elems[..] == t.elems
        invariant forall j | 0 <= j < cfg.size :: recent[j] == (i <= j && t.recent[j])
        invariant forall j | 0 <= j < cfg.size :: flags.Bits()[j] == (t.garbage[j] || (j < i && !t.recent[j]))
      {
        if recent[i] {
          recent[i] := false;
        } else {
          flags.Set(i);
        }
      }
      assert recent[..] == Age(t).recent && flags.Bits() == Age(t).garbage;
    }

    method SearchGarbage(locs: seq<nat>) returns (k: nat)
      requires Valid() && forall j | 0 <= j < |locs| :: locs[j] < cfg.size
      ensures k == FindGarbage(Now(), locs)
    {
      k := 0;
      while k < |locs|
        invariant k <= |locs| && forall j | 0 <= j < k :: !Now().garbage[locs[j]]
      {
        var garbage := flags.Test(locs[k]);
        if garbage {
          return;
        }
        k := k + 1;
      }
    }

    method PutAt(loc: nat, e: Element, isRecent: bool)
      requires Valid() && loc < cfg.size
      modifies elems, recent, flags.mem
      ensures Now() == Put(old(Now()), loc, e, isRecent)
    {
      elems[loc] := e;
      flags.Unset(loc);
      recent[loc] := isRecent;
    }

    /** Leave an element in a kept slot, and take out the one that was there. */
    method Swap(loc: nat, e: Element, isRecent: bool)
      requires Valid() && loc < cfg.size && !Now().garbage[loc]
      modifies elems, recent
      ensures Now() == Put(old(Now()), loc, e, isRecent)
    {
      ghost var t := Now();
      elems[loc] := e;
      recent[loc] := isRecent;
      assert t.garbage[loc := false] == t.garbage;
    }

    method Insert(e: Element, ghost s: State)
      requires Valid() && s.t == Now() && s.counter == counter
      modifies this, elems, recent, flags.mem
      ensures var m := CuckooTable.EpochCheck(cfg, s);
              Now() == CuckooTable.Insert(cfg, m.t, e).0 && counter == m.counter
    {
      EpochCheck(s);
      var locs := Locs(cfg, e);
      var k := SearchElement(elems, locs, e, Now());
      if k < WAYS {
        PutAt(locs[k], e, true);
        return;
      }
      DisplaceFrom(e);
    }

    /** Displace elements until a free slot turns up or the depth is used up. */
    method DisplaceFrom(e0: Element)
      requires Valid()
      modifies elems, recent, flags.mem
      ensures Now() == Displace(cfg, old(Now()), e0, INVALID, true, cfg.depthLimit).0
    {
      hide Locs, FindGarbage, PositionOf, Put, Displace, Shaped;
      var e, last, isRecent := e0, INVALID, true;
      var locs := Locs(cfg, e);
      for depth := 0 to cfg.depthLimit
        invariant locs == Locs(cfg, e)
        invariant Displace(cfg, Now(), e, last, isRecent, cfg.depthLimit - depth)
               == Displace(cfg, old(Now()), e0, INVALID, true, cfg.depthLimit)
      {
        Unfold(cfg, Now(), e, last, isRecent, cfg.depthLimit - depth);
        var k := SearchGarbage(locs);
        if k < WAYS {
          PutAt(locs[k], e, isRecent);
          return;
        }
        var position := SearchLoc(locs, last);
        last := locs[(1 + position) % WAYS];
        var evicted, wasRecent := elems[last], recent[last];
        Swap(last, e, isRecent);
        e, isRecent := evicted, wasRecent;
        locs := Locs(cfg, e);
      }
      Unfold(cfg, Now(), e, last, isRecent, 0);
    }

    method Contains(e: Element, erase: bool) returns (found: bool)
      requires Valid()
      modifies flags.mem
      ensures found == CuckooTable.Contains(cfg, Now(), e)
      ensures Now() == Lookup(cfg, old(Now()), e, erase)
    {
      var locs := Locs(cfg, e);
      var k := SearchElement(elems, locs, e, Now());
      ghost var t := Now();
      if k < WAYS {
        if erase {
          flags.Set(locs[k]);
        }
      }
      SameSearch(t, Now(), locs, e);
      found := k < WAYS;
    }
  }

  /** One turn of the displacement. */
  lemma Unfold(c: Config, t: Table, e: Element, last: int, isRecent: bool, depth: nat)
    requires Shaped(c, t)
    ensures var locs := Locs(c, e);
            var k := FindGarbage(t, locs);
            var loc := NextLoc(locs, last);
            Displace(c, t, e, last, isRecent, depth) ==
            if depth == 0 then (t, Some(e))
            else if k < WAYS then (Put(t, locs[k], e, isRecent), None)
            else Displace(c, Put(t, loc, e, isRecent), t.elems[loc], loc, t.recent[loc], depth - 1)
  {
  }
}
