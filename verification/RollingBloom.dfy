/**
 * The rolling bloom filter: cells that remember in which of three generations
 * they were last set, and why the most recent keys are never lost.
 */
module RollingBloom {
  import opened Arith

  type Key = seq<int>

  /** A 64-bit word, bit by bit. */
  type Word = w: seq<bool> | |w| == 64 witness seq(64, i => false)

  datatype Cell = Cell(pair: nat, bit: nat)

  /** hash gives the 32-bit hash of a key for each hash function. */
  datatype Config = Config(pairs: nat, perGeneration: nat, hashFuncs: nat, hash: (nat, Key) -> nat)

  ghost predicate ConfigOk(c: Config) {
    c.pairs > 0 && c.perGeneration > 0 && forall n, k :: c.hash(n, k) < 0x1_0000_0000
  }

  /** A multiplication and a shift in place of a remainder; the result is in range. */
  function FastMod(x: nat, n: nat): (r: nat)
    requires x < 0x1_0000_0000
    ensures n > 0 ==> r < n
    ensures r * 0x1_0000_0000 <= x * n < (r + 1) * 0x1_0000_0000
  {
    InRange(x, n);
    DivMod(x * n, 0x1_0000_0000);
    x * n / 0x1_0000_0000
  }

  lemma InRange(x: nat, n: nat)
    requires x < 0x1_0000_0000
    ensures n > 0 ==> x * n / 0x1_0000_0000 < n
  {
    if n > 0 {
      assert x * n < 0x1_0000_0000 * n;
      Below(x * n, n);
    }
  }

  lemma Below(a: nat, n: nat)
    requires a < 0x1_0000_0000 * n
    ensures a / 0x1_0000_0000 < n
  {
  }

  lemma HalfPosition(h: nat, pairs: nat, pos: nat)
    requires pos * 0x1_0000_0000 <= h * (2 * pairs) < (pos + 1) * 0x1_0000_0000
    ensures pos / 2 * 0x1_0000_0000 <= h * pairs < (pos / 2 + 1) * 0x1_0000_0000
  {
    assert h * (2 * pairs) == 2 * (h * pairs);
  }

  /** The cell that a hash function selects for a key: pairs in proportion to the hash, bits by its low digits. */
  function CellOf(c: Config, n: nat, k: Key): (r: Cell)
    requires ConfigOk(c)
    ensures r.pair < c.pairs && r.bit < 64
    ensures var h := c.hash(n, k);
            r.bit == h % 64 && r.pair * 0x1_0000_0000 <= h * c.pairs < (r.pair + 1) * 0x1_0000_0000
  {
    var h := c.hash(n, k);
    HalfPosition(h, c.pairs, FastMod(h, 2 * c.pairs));
    Cell(FastMod(h, 2 * c.pairs) / 2, h % 64)
  }

  ghost predicate Selects(c: Config, k: Key, cell: Cell)
    requires ConfigOk(c)
  {
    exists n :: 0 <= n < c.hashFuncs && CellOf(c, n, k) == cell
  }

  /******* Cells *******/

  function Digit(b: bool): nat {
    if b then 1 else 0
  }

  /** The generation stored in a cell, or zero: two bits in a pair of words. */
  ghost function At(data: seq<Word>, cell: Cell): nat
    requires 2 * cell.pair + 1 < |data| && cell.bit < 64
  {
    Digit(data[2 * cell.pair][cell.bit]) + 2 * Digit(data[2 * cell.pair + 1][cell.bit])
  }

  /** The index of the last key that selected a cell, or -1. */
  ghost function LastSet(c: Config, keys: seq<Key>, cell: Cell): (r: int)
    requires ConfigOk(c)
    ensures -1 <= r < |keys|
    ensures forall i | r < i < |keys| :: !Selects(c, keys[i], cell)
  {
    if keys == [] then -1
    else if Selects(c, keys[|keys| - 1], cell) then |keys| - 1
    else LastSet(c, keys[..|keys| - 1], cell)
  }

  /** The number of the current generation, counted from zero without end. */
  ghost function Epoch(c: Config, inserted: nat): nat
    requires ConfigOk(c)
  {
    if inserted == 0 then 0 else (inserted - 1) / c.perGeneration
  }

  /** What a cell last set by insertion s holds in epoch e: the generation, unless it is three back. */
  ghost function Expected(c: Config, s: int, e: nat): nat
    requires ConfigOk(c)
  {
    if s >= 0 && s / c.perGeneration + 2 >= e then s / c.perGeneration % 3 + 1 else 0
  }

  datatype State = State(data: seq<Word>, entries: nat, generation: nat)

  ghost predicate Shaped(c: Config, s: State) {
    |s.data| == 2 * c.pairs
  }

  ghost predicate CellsRight(c: Config, data: seq<Word>, keys: seq<Key>)
    requires ConfigOk(c) && |data| == 2 * c.pairs
  {
    forall cell: Cell | cell.pair < c.pairs && cell.bit < 64 ::
      At(data, cell) == Expected(c, LastSet(c, keys, cell), Epoch(c, |keys|))
  }

  /** The filter after these insertions. */
  ghost predicate Right(c: Config, s: State, keys: seq<Key>)
    requires ConfigOk(c)
  {
    var e := Epoch(c, |keys|);
    && Shaped(c, s)
    && s.generation == e % 3 + 1
    && s.entries == |keys| - e * c.perGeneration
    && CellsRight(c, s.data, keys)
  }

  ghost predicate Contains(c: Config, s: State, k: Key)
    requires ConfigOk(c) && Shaped(c, s)
  {
    forall n | 0 <= n < c.hashFuncs :: At(s.data, CellOf(c, n, k)) != 0
  }

  /**
   * Every key inserted in the current or the two previous generations is
   * contained, whatever was inserted after it.
   */
  lemma RecentContained(c: Config, s: State, keys: seq<Key>, i: nat)
    requires ConfigOk(c) && Right(c, s, keys) && i < |keys|
    requires i / c.perGeneration + 2 >= Epoch(c, |keys|)
    ensures Contains(c, s, keys[i])
  {
    forall n | 0 <= n < c.hashFuncs ensures At(s.data, CellOf(c, n, keys[i])) != 0 {
      var cell := CellOf(c, n, keys[i]);
      assert Selects(c, keys[i], cell);
      var last := LastSet(c, keys, cell);
      assert last >= i;
      DivMonotone(i, last, c.perGeneration);
    }
  }

  /** In particular the last two generations' worth of keys. */
  lemma LastKeysContained(c: Config, s: State, keys: seq<Key>, i: nat)
    requires ConfigOk(c) && Right(c, s, keys) && i < |keys| <= i + 2 * c.perGeneration
    ensures Contains(c, s, keys[i])
  {
    var d := c.perGeneration;
    DivMonotone(|keys| - 1, i + 2 * d, d);
    AddTwo(i, d);
    RecentContained(c, s, keys, i);
  }

  /** The key inserted last has the mark of the current generation in all of its cells. */
  lemma LastKeyMarked(c: Config, s: State, keys: seq<Key>, n: nat)
    requires ConfigOk(c) && Right(c, s, keys) && keys != [] && n < c.hashFuncs
    ensures At(s.data, CellOf(c, n, keys[|keys| - 1])) == s.generation
  {
    hide At;
    var i := |keys| - 1;
    var cell := CellOf(c, n, keys[i]);
    assert Selects(c, keys[i], cell);
    assert LastSet(c, keys, cell) == i;
  }

  /** A filter contains a key exactly if each of its cells was last set by a key that is not yet forgotten. */
  lemma ContainsExactly(c: Config, s: State, keys: seq<Key>, k: Key)
    requires ConfigOk(c) && Right(c, s, keys)
    ensures Contains(c, s, k) <==>
            forall n | 0 <= n < c.hashFuncs ::
              var last := LastSet(c, keys, CellOf(c, n, k)); last >= 0 && last / c.perGeneration + 2 >= Epoch(c, |keys|)
  {
    hide At, LastSet, Epoch;
    forall n | 0 <= n < c.hashFuncs
      ensures At(s.data, CellOf(c, n, k)) != 0 <==>
              var last := LastSet(c, keys, CellOf(c, n, k)); last >= 0 && last / c.perGeneration + 2 >= Epoch(c, |keys|)
    {
      var last := LastSet(c, keys, CellOf(c, n, k));
      assert At(s.data, CellOf(c, n, k)) == Expected(c, last, Epoch(c, |keys|));
    }
  }

  /** A generation holds half of what the filter is made for. */
  ghost predicate MadeFor(c: Config, nElements: nat) {
    c.perGeneration == (nElements + 1) / 2
  }

  /** A filter made for N keys contains the last N keys inserted. */
  lemma LastNContained(c: Config, s: State, keys: seq<Key>, nElements: nat, i: nat)
    requires ConfigOk(c) && Right(c, s, keys) && MadeFor(c, nElements) && i < |keys| <= i + nElements
    ensures Contains(c, s, keys[i])
  {
    LastKeysContained(c, s, keys, i);
  }

  lemma AddTwo(a: nat, d: nat)
    requires d > 0
    ensures (a + 2 * d) / d == a / d + 2
  {
    DivMod(a, d);
    Unique(a + 2 * d, d, a / d + 2, a % d);
  }

  /******* Inserting *******/

  /** When a generation is full the next insertion starts a new epoch. */
  lemma NextEpoch(c: Config, inserted: nat)
    requires ConfigOk(c)
    ensures var e := Epoch(c, inserted);
            var entries := inserted - e * c.perGeneration;
            && 0 <= entries <= c.perGeneration
            && Epoch(c, inserted + 1) == (if entries == c.perGeneration then e + 1 else e)
            && Epoch(c, inserted + 1) % 3 + 1 == (if entries == c.perGeneration && e % 3 < 2 then e % 3 + 2
                                                  else if entries == c.perGeneration then 1 else e % 3 + 1)
            && inserted + 1 - Epoch(c, inserted + 1) * c.perGeneration ==
               if entries == c.perGeneration then 1 else entries + 1
  {
    var d := c.perGeneration;
    var e := Epoch(c, inserted);
    if inserted > 0 {
      DivMod(inserted - 1, d);
      if inserted - e * d == d {
        Unique(inserted, d, e + 1, 0);
      } else {
        Unique(inserted, d, e, inserted - e * d);
      }
    }
  }

  /** Wiping the cells of the reused generation number forgets exactly what is three generations old. */
  lemma WipeRight(c: Config, s: int, e: nat)
    requires ConfigOk(c) && s / c.perGeneration <= e
    ensures Expected(c, s, e + 1) == if Expected(c, s, e) == (e + 1) % 3 + 1 then 0 else Expected(c, s, e)
  {
  }

  lemma LastSetAppend(c: Config, keys: seq<Key>, k: Key, cell: Cell)
    requires ConfigOk(c)
    ensures LastSet(c, keys + [k], cell) == if Selects(c, k, cell) then |keys| else LastSet(c, keys, cell)
  {
    assert (keys + [k])[..|keys|] == keys;
  }

  /** A cell after the insertion of one more key. */
  lemma InsertedCell(c: Config, keys: seq<Key>, k: Key, cell: Cell)
    requires ConfigOk(c)
    ensures var e := Epoch(c, |keys|);
            var f := Epoch(c, |keys| + 1);
            var was := Expected(c, LastSet(c, keys, cell), e);
            Expected(c, LastSet(c, keys + [k], cell), f) ==
            if Selects(c, k, cell) then f % 3 + 1 else if f > e && was == f % 3 + 1 then 0 else was
  {
    hide LastSet, Selects, Expected;
    NextEpoch(c, |keys|);
    LastSetAppend(c, keys, k, cell);
    var s, e := LastSet(c, keys, cell), Epoch(c, |keys|);
    SetBefore(c, |keys|, s);
    WipeRight(c, s, e);
    JustSet(c, |keys|);
  }

  /** All cells after the insertion of one more key. */
  lemma InsertedCells(c: Config, was: seq<Word>, now: seq<Word>, keys: seq<Key>, k: Key)
    requires ConfigOk(c) && |was| == |now| == 2 * c.pairs && CellsRight(c, was, keys)
    requires var e, f := Epoch(c, |keys|), Epoch(c, |keys| + 1);
             forall x: Cell | x.pair < c.pairs && x.bit < 64 ::
               At(now, x) == if Selects(c, k, x) then f % 3 + 1
                             else if f > e && At(was, x) == f % 3 + 1 then 0 else At(was, x)
    ensures CellsRight(c, now, keys + [k])
  {
    hide At, LastSet, Selects, Expected, Epoch;
    forall x: Cell | x.pair < c.pairs && x.bit < 64
      ensures At(now, x) == Expected(c, LastSet(c, keys + [k], x), Epoch(c, |keys| + 1))
    {
      InsertedCell(c, keys, k, x);
    }
  }

  lemma SetBefore(c: Config, inserted: nat, s: int)
    requires ConfigOk(c) && -1 <= s < inserted
    ensures s / c.perGeneration <= Epoch(c, inserted)
  {
    if s >= 0 {
      DivMonotone(s, inserted - 1, c.perGeneration);
    }
  }

  lemma JustSet(c: Config, inserted: nat)
    requires ConfigOk(c)
    ensures Expected(c, inserted, Epoch(c, inserted + 1)) == Epoch(c, inserted + 1) % 3 + 1
  {
  }
}

/** The filter object. */
module RollingBloomFilters {
  import opened RollingBloom

  /** Is the bit of a pair of words that of this generation? */
  function Matches(p1: bool, p2: bool, generation: nat): bool {
    p1 == (generation % 2 == 1) && p2 == (generation / 2 == 1)
  }

  lemma MatchesMeans(p1: bool, p2: bool, generation: nat)
    requires 1 <= generation <= 3
    ensures Matches(p1, p2, generation) <==> Digit(p1) + 2 * Digit(p2) == generation
  {
  }

  /** Both words of a pair with the cells of a generation cleared. */
  function Masked(w: Word, p1: Word, p2: Word, generation: nat): Word {
    seq(64, b requires 0 <= b < 64 => w[b] && !Matches(p1[b], p2[b], generation))
  }

  class RollingBloomFilter {
    // What the filter is made for.
    const nElements: nat
    var cfg: Config
    const data: array<Word>
    var entries: nat
    var generation: nat
    // All keys inserted since the last reset.
    ghost var keys: seq<Key>

    ghost function Now(): State
      reads this, data
    {
      State(data[..], entries, generation)
    }

    ghost predicate Valid()
      reads this, data
    {
      ConfigOk(cfg) && MadeFor(cfg, nElements) && Right(cfg, Now(), keys)
    }

    /** The number of filter bits and of hash functions comes from the rate asked for. */
    constructor (nElements: nat, filterBits: nat, hashFuncs: nat, hash: (nat, Key) -> nat)
      requires nElements > 0 && filterBits > 0 && forall n, k :: hash(n, k) < 0x1_0000_0000
      ensures Valid() && keys == [] && this.nElements == nElements && fresh(data)
      ensures filterBits <= 64 * cfg.pairs < filterBits + 64 && cfg.hashFuncs == hashFuncs && cfg.hash == hash
    {
      this.nElements := nElements;
      var pairs := (filterBits + 63) / 64;
      cfg := Config(pairs, (nElements + 1) / 2, hashFuncs, hash);
      data := new Word[2 * pairs](i => seq(64, b => false));
      entries, generation, keys := 0, 1, [];
    }

    /** Forget everything and go on with other hash functions. */
    method Reset(hash: (nat, Key) -> nat)
      requires Valid() && forall n, k :: hash(n, k) < 0x1_0000_0000
      modifies this, data
      ensures Valid() && keys == [] && cfg == old(cfg).(hash := hash)
    {
      cfg := cfg.(hash := hash);
      entries, generation, keys := 0, 1, [];
      for i := 0 to data.Length
        invariant entries == 0 && generation == 1 && keys == [] && cfg == old(cfg).(hash := hash)
        invariant forall j | 0 <= j < i :: data[j] == seq(64, b => false)
      {
        data[i] := seq(64, b => false);
      }
      forall cell: Cell | cell.pair < cfg.pairs && cell.bit < 64 ensures At(data[..], cell) == 0 {
        assert data[2 * cell.pair] == data[2 * cell.pair + 1] == seq(64, b => false);
      }
    }

    method Wipe(g: nat)
      requires data.Length == 2 * cfg.pairs && 1 <= g <= 3
      modifies data
      ensures forall cell: Cell | cell.pair < cfg.pairs && cell.bit < 64 ::
                At(data[..], cell) == if old(At(data[..], cell)) == g then 0 else old(At(data[..], cell))
    {
      ghost var before := data[..];
      var p := 0;
      while p < data.Length
        invariant p % 2 == 0 && p <= data.Length
        invariant forall j | p <= j < data.Length :: data[j] == before[j]
        invariant forall j | 0 <= j < p :: data[j] == Masked(before[j], before[j / 2 * 2], before[j / 2 * 2 + 1], g)
      {
        var p1, p2 := data[p], data[p + 1];
        data[p] := Masked(p1, p1, p2, g);
        data[p + 1] := Masked(p2, p1, p2, g);
        p := p + 2;
      }
      forall cell: Cell | cell.pair < cfg.pairs && cell.bit < 64
        ensures At(data[..], cell) == if At(before, cell) == g then 0 else At(before, cell)
      {
        var j := 2 * cell.pair;
        assert j / 2 * 2 == j && (j + 1) / 2 * 2 == j;
        assert data[j] == Masked(before[j], before[j], before[j + 1], g);
        assert data[j + 1] == Masked(before[j + 1], before[j], before[j + 1], g);
        MatchesMeans(before[2 * cell.pair][cell.bit], before[2 * cell.pair + 1][cell.bit], g);
      }
    }

    method SetCell(cell: Cell, g: nat)
      requires data.Length == 2 * cfg.pairs && 1 <= g <= 3 && cell.pair < cfg.pairs && cell.bit < 64
      modifies data
      ensures forall x: Cell | x.pair < cfg.pairs && x.bit < 64 ::
                At(data[..], x) == if x == cell then g else old(At(data[..], x))
    {
      var i := 2 * cell.pair;
      data[i] := data[i][cell.bit := g % 2 == 1];
      data[i + 1] := data[i + 1][cell.bit := g / 2 == 1];
    }

    /** Set every cell of a key. */
    method SetCells(k: Key, g: nat)
      requires ConfigOk(cfg) && data.Length == 2 * cfg.pairs && 1 <= g <= 3
      modifies data
      ensures forall x: Cell | x.pair < cfg.pairs && x.bit < 64 ::
                At(data[..], x) == if Selects(cfg, k, x) then g else old(At(data[..], x))
    {
      hide At;
      for n := 0 to cfg.hashFuncs
        invariant forall x: Cell | x.pair < cfg.pairs && x.bit < 64 ::
                    At(data[..], x) == if SelectsBefore(cfg, k, x, n) then g else old(At(data[..], x))
      {
        SetCell(CellOf(cfg, n, k), g);
      }
    }

    /** Count one more entry; when the generation is full, first begin a new one. */
    method Advance()
      requires Valid()
      modifies this`entries, this`generation, data
      ensures var e, f := Epoch(cfg, |keys|), Epoch(cfg, |keys| + 1);
              && generation == f % 3 + 1 && entries == |keys| + 1 - f * cfg.perGeneration
              && forall x: Cell | x.pair < cfg.pairs && x.bit < 64 ::
                   At(data[..], x) == if f > e && old(At(data[..], x)) == f % 3 + 1 then 0 else old(At(data[..], x))
    {
      hide At, CellsRight, Epoch;
      NextEpoch(cfg, |keys|);
      if entries == cfg.perGeneration {
        entries := 0;
        generation := generation + 1;
        if generation == 4 {
          generation := 1;
        }
        Wipe(generation);
      }
      entries := entries + 1;
    }

    method Insert(k: Key)
      requires Valid()
      modifies this, data
      ensures Valid() && keys == old(keys) + [k] && cfg == old(cfg)
    {
      hide At, CellsRight, Epoch, Selects;
      ghost var was := data[..];
      Advance();
      SetCells(k, generation);
      InsertedCells(cfg, was, data[..], keys, k);
      keys := keys + [k];
    }

    /** Answers true for every key among the last ones that the filter is made for. */
    method Contains(k: Key) returns (r: bool)
      requires Valid()
      ensures r == RollingBloom.Contains(cfg, Now(), k)
      ensures forall i | 0 <= i < |keys| <= i + nElements && keys[i] == k :: r
    {
      r := true;
      for n := 0 to cfg.hashFuncs
        invariant r
        invariant forall m | 0 <= m < n :: At(data[..], CellOf(cfg, m, k)) != 0
      {
        var cell := CellOf(cfg, n, k);
        if !(data[2 * cell.pair][cell.bit] || data[2 * cell.pair + 1][cell.bit]) {
          r := false;
          break;
        }
      }
      forall i | 0 <= i < |keys| <= i + nElements && keys[i] == k ensures r {
        LastNContained(cfg, Now(), keys, nElements, i);
      }
    }
  }

  ghost predicate SelectsBefore(c: Config, k: Key, cell: Cell, m: nat)
    requires ConfigOk(c)
  {
    exists n :: 0 <= n < m && CellOf(c, n, k) == cell
  }
}
