/**
 * Which entries of a stored table find a place when it is loaded, read off the
 * stored table itself, and what that means for repeated addresses.
 */
module AddrManRepeats {
  import opened AddrManState
  import opened AddrManOps
  import opened AddrManStorage
  import opened AddrManLoad
  import opened Options

  /** The settings that a stream is loaded with: its own key, and the rest as it was. */
  function Keyed(st: Stream, cfg: Config): Config {
    Config(st.key, cfg.asmap, cfg.hashing)
  }

  /******* Which entries find a place *******/

  /** A tried entry is entered if it is the first one for its slot. */
  ghost predicate Entered(st: Stream, c: Config, k: nat) {
    && k < |st.triedInfos|
    && forall i | 0 <= i < k :: c.TriedSlot(st.triedInfos[i].addr) != c.TriedSlot(st.triedInfos[k].addr)
  }

  /** The last of the first b buckets that lists an entry, or zero. */
  ghost function LastBucket(st: Stream, n: int, b: nat): int
    requires b <= |st.buckets|
  {
    if b == 0 then 0 else if n in st.buckets[b - 1] then b - 1 else LastBucket(st, n, b - 1)
  }

  /** The slot that a new entry gets when these are taken: that of its stored bucket, or else its home slot. */
  ghost function SlotFor(st: Stream, c: Config, n: nat, taken: set<Slot>): Option<Slot>
    requires Complete(st) && n < st.nNew
  {
    var addr := st.newInfos[n].addr;
    var stored := c.NewSlot(addr, LastBucket(st, n, Max(0, BucketCount(st))));
    var home := c.NewSlot(addr, c.NewBucket(addr, st.newInfos[n].source));
    if SameBucketing(st, c) && stored !in taken then Some(stored) else if home !in taken then Some(home) else None
  }

  /** The slots that the first n new entries get. */
  ghost function Taken(st: Stream, c: Config, n: nat): set<Slot>
    requires Complete(st) && n <= st.nNew
  {
    if n == 0 then {}
    else
      var before := Taken(st, c, n - 1);
      match SlotFor(st, c, n - 1, before)
      case Some(slot) => before + {slot}
      case None => before
  }

  ghost predicate Placed(st: Stream, c: Config, n: nat)
    requires Complete(st)
  {
    n < st.nNew && SlotFor(st, c, n, Taken(st, c, n)).Some?
  }

  /**
   * No entry that finds a place shares its address with another entry that is
   * read.  (New entries are all read; a tried entry is only if it is entered,
   * and then it has its place.)
   */
  ghost predicate PlacedAreAlone(st: Stream, c: Config)
    requires Complete(st)
  {
    && (forall i: nat, j: nat | i < st.nNew && j < st.nNew && i != j && st.newInfos[i].addr.ip == st.newInfos[j].addr.ip ::
          !Placed(st, c, i))
    && (forall i: nat, k: nat | i < st.nNew && k < st.nTried && st.newInfos[i].addr.ip == st.triedInfos[k].addr.ip ::
          !Entered(st, c, k))
    && (forall i: nat, k: nat | i < k < st.nTried && st.triedInfos[i].addr.ip == st.triedInfos[k].addr.ip ::
          !Entered(st, c, i) || !Entered(st, c, k))
  }

  /******* Tried entries *******/

  lemma {:induction false} FirstIsEntered(st: Stream, c: Config, k: nat) returns (j: nat)
    requires k < |st.triedInfos|
    ensures j <= k && Entered(st, c, j) && c.TriedSlot(st.triedInfos[j].addr) == c.TriedSlot(st.triedInfos[k].addr)
  {
    j := k;
    if !Entered(st, c, k) {
      var i :| 0 <= i < k && c.TriedSlot(st.triedInfos[i].addr) == c.TriedSlot(st.triedInfos[k].addr);
      j := FirstIsEntered(st, c, i);
    }
  }

  /** The slots in use are those of the entries that are entered, and hold them. */
  ghost predicate TriedAre(st: Stream, r: State, n: nat)
    requires n <= |st.triedInfos|
  {
    && (forall k: nat | k < n && Entered(st, r.cfg, k) ::
          var slot := r.cfg.TriedSlot(st.triedInfos[k].addr);
          slot in r.triedSlots && r.triedSlots[slot] in r.mapInfo && r.mapInfo[r.triedSlots[slot]].addr == st.triedInfos[k].addr)
    && (forall slot | slot in r.triedSlots :: HoldsEntered(st, r.cfg, slot, n))
  }

  ghost predicate HoldsEntered(st: Stream, c: Config, slot: Slot, n: nat)
    requires n <= |st.triedInfos|
  {
    exists k: nat :: k < n && Entered(st, c, k) && slot == c.TriedSlot(st.triedInfos[k].addr)
  }

  /** A slot is in use exactly if an earlier entry has it. */
  lemma SlotInUse(st: Stream, t: State, n: nat)
    requires n < |st.triedInfos| && TriedAre(st, t, n)
    ensures t.cfg.TriedSlot(st.triedInfos[n].addr) in t.triedSlots <==> !Entered(st, t.cfg, n)
  {
    hide Entered;
    var c := t.cfg;
    var slot := c.TriedSlot(st.triedInfos[n].addr);
    var j := FirstIsEntered(st, c, n);
    if slot in t.triedSlots {
      assert HoldsEntered(st, c, slot, n);
      var k: nat :| k < n && Entered(st, c, k) && slot == c.TriedSlot(st.triedInfos[k].addr);
      NotFirst(st, c, k, n);
    }
  }

  lemma NotFirst(st: Stream, c: Config, i: nat, k: nat)
    requires i < k < |st.triedInfos| && c.TriedSlot(st.triedInfos[i].addr) == c.TriedSlot(st.triedInfos[k].addr)
    ensures !Entered(st, c, k)
  {
  }

  lemma HoldsMore(st: Stream, c: Config, slot: Slot, n: nat)
    requires n < |st.triedInfos| && HoldsEntered(st, c, slot, n)
    ensures HoldsEntered(st, c, slot, n + 1)
  {
    hide Entered;
    var k: nat :| k < n && Entered(st, c, k) && slot == c.TriedSlot(st.triedInfos[k].addr);
  }

  lemma TriedAreNext(st: Stream, t: State, n: nat)
    requires n < |st.triedInfos| && TriedAre(st, t, n) && IdsBelow(t.mapInfo, t.nIdCount)
    ensures TriedAre(st, LoadTriedOne(Restore(st.triedInfos[n]), t), n + 1)
  {
    hide Entered, HoldsEntered;
    var c := t.cfg;
    var slot := c.TriedSlot(st.triedInfos[n].addr);
    var r := LoadTriedOne(Restore(st.triedInfos[n]), t);
    SlotInUse(st, t, n);
    forall s | s in t.triedSlots ensures HoldsEntered(st, c, s, n + 1) {
      HoldsMore(st, c, s, n);
    }
    if slot !in t.triedSlots {
      HoldsLast(st, c, n);
      assert r.mapInfo[t.nIdCount].addr == st.triedInfos[n].addr;
    }
  }

  lemma HoldsLast(st: Stream, c: Config, n: nat)
    requires n < |st.triedInfos| && Entered(st, c, n)
    ensures HoldsEntered(st, c, c.TriedSlot(st.triedInfos[n].addr), n + 1)
  {
  }

  lemma {:induction false} LoadTriedIs(st: Stream, a: State, n: nat)
    requires n <= |st.triedInfos| && Loading(a) && TriedIds(a.mapInfo) == {} && a.triedSlots == map[]
    ensures TriedAre(st, LoadTried(st, a, n), n)
  {
    hide LoadTriedOne, Loading, TriedAre;
    if n == 0 {
      NoTried(st, a);
    } else {
      LoadTriedIs(st, a, n - 1);
      LoadTriedStage(st, a, n - 1);
      LoadingBelow(LoadTried(st, a, n - 1));
      TriedAreNext(st, LoadTried(st, a, n - 1), n - 1);
    }
  }

  lemma NoTried(st: Stream, a: State)
    requires a.triedSlots == map[]
    ensures TriedAre(st, a, 0)
  {
  }

  /******* New entries *******/

  lemma {:induction false} NoteBucketLast(entries: seq<int>, nNew: nat, bucket: int, known: map<int, int>, k: nat, n: nat)
    requires k <= |entries| && n < nNew
    ensures var r := NoteBucket(entries, nNew, bucket, known, k);
            if n in entries[..k] then n in r && r[n] == bucket else (n in r <==> n in known) && (n in known ==> r[n] == known[n])
  {
    if k > 0 {
      NoteBucketLast(entries, nNew, bucket, known, k - 1, n);
      assert entries[..k] == entries[..k - 1] + [entries[k - 1]];
    }
  }

  lemma {:induction false} NoteBucketsLast(st: Stream, b: nat, n: nat)
    requires b <= |st.buckets| && n < st.nNew
    ensures var known := NoteBuckets(st, b); (if n in known then known[n] else 0) == LastBucket(st, n, b)
  {
    if b > 0 {
      NoteBucketsLast(st, b - 1, n);
      var entries := st.buckets[b - 1];
      NoteBucketLast(entries, st.nNew, b - 1, NoteBuckets(st, b - 1), |entries|, n);
      assert entries[..|entries|] == entries;
    }
  }

  /** The new entries are as they were read. */
  ghost predicate NewAreRead(st: Stream, s: State) {
    forall i: nat | i < st.nNew && i < |st.newInfos| ::
      i in s.mapInfo && s.mapInfo[i].addr == st.newInfos[i].addr && s.mapInfo[i].source == st.newInfos[i].source
  }

  /** After n entries are settled. */
  ghost predicate NewAre(st: Stream, r: State, n: nat)
    requires Complete(st) && n <= st.nNew
  {
    && NewAreRead(st, r) && r.newSlots.Keys == Taken(st, r.cfg, n)
    && forall i: nat | i < n :: r.mapInfo[i].refCount == if Placed(st, r.cfg, i) then 1 else 0
  }

  /** Settling one entry takes the slot that the stream says. */
  lemma SettleTakes(st: Stream, t: State, n: nat, bucket: int)
    requires Complete(st) && n < st.nNew && NewAreRead(st, t) && t.mapInfo[n].refCount == 0
    requires bucket == LastBucket(st, n, Max(0, BucketCount(st)))
    ensures var r := Settle(t, n, bucket, SameBucketing(st, t.cfg));
            var given := SlotFor(st, t.cfg, n, t.newSlots.Keys);
            && r.cfg == t.cfg && r.newSlots.Keys == (if given.Some? then t.newSlots.Keys + {given.value} else t.newSlots.Keys)
            && r.mapInfo == t.mapInfo[n := t.mapInfo[n].(refCount := if given.Some? then 1 else 0)]
  {
    hide SameBucketing, LastBucket;
    assert t.mapInfo[n].addr == st.newInfos[n].addr && t.mapInfo[n].source == st.newInfos[n].source;
  }

  lemma NewAreNext(st: Stream, t: State, n: nat, bucket: int)
    requires Complete(st) && n < st.nNew && NewAre(st, t, n) && t.mapInfo[n].refCount == 0
    requires bucket == LastBucket(st, n, Max(0, BucketCount(st)))
    ensures NewAre(st, Settle(t, n, bucket, SameBucketing(st, t.cfg)), n + 1)
  {
    hide SameBucketing, LastBucket, SlotFor, Settle;
    SettleTakes(st, t, n, bucket);
  }

  lemma {:induction false} SettleAllIs(st: Stream, s: State, known: map<int, int>, n: nat)
    requires Complete(st) && n <= st.nNew && known == NoteBuckets(st, Max(0, BucketCount(st)))
    requires NewAreRead(st, s) && s.newSlots == map[]
    requires Links(s) && forall i | 0 <= i < n :: i in s.mapInfo && !s.mapInfo[i].inTried
    requires forall id | id in s.mapInfo :: s.mapInfo[id].refCount == 0
    requires SameBucketing(st, s.cfg) ==> KnownBucketsExist(known, NEW_BUCKET_COUNT)
    ensures NewAre(st, SettleAll(st, s, known, n), n)
  {
    hide Links, SameBucketing, Settle, NewAre, KnownBucketsExist, NoteBuckets, LastBucket;
    if n == 0 {
      NoneSettled(st, s);
    } else {
      SettleAllIs(st, s, known, n - 1);
      SettleAllFacts(st, s, known, n - 1);
      NoteBucketsLast(st, Max(0, BucketCount(st)), n - 1);
      var t := SettleAll(st, s, known, n - 1);
      NewAreNext(st, t, n - 1, if n - 1 in known then known[n - 1] else 0);
    }
  }

  lemma NoneSettled(st: Stream, s: State)
    requires Complete(st) && NewAreRead(st, s) && s.newSlots == map[]
    ensures NewAre(st, s, 0)
  {
  }

  /******* Repeated addresses *******/

  /** The table before pruning, in terms of the stream. */
  ghost predicate ReadOff(st: Stream, c: State)
    requires Complete(st)
  {
    && (forall id | id in c.mapInfo && !c.mapInfo[id].inTried :: 0 <= id < st.nNew)
    && (forall i: nat | i < st.nNew ::
          && i in c.mapInfo && c.mapInfo[i].addr == st.newInfos[i].addr && !c.mapInfo[i].inTried
          && (Doomed(c.mapInfo[i]) <==> !Placed(st, c.cfg, i)))
    && TriedTable(c.cfg, c.mapInfo, c.triedSlots) && TriedAre(st, c, st.nTried)
  }

  lemma TablesReadOff(st: Stream, cfg: Config, collisions: set<Id>)
    requires Complete(st)
    ensures var c := LoadTables(st, cfg, collisions); c.cfg == Keyed(st, cfg) && ReadOff(st, c)
  {
    hide Links, LoadNew, LoadTried, SettleAll, NoteBuckets, KnownBucketsExist, SameBucketing, AddrLast, TriedAre, NewAre,
         Placed, TriedTable;
    var base := Blank(st, cfg, collisions);
    LoadNewStage(st, cfg, collisions, st.nNew);
    var a := LoadNew(st, base, st.nNew);
    NewLoadedIds(st, base, a);
    LoadTriedStage(st, a, st.nTried);
    LoadTriedIs(st, a, st.nTried);
    var b := LoadTried(st, a, st.nTried);
    TriedLoadedIds(st, a, b);
    ReadIn(st, base, a, b);
    var count := Max(0, BucketCount(st));
    NoteBucketsRange(st, count, count);
    assert SameBucketing(st, b.cfg) ==> count == NEW_BUCKET_COUNT by { SameCount(st, b.cfg); }
    var known := NoteBuckets(st, count);
    SettleAllFacts(st, b, known, st.nNew);
    SettleAllIs(st, b, known, st.nNew);
    var c := SettleAll(st, b, known, st.nNew);
    SettledReadOff(st, a, b, c);
  }

  lemma ReadIn(st: Stream, base: State, a: State, b: State)
    requires Complete(st) && NewLoaded(st, base, a, st.nNew) && TriedLoaded(st, a, b, st.nTried)
    ensures NewAreRead(st, b)
    ensures forall i: nat | i < st.nNew :: i in b.mapInfo && !b.mapInfo[i].inTried
    ensures forall id | id in b.mapInfo && !b.mapInfo[id].inTried :: 0 <= id < st.nNew
  {
    forall i: nat | i < st.nNew ensures i in b.mapInfo && b.mapInfo[i] == Restore(st.newInfos[i]).(randomPos := i) {
      assert i in a.mapInfo;
    }
  }

  lemma SettledReadOff(st: Stream, a: State, b: State, c: State)
    requires Complete(st) && Links(c) && Settled(b, c, st.nNew) && NewAre(st, c, st.nNew) && TriedAre(st, b, st.nTried)
    requires forall i: nat | i < st.nNew :: i in b.mapInfo && !b.mapInfo[i].inTried
    requires forall id | id in b.mapInfo && !b.mapInfo[id].inTried :: 0 <= id < st.nNew
    ensures ReadOff(st, c)
  {
    hide Placed, Taken, IdsBelow, RandomIndex, NewTable, RefCounts, TriedTable, Entered;
    forall id | id in c.mapInfo ensures c.mapInfo[id] == b.mapInfo[id].(refCount := c.mapInfo[id].refCount) {
    }
    assert TriedAre(st, c, st.nTried);
  }

  lemma RepeatsOnStream(st: Stream, c: State)
    requires Complete(st) && ReadOff(st, c) && RepeatsVanish(c.mapInfo)
    ensures PlacedAreAlone(st, c.cfg)
  {
    hide Placed;
    var m := c.mapInfo;
    forall k: nat | k < st.nTried && Entered(st, c.cfg, k)
      ensures var id := c.triedSlots[c.cfg.TriedSlot(st.triedInfos[k].addr)];
              id in m && m[id].addr == st.triedInfos[k].addr && m[id].inTried && !Doomed(m[id])
    {
    }
    forall i: nat, k: nat | i < st.nNew && k < st.nTried && st.newInfos[i].addr.ip == st.triedInfos[k].addr.ip
      ensures !Entered(st, c.cfg, k)
    {
      assert m[i].addr == st.newInfos[i].addr && !m[i].inTried;
    }
    forall i: nat, k: nat | i < k < st.nTried && st.triedInfos[i].addr.ip == st.triedInfos[k].addr.ip
      ensures !Entered(st, c.cfg, i) || !Entered(st, c.cfg, k)
    {
      assert Entered(st, c.cfg, k) ==> c.cfg.TriedSlot(st.triedInfos[i].addr) != c.cfg.TriedSlot(st.triedInfos[k].addr);
    }
  }

  /** The stored entry of an id, as a number of the one list or the other. */
  lemma TriedNumber(st: Stream, c: State, id: Id) returns (k: nat)
    requires Complete(st) && ReadOff(st, c) && id in c.mapInfo && c.mapInfo[id].inTried
    ensures k < st.nTried && Entered(st, c.cfg, k) && c.mapInfo[id].addr == st.triedInfos[k].addr
    ensures var slot := c.cfg.TriedSlot(st.triedInfos[k].addr); slot in c.triedSlots && c.triedSlots[slot] == id
  {
    hide Placed;
    var slot := c.cfg.TriedSlot(c.mapInfo[id].addr);
    assert slot in c.triedSlots && c.triedSlots[slot] == id;
    assert HoldsEntered(st, c.cfg, slot, st.nTried);
    k :| k < st.nTried && Entered(st, c.cfg, k) && slot == c.cfg.TriedSlot(st.triedInfos[k].addr);
  }

  lemma StreamForbidsRepeats(st: Stream, c: State, a: Id, b: Id)
    requires Complete(st) && ReadOff(st, c) && PlacedAreAlone(st, c.cfg)
    requires a in c.mapInfo && b in c.mapInfo && a != b && c.mapInfo[a].addr.ip == c.mapInfo[b].addr.ip
    ensures Doomed(c.mapInfo[a])
  {
    hide Placed, Entered, TriedAre, TriedTable;
    var m := c.mapInfo;
    if m[a].inTried && m[b].inTried {
      var i := TriedNumber(st, c, a);
      var k := TriedNumber(st, c, b);
    } else if m[a].inTried {
      var k := TriedNumber(st, c, a);
    } else if m[b].inTried {
      var k := TriedNumber(st, c, b);
    } else {
      assert 0 <= a < st.nNew && 0 <= b < st.nNew;
      assert m[a].addr == st.newInfos[a].addr && m[b].addr == st.newInfos[b].addr;
    }
  }

  /**
   * Loading a complete stream gives a consistent table exactly when, among its
   * entries, none that finds a place shares its address with another one.
   */
  lemma LoadExactlyByStream(st: Stream, cfg: Config, collisions: set<Id>)
    requires Complete(st)
    ensures Inv(Load(st, cfg, collisions)) <==> PlacedAreAlone(st, Keyed(st, cfg))
  {
    hide Load, LoadTables, Inv, InvButAddr, PlacedAreAlone, ReadOff, Doomed;
    LoadExactly(st, cfg, collisions);
    TablesReadOff(st, cfg, collisions);
    var c := LoadTables(st, cfg, collisions);
    if RepeatsVanish(c.mapInfo) {
      RepeatsOnStream(st, c);
    }
    if PlacedAreAlone(st, c.cfg) {
      forall a, b | a in c.mapInfo && b in c.mapInfo && a != b && c.mapInfo[a].addr.ip == c.mapInfo[b].addr.ip
        ensures Doomed(c.mapInfo[a])
      {
        StreamForbidsRepeats(st, c, a, b);
      }
    }
  }
}
