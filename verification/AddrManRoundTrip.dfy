/** Storing an address manager and loading it again loses nothing. */
module AddrManRoundTrip {
  import opened AddrManState
  import opened AddrManOps
  import opened AddrManProofs
  import opened AddrManCounts
  import opened AddrManStorage
  import opened AddrManLoad
  import opened SetFacts

  /******* Numbering the entries *******/

  lemma {:induction false} AscendingHasAll(ids: set<Id>)
    ensures forall id | id in ids :: id in Ascending(ids)
    decreases |ids|
  {
    if |ids| != 0 {
      var least := Least(ids);
      AscendingHasAll(ids - {least});
      assert forall id | id in ids :: id == least || id in ids - {least};
    } else {
      assert ids == {};
    }
  }

  lemma {:induction false} RankOfAscending(ids: set<Id>, i: nat)
    requires i < |Ascending(ids)|
    ensures Rank(ids, Ascending(ids)[i]) == i
    decreases |ids|
  {
    var least := Least(ids);
    var rest := ids - {least};
    var id := Ascending(ids)[i];
    if i == 0 {
      assert (set k | k in ids && k < id) == {};
    } else {
      RankOfAscending(rest, i - 1);
      assert id in rest && least < id;
      assert (set k | k in ids && k < id) == (set k | k in rest && k < id) + {least};
    }
  }

  lemma AscendingAtRank(ids: set<Id>, id: Id)
    requires id in ids
    ensures Rank(ids, id) < |Ascending(ids)| && Ascending(ids)[Rank(ids, id)] == id
  {
    AscendingHasAll(ids);
    var i :| 0 <= i < |Ascending(ids)| && Ascending(ids)[i] == id;
    RankOfAscending(ids, i);
  }

  lemma ReferencedAreNew(s: State)
    requires Inv(s)
    ensures Referenced(s.mapInfo) == NewIds(s.mapInfo)
    ensures |Ascending(Referenced(s.mapInfo))| == s.nNew && |Ascending(TriedIds(s.mapInfo))| == s.nTried
  {
    forall id | id in s.mapInfo ensures s.mapInfo[id].refCount != 0 <==> !s.mapInfo[id].inTried {
      if s.mapInfo[id].inTried {
        assert Refs(s.newSlots, id) == {};
      }
    }
  }

  lemma SavedIsComplete(s: State)
    requires Inv(s)
    ensures 0 <= s.nNew && 0 <= s.nTried
    ensures Complete(Save(s)) && Accepted(Save(s)) && BucketCount(Save(s)) == NEW_BUCKET_COUNT
  {
    hide InvWith;
    CountersAddUp(s);
    CountersWithinCapacity(s);
    ReferencedAreNew(s);
    assert FlipBit30(FlipBit30(NEW_BUCKET_COUNT)) == NEW_BUCKET_COUNT;
  }

  /** The numbers at the head of what is written, and what is accepted. */
  lemma HeaderIs(s: State, st: Stream)
    requires 0 <= s.nNew && 0 <= s.nTried
    ensures Save(s).format == 3 && Save(s).compat == 35 && Save(s).nUBuckets == 0x4000_0400
    ensures Save(s).key == s.cfg.key && Save(s).nNew == s.nNew && Save(s).nTried == s.nTried
    ensures 0 <= st.compat < 256 ==>
              (Accepted(st) <==> (32 <= st.compat <= 35) && st.nNew <= 65536 && st.nTried <= 16384)
  {
  }

  lemma SavedIsDistinct(s: State)
    requires Inv(s) && 0 <= s.nNew && 0 <= s.nTried
    ensures DistinctAddresses(Save(s))
  {
    hide TriedTable, NewTable, RefCounts, RandomIndex, RefBounds, Counters, BucketsFrom;
    ReferencedAreNew(s);
    var order, torder := Ascending(Referenced(s.mapInfo)), Ascending(TriedIds(s.mapInfo));
    forall a, b | a in s.mapInfo && b in s.mapInfo && a != b ensures s.mapInfo[a].addr.ip != s.mapInfo[b].addr.ip {
    }
    forall i, j | 0 <= i < |order| && 0 <= j < |torder| ensures order[i] != torder[j] {
      assert order[i] in NewIds(s.mapInfo) && torder[j] in TriedIds(s.mapInfo);
    }
  }

  /** The number an entry of the stored table gets when it is loaded. */
  ghost function Renumber(s: State, id: Id): (n: nat)
    requires id in s.mapInfo && 0 <= s.nNew
  {
    if s.mapInfo[id].inTried then s.nNew + Rank(TriedIds(s.mapInfo), id) else Rank(Referenced(s.mapInfo), id)
  }

  /******* The tried entries *******/

  ghost function TriedEntry(st: Stream, a: State, id: Id): AddrInfo
    requires 0 <= id - a.nIdCount < |st.triedInfos|
  {
    var k := id - a.nIdCount;
    Restore(st.triedInfos[k]).(randomPos := |a.vRandom| + k, inTried := true)
  }

  /** The first n tried entries are in, each under its number and in its slot. */
  ghost predicate AllTriedLoaded(st: Stream, a: State, r: State, n: nat)
    requires n <= |st.triedInfos|
  {
    && r == a.(nIdCount := r.nIdCount, mapInfo := r.mapInfo, mapAddr := r.mapAddr, vRandom := r.vRandom, triedSlots := r.triedSlots)
    && r.nIdCount == a.nIdCount + n && |r.vRandom| == |a.vRandom| + n
    && (forall id | id in r.mapInfo :: id in a.mapInfo || a.nIdCount <= id < a.nIdCount + n)
    && (forall id | id in a.mapInfo :: id in r.mapInfo && r.mapInfo[id] == a.mapInfo[id])
    && (forall id | a.nIdCount <= id < a.nIdCount + n :: id in r.mapInfo && r.mapInfo[id] == TriedEntry(st, a, id))
    && (forall slot | slot in r.triedSlots :: a.nIdCount <= r.triedSlots[slot])
  }

  /** No two stored tried entries fall into the same slot. */
  ghost predicate DistinctTriedSlots(st: Stream, cfg: Config) {
    forall i, j | 0 <= i < j < |st.triedInfos| ::
      cfg.TriedSlot(st.triedInfos[i].addr) != cfg.TriedSlot(st.triedInfos[j].addr)
  }

  lemma NextTriedSlotIsFree(st: Stream, a: State, r: State, n: nat)
    requires n < |st.triedInfos| && Tables(r) && AllTriedLoaded(st, a, r, n) && DistinctTriedSlots(st, r.cfg)
    ensures r.cfg.TriedSlot(st.triedInfos[n].addr) !in r.triedSlots
    requires forall id | id in a.mapInfo :: id < a.nIdCount
  {
    hide RandomIndex, AddrIndex, NewTable, RefCounts;
    forall slot | slot in r.triedSlots ensures slot != r.cfg.TriedSlot(st.triedInfos[n].addr) {
      var id := r.triedSlots[slot];
      assert id in r.mapInfo && slot == r.cfg.TriedSlot(r.mapInfo[id].addr);
      assert r.mapInfo[id] == TriedEntry(st, a, id);
    }
  }

  lemma {:induction false} LoadTriedAll(st: Stream, base: State, a: State, n: nat)
    requires DistinctAddresses(st) && n <= |st.triedInfos|
    requires Tables(a) && NewLoaded(st, base, a, |st.newInfos|) && TriedIds(a.mapInfo) == {} && a.triedSlots == map[]
    requires DistinctTriedSlots(st, a.cfg)
    ensures AllTriedLoaded(st, a, LoadTried(st, a, n), n)
  {
    hide Tables, AllTriedLoaded, LoadTriedOne, TriedLoaded;
    if n == 0 {
      NoTriedLoaded(st, a);
    } else {
      LoadTriedAll(st, base, a, n - 1);
      LoadTriedFacts(st, base, a, n - 1);
      var t := LoadTried(st, a, n - 1);
      AllTriedSameConfig(st, a, t, n - 1);
      NextTriedSlotIsFree(st, a, t, n - 1);
      AllTriedLoadedNext(st, a, t, n - 1);
    }
  }

  lemma AllTriedSameConfig(st: Stream, a: State, t: State, n: nat)
    requires n <= |st.triedInfos| && AllTriedLoaded(st, a, t, n)
    ensures t.cfg == a.cfg
  {
  }

  lemma NoTriedLoaded(st: Stream, a: State)
    requires a.triedSlots == map[]
    ensures AllTriedLoaded(st, a, a, 0)
  {
  }

  lemma AllTriedLoadedNext(st: Stream, a: State, t: State, n: nat)
    requires n < |st.triedInfos| && AllTriedLoaded(st, a, t, n)
    requires t.cfg.TriedSlot(st.triedInfos[n].addr) !in t.triedSlots
    requires forall id | id in a.mapInfo :: id < a.nIdCount
    ensures AllTriedLoaded(st, a, LoadTriedOne(Restore(st.triedInfos[n]), t), n + 1)
  {
    var info := Restore(st.triedInfos[n]);
    var r := LoadTriedOne(info, t);
    var entered := info.(randomPos := |t.vRandom|, inTried := true);
    assert r.mapInfo == t.mapInfo[t.nIdCount := entered];
  }

  /******* The buckets of the new entries *******/

  lemma {:induction false} BucketFromMembers(slots: map<Slot, Id>, ids: set<Id>, bucket: int, pos: nat)
    ensures forall x | x in BucketFrom(slots, ids, bucket, pos) ::
              exists p :: pos <= p < BUCKET_SIZE && (bucket, p) in slots && x == Rank(ids, slots[(bucket, p)])
    ensures forall p | pos <= p < BUCKET_SIZE && (bucket, p) in slots ::
              Rank(ids, slots[(bucket, p)]) in BucketFrom(slots, ids, bucket, pos)
    decreases BUCKET_SIZE - pos
  {
    if pos < BUCKET_SIZE {
      BucketFromMembers(slots, ids, bucket, pos + 1);
      var rest := BucketFrom(slots, ids, bucket, pos + 1);
      var here := if (bucket, pos) in slots then [Rank(ids, slots[(bucket, pos)])] else [];
      assert BucketFrom(slots, ids, bucket, pos) == here + rest;
      forall x | x in here + rest
        ensures exists p :: pos <= p < BUCKET_SIZE && (bucket, p) in slots && x == Rank(ids, slots[(bucket, p)])
      {
        if x in rest {
          var p :| pos + 1 <= p < BUCKET_SIZE && (bucket, p) in slots && x == Rank(ids, slots[(bucket, p)]);
        } else {
          assert (bucket, pos) in slots && x == Rank(ids, slots[(bucket, pos)]);
        }
      }
    }
  }

  lemma {:induction false} NoteBucketEffect(entries: seq<int>, nNew: nat, bucket: int, known: map<int, int>, n: nat)
    requires n <= |entries|
    ensures var r := NoteBucket(entries, nNew, bucket, known, n);
            && (forall k | k in known :: k in r)
            && (forall i | 0 <= i < n && 0 <= entries[i] < nNew :: entries[i] in r)
            && (forall k | k in r :: (k in known && r[k] == known[k]) || (r[k] == bucket && k in entries && 0 <= k < nNew))
  {
    if n != 0 {
      NoteBucketEffect(entries, nNew, bucket, known, n - 1);
    }
  }

  /** Every noted bucket holds its entry, and every entry held in the first b buckets is noted. */
  ghost predicate NotesRight(s: State, known: map<int, int>, b: nat) {
    && (forall n | n in known :: 0 <= n < |Ascending(Referenced(s.mapInfo))| && NoteRight(s, n, known[n]))
    && (forall slot | slot in s.newSlots && slot.0 < b :: Rank(Referenced(s.mapInfo), s.newSlots[slot]) in known)
  }

  ghost predicate NoteRight(s: State, n: nat, bucket: int)
    requires n < |Ascending(Referenced(s.mapInfo))|
  {
    var id := Ascending(Referenced(s.mapInfo))[n];
    var slot := s.cfg.NewSlot(s.mapInfo[id].addr, bucket);
    slot in s.newSlots && s.newSlots[slot] == id
  }

  /** The number of the holder of a slot leads back to the slot. */
  lemma SlotNoted(s: State, slot: Slot)
    requires Inv(s) && slot in s.newSlots
    ensures var n := Rank(Referenced(s.mapInfo), s.newSlots[slot]);
            n < |Ascending(Referenced(s.mapInfo))| && NoteRight(s, n, slot.0)
            && 0 <= slot.0 < NEW_BUCKET_COUNT && 0 <= slot.1 < BUCKET_SIZE
  {
    hide RandomIndex, AddrIndex, TriedTable, RefBounds, Counters;
    SlotHolderHasCount(s, slot);
    AscendingAtRank(Referenced(s.mapInfo), s.newSlots[slot]);
  }

  lemma {:induction false} NoteBucketsRight(s: State, b: nat)
    requires Inv(s) && 0 <= s.nNew && 0 <= s.nTried && b <= NEW_BUCKET_COUNT
    ensures NotesRight(s, NoteBuckets(Save(s), b), b)
  {
    hide InvWith;
    NoSlotsBelowZero(s);
    var st := Save(s);
    if b != 0 {
      NoteBucketsRight(s, b - 1);
      var known := NoteBuckets(st, b - 1);
      NotesRightNext(s, known, b - 1);
    }
  }

  lemma NoSlotsBelowZero(s: State)
    requires Inv(s)
    ensures forall slot | slot in s.newSlots :: 0 <= slot.0
  {
  }

  lemma NotesRightNext(s: State, known: map<int, int>, b: nat)
    requires Inv(s) && 0 <= s.nNew && b < NEW_BUCKET_COUNT && NotesRight(s, known, b)
    ensures var entries := BucketFrom(s.newSlots, Referenced(s.mapInfo), b, 0);
            NotesRight(s, NoteBucket(entries, s.nNew, b, known, |entries|), b + 1)
  {
    hide InvWith, NoteRight, Ascending, Rank, BucketFrom, NoteBucket;
    var ids := Referenced(s.mapInfo);
    var entries := BucketFrom(s.newSlots, ids, b, 0);
    var r := NoteBucket(entries, s.nNew, b, known, |entries|);
    NoteBucketEffect(entries, s.nNew, b, known, |entries|);
    forall n | n in r ensures 0 <= n < |Ascending(ids)| && NoteRight(s, n, r[n]) {
      if n in entries && r[n] == b {
        EntryNoted(s, n, b);
      }
    }
    forall slot | slot in s.newSlots && slot.0 < b + 1 ensures Rank(ids, s.newSlots[slot]) in r {
      if slot.0 == b {
        SlotEntered(s, slot);
        var n := Rank(ids, s.newSlots[slot]);
        var i :| 0 <= i < |entries| && entries[i] == n;
      }
    }
  }

  lemma EntryNoted(s: State, n: int, b: nat)
    requires Inv(s) && b < NEW_BUCKET_COUNT && n in BucketFrom(s.newSlots, Referenced(s.mapInfo), b, 0)
    ensures 0 <= n < |Ascending(Referenced(s.mapInfo))| && NoteRight(s, n, b)
  {
    hide InvWith, NoteRight, Ascending, Rank, BucketFrom;
    BucketFromMembers(s.newSlots, Referenced(s.mapInfo), b, 0);
    var p :| 0 <= p < BUCKET_SIZE && (b, p) in s.newSlots && n == Rank(Referenced(s.mapInfo), s.newSlots[(b, p)]);
    SlotNoted(s, (b, p));
  }

  lemma SlotEntered(s: State, slot: Slot)
    requires Inv(s) && slot in s.newSlots && 0 <= slot.0
    ensures var n := Rank(Referenced(s.mapInfo), s.newSlots[slot]);
            0 <= n < s.nNew && n in BucketFrom(s.newSlots, Referenced(s.mapInfo), slot.0, 0)
  {
    hide InvWith, NoteRight, Ascending, Rank, BucketFrom;
    ReferencedAreNew(s);
    SlotNoted(s, slot);
    BucketFromMembers(s.newSlots, Referenced(s.mapInfo), slot.0, 0);
    assert slot == (slot.0, slot.1);
  }

  /** The first n new entries have one slot each, one that they held in the stored table. */
  ghost predicate AllSettled(s: State, b: State, r: State, n: nat)
    requires n <= |Ascending(Referenced(s.mapInfo))|
  {
    && r == b.(mapInfo := r.mapInfo, newSlots := r.newSlots)
    && r.mapInfo.Keys == b.mapInfo.Keys
    && (forall id | id in b.mapInfo ::
          r.mapInfo[id] == if 0 <= id < n then b.mapInfo[id].(refCount := 1) else b.mapInfo[id])
    && (forall slot | slot in r.newSlots ::
          var i := r.newSlots[slot];
          0 <= i < n && slot in s.newSlots && s.newSlots[slot] == Ascending(Referenced(s.mapInfo))[i])
  }

  lemma AllSettledNext(s: State, b: State, t: State, n: nat, bucket: int)
    requires Inv(s) && n < |Ascending(Referenced(s.mapInfo))| && AllSettled(s, b, t, n)
    requires NoteRight(s, n, bucket) && t.cfg == s.cfg
    requires n in b.mapInfo && b.mapInfo[n].addr == s.mapInfo[Ascending(Referenced(s.mapInfo))[n]].addr
    requires b.mapInfo[n].refCount == 0
    ensures AllSettled(s, b, Settle(t, n, bucket, true), n + 1)
  {
    hide InvWith;
    var slot := s.cfg.NewSlot(b.mapInfo[n].addr, bucket);
    assert slot !in t.newSlots;
    assert Settle(t, n, bucket, true) == IncRef(t, n, slot);
  }

  lemma {:induction false} SettleAllHonest(s: State, st: Stream, b: State, known: map<int, int>, n: nat)
    requires Inv(s) && n <= |Ascending(Referenced(s.mapInfo))|
    requires NotesRight(s, known, NEW_BUCKET_COUNT) && SameBucketing(st, b.cfg) && b.cfg == s.cfg && b.newSlots == map[]
    requires forall i | 0 <= i < n ::
               i in b.mapInfo && b.mapInfo[i].refCount == 0 &&
               b.mapInfo[i].addr == s.mapInfo[Ascending(Referenced(s.mapInfo))[i]].addr
    ensures AllSettled(s, b, SettleAll(st, b, known, n), n)
  {
    hide InvWith, Settle, NoteRight, SameBucketing;
    if n != 0 {
      SettleAllHonest(s, st, b, known, n - 1);
      EveryNumberNoted(s, known, n - 1);
      AllSettledNext(s, b, SettleAll(st, b, known, n - 1), n - 1, known[n - 1]);
    }
  }

  lemma EveryNumberNoted(s: State, known: map<int, int>, n: nat)
    requires Inv(s) && n < |Ascending(Referenced(s.mapInfo))| && NotesRight(s, known, NEW_BUCKET_COUNT)
    ensures n in known && NoteRight(s, n, known[n])
  {
    hide NoteRight, RefBounds, Counters, RandomIndex, AddrIndex, TriedTable;
    var ids := Referenced(s.mapInfo);
    var id := Ascending(ids)[n];
    assert |Refs(s.newSlots, id)| > 0;
    var slot :| slot in Refs(s.newSlots, id);
    RankOfAscending(ids, n);
  }

  lemma {:induction false} NothingToPrune(s: State, pending: set<Id>)
    requires RandomIndex(s.mapInfo, s.vRandom)
    requires forall id | id in s.mapInfo :: s.mapInfo[id].inTried || s.mapInfo[id].refCount != 0
    ensures Prune(s, pending) == s
    decreases |pending|
  {
    hide RandomIndex;
    if |pending| != 0 {
      NothingToPrune(s, pending - {Least(pending)});
    }
  }

  /******* The theorem *******/

  /** An entry came through storage: same stored fields, same table, one slot if it is new. */
  ghost predicate SameEntry(a: AddrInfo, b: AddrInfo) {
    Store(b) == Store(a) && b.inTried == a.inTried && b.refCount == if a.inTried then 0 else 1
  }

  /** r is s up to the numbering of the entries and the number of slots of the new ones. */
  ghost predicate SameTable(s: State, r: State)
    requires 0 <= s.nNew
  {
    && r.cfg == s.cfg && r.nNew == s.nNew && r.nTried == s.nTried
    && (forall id | id in s.mapInfo ::
          Renumber(s, id) in r.mapInfo && SameEntry(s.mapInfo[id], r.mapInfo[Renumber(s, id)]))
    && (forall n | n in r.mapInfo :: Renumbered(s, n))
    && r.triedSlots.Keys == s.triedSlots.Keys
    && (forall slot | slot in s.triedSlots ::
          var id := s.triedSlots[slot]; id in s.mapInfo && r.triedSlots[slot] == Renumber(s, id))
    && (forall slot | slot in r.newSlots ::
          && slot in s.newSlots
          && var id := s.newSlots[slot]; id in s.mapInfo && r.newSlots[slot] == Renumber(s, id))
  }

  ghost predicate Renumbered(s: State, n: int)
    requires 0 <= s.nNew
  {
    exists id :: id in s.mapInfo && n == Renumber(s, id)
  }

  /** The settled table, before anything is pruned. */
  ghost predicate Reloaded(s: State, r: State)
    requires 0 <= s.nNew && 0 <= s.nTried
  {
    var order, torder := Ascending(Referenced(s.mapInfo)), Ascending(TriedIds(s.mapInfo));
    && |order| == s.nNew && |torder| == s.nTried
    && r.cfg == s.cfg && r.nNew == s.nNew && r.nTried == s.nTried
    && (forall n | n in r.mapInfo :: 0 <= n < s.nNew + s.nTried)
    && (forall n | 0 <= n < s.nNew :: n in r.mapInfo && SameEntry(s.mapInfo[order[n]], r.mapInfo[n]))
    && (forall n | s.nNew <= n < s.nNew + s.nTried ::
          n in r.mapInfo && SameEntry(s.mapInfo[torder[n - s.nNew]], r.mapInfo[n]))
    && (forall slot | slot in r.newSlots ::
          var i := r.newSlots[slot];
          0 <= i < s.nNew && slot in s.newSlots && s.newSlots[slot] == order[i])
  }

  lemma SavedTriedSlots(s: State)
    requires Inv(s) && 0 <= s.nNew && 0 <= s.nTried
    ensures DistinctTriedSlots(Save(s), s.cfg)
  {
    hide RandomIndex, AddrIndex, NewTable, RefCounts, RefBounds, Counters, BucketsFrom, Referenced;
    var torder := Ascending(TriedIds(s.mapInfo));
    forall i, j | 0 <= i < j < |torder|
      ensures s.cfg.TriedSlot(s.mapInfo[torder[i]].addr) != s.cfg.TriedSlot(s.mapInfo[torder[j]].addr)
    {
      var a, b := torder[i], torder[j];
      assert s.triedSlots[s.cfg.TriedSlot(s.mapInfo[a].addr)] == a;
      assert s.triedSlots[s.cfg.TriedSlot(s.mapInfo[b].addr)] == b;
    }
  }

  lemma NewEntriesOf(s: State, base: State, a: State)
    requires Inv(s) && 0 <= s.nNew && 0 <= s.nTried && Complete(Save(s)) && NewLoaded(Save(s), base, a, s.nNew)
    ensures |Ascending(Referenced(s.mapInfo))| == s.nNew
    ensures forall i | 0 <= i < s.nNew ::
              i in a.mapInfo && a.mapInfo[i] == Restore(Store(s.mapInfo[Ascending(Referenced(s.mapInfo))[i]])).(randomPos := i)
  {
    hide InvWith;
    ReferencedAreNew(s);
  }

  lemma ReloadSettled(s: State, cfg: Config, collisions: set<Id>)
    requires Inv(s) && cfg.asmap == s.cfg.asmap && cfg.hashing == s.cfg.hashing
    requires 0 <= s.nNew && 0 <= s.nTried && Complete(Save(s))
    ensures Reloaded(s, LoadTables(Save(s), cfg, collisions))
  {
    hide InvWith, Tables, LoadNew, LoadTried, SettleAll, NoteBuckets, Ascending, Referenced, BucketsFrom;
    var st := Save(s);
    var base := Blank(st, cfg, collisions);
    SavedIsComplete(s);
    SavedIsDistinct(s);
    SavedTriedSlots(s);
    LoadNewFacts(st, cfg, collisions, st.nNew);
    var a := LoadNew(st, base, st.nNew);
    NewLoadedIds(st, base, a);
    LoadTriedAll(st, base, a, st.nTried);
    var b := LoadTried(st, a, st.nTried);
    var known := NoteBuckets(st, NEW_BUCKET_COUNT);
    NoteBucketsRight(s, NEW_BUCKET_COUNT);
    NewEntriesOf(s, base, a);
    SettleAllHonest(s, st, b, known, st.nNew);
    ReloadedFromStages(s, base, a, b, SettleAll(st, b, known, st.nNew));
  }

  /** The stages of loading a stored table, seen together. */
  ghost predicate Stages(s: State, base: State, a: State, b: State, c: State) {
    && Inv(s) && 0 <= s.nNew && 0 <= s.nTried && Complete(Save(s))
    && base.cfg == s.cfg && base.nNew == s.nNew && base.nTried == s.nTried
    && NewLoaded(Save(s), base, a, s.nNew) && AllTriedLoaded(Save(s), a, b, s.nTried)
    && |Ascending(Referenced(s.mapInfo))| == s.nNew && AllSettled(s, b, c, s.nNew)
  }

  lemma NewEntryReloaded(s: State, base: State, a: State, b: State, c: State, n: nat)
    requires Stages(s, base, a, b, c) && n < s.nNew
    ensures n in c.mapInfo && SameEntry(s.mapInfo[Ascending(Referenced(s.mapInfo))[n]], c.mapInfo[n])
  {
    hide InvWith, Save, Ascending;
    var id := Ascending(Referenced(s.mapInfo))[n];
    ReferencedAreNew(s);
    NewEntriesOf(s, base, a);
    assert b.mapInfo[n] == a.mapInfo[n];
    assert id in NewIds(s.mapInfo);
  }

  lemma TriedEntryReloaded(s: State, base: State, a: State, b: State, c: State, n: nat)
    requires Stages(s, base, a, b, c) && s.nNew <= n < s.nNew + s.nTried
    ensures |Ascending(TriedIds(s.mapInfo))| == s.nTried
    ensures var id := Ascending(TriedIds(s.mapInfo))[n - s.nNew];
            n in c.mapInfo && SameEntry(s.mapInfo[id], c.mapInfo[n])
  {
    hide InvWith, Ascending, BucketsFrom, Referenced;
    ReferencedAreNew(s);
    assert b.mapInfo[n] == TriedEntry(Save(s), a, n);
    assert c.mapInfo[n] == b.mapInfo[n];
    assert Ascending(TriedIds(s.mapInfo))[n - s.nNew] in TriedIds(s.mapInfo);
  }

  lemma ScalarsReloaded(s: State, base: State, a: State, b: State, c: State)
    requires Stages(s, base, a, b, c)
    ensures c.cfg == s.cfg && c.nNew == s.nNew && c.nTried == s.nTried
    ensures forall n | n in c.mapInfo :: 0 <= n < s.nNew + s.nTried
    ensures forall slot | slot in c.newSlots ::
              var i := c.newSlots[slot];
              0 <= i < s.nNew && slot in s.newSlots && s.newSlots[slot] == Ascending(Referenced(s.mapInfo))[i]
  {
    hide InvWith, Ascending, Save, Referenced;
    forall n | n in c.mapInfo ensures 0 <= n < s.nNew + s.nTried {
      assert n in b.mapInfo;
    }
  }

  lemma ReloadedFromStages(s: State, base: State, a: State, b: State, c: State)
    requires Stages(s, base, a, b, c)
    ensures Reloaded(s, c)
  {
    hide InvWith, NewLoaded, AllTriedLoaded, AllSettled, Ascending, SameEntry, Save, Referenced;
    ReferencedAreNew(s);
    ScalarsReloaded(s, base, a, b, c);
    var order, torder := Ascending(Referenced(s.mapInfo)), Ascending(TriedIds(s.mapInfo));
    forall n | 0 <= n < s.nNew ensures n in c.mapInfo && SameEntry(s.mapInfo[order[n]], c.mapInfo[n]) {
      NewEntryReloaded(s, base, a, b, c, n);
    }
    forall n | s.nNew <= n < s.nNew + s.nTried
      ensures n in c.mapInfo && SameEntry(s.mapInfo[torder[n - s.nNew]], c.mapInfo[n])
    {
      TriedEntryReloaded(s, base, a, b, c, n);
    }
  }

  /** Every entry is one of the numbered ones, under its number. */
  lemma NumberOf(s: State, id: Id)
    requires Inv(s) && id in s.mapInfo && 0 <= s.nNew
    ensures |Ascending(Referenced(s.mapInfo))| == s.nNew && |Ascending(TriedIds(s.mapInfo))| == s.nTried
    ensures if s.mapInfo[id].inTried
            then s.nNew <= Renumber(s, id) < s.nNew + s.nTried
                 && Ascending(TriedIds(s.mapInfo))[Renumber(s, id) - s.nNew] == id
            else Renumber(s, id) < s.nNew && Ascending(Referenced(s.mapInfo))[Renumber(s, id)] == id
  {
    hide InvWith, Ascending, Rank;
    ReferencedAreNew(s);
    if s.mapInfo[id].inTried {
      AscendingAtRank(TriedIds(s.mapInfo), id);
    } else {
      assert id in NewIds(s.mapInfo);
      AscendingAtRank(Referenced(s.mapInfo), id);
    }
  }

  lemma NumberBack(s: State, n: nat)
    requires Inv(s) && 0 <= s.nNew && 0 <= s.nTried && n < s.nNew + s.nTried
    ensures |Ascending(Referenced(s.mapInfo))| == s.nNew && |Ascending(TriedIds(s.mapInfo))| == s.nTried
    ensures var id := if n < s.nNew then Ascending(Referenced(s.mapInfo))[n] else Ascending(TriedIds(s.mapInfo))[n - s.nNew];
            id in s.mapInfo && Renumber(s, id) == n && (s.mapInfo[id].inTried <==> s.nNew <= n)
  {
    hide InvWith, Ascending, Rank;
    ReferencedAreNew(s);
    if n < s.nNew {
      RankOfAscending(Referenced(s.mapInfo), n);
      assert Ascending(Referenced(s.mapInfo))[n] in NewIds(s.mapInfo);
    } else {
      RankOfAscending(TriedIds(s.mapInfo), n - s.nNew);
    }
  }

  lemma EntriesReloaded(s: State, r: State)
    requires Inv(s) && 0 <= s.nNew && 0 <= s.nTried && Reloaded(s, r)
    ensures forall id | id in s.mapInfo ::
              Renumber(s, id) in r.mapInfo && SameEntry(s.mapInfo[id], r.mapInfo[Renumber(s, id)])
    ensures forall n | n in r.mapInfo :: Renumbered(s, n)
    ensures forall slot | slot in r.newSlots ::
              && slot in s.newSlots
              && var id := s.newSlots[slot]; id in s.mapInfo && r.newSlots[slot] == Renumber(s, id)
  {
    hide InvWith, Ascending, Rank, Referenced, Renumber, SameEntry;
    forall id | id in s.mapInfo
      ensures Renumber(s, id) in r.mapInfo && SameEntry(s.mapInfo[id], r.mapInfo[Renumber(s, id)])
    {
      NumberOf(s, id);
    }
    forall n | n in r.mapInfo ensures Renumbered(s, n) {
      NumberBack(s, n);
    }
    forall slot | slot in r.newSlots
      ensures var id := s.newSlots[slot]; id in s.mapInfo && r.newSlots[slot] == Renumber(s, id)
    {
      NumberBack(s, r.newSlots[slot]);
    }
  }

  /** The tried table follows from the entries alone. */
  lemma TriedTableReloaded(s: State, r: State)
    requires Tables(s) && Tables(r) && 0 <= s.nNew && r.cfg == s.cfg
    requires forall id | id in s.mapInfo ::
               Renumber(s, id) in r.mapInfo && SameEntry(s.mapInfo[id], r.mapInfo[Renumber(s, id)])
    requires forall n | n in r.mapInfo :: Renumbered(s, n)
    ensures r.triedSlots.Keys == s.triedSlots.Keys
    ensures forall slot | slot in s.triedSlots ::
              var id := s.triedSlots[slot]; id in s.mapInfo && r.triedSlots[slot] == Renumber(s, id)
  {
    hide RandomIndex, AddrIndex, NewTable, RefCounts, Rank;
    forall slot | slot in s.triedSlots
      ensures slot in r.triedSlots && var id := s.triedSlots[slot]; id in s.mapInfo && r.triedSlots[slot] == Renumber(s, id)
    {
      var id := s.triedSlots[slot];
      assert SameEntry(s.mapInfo[id], r.mapInfo[Renumber(s, id)]);
    }
    forall slot | slot in r.triedSlots ensures slot in s.triedSlots {
      var n := r.triedSlots[slot];
      assert Renumbered(s, n);
      var id :| id in s.mapInfo && n == Renumber(s, id);
      assert SameEntry(s.mapInfo[id], r.mapInfo[n]);
    }
  }

  /**
   * Loading what was stored, with the same asmap, gives back the same table:
   * nothing is lost, counts and stored fields and tried slots are the same up
   * to the numbering of entries, and each new entry gets one of its slots.
   */
  lemma RoundTrip(s: State, cfg: Config, collisions: set<Id>)
    requires Inv(s) && cfg.asmap == s.cfg.asmap && cfg.hashing == s.cfg.hashing
    ensures 0 <= s.nNew && 0 <= s.nTried && Complete(Save(s)) && Accepted(Save(s))
    ensures Inv(Load(Save(s), cfg, collisions))
    ensures SameTable(s, Load(Save(s), cfg, collisions))
  {
    hide Tables, RefBounds, Counters, LoadTables, Save, Reloaded, SameEntry, Renumber;
    SavedIsComplete(s);
    SavedIsDistinct(s);
    LoadIsConsistent(Save(s), cfg, collisions);
    ReloadSettled(s, cfg, collisions);
    var c := LoadTables(Save(s), cfg, collisions);
    EntriesReloaded(s, c);
    AllEntriesHeld(s, c);
    NothingToPrune(c, c.mapInfo.Keys);
    assert Load(Save(s), cfg, collisions) == c;
    ReloadedScalars(s, c);
    TriedTableReloaded(s, c);
  }

  lemma ReloadedScalars(s: State, r: State)
    requires Inv(s) && 0 <= s.nNew && 0 <= s.nTried && Reloaded(s, r)
    ensures r.cfg == s.cfg && r.nNew == s.nNew && r.nTried == s.nTried
  {
  }

  lemma AllEntriesHeld(s: State, r: State)
    requires 0 <= s.nNew
    requires forall id | id in s.mapInfo ::
               Renumber(s, id) in r.mapInfo && SameEntry(s.mapInfo[id], r.mapInfo[Renumber(s, id)])
    requires forall n | n in r.mapInfo :: Renumbered(s, n)
    ensures forall n | n in r.mapInfo :: r.mapInfo[n].inTried || r.mapInfo[n].refCount != 0
  {
    hide Renumber;
    forall n | n in r.mapInfo ensures r.mapInfo[n].inTried || r.mapInfo[n].refCount != 0 {
      assert Renumbered(s, n);
      var id :| id in s.mapInfo && n == Renumber(s, id);
      assert SameEntry(s.mapInfo[id], r.mapInfo[n]);
    }
  }
}
