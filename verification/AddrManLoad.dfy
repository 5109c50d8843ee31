/**
 * Loading any complete stream gives a table that is consistent but for the
 * index by address, whatever is lost to collisions or moved to other buckets
 * on the way; and that index is right exactly when no entry that stays shares
 * its address with another one.
 */
module AddrManLoad {
  import opened AddrManState
  import opened AddrManOps
  import opened AddrManProofs
  import opened AddrManStorage
  import opened SetFacts

  /** No network address occurs twice among the stored entries. */
  ghost predicate DistinctAddresses(st: Stream) {
    && (forall i, j | 0 <= i < j < |st.newInfos| :: st.newInfos[i].addr.ip != st.newInfos[j].addr.ip)
    && (forall i, j | 0 <= i < j < |st.triedInfos| :: st.triedInfos[i].addr.ip != st.triedInfos[j].addr.ip)
    && (forall i, j | 0 <= i < |st.newInfos| && 0 <= j < |st.triedInfos| ::
          st.newInfos[i].addr.ip != st.triedInfos[j].addr.ip)
  }

  /** The first n new entries are in, under their numbers, and nothing else is. */
  ghost predicate NewLoaded(st: Stream, base: State, r: State, n: nat)
    requires n <= |st.newInfos|
  {
    && r.nIdCount == n && |r.vRandom| == n
    && r == base.(nIdCount := n, mapInfo := r.mapInfo, mapAddr := r.mapAddr, vRandom := r.vRandom)
    && (forall id | id in r.mapInfo :: 0 <= id < n)
    && (forall i | 0 <= i < n :: i in r.mapInfo && r.mapInfo[i] == Restore(st.newInfos[i]).(randomPos := i))
  }

  /** The index by address leads to the entry with that address that was entered last. */
  ghost predicate AddrLast(m: map<Id, AddrInfo>, n: map<NetAddr, Id>) {
    && (forall id | id in m :: m[id].addr.ip in n && n[m[id].addr.ip] >= id)
    && (forall ip | ip in n :: var id := n[ip]; id in m && m[id].addr.ip == ip)
  }

  lemma AddrLastAdd(m: map<Id, AddrInfo>, n: map<NetAddr, Id>, id: Id, info: AddrInfo)
    requires AddrLast(m, n) && forall k | k in m :: k < id
    ensures AddrLast(m[id := info], n[info.addr.ip := id])
  {
  }

  /** Without repetitions there is no other entry. */
  lemma AddrLastIsIndex(m: map<Id, AddrInfo>, n: map<NetAddr, Id>)
    requires AddrLast(m, n) && forall a, b | a in m && b in m && a != b :: m[a].addr.ip != m[b].addr.ip
    ensures AddrIndex(m, n)
  {
    forall id | id in m ensures n[m[id].addr.ip] == id {
      var k := n[m[id].addr.ip];
      assert k in m && m[k].addr.ip == m[id].addr.ip;
    }
  }

  /** What holds at every stage of loading, for every stream. */
  ghost predicate Loading(s: State) {
    Links(s) && AddrLast(s.mapInfo, s.mapAddr)
  }

  lemma BlankLoading(st: Stream, cfg: Config, collisions: set<Id>)
    ensures Loading(Blank(st, cfg, collisions))
    ensures NewLoaded(st, Blank(st, cfg, collisions), Blank(st, cfg, collisions), 0)
  {
  }

  lemma NewLoadedNext(st: Stream, base: State, t: State, n: nat)
    requires n < |st.newInfos| && NewLoaded(st, base, t, n)
    ensures NewLoaded(st, base, Insert(t, Restore(st.newInfos[n])), n + 1)
  {
  }

  lemma InsertKeepsLoading(s: State, info: AddrInfo)
    requires Loading(s) && !info.inTried && info.refCount == 0
    ensures Loading(Insert(s, info))
  {
    hide RandomIndex, TriedTable, NewTable, RefCounts, AddrLast;
    InsertKeepsLinks(s, info);
    AddrLastAdd(s.mapInfo, s.mapAddr, s.nIdCount, info.(randomPos := |s.vRandom|));
  }

  lemma {:induction false} LoadNewStage(st: Stream, cfg: Config, collisions: set<Id>, n: nat)
    requires n <= |st.newInfos|
    ensures var base := Blank(st, cfg, collisions);
            Loading(LoadNew(st, base, n)) && NewLoaded(st, base, LoadNew(st, base, n), n)
  {
    hide Loading, NewLoaded;
    var base := Blank(st, cfg, collisions);
    if n == 0 {
      BlankLoading(st, cfg, collisions);
    } else {
      LoadNewStage(st, cfg, collisions, n - 1);
      var t := LoadNew(st, base, n - 1);
      InsertKeepsLoading(t, Restore(st.newInfos[n - 1]));
      NewLoadedNext(st, base, t, n - 1);
    }
  }

  lemma LoadNewFacts(st: Stream, cfg: Config, collisions: set<Id>, n: nat)
    requires DistinctAddresses(st) && n <= |st.newInfos|
    ensures var base := Blank(st, cfg, collisions);
            Tables(LoadNew(st, base, n)) && NewLoaded(st, base, LoadNew(st, base, n), n)
  {
    hide Tables, Links, AddrIndex, AddrLast, LoadNew;
    LoadNewStage(st, cfg, collisions, n);
    var r := LoadNew(st, Blank(st, cfg, collisions), n);
    forall a, b | a in r.mapInfo && b in r.mapInfo && a != b ensures r.mapInfo[a].addr.ip != r.mapInfo[b].addr.ip {
      assert r.mapInfo[a].addr == st.newInfos[a].addr && r.mapInfo[b].addr == st.newInfos[b].addr;
    }
    AddrLastIsIndex(r.mapInfo, r.mapAddr);
    TablesAreLinks(r);
  }

  /**
   * After n tried entries: the new ones are as they were, every other entry is
   * one of the n, and the count still to come is right.
   */
  ghost predicate TriedLoaded(st: Stream, a: State, r: State, n: nat)
    requires n <= |st.triedInfos|
  {
    && a.nIdCount <= r.nIdCount
    && r.nTried == a.nTried - n + |TriedIds(r.mapInfo)|
    && r.nNew == a.nNew && r.newSlots == a.newSlots && r.cfg == a.cfg
    && r.lastGood == a.lastGood && r.collisions == a.collisions
    && (forall id | id in a.mapInfo :: id in r.mapInfo && r.mapInfo[id] == a.mapInfo[id])
    && (forall id | id in r.mapInfo && id !in a.mapInfo ::
          && r.mapInfo[id].inTried && r.mapInfo[id].refCount == 0
          && AmongTried(st, r.mapInfo[id].addr, n))
  }

  lemma NextTriedIsUnknown(st: Stream, base: State, a: State, r: State, n: nat)
    requires DistinctAddresses(st) && n < |st.triedInfos| && Tables(r)
    requires NewLoaded(st, base, a, |st.newInfos|) && TriedLoaded(st, a, r, n)
    ensures st.triedInfos[n].addr.ip !in r.mapAddr
  {
    forall ip | ip in r.mapAddr ensures ip != st.triedInfos[n].addr.ip {
      var id := r.mapAddr[ip];
      assert id in r.mapInfo && r.mapInfo[id].addr.ip == ip;
      if id in a.mapInfo {
        assert ip == st.newInfos[id].addr.ip;
      } else {
        var k :| 0 <= k < n && r.mapInfo[id].addr == st.triedInfos[k].addr;
        assert ip == st.triedInfos[k].addr.ip;
      }
    }
  }

  lemma LoadTriedOneKeepsTables(info: AddrInfo, s: State)
    requires Tables(s) && info.addr.ip !in s.mapAddr && !info.inTried && info.refCount == 0
    ensures Tables(LoadTriedOne(info, s))
  {
    hide Tables;
    var slot := s.cfg.TriedSlot(info.addr);
    if slot in s.triedSlots {
      TablesIgnoreCounters(s, s.(nTried := s.nTried - 1));
    } else {
      InsertKeepsTables(s, info);
      var t := Insert(s, info);
      NoRefsIsUnreferenced(t, s.nIdCount);
      PlaceKeepsTables(t, s.nIdCount, slot);
      TablesIgnoreCounters(Place(t, s.nIdCount, slot), LoadTriedOne(info, s));
    }
  }

  lemma LinksIgnoreCounters(s: State, r: State)
    requires Links(s) && r == s.(nNew := r.nNew, nTried := r.nTried)
    ensures Links(r)
  {
  }

  lemma LoadTriedOneKeepsLinks(info: AddrInfo, s: State)
    requires Links(s) && !info.inTried && info.refCount == 0
    ensures Links(LoadTriedOne(info, s))
  {
    hide Links;
    var slot := s.cfg.TriedSlot(info.addr);
    if slot in s.triedSlots {
      LinksIgnoreCounters(s, s.(nTried := s.nTried - 1));
    } else {
      InsertKeepsLinks(s, info);
      var t := Insert(s, info);
      NoRefsIsUnreferenced(t, s.nIdCount);
      PlaceKeepsLinks(t, s.nIdCount, slot);
      LinksIgnoreCounters(Place(t, s.nIdCount, slot), LoadTriedOne(info, s));
    }
  }

  lemma LoadTriedOneKeepsLoading(info: AddrInfo, s: State)
    requires Loading(s) && !info.inTried && info.refCount == 0
    ensures Loading(LoadTriedOne(info, s))
  {
    hide RandomIndex, TriedTable, NewTable, RefCounts, AddrLast;
    LoadTriedOneKeepsLinks(info, s);
    if s.cfg.TriedSlot(info.addr) !in s.triedSlots {
      var entered := info.(randomPos := |s.vRandom|, inTried := true);
      AddrLastAdd(s.mapInfo, s.mapAddr, s.nIdCount, entered);
      assert LoadTriedOne(info, s).mapInfo == s.mapInfo[s.nIdCount := entered];
    }
  }

  lemma {:induction false} LoadTriedStage(st: Stream, a: State, n: nat)
    requires n <= |st.triedInfos| && Loading(a) && TriedIds(a.mapInfo) == {}
    ensures Loading(LoadTried(st, a, n)) && TriedLoaded(st, a, LoadTried(st, a, n), n)
  {
    hide Loading, LoadTriedOne, TriedLoaded;
    if n == 0 {
      NoneTriedLoaded(st, a);
    } else {
      LoadTriedStage(st, a, n - 1);
      var t := LoadTried(st, a, n - 1);
      LoadTriedOneKeepsLoading(Restore(st.triedInfos[n - 1]), t);
      LoadingBelow(t);
      TriedLoadedNext(st, a, t, n - 1);
    }
  }

  lemma LoadingBelow(s: State)
    requires Loading(s)
    ensures IdsBelow(s.mapInfo, s.nIdCount)
  {
  }

  lemma {:induction false} LoadTriedFacts(st: Stream, base: State, a: State, n: nat)
    requires DistinctAddresses(st) && n <= |st.triedInfos|
    requires Tables(a) && NewLoaded(st, base, a, |st.newInfos|) && TriedIds(a.mapInfo) == {}
    ensures Tables(LoadTried(st, a, n)) && TriedLoaded(st, a, LoadTried(st, a, n), n)
  {
    hide Tables, LoadTriedOne, TriedLoaded;
    if n == 0 {
      NoneTriedLoaded(st, a);
    } else {
      LoadTriedFacts(st, base, a, n - 1);
      var t := LoadTried(st, a, n - 1);
      var info := Restore(st.triedInfos[n - 1]);
      NextTriedIsUnknown(st, base, a, t, n - 1);
      LoadTriedOneKeepsTables(info, t);
      IdsAreBelow(t);
      TriedLoadedNext(st, a, t, n - 1);
    }
  }

  lemma NoneTriedLoaded(st: Stream, a: State)
    requires TriedIds(a.mapInfo) == {}
    ensures TriedLoaded(st, a, a, 0)
  {
  }

  ghost predicate AmongTried(st: Stream, addr: Service, n: nat)
    requires n <= |st.triedInfos|
  {
    exists k :: 0 <= k < n && addr == st.triedInfos[k].addr
  }

  lemma TriedLoadedNext(st: Stream, a: State, t: State, n: nat)
    requires n < |st.triedInfos| && IdsBelow(t.mapInfo, t.nIdCount) && TriedLoaded(st, a, t, n)
    ensures TriedLoaded(st, a, LoadTriedOne(Restore(st.triedInfos[n]), t), n + 1)
  {
    var info := Restore(st.triedInfos[n]);
    var r := LoadTriedOne(info, t);
    forall addr | AmongTried(st, addr, n) ensures AmongTried(st, addr, n + 1) {
    }
    if t.cfg.TriedSlot(info.addr) !in t.triedSlots {
      var entered := info.(randomPos := |t.vRandom|, inTried := true);
      assert r.mapInfo == t.mapInfo[t.nIdCount := entered];
      assert TriedIds(r.mapInfo) == TriedIds(t.mapInfo) + {t.nIdCount};
      assert AmongTried(st, st.triedInfos[n].addr, n + 1);
    }
  }

  /** After the slots of the first n entries are settled: only reference counts and slots changed. */
  ghost predicate Settled(s: State, r: State, n: nat) {
    && r == s.(mapInfo := r.mapInfo, newSlots := r.newSlots)
    && r.mapInfo.Keys == s.mapInfo.Keys
    && (forall id | id in s.mapInfo :: r.mapInfo[id] == s.mapInfo[id].(refCount := r.mapInfo[id].refCount))
    && (forall id | id in s.mapInfo :: r.mapInfo[id].refCount == 0 || (r.mapInfo[id].refCount == 1 && 0 <= id < n))
  }

  /** The buckets noted for the entries exist. */
  ghost predicate KnownBucketsExist(known: map<int, int>, buckets: int) {
    forall n | n in known :: 0 <= known[n] < buckets
  }

  lemma {:induction false} NoteBucketRange(entries: seq<int>, nNew: nat, bucket: int, known: map<int, int>, n: nat, buckets: int)
    requires n <= |entries| && 0 <= bucket < buckets && KnownBucketsExist(known, buckets)
    ensures KnownBucketsExist(NoteBucket(entries, nNew, bucket, known, n), buckets)
  {
    if n != 0 {
      NoteBucketRange(entries, nNew, bucket, known, n - 1, buckets);
    }
  }

  lemma {:induction false} NoteBucketsRange(st: Stream, b: nat, buckets: int)
    requires b <= |st.buckets| && b <= buckets
    ensures KnownBucketsExist(NoteBuckets(st, b), buckets)
  {
    if b != 0 {
      NoteBucketsRange(st, b - 1, buckets);
      NoteBucketRange(st.buckets[b - 1], st.nNew, b - 1, NoteBuckets(st, b - 1), |st.buckets[b - 1]|, buckets);
    }
  }

  lemma SettleKeepsLinks(s: State, id: Id, bucket: int, same: bool)
    requires Links(s) && id in s.mapInfo && !s.mapInfo[id].inTried
    requires same ==> 0 <= bucket < NEW_BUCKET_COUNT
    ensures Links(Settle(s, id, bucket, same))
  {
    hide Links;
    var info := s.mapInfo[id];
    var slot := s.cfg.NewSlot(info.addr, bucket);
    if same && slot !in s.newSlots && info.refCount < NEW_BUCKETS_PER_ADDRESS {
      IncRefKeepsLinks(s, id, slot);
    } else if HomeSlot(s, id) !in s.newSlots {
      IncRefKeepsLinks(s, id, HomeSlot(s, id));
    }
  }

  lemma SettledAtStart(s: State)
    requires forall id | id in s.mapInfo :: s.mapInfo[id].refCount == 0
    ensures Settled(s, s, 0)
  {
  }

  lemma SettledNext(s: State, t: State, n: nat, bucket: int, same: bool)
    requires Links(t) && Settled(s, t, n) && n in s.mapInfo && !s.mapInfo[n].inTried
    requires same ==> 0 <= bucket < NEW_BUCKET_COUNT
    ensures Links(Settle(t, n, bucket, same)) && Settled(s, Settle(t, n, bucket, same), n + 1)
  {
    hide Links;
    assert t.mapInfo[n].refCount == 0;
    SettleKeepsLinks(t, n, bucket, same);
  }

  lemma {:induction false} SettleAllFacts(st: Stream, s: State, known: map<int, int>, n: nat)
    requires Links(s) && forall i | 0 <= i < n :: i in s.mapInfo && !s.mapInfo[i].inTried
    requires forall id | id in s.mapInfo :: s.mapInfo[id].refCount == 0
    requires SameBucketing(st, s.cfg) ==> KnownBucketsExist(known, NEW_BUCKET_COUNT)
    ensures Links(SettleAll(st, s, known, n)) && Settled(s, SettleAll(st, s, known, n), n)
  {
    hide Links, SameBucketing, Settle, Settled;
    if n == 0 {
      SettledAtStart(s);
    } else {
      SettleAllFacts(st, s, known, n - 1);
      SettledNext(s, SettleAll(st, s, known, n - 1), n - 1,
                  if n - 1 in known then known[n - 1] else 0, SameBucketing(st, s.cfg));
    }
  }

  /** The invariant but for the index by address. */
  ghost predicate InvButAddr(s: State, loose: set<Id>) {
    Links(s) && RefBounds(s, loose) && Counters(s, 0)
  }

  /** Is this a new entry without a slot? */
  ghost predicate Doomed(info: AddrInfo) {
    !info.inTried && info.refCount == 0
  }

  lemma DeleteDoomed(s: State, id: Id, loose: set<Id>)
    requires InvButAddr(s, loose) && id in s.mapInfo && Doomed(s.mapInfo[id])
    ensures var r := Delete(s, id);
            InvButAddr(r, loose - {id}) && r.mapAddr == s.mapAddr - {s.mapInfo[id].addr.ip}
  {
    hide Links, Delete;
    NoRefsIsUnreferenced(s, id);
    LinksHaveRandomIndex(s);
    DeleteKeepsLinks(s, id);
    var r := Delete(s, id);
    assert NewIds(r.mapInfo) == NewIds(s.mapInfo) - {id};
    assert TriedIds(r.mapInfo) == TriedIds(s.mapInfo);
  }

  lemma LinksHaveRandomIndex(s: State)
    requires Links(s)
    ensures RandomIndex(s.mapInfo, s.vRandom)
    ensures forall id | id in s.mapInfo :: s.mapInfo[id].refCount >= 0
  {
  }

  /** Exactly the doomed entries among the pending ones have gone, with what the index said of their addresses. */
  ghost predicate Pruned(s: State, pending: set<Id>, r: State) {
    && (forall id :: id in r.mapInfo <==> id in s.mapInfo && !(id in pending && Doomed(s.mapInfo[id])))
    && (forall id | id in r.mapInfo :: SameButPosition(s.mapInfo[id], r.mapInfo[id]))
    && (forall ip | ip in r.mapAddr :: ip in s.mapAddr && r.mapAddr[ip] == s.mapAddr[ip])
    && (forall ip | ip in s.mapAddr ::
          ip in r.mapAddr <==> forall id | id in s.mapInfo && id in pending && Doomed(s.mapInfo[id]) :: s.mapInfo[id].addr.ip != ip)
  }

  lemma PrunedNext(s: State, pending: set<Id>, id: Id, t: State, r: State)
    requires id in s.mapInfo && id in pending && Doomed(s.mapInfo[id])
    requires t.mapInfo.Keys == s.mapInfo.Keys - {id} && forall k | k in t.mapInfo :: SameButPosition(s.mapInfo[k], t.mapInfo[k])
    requires t.mapAddr == s.mapAddr - {s.mapInfo[id].addr.ip} && Pruned(t, pending - {id}, r)
    ensures Pruned(s, pending, r)
  {
    forall k | k in r.mapInfo ensures SameButPosition(s.mapInfo[k], r.mapInfo[k]) {
      assert SameButPosition(t.mapInfo[k], r.mapInfo[k]);
    }
    assert forall k | k in t.mapInfo :: Doomed(t.mapInfo[k]) == Doomed(s.mapInfo[k]) && t.mapInfo[k].addr == s.mapInfo[k].addr;
  }

  lemma PrunedSkip(s: State, pending: set<Id>, id: Id, r: State)
    requires !(id in s.mapInfo && Doomed(s.mapInfo[id])) && Pruned(s, pending - {id}, r)
    ensures Pruned(s, pending, r)
  {
  }

  lemma {:induction false} PruneFacts(s: State, pending: set<Id>)
    requires InvButAddr(s, pending)
    ensures RandomIndex(s.mapInfo, s.vRandom) && InvButAddr(Prune(s, pending), {}) && Pruned(s, pending, Prune(s, pending))
    decreases |pending|
  {
    hide Links, Delete, RandomIndex, Pruned, Counters;
    LinksHaveRandomIndex(s);
    if |pending| == 0 {
      NothingPruned(s);
      assert pending == {};
    } else {
      var id := Least(pending);
      if id in s.mapInfo && Doomed(s.mapInfo[id]) {
        DeleteDoomed(s, id, pending);
        PruneFacts(Delete(s, id), pending - {id});
        PrunedNext(s, pending, id, Delete(s, id), Prune(s, pending));
      } else {
        PruneFacts(s, pending - {id});
        PrunedSkip(s, pending, id, Prune(s, pending));
      }
    }
  }

  lemma NothingPruned(s: State)
    ensures Pruned(s, {}, s)
  {
  }

  lemma NewLoadedIds(st: Stream, base: State, a: State)
    requires Complete(st) && NewLoaded(st, base, a, st.nNew)
    ensures TriedIds(a.mapInfo) == {} && |NewIds(a.mapInfo)| == st.nNew
    ensures forall id | id in a.mapInfo :: a.mapInfo[id].refCount == 0 && !a.mapInfo[id].inTried
  {
    forall id | id in a.mapInfo ensures a.mapInfo[id].refCount == 0 && !a.mapInfo[id].inTried {
      assert a.mapInfo[id] == Restore(st.newInfos[id]).(randomPos := id);
    }
    assert NewIds(a.mapInfo) == Below(st.nNew);
  }

  lemma TriedLoadedIds(st: Stream, a: State, b: State)
    requires Complete(st) && TriedLoaded(st, a, b, st.nTried)
    requires forall id | id in a.mapInfo :: a.mapInfo[id].refCount == 0 && !a.mapInfo[id].inTried
    ensures NewIds(b.mapInfo) == NewIds(a.mapInfo)
    ensures forall id | id in b.mapInfo :: b.mapInfo[id].refCount == 0
  {
    forall id | id in b.mapInfo
      ensures b.mapInfo[id].inTried <==> id !in a.mapInfo
      ensures b.mapInfo[id].refCount == 0
    {
      if id in a.mapInfo {
        assert b.mapInfo[id] == a.mapInfo[id];
      }
    }
    forall id | id in NewIds(a.mapInfo) ensures id in NewIds(b.mapInfo) {
      assert id in a.mapInfo && b.mapInfo[id] == a.mapInfo[id];
    }
    forall id | id in NewIds(b.mapInfo) ensures id in NewIds(a.mapInfo) {
      assert id in b.mapInfo && !b.mapInfo[id].inTried;
      assert id in a.mapInfo && b.mapInfo[id] == a.mapInfo[id];
    }
  }

  lemma SettledIds(s: State, r: State)
    requires exists n: nat :: Settled(s, r, n)
    ensures NewIds(r.mapInfo) == NewIds(s.mapInfo) && TriedIds(r.mapInfo) == TriedIds(s.mapInfo)
    ensures forall id | id in r.mapInfo :: r.mapInfo[id].refCount <= 1
  {
    forall id | id in s.mapInfo ensures r.mapInfo[id].inTried == s.mapInfo[id].inTried {
    }
  }

  lemma SettledLoading(s: State, r: State, n: nat)
    requires AddrLast(s.mapInfo, s.mapAddr) && Settled(s, r, n)
    ensures AddrLast(r.mapInfo, r.mapAddr)
  {
    forall id | id in s.mapInfo ensures r.mapInfo[id].addr == s.mapInfo[id].addr {
    }
  }

  /** The table before pruning: right but for repeated addresses and for new entries without a slot. */
  lemma LoadTablesFacts(st: Stream, cfg: Config, collisions: set<Id>)
    requires Complete(st)
    ensures var c := LoadTables(st, cfg, collisions);
            && InvButAddr(c, c.mapInfo.Keys) && AddrLast(c.mapInfo, c.mapAddr)
            && Settled(LoadEntries(st, cfg, collisions), c, st.nNew)
  {
    hide Links, LoadNew, LoadTried, SettleAll, NoteBuckets, AddrLast, KnownBucketsExist, SameBucketing;
    var base := Blank(st, cfg, collisions);
    LoadNewStage(st, cfg, collisions, st.nNew);
    var a := LoadNew(st, base, st.nNew);
    NewLoadedIds(st, base, a);
    LoadTriedStage(st, a, st.nTried);
    var b := LoadTried(st, a, st.nTried);
    TriedLoadedIds(st, a, b);
    var count := Max(0, BucketCount(st));
    NoteBucketsRange(st, count, count);
    assert SameBucketing(st, b.cfg) ==> count == NEW_BUCKET_COUNT by { SameCount(st, b.cfg); }
    SettleAllFacts(st, b, NoteBuckets(st, count), st.nNew);
    var c := SettleAll(st, b, NoteBuckets(st, count), st.nNew);
    SettledIds(b, c);
    SettledLoading(b, c, st.nNew);
  }

  lemma SameCount(st: Stream, cfg: Config)
    ensures SameBucketing(st, cfg) ==> BucketCount(st) == NEW_BUCKET_COUNT
  {
  }

  /** Of two entries with one address, both are without a slot. */
  ghost predicate RepeatsVanish(m: map<Id, AddrInfo>) {
    forall a, b | a in m && b in m && a != b && m[a].addr.ip == m[b].addr.ip :: Doomed(m[a])
  }

  lemma IndexForbidsRepeats(s: State, r: State)
    requires Pruned(s, s.mapInfo.Keys, r) && AddrIndex(r.mapInfo, r.mapAddr)
    ensures RepeatsVanish(s.mapInfo)
  {
    var m := s.mapInfo;
    forall a, b | a in m && b in m && a != b && m[a].addr.ip == m[b].addr.ip ensures Doomed(m[a]) {
      assert a in r.mapInfo <==> !Doomed(m[a]);
      assert b in r.mapInfo <==> !Doomed(m[b]);
    }
  }

  lemma NoRepeatsNoGaps(s: State, r: State)
    requires AddrLast(s.mapInfo, s.mapAddr) && Pruned(s, s.mapInfo.Keys, r) && RepeatsVanish(s.mapInfo)
    ensures AddrIndex(r.mapInfo, r.mapAddr)
  {
    var m := s.mapInfo;
    forall id | id in r.mapInfo ensures r.mapInfo[id].addr.ip in r.mapAddr && r.mapAddr[r.mapInfo[id].addr.ip] == id {
      var k := s.mapAddr[m[id].addr.ip];
      assert k in m && m[k].addr.ip == m[id].addr.ip;
    }
    forall ip | ip in r.mapAddr ensures r.mapAddr[ip] in r.mapInfo && r.mapInfo[r.mapAddr[ip]].addr.ip == ip {
      var k := s.mapAddr[ip];
      assert k in m && m[k].addr.ip == ip;
    }
  }

  /** Pruning leaves the index by address right exactly if no entry that stays has a double. */
  lemma PrunedIndex(s: State, r: State)
    requires AddrLast(s.mapInfo, s.mapAddr) && Pruned(s, s.mapInfo.Keys, r)
    ensures AddrIndex(r.mapInfo, r.mapAddr) <==> RepeatsVanish(s.mapInfo)
  {
    hide AddrLast, Pruned, AddrIndex, RepeatsVanish;
    if RepeatsVanish(s.mapInfo) {
      NoRepeatsNoGaps(s, r);
    } else if AddrIndex(r.mapInfo, r.mapAddr) {
      IndexForbidsRepeats(s, r);
    }
  }

  /**
   * Loading a complete stream gives a consistent table exactly when, among the
   * entries read, none that keeps a slot shares its address with another one.
   * All that can be wrong otherwise is the index by address.
   */
  lemma LoadExactly(st: Stream, cfg: Config, collisions: set<Id>)
    requires Complete(st)
    ensures InvButAddr(Load(st, cfg, collisions), {})
    ensures Inv(Load(st, cfg, collisions)) <==> RepeatsVanish(LoadTables(st, cfg, collisions).mapInfo)
  {
    hide Links, Tables, LoadTables, Prune, RefBounds, Counters, AddrLast, Pruned, RepeatsVanish, AddrIndex;
    var c := LoadTables(st, cfg, collisions);
    LoadTablesFacts(st, cfg, collisions);
    PruneFacts(c, c.mapInfo.Keys);
    var r := Load(st, cfg, collisions);
    PrunedIndex(c, r);
    TablesAreLinks(r);
  }

  /** In particular for every complete stream without a repeated address. */
  lemma LoadIsConsistent(st: Stream, cfg: Config, collisions: set<Id>)
    requires Complete(st) && DistinctAddresses(st)
    ensures Inv(Load(st, cfg, collisions))
  {
    hide Tables, LoadNew, LoadTried, LoadTables, Load, InvWith, InvButAddr;
    var base := Blank(st, cfg, collisions);
    LoadNewFacts(st, cfg, collisions, st.nNew);
    var a := LoadNew(st, base, st.nNew);
    NewLoadedIds(st, base, a);
    LoadTriedFacts(st, base, a, st.nTried);
    var b := LoadEntries(st, cfg, collisions);
    AddressesDiffer(b);
    LoadTablesFacts(st, cfg, collisions);
    var c := LoadTables(st, cfg, collisions);
    assert forall id | id in c.mapInfo :: id in b.mapInfo && c.mapInfo[id].addr == b.mapInfo[id].addr;
    LoadExactly(st, cfg, collisions);
  }

  lemma AddressesDiffer(s: State)
    requires Tables(s)
    ensures forall a, b | a in s.mapInfo && b in s.mapInfo && a != b :: s.mapInfo[a].addr.ip != s.mapInfo[b].addr.ip
  {
  }

  /**
   * A stream with one new and one tried entry of the same network address:
   * both stay, and the table is not consistent.
   */
  lemma RepeatSpoilsIndex(cfg: Config, ip: NetAddr, time: int)
    ensures var one, two := Stored(Service(ip, 1), {}, time, ip, time, 0), Stored(Service(ip, 2), {}, time, ip, time, 0);
            var st := Stream(FILE_FORMAT, INCOMPATIBILITY_BASE + V3_BIP155, cfg.key, 1, 1, BIT_30, [one], [two], [], 0);
            Accepted(st) && Complete(st) && !Inv(Load(st, cfg, {}))
  {
    hide Load, LoadTables, InvButAddr, AddrLast, InvWith;
    var one, two := Stored(Service(ip, 1), {}, time, ip, time, 0), Stored(Service(ip, 2), {}, time, ip, time, 0);
    var st := Stream(FILE_FORMAT, INCOMPATIBILITY_BASE + V3_BIP155, cfg.key, 1, 1, BIT_30, [one], [two], [], 0);
    assert BucketCount(st) == 0;
    LoadTablesFacts(st, cfg, {});
    LoadExactly(st, cfg, {});
    var base := Blank(st, cfg, {});
    var a := LoadNew(st, base, 1);
    assert LoadNew(st, base, 0) == base && a == Insert(base, Restore(one));
    var b := LoadEntries(st, cfg, {});
    assert LoadTried(st, a, 0) == a && b == LoadTriedOne(Restore(two), a);
    assert b.mapInfo[0].addr.ip == ip && b.mapInfo[1].addr.ip == ip && b.mapInfo[1].inTried;
    var c := LoadTables(st, cfg, {});
    assert c.mapInfo[0].addr.ip == ip && c.mapInfo[1].addr.ip == ip && c.mapInfo[1].inTried;
  }
}
