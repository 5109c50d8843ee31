/**
 * Storing the address manager and loading it again.  A stored table keeps the
 * entries and, per new bucket, the numbers of the entries in it; all the
 * indexes are rebuilt from that.
 */
module AddrManStorage {
  import opened AddrManState
  import opened AddrManOps
  import opened SetFacts

  const V1_DETERMINISTIC := 1
  const V2_ASMAP := 2
  const V3_BIP155 := 3
  const FILE_FORMAT := V3_BIP155
  const INCOMPATIBILITY_BASE := 32
  const BIT_30 := 0x4000_0000

  /** The fields of an entry that are stored. */
  datatype Stored = Stored(addr: Service, services: Services, time: int, source: NetAddr, lastSuccess: int, attempts: int)

  /** The records of a stored table, in the order they are written. */
  datatype Stream = Stream(
    format: int,
    compat: int,
    key: Key,
    nNew: nat,
    nTried: nat,
    nUBuckets: int,
    newInfos: seq<Stored>,
    triedInfos: seq<Stored>,
    buckets: seq<seq<int>>,
    asmapVersion: int)

  function Store(info: AddrInfo): Stored {
    Stored(info.addr, info.services, info.time, info.source, info.lastSuccess, info.attempts)
  }

  /** An entry as it comes out of storage: the fields kept in memory only are reset. */
  function Restore(st: Stored): AddrInfo {
    AddrInfo(st.addr, st.services, st.time, st.source, 0, 0, st.lastSuccess, st.attempts, 0, false, -1)
  }

  function FlipBit30(n: int): int {
    if (n / BIT_30) % 2 == 0 then n + BIT_30 else n - BIT_30
  }

  /******* Writing *******/

  ghost function Ascending(ids: set<Id>): (r: seq<Id>)
    ensures |r| == |ids|
    ensures forall i | 0 <= i < |r| :: r[i] in ids
    ensures forall i, j | 0 <= i < j < |r| :: r[i] < r[j]
    decreases |ids|
  {
    if |ids| == 0 then []
    else
      var id := Least(ids);
      [id] + Ascending(ids - {id})
  }

  /** The number of smaller members: the place of an id in ascending order. */
  ghost function Rank(ids: set<Id>, id: Id): nat {
    |set k | k in ids && k < id|
  }

  ghost function StoreAll(m: map<Id, AddrInfo>, ids: seq<Id>): (r: seq<Stored>)
    requires forall i | 0 <= i < |ids| :: ids[i] in m
    ensures |r| == |ids| && forall i | 0 <= i < |ids| :: r[i] == Store(m[ids[i]])
  {
    if ids == [] then [] else [Store(m[ids[0]])] + StoreAll(m, ids[1..])
  }

  /** The entries that are written as new ones. */
  ghost function Referenced(m: map<Id, AddrInfo>): set<Id> {
    set id | id in m && m[id].refCount != 0
  }

  /** The numbers of the entries in one new bucket, from a position on. */
  ghost function BucketFrom(slots: map<Slot, Id>, ids: set<Id>, bucket: int, pos: nat): seq<int>
    decreases BUCKET_SIZE - pos
  {
    if pos >= BUCKET_SIZE then []
    else
      (if (bucket, pos) in slots then [Rank(ids, slots[(bucket, pos)])] else [])
      + BucketFrom(slots, ids, bucket, pos + 1)
  }

  ghost function BucketsFrom(slots: map<Slot, Id>, ids: set<Id>, bucket: nat): (r: seq<seq<int>>)
    ensures bucket <= NEW_BUCKET_COUNT ==> |r| == NEW_BUCKET_COUNT - bucket
    ensures forall i | 0 <= i < |r| :: r[i] == BucketFrom(slots, ids, bucket + i, 0)
    decreases NEW_BUCKET_COUNT - bucket
  {
    if bucket >= NEW_BUCKET_COUNT then []
    else [BucketFrom(slots, ids, bucket, 0)] + BucketsFrom(slots, ids, bucket + 1)
  }

  ghost function Save(s: State): (st: Stream)
    requires 0 <= s.nNew && 0 <= s.nTried
  {
    Stream(FILE_FORMAT, INCOMPATIBILITY_BASE + V3_BIP155, s.cfg.key, s.nNew, s.nTried, FlipBit30(NEW_BUCKET_COUNT),
           StoreAll(s.mapInfo, Ascending(Referenced(s.mapInfo))),
           StoreAll(s.mapInfo, Ascending(TriedIds(s.mapInfo))),
           BucketsFrom(s.newSlots, Referenced(s.mapInfo), 0),
           s.cfg.AsmapVersion())
  }

  /******* Reading *******/

  /** The number of new buckets, whichever way the format writes it. */
  function BucketCount(st: Stream): int {
    if st.format >= V1_DETERMINISTIC then FlipBit30(st.nUBuckets) else st.nUBuckets
  }

  /** The stream holds as many records as its counts announce. */
  predicate Complete(st: Stream) {
    && |st.newInfos| == st.nNew
    && |st.triedInfos| == st.nTried
    && BucketCount(st) <= |st.buckets|
  }

  /** The conditions under which loading goes ahead. */
  predicate Accepted(st: Stream) {
    && (st.compat - INCOMPATIBILITY_BASE) % 256 <= FILE_FORMAT
    && st.nNew <= NEW_BUCKET_COUNT * BUCKET_SIZE
    && st.nTried <= TRIED_BUCKET_COUNT * BUCKET_SIZE
  }

  /** After the first n new entries. */
  ghost function LoadNew(st: Stream, s: State, n: nat): (r: State)
    requires n <= |st.newInfos|
  {
    if n == 0 then s else Insert(LoadNew(st, s, n - 1), Restore(st.newInfos[n - 1]))
  }

  lemma LoadNewStart(st: Stream, s: State)
    ensures LoadNew(st, s, 0) == s
  {
  }

  lemma LoadNewStep(st: Stream, s: State, n: nat)
    requires n < |st.newInfos|
    ensures LoadNew(st, s, n + 1) == Insert(LoadNew(st, s, n), Restore(st.newInfos[n]))
  {
  }

  /** One tried entry: entered if its slot is free, lost otherwise. */
  ghost function LoadTriedOne(info: AddrInfo, s: State): (r: State) {
    var slot := s.cfg.TriedSlot(info.addr);
    if slot in s.triedSlots then s.(nTried := s.nTried - 1)
    else Place(Insert(s, info), s.nIdCount, slot).(nTried := s.nTried)
  }

  ghost function LoadTried(st: Stream, s: State, n: nat): (r: State)
    requires n <= |st.triedInfos|
  {
    if n == 0 then s else LoadTriedOne(Restore(st.triedInfos[n - 1]), LoadTried(st, s, n - 1))
  }

  /** The last bucket seen for each entry, after part of a bucket. */
  ghost function NoteBucket(entries: seq<int>, nNew: nat, bucket: int, known: map<int, int>, n: nat): map<int, int>
    requires n <= |entries|
  {
    if n == 0 then known
    else
      var before := NoteBucket(entries, nNew, bucket, known, n - 1);
      if 0 <= entries[n - 1] < nNew then before[entries[n - 1] := bucket] else before
  }

  ghost function NoteBuckets(st: Stream, b: nat): map<int, int>
    requires b <= |st.buckets|
  {
    if b == 0 then map[]
    else NoteBucket(st.buckets[b - 1], st.nNew, b - 1, NoteBuckets(st, b - 1), |st.buckets[b - 1]|)
  }

  /** Can the stored buckets be used as they are? */
  predicate SameBucketing(st: Stream, cfg: Config) {
    st.format >= V2_ASMAP && BucketCount(st) == NEW_BUCKET_COUNT &&
    (if st.format >= V2_ASMAP then st.asmapVersion else 0) == cfg.AsmapVersion()
  }

  /** Give a new entry the slot of its stored bucket, or else its home slot if free. */
  ghost function Settle(s: State, id: Id, bucket: int, same: bool): (r: State) {
    if id !in s.mapInfo then s
    else
      var info := s.mapInfo[id];
      var slot := s.cfg.NewSlot(info.addr, bucket);
      if same && slot !in s.newSlots && info.refCount < NEW_BUCKETS_PER_ADDRESS then IncRef(s, id, slot)
      else if HomeSlot(s, id) !in s.newSlots then IncRef(s, id, HomeSlot(s, id))
      else s
  }

  ghost function SettleAll(st: Stream, s: State, known: map<int, int>, n: nat): (r: State) {
    if n == 0 then s
    else
      Settle(SettleAll(st, s, known, n - 1), n - 1, if n - 1 in known then known[n - 1] else 0, SameBucketing(st, s.cfg))
  }

  /** Remove the new entries that got no slot, in increasing order. */
  ghost function Prune(s: State, pending: set<Id>): (r: State)
    requires RandomIndex(s.mapInfo, s.vRandom)
    decreases |pending|
  {
    if |pending| == 0 then s
    else
      var id := Least(pending);
      if id in s.mapInfo && !s.mapInfo[id].inTried && s.mapInfo[id].refCount == 0
      then Prune(Delete(s, id), pending - {id})
      else Prune(s, pending - {id})
  }

  /** A cleared table that has taken over the key and the counts of a stream. */
  ghost function Blank(st: Stream, cfg: Config, collisions: set<Id>): State {
    EmptyState(Config(st.key, cfg.asmap, cfg.hashing), collisions).(nNew := st.nNew, nTried := st.nTried)
  }

  lemma {:induction false} LoadNewRandom(st: Stream, s: State, n: nat)
    requires n <= |st.newInfos| && s.nIdCount == 0 && s.mapInfo == map[] && s.vRandom == []
    ensures var r := LoadNew(st, s, n);
            && RandomIndex(r.mapInfo, r.vRandom) && IdsBelow(r.mapInfo, r.nIdCount)
            && r.nIdCount == n && (forall i | 0 <= i < n :: i in r.mapInfo)
  {
    if n != 0 {
      LoadNewRandom(st, s, n - 1);
      var t := LoadNew(st, s, n - 1);
      var info := Restore(st.newInfos[n - 1]);
      RandomIndexAppend(t.mapInfo, t.vRandom, t.nIdCount, info.(randomPos := |t.vRandom|));
    }
  }

  lemma LoadTriedOneRandom(info: AddrInfo, s: State)
    requires RandomIndex(s.mapInfo, s.vRandom) && IdsBelow(s.mapInfo, s.nIdCount)
    ensures var r := LoadTriedOne(info, s);
            && RandomIndex(r.mapInfo, r.vRandom) && IdsBelow(r.mapInfo, r.nIdCount)
            && s.mapInfo.Keys <= r.mapInfo.Keys
  {
    hide RandomIndex;
    var entered := info.(randomPos := |s.vRandom|, inTried := true);
    RandomIndexAppend(s.mapInfo, s.vRandom, s.nIdCount, entered);
    if s.cfg.TriedSlot(info.addr) !in s.triedSlots {
      assert LoadTriedOne(info, s).mapInfo == s.mapInfo[s.nIdCount := entered];
    }
  }

  lemma {:induction false} LoadTriedRandom(st: Stream, s: State, n: nat)
    requires n <= |st.triedInfos| && RandomIndex(s.mapInfo, s.vRandom) && IdsBelow(s.mapInfo, s.nIdCount)
    ensures var r := LoadTried(st, s, n);
            && RandomIndex(r.mapInfo, r.vRandom) && IdsBelow(r.mapInfo, r.nIdCount)
            && s.mapInfo.Keys <= r.mapInfo.Keys
  {
    hide RandomIndex, IdsBelow, LoadTriedOne;
    if n != 0 {
      LoadTriedRandom(st, s, n - 1);
      LoadTriedOneRandom(Restore(st.triedInfos[n - 1]), LoadTried(st, s, n - 1));
    }
  }

  lemma SettleRandom(s: State, id: Id, bucket: int, same: bool)
    requires RandomIndex(s.mapInfo, s.vRandom)
    ensures var r := Settle(s, id, bucket, same);
            RandomIndex(r.mapInfo, r.vRandom) && r.mapInfo.Keys == s.mapInfo.Keys
  {
  }

  lemma {:induction false} SettleAllRandom(st: Stream, s: State, known: map<int, int>, n: nat)
    requires RandomIndex(s.mapInfo, s.vRandom)
    ensures var r := SettleAll(st, s, known, n);
            RandomIndex(r.mapInfo, r.vRandom) && r.mapInfo.Keys == s.mapInfo.Keys
  {
    hide RandomIndex, Settle;
    if n != 0 {
      SettleAllRandom(st, s, known, n - 1);
      SettleRandom(SettleAll(st, s, known, n - 1), n - 1,
                   if n - 1 in known then known[n - 1] else 0, SameBucketing(st, s.cfg));
    }
  }

  ghost function LoadEntries(st: Stream, cfg: Config, collisions: set<Id>): (r: State)
    requires Complete(st)
  {
    LoadTried(st, LoadNew(st, Blank(st, cfg, collisions), st.nNew), st.nTried)
  }

  ghost function LoadTables(st: Stream, cfg: Config, collisions: set<Id>): (r: State)
    requires Complete(st)
    ensures RandomIndex(r.mapInfo, r.vRandom)
  {
    var loaded := LoadEntries(st, cfg, collisions);
    LoadNewRandom(st, Blank(st, cfg, collisions), st.nNew);
    LoadTriedRandom(st, LoadNew(st, Blank(st, cfg, collisions), st.nNew), st.nTried);
    var known := NoteBuckets(st, Max(0, BucketCount(st)));
    SettleAllRandom(st, loaded, known, st.nNew);
    SettleAll(st, loaded, known, st.nNew)
  }

  /** The table that a complete and accepted stream loads into. */
  ghost function Load(st: Stream, cfg: Config, collisions: set<Id>): (r: State)
    requires Complete(st)
  {
    var settled := LoadTables(st, cfg, collisions);
    Prune(settled, settled.mapInfo.Keys)
  }
}
