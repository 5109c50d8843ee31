/**
 * The state of the address manager: one table of entries and the five indexes
 * that point into it, the hash placement of entries into buckets, and the
 * consistency invariant that ties the indexes together.
 */
module AddrManState {
  const TRIED_BUCKET_COUNT := 256
  const NEW_BUCKET_COUNT := 1024
  const BUCKET_SIZE := 64
  const TRIED_BUCKETS_PER_GROUP := 8
  const NEW_BUCKETS_PER_SOURCE_GROUP := 64
  const NEW_BUCKETS_PER_ADDRESS := 8
  const HORIZON_DAYS := 30
  const RETRIES := 3
  const MAX_FAILURES := 10
  const MIN_FAIL_DAYS := 7
  const REPLACEMENT_HOURS := 4
  const TRIED_COLLISION_SIZE := 10
  const TEST_WINDOW := 40 * 60
  const TWO_TO_THE_32 := 0x1_0000_0000

  // Network addresses, address groups and the secret key are opaque identities.
  type NetAddr = int
  type Group = int
  type Key = int
  type Asmap = seq<bool>
  type Id = int

  // A set of service bits.
  type Services = set<nat>

  // A table slot: bucket and position in the bucket.
  type Slot = (int, int)

  datatype Service = Service(ip: NetAddr, port: int)

  /** An announced address: where, which services, and when last seen. */
  datatype Address = Address(service: Service, services: Services, time: int)

  /** The keyed hash functions, and the map from addresses to groups. */
  datatype Hashing = Hashing(
    group: (NetAddr, Asmap) -> Group,
    triedSpread: (Key, Service) -> nat,
    triedHash: (Key, Group, nat) -> nat,
    newSpread: (Key, Group, Group) -> nat,
    newHash: (Key, Group, nat) -> nat,
    positionHash: (Key, bool, int, Service) -> nat,
    asmapHash: Asmap -> int)

  datatype Config = Config(key: Key, asmap: Asmap, hashing: Hashing)
  {
    function TriedBucket(addr: Service): (b: int)
      ensures 0 <= b < TRIED_BUCKET_COUNT
    {
      var spread := hashing.triedSpread(key, addr) % TRIED_BUCKETS_PER_GROUP;
      hashing.triedHash(key, hashing.group(addr.ip, asmap), spread) % TRIED_BUCKET_COUNT
    }

    function NewBucket(addr: Service, source: NetAddr): (b: int)
      ensures 0 <= b < NEW_BUCKET_COUNT
    {
      var sourceGroup := hashing.group(source, asmap);
      var spread := hashing.newSpread(key, hashing.group(addr.ip, asmap), sourceGroup) % NEW_BUCKETS_PER_SOURCE_GROUP;
      hashing.newHash(key, sourceGroup, spread) % NEW_BUCKET_COUNT
    }

    function BucketPosition(addr: Service, isNew: bool, bucket: int): (p: int)
      ensures 0 <= p < BUCKET_SIZE
    {
      hashing.positionHash(key, isNew, bucket, addr) % BUCKET_SIZE
    }

    /** What identifies the asmap in a stored table; 0 when there is none. */
    function AsmapVersion(): int {
      if |asmap| != 0 then hashing.asmapHash(asmap) else 0
    }

    /** The one tried slot an address may occupy. */
    function TriedSlot(addr: Service): Slot {
      var b := TriedBucket(addr);
      (b, BucketPosition(addr, false, b))
    }

    /** The one slot of a new bucket that an address may occupy. */
    function NewSlot(addr: Service, bucket: int): Slot {
      (bucket, BucketPosition(addr, true, bucket))
    }
  }

  datatype AddrInfo = AddrInfo(
    addr: Service,
    services: Services,
    time: int,
    source: NetAddr,
    lastTry: int,
    lastCountAttempt: int,
    lastSuccess: int,
    attempts: int,
    refCount: int,
    inTried: bool,
    randomPos: int)
  {
    /** Are the statistics of this entry bad enough to delete it? */
    predicate IsTerrible(now: int) {
      if lastTry != 0 && lastTry >= now - 60 then false
      else if time > now + 10 * 60 then true
      else if time == 0 || now - time > HORIZON_DAYS * 24 * 60 * 60 then true
      else if lastSuccess == 0 && attempts >= RETRIES then true
      else now - lastSuccess > MIN_FAIL_DAYS * 24 * 60 * 60 && attempts >= MAX_FAILURES
    }
  }

  /** The tables are kept as maps from the slots in use; an empty slot is absent. */
  datatype State = State(
    cfg: Config,
    nIdCount: nat,
    mapInfo: map<Id, AddrInfo>,
    mapAddr: map<NetAddr, Id>,
    vRandom: seq<Id>,
    nTried: int,
    nNew: int,
    triedSlots: map<Slot, Id>,
    newSlots: map<Slot, Id>,
    lastGood: int,
    collisions: set<Id>)

  ghost function EmptyState(cfg: Config, collisions: set<Id>): State {
    State(cfg, 0, map[], map[], [], 0, 0, map[], map[], 1, collisions)
  }

  // The slots of the new table that hold an id.
  ghost function Refs(table: map<Slot, Id>, id: Id): set<Slot> {
    set slot | slot in table && table[slot] == id
  }

  ghost function TriedIds(m: map<Id, AddrInfo>): set<Id> {
    set id | id in m && m[id].inTried
  }

  ghost function NewIds(m: map<Id, AddrInfo>): set<Id> {
    set id | id in m && !m[id].inTried
  }

  /******* The invariant, one predicate per index *******/

  ghost predicate IdsBelow(mapInfo: map<Id, AddrInfo>, count: int) {
    forall id | id in mapInfo :: 0 <= id < count
  }

  /** mapAddr is exactly the inverse of the addresses in mapInfo. */
  ghost predicate AddrIndex(mapInfo: map<Id, AddrInfo>, mapAddr: map<NetAddr, Id>) {
    && (forall id | id in mapInfo :: mapInfo[id].addr.ip in mapAddr && mapAddr[mapInfo[id].addr.ip] == id)
    && (forall ip | ip in mapAddr :: var id := mapAddr[ip]; id in mapInfo && mapInfo[id].addr.ip == ip)
  }

  /** vRandom lists every id exactly once, and randomPos is its inverse. */
  ghost predicate RandomIndex(mapInfo: map<Id, AddrInfo>, vRandom: seq<Id>) {
    && (forall id | id in mapInfo :: 0 <= mapInfo[id].randomPos < |vRandom| && vRandom[mapInfo[id].randomPos] == id)
    && (forall i | 0 <= i < |vRandom| :: var id := vRandom[i]; id in mapInfo && mapInfo[id].randomPos == i)
  }

  /** The tried table holds exactly the tried entries, each at its hash slot. */
  ghost predicate TriedTable(cfg: Config, mapInfo: map<Id, AddrInfo>, slots: map<Slot, Id>) {
    && (forall slot | slot in slots ::
          var id := slots[slot];
          id in mapInfo && mapInfo[id].inTried && slot == cfg.TriedSlot(mapInfo[id].addr))
    && (forall id | id in mapInfo && mapInfo[id].inTried ::
          && cfg.TriedSlot(mapInfo[id].addr) in slots
          && slots[cfg.TriedSlot(mapInfo[id].addr)] == id)
  }

  /** The new table holds only new entries, each at its hash position. */
  ghost predicate NewTable(cfg: Config, mapInfo: map<Id, AddrInfo>, slots: map<Slot, Id>) {
    forall slot | slot in slots ::
      var id := slots[slot];
      && 0 <= slot.0 < NEW_BUCKET_COUNT
      && id in mapInfo && !mapInfo[id].inTried
      && slot == cfg.NewSlot(mapInfo[id].addr, slot.0)
  }

  /** Reference counts are the numbers of new slots held. */
  ghost predicate RefCounts(mapInfo: map<Id, AddrInfo>, slots: map<Slot, Id>) {
    forall id | id in mapInfo :: mapInfo[id].refCount == |Refs(slots, id)|
  }

  /** All of the pointers and counts that every step of an operation keeps. */
  ghost predicate Tables(s: State) {
    && IdsBelow(s.mapInfo, s.nIdCount)
    && AddrIndex(s.mapInfo, s.mapAddr)
    && RandomIndex(s.mapInfo, s.vRandom)
    && TriedTable(s.cfg, s.mapInfo, s.triedSlots)
    && NewTable(s.cfg, s.mapInfo, s.newSlots)
    && RefCounts(s.mapInfo, s.newSlots)
  }

  /** The same without the index by address. */
  ghost predicate Links(s: State) {
    && IdsBelow(s.mapInfo, s.nIdCount)
    && RandomIndex(s.mapInfo, s.vRandom)
    && TriedTable(s.cfg, s.mapInfo, s.triedSlots)
    && NewTable(s.cfg, s.mapInfo, s.newSlots)
    && RefCounts(s.mapInfo, s.newSlots)
  }

  /**
   * A new entry holds between one and eight slots.  An id in loose is between
   * tables, and is the only kind that may hold no slot at all.
   */
  ghost predicate RefBounds(s: State, loose: set<Id>) {
    forall id | id in s.mapInfo ::
      && (s.mapInfo[id].inTried || id in loose || 1 <= s.mapInfo[id].refCount)
      && s.mapInfo[id].refCount <= NEW_BUCKETS_PER_ADDRESS
  }

  /** The counters; off is the number of new entries not counted at the moment. */
  ghost predicate Counters(s: State, off: int) {
    && s.nTried == |TriedIds(s.mapInfo)|
    && s.nNew == |NewIds(s.mapInfo)| - off
  }

  /** The invariant in the middle of an operation. */
  ghost predicate InvWith(s: State, loose: set<Id>, off: int) {
    && Tables(s)
    && RefBounds(s, loose)
    && Counters(s, off)
  }

  /** The invariant between operations. */
  ghost predicate Inv(s: State) {
    InvWith(s, {}, 0)
  }

  /** The part of the consistency check that speaks about times. */
  ghost predicate TimesOk(s: State) {
    forall id | id in s.mapInfo ::
      && s.mapInfo[id].lastTry >= 0
      && s.mapInfo[id].lastSuccess >= 0
      && (s.mapInfo[id].inTried ==> s.mapInfo[id].lastSuccess != 0)
  }

  /** A collision candidate that is still known has an occupied tried slot. */
  ghost predicate CollisionsOk(s: State) {
    forall id | id in s.collisions ::
      && id < s.nIdCount
      && (id in s.mapInfo ==> s.cfg.TriedSlot(s.mapInfo[id].addr) in s.triedSlots)
  }
}
