/**
 * The address manager itself: an object whose methods update its indexes in
 * place.  Each method is proved to do what the function of the same name in
 * AddrManOps says, and the assertions in the bodies are those of the node.
 */
module AddrManClass {
  import opened AddrManState
  import opened AddrManOps
  import opened AddrManProofs
  import opened AddrManRuns
  import opened AddrManStorage
  import opened AddrManLoad
  import opened AddrManCounts
  import opened AddrManRoundTrip
  import opened SetFacts
  import Arith
  import AddrManRepeats

  // An empty slot of a table.
  const NONE := -1

  /** The filled slots of a table. */
  ghost function Filled(a: array2<int>): map<Slot, Id>
    reads a
  {
    map b, p | 0 <= b < a.Length0 && 0 <= p < a.Length1 && a[b, p] != NONE :: (b, p) := a[b, p]
  }

  lemma FilledAt(a: array2<int>, slot: Slot, id: Id)
    requires 0 <= slot.0 < a.Length0 && 0 <= slot.1 < a.Length1 && id != NONE
    ensures a[slot.0, slot.1] == id <==> slot in Filled(a) && Filled(a)[slot] == id
  {
  }

  lemma SlotEmpty(a: array2<int>, slot: Slot)
    requires 0 <= slot.0 < a.Length0 && 0 <= slot.1 < a.Length1
    ensures a[slot.0, slot.1] == NONE <==> slot !in Filled(a)
  {
  }

  class AddrMan {
    const hashing: Hashing
    var key: Key
    var asmap: Asmap
    var nIdCount: nat
    var mapInfo: map<Id, AddrInfo>
    var mapAddr: map<NetAddr, Id>
    var vRandom: seq<Id>
    var nTried: int
    const vvTried: array2<int>
    var nNew: int
    const vvNew: array2<int>
    var lastGood: int
    var collisions: set<Id>

    ghost predicate Shape()
      reads this
    {
      && vvTried != vvNew
      && vvTried.Length0 == TRIED_BUCKET_COUNT && vvTried.Length1 == BUCKET_SIZE
      && vvNew.Length0 == NEW_BUCKET_COUNT && vvNew.Length1 == BUCKET_SIZE
    }

    ghost function View(): State
      reads this, vvTried, vvNew
    {
      State(Config(key, asmap, hashing), nIdCount, mapInfo, mapAddr, vRandom, nTried, nNew,
            Filled(vvTried), Filled(vvNew), lastGood, collisions)
    }

    function Cfg(): Config
      reads this
    {
      Config(key, asmap, hashing)
    }

    method SetSlot(a: array2<int>, slot: Slot, id: Id)
      requires 0 <= slot.0 < a.Length0 && 0 <= slot.1 < a.Length1 && id != NONE
      modifies a
      ensures Filled(a) == old(Filled(a))[slot := id]
    {
      a[slot.0, slot.1] := id;
    }

    method ClearSlot(a: array2<int>, slot: Slot)
      requires 0 <= slot.0 < a.Length0 && 0 <= slot.1 < a.Length1
      modifies a
      ensures Filled(a) == old(Filled(a)) - {slot}
    {
      a[slot.0, slot.1] := NONE;
    }

    method SwapRandom(i: int, j: int)
      requires RandomIndex(mapInfo, vRandom)
      requires 0 <= i < |vRandom| && 0 <= j < |vRandom|
      modifies this
      ensures View() == AddrManOps.SwapRandom(old(View()), i, j)
    {
      if i == j {
        return;
      }
      var a, b := vRandom[i], vRandom[j];
      assert a in mapInfo;
      assert b in mapInfo;
      mapInfo := mapInfo[a := mapInfo[a].(randomPos := j)];
      mapInfo := mapInfo[b := mapInfo[b].(randomPos := i)];
      vRandom := vRandom[i := b];
      vRandom := vRandom[j := a];
    }

    method Delete(id: Id)
      requires RandomIndex(mapInfo, vRandom)
      requires id in mapInfo && !mapInfo[id].inTried && mapInfo[id].refCount == 0
      modifies this
      ensures View() == AddrManOps.Delete(old(View()), id)
    {
      hide AddrManOps.SwapRandom;
      assert id in mapInfo;
      assert !mapInfo[id].inTried;
      assert mapInfo[id].refCount == 0;
      var ip := mapInfo[id].addr.ip;
      SwapRandom(mapInfo[id].randomPos, |vRandom| - 1);
      vRandom := vRandom[..|vRandom| - 1];
      mapAddr := mapAddr - {ip};
      mapInfo := mapInfo - {id};
      nNew := nNew - 1;
    }

    method Create(addr: Address, source: NetAddr) returns (id: Id)
      modifies this
      ensures View() == AddrManOps.Create(old(View()), addr, source)
      ensures id == old(nIdCount)
    {
      id := nIdCount;
      nIdCount := nIdCount + 1;
      mapInfo := mapInfo[id := NewInfo(addr, source, |vRandom|)];
      mapAddr := mapAddr[addr.service.ip := id];
      vRandom := vRandom + [id];
    }

    method ClearNew(slot: Slot)
      requires Shape() && Tables(View())
      requires 0 <= slot.0 < NEW_BUCKET_COUNT && 0 <= slot.1 < BUCKET_SIZE
      modifies this, vvNew
      ensures View() == AddrManOps.ClearNew(old(View()), slot)
    {
      hide Tables, AddrManOps.Delete;
      ghost var s := View();
      if vvNew[slot.0, slot.1] != NONE {
        var id := vvNew[slot.0, slot.1];
        assert s.newSlots[slot] == id;
        SlotHolderHasCount(s, slot);
        assert mapInfo[id].refCount > 0;
        DecRefKeepsTables(s, slot);
        mapInfo := mapInfo[id := mapInfo[id].(refCount := mapInfo[id].refCount - 1)];
        ClearSlot(vvNew, slot);
        assert View() == DecRef(s, slot);
        if mapInfo[id].refCount == 0 {
          NewSlotHoldsKnown(s, slot);
          TablesHaveRandomIndex(View());
          Delete(id);
        }
      }
    }
  
    /**
     * Take an entry out of all the new buckets, starting at its home bucket
     * and stopping as soon as its reference count says that none is left.
     */
    method RemoveFromNew(id: Id)
      requires Shape() && Tables(View()) && id in mapInfo && id != NONE
      requires mapInfo[id].refCount > 0
      modifies this, vvNew
      ensures View() == Unlink(old(View()), id)
    {
      hide Tables, Remaining, Filled, Refs, WithoutId;
      ghost var s := View();
      var addr := mapInfo[id].addr;
      var start := Cfg().NewBucket(addr, mapInfo[id].source);
      ghost var slots := s.newSlots;
      RemainingAtStart(slots, id, start);
      CountOf(s, id);
      var n := 0;
      while n < NEW_BUCKET_COUNT
        invariant 0 <= n <= NEW_BUCKET_COUNT
        invariant View() == s.(mapInfo := mapInfo, newSlots := Remaining(slots, id, start, n))
        invariant id in mapInfo && mapInfo == s.mapInfo[id := s.mapInfo[id].(refCount := mapInfo[id].refCount)]
        invariant mapInfo[id].refCount == |Refs(Remaining(slots, id, start, n), id)|
      {
        var bucket := (start + n) % NEW_BUCKET_COUNT;
        var pos := Cfg().BucketPosition(addr, true, bucket);
        RemainingNext(s, id, start, n);
        FilledAt(vvNew, (bucket, pos), id);
        if vvNew[bucket, pos] == id {
          ClearSlot(vvNew, (bucket, pos));
          mapInfo := mapInfo[id := mapInfo[id].(refCount := mapInfo[id].refCount - 1)];
          if mapInfo[id].refCount == 0 {
            NothingRemains(slots, id, start, n + 1);
            nNew := nNew - 1;
            return;
          }
        }
        n := n + 1;
      }
      AllVisited(s, id, start);
      nNew := nNew - 1;
    }

    /** Move the entry in a tried slot, if any, back to its home slot in the new table. */
    method EvictTried(slot: Slot)
      requires Shape() && Tables(View())
      requires 0 <= slot.0 < TRIED_BUCKET_COUNT && 0 <= slot.1 < BUCKET_SIZE
      modifies this, vvTried, vvNew
      ensures View() == MakeRoom(old(View()), slot)
    {
      hide Tables, Filled, AddrManOps.ClearNew;
      ghost var s := View();
      SlotEmpty(vvTried, slot);
      if vvTried[slot.0, slot.1] != NONE {
        var evicted := vvTried[slot.0, slot.1];
        FilledAt(vvTried, slot, evicted);
        TriedSlotHoldsTried(s, slot);
        assert evicted in mapInfo;
        RetireKeepsTables(s, slot);
        mapInfo := mapInfo[evicted := mapInfo[evicted].(inTried := false)];
        ClearSlot(vvTried, slot);
        nTried := nTried - 1;
        assert View() == Retire(s, slot);

        var info := mapInfo[evicted];
        var home := Cfg().NewSlot(info.addr, Cfg().NewBucket(info.addr, info.source));
        ClearNew(home);
        SlotEmpty(vvNew, home);
        assert vvNew[home.0, home.1] == NONE;

        mapInfo := mapInfo[evicted := mapInfo[evicted].(refCount := 1)];
        SetSlot(vvNew, home, evicted);
        nNew := nNew + 1;
      }
    }

    method MakeTried(id: Id)
      requires Shape() && Tables(View())
      requires id in mapInfo && !mapInfo[id].inTried && mapInfo[id].refCount > 0
      modifies this, vvTried, vvNew
      ensures View() == AddrManOps.MakeTried(old(View()), id)
    {
      hide Tables, Filled, MakeRoom;
      IdsAreBelow(View());
      UnlinkKeepsTables(View(), id);
      MakeRoomSpares(Unlink(View(), id), Cfg().TriedSlot(mapInfo[id].addr), id);
      RemoveFromNew(id);
      assert mapInfo[id].refCount == 0;
      var bucket := Cfg().TriedBucket(mapInfo[id].addr);
      var pos := Cfg().BucketPosition(mapInfo[id].addr, false, bucket);
      EvictTried((bucket, pos));
      SlotEmpty(vvTried, (bucket, pos));
      assert vvTried[bucket, pos] == NONE;
      SetSlot(vvTried, (bucket, pos), id);
      nTried := nTried + 1;
      mapInfo := mapInfo[id := mapInfo[id].(inTried := true)];
    }

    method Find(ip: NetAddr) returns (found: bool, id: Id)
      ensures found <==> Knows(View(), ip)
      ensures found ==> id == mapAddr[ip]
    {
      found, id := false, NONE;
      if ip in mapAddr {
        id := mapAddr[ip];
        found := id in mapInfo;
      }
    }

    method Good(service: Service, testBeforeEvict: bool, time: int)
      requires Shape() && Inv(View())
      modifies this, vvTried, vvNew
      ensures View() == AddrManOps.Good(old(View()), service, testBeforeEvict, time)
      ensures Inv(View())
    {
      hide Tables, Filled, AddrManOps.MakeTried, RefBounds, Counters;
      GoodKeepsInv(View(), service, testBeforeEvict, time);
      TablesIgnoreCounters(View(), View().(lastGood := time));
      lastGood := time;
      var found, id := Find(service.ip);
      if !found || mapInfo[id].addr != service {
        return;
      }
      ghost var updated := SetInfo(View(), id, AfterSuccess(mapInfo[id], time));
      SetInfoKeepsTables(View(), id, AfterSuccess(mapInfo[id], time));
      mapInfo := mapInfo[id := mapInfo[id].(lastSuccess := time)];
      mapInfo := mapInfo[id := mapInfo[id].(lastTry := time)];
      mapInfo := mapInfo[id := mapInfo[id].(attempts := 0)];
      assert View() == updated;
      var info := mapInfo[id];
      if info.inTried {
        return;
      }
      if info.refCount <= 0 {
        return;
      }
      var bucket := Cfg().TriedBucket(info.addr);
      var pos := Cfg().BucketPosition(info.addr, false, bucket);
      SlotEmpty(vvTried, (bucket, pos));
      if testBeforeEvict && vvTried[bucket, pos] != NONE {
        if |collisions| < TRIED_COLLISION_SIZE {
          collisions := collisions + {id};
        }
      } else {
        MakeTried(id);
      }
    }

    method Attempt(service: Service, countFailure: bool, time: int)
      requires Shape() && Inv(View())
      modifies this
      ensures View() == AddrManOps.Attempt(old(View()), service, countFailure, time)
      ensures Inv(View())
    {
      hide Filled, InvWith;
      AttemptKeepsInv(View(), service, countFailure, time);
      var found, id := Find(service.ip);
      if !found || mapInfo[id].addr != service {
        return;
      }
      mapInfo := mapInfo[id := mapInfo[id].(lastTry := time)];
      if countFailure && mapInfo[id].lastCountAttempt < lastGood {
        mapInfo := mapInfo[id := mapInfo[id].(lastCountAttempt := time)];
        mapInfo := mapInfo[id := mapInfo[id].(attempts := mapInfo[id].attempts + 1)];
      }
    }

    method Connected(service: Service, time: int)
      requires Shape() && Inv(View())
      modifies this
      ensures View() == AddrManOps.Connected(old(View()), service, time)
      ensures Inv(View())
    {
      hide Filled, InvWith;
      ConnectedKeepsInv(View(), service, time);
      var found, id := Find(service.ip);
      if !found || mapInfo[id].addr != service {
        return;
      }
      if time - mapInfo[id].time > 20 * 60 {
        mapInfo := mapInfo[id := mapInfo[id].(time := ToUint32(time))];
      }
    }

    method SetServices(service: Service, services: Services)
      requires Shape() && Inv(View())
      modifies this
      ensures View() == AddrManOps.SetServices(old(View()), service, services)
      ensures Inv(View())
    {
      hide Filled, InvWith;
      SetServicesKeepsInv(View(), service, services);
      var found, id := Find(service.ip);
      if !found || mapInfo[id].addr != service {
        return;
      }
      mapInfo := mapInfo[id := mapInfo[id].(services := services)];
    }

    /** Give an entry the new slot its source selects, if it may have it; drop it if it holds none. */
    method PlaceInNew(id: Id, source: NetAddr, now: int)
      requires Shape() && Tables(View()) && id in mapInfo && !mapInfo[id].inTried
      modifies this, vvNew
      ensures View() == PlaceNew(old(View()), id, source, now)
    {
      hide Tables, Filled, AddrManOps.ClearNew, AddrManOps.Delete;
      ghost var s := View();
      IdsAreBelow(s);
      var info := mapInfo[id];
      var bucket := Cfg().NewBucket(info.addr, source);
      var pos := Cfg().BucketPosition(info.addr, true, bucket);
      var holder := vvNew[bucket, pos];
      FilledAt(vvNew, (bucket, pos), id);
      SlotEmpty(vvNew, (bucket, pos));
      if holder != id {
        var insert := holder == NONE;
        if !insert {
          FilledAt(vvNew, (bucket, pos), holder);
          NewSlotHoldsKnown(s, (bucket, pos));
          insert := mapInfo[holder].IsTerrible(now) || (mapInfo[holder].refCount > 1 && info.refCount == 0);
        }
        if insert {
          ClearNew((bucket, pos));
          assert SameButPosition(info, mapInfo[id]);
          mapInfo := mapInfo[id := mapInfo[id].(refCount := mapInfo[id].refCount + 1)];
          SetSlot(vvNew, (bucket, pos), id);
        } else if info.refCount == 0 {
          TablesHaveRandomIndex(s);
          Delete(id);
        }
      }
    }

    method Add(addr: Address, source: NetAddr, timePenalty: int, routable: bool,
               now: int, later: int, draw: nat) returns (added: bool)
      requires Shape() && Inv(View())
      modifies this, vvNew
      ensures (View(), added) == AddrManOps.Add(old(View()), addr, source, timePenalty, routable, now, later, draw)
      ensures Inv(View())
    {
      hide Tables, Filled, PlaceNew, RefBounds, Counters, AfterAnnouncement;
      AddKeepsInv(View(), addr, source, timePenalty, routable, now, later, draw);
      added := false;
      if !routable {
        return;
      }
      ghost var s := View();
      var found, id := Find(addr.service.ip);
      var penalty := if addr.service.ip == source then 0 else timePenalty;
      if found {
        SetInfoKeepsTables(s, id, AfterAnnouncement(mapInfo[id], addr, penalty, now));
        RefCountIsNatural(s, id);
        Announce(id, addr, penalty, now);
        var info := mapInfo[id];
        if addr.time == 0 || (info.time != 0 && addr.time <= info.time) {
          return;
        }
        if info.inTried {
          return;
        }
        if info.refCount == NEW_BUCKETS_PER_ADDRESS {
          return;
        }
        var factor := Doubled(info.refCount);
        if factor > 1 && draw != 0 {
          return;
        }
      } else {
        id := Create(addr, source);
        mapInfo := mapInfo[id := mapInfo[id].(time := ToUint32(Max(0, mapInfo[id].time - penalty)))];
        nNew := nNew + 1;
        added := true;
        assert View() == CreateCounted(s, addr, source, penalty);
      }
      PlaceInNew(id, source, later);
    }

    method Announce(id: Id, addr: Address, penalty: int, now: int)
      requires id in mapInfo
      modifies this
      ensures View() == SetInfo(old(View()), id, AfterAnnouncement(old(mapInfo[id]), addr, penalty, now))
    {
      hide Filled, ToUint32, Max;
      var online := now - addr.time < 24 * 60 * 60;
      var interval := if online then 60 * 60 else 24 * 60 * 60;
      if addr.time != 0 && (mapInfo[id].time == 0 || mapInfo[id].time < addr.time - interval - penalty) {
        mapInfo := mapInfo[id := mapInfo[id].(time := ToUint32(Max(0, addr.time - penalty)))];
      }
      mapInfo := mapInfo[id := mapInfo[id].(services := mapInfo[id].services + addr.services)];
    }

    /** One doubling per reference held. */
    static method Doubled(refCount: nat) returns (factor: nat)
      ensures factor == Arith.Pow(2, refCount) && (factor > 1 <==> refCount > 0)
    {
      factor := 1;
      var n := 0;
      while n < refCount
        invariant 0 <= n <= refCount && factor == Arith.Pow(2, n) >= 1 && (factor > 1 <==> n > 0)
      {
        factor := factor * 2;
        n := n + 1;
      }
    }

    /** Decide one collision candidate. */
    method Resolve(id: Id, clock: Clock, valid: Service -> bool)
      requires Shape() && Inv(View())
      modifies this, vvTried, vvNew
      ensures View() == ResolveOne(old(View()), id, clock, valid)
      ensures Inv(View())
    {
      hide Tables, Filled, AddrManOps.Good, RefBounds, Counters;
      ghost var s := View();
      ResolveOneKeepsInv(s, id, clock, valid);
      var erase := false;
      if id !in mapInfo {
        erase := true;
      } else {
        var info := mapInfo[id];
        var bucket := Cfg().TriedBucket(info.addr);
        var pos := Cfg().BucketPosition(info.addr, false, bucket);
        SlotEmpty(vvTried, (bucket, pos));
        if !valid(info.addr) {
          erase := true;
        } else if vvTried[bucket, pos] != NONE {
          var rivalId := vvTried[bucket, pos];
          FilledAt(vvTried, (bucket, pos), rivalId);
          TriedSlotHoldsTried(s, (bucket, pos));
          var rival := mapInfo[rivalId];
          if clock(0) - rival.lastSuccess < REPLACEMENT_HOURS * 60 * 60 {
            erase := true;
          } else if clock(1) - rival.lastTry < REPLACEMENT_HOURS * 60 * 60 {
            if clock(2) - rival.lastTry > 60 {
              Good(info.addr, false, clock(4));
              erase := true;
            }
          } else if clock(3) - info.lastSuccess > TEST_WINDOW {
            Good(info.addr, false, clock(4));
            erase := true;
          }
        } else {
          Good(info.addr, false, clock(4));
          erase := true;
        }
      }
      if erase {
        collisions := collisions - {id};
      }
    }

    method ResolveCollisions(clock: Id -> Clock, valid: Service -> bool)
      requires Shape() && Inv(View())
      modifies this, vvTried, vvNew
      ensures View() == AddrManOps.ResolveCollisions(old(View()), clock, valid)
      ensures Inv(View())
    {
      hide Tables, Filled, ResolveOne, RefBounds, Counters;
      var pending := collisions;
      while |pending| != 0
        invariant Inv(View())
        invariant ResolveAll(View(), pending, clock, valid) == AddrManOps.ResolveCollisions(old(View()), clock, valid)
        decreases |pending|
      {
        HasLeast(pending);
        var id :| id in pending && forall k | k in pending :: id <= k;
        Resolve(id, clock(id), valid);
        pending := pending - {id};
      }
    }

    /** The entry of the tried table that a candidate is waiting to replace. */
    method SelectTriedCollision(choice: Id) returns (found: bool, info: AddrInfo)
      requires Shape() && Inv(View()) && CollisionsOk(View())
      requires collisions != {} ==> choice in collisions
      modifies this
      ensures View() == SelectCollision(old(View()), choice)
      ensures found <==> old(collisions) != {} && choice in mapInfo
      ensures found ==> info == Rival(old(View()), choice)
    {
      hide Filled, RefBounds, Counters;
      found, info := false, NewInfo(Address(Service(0, 0), {}, 0), 0, NONE);
      if |collisions| == 0 {
        return;
      }
      if choice !in mapInfo {
        collisions := collisions - {choice};
        return;
      }
      var bucket := Cfg().TriedBucket(mapInfo[choice].addr);
      var pos := Cfg().BucketPosition(mapInfo[choice].addr, false, bucket);
      var rivalId := vvTried[bucket, pos];
      SlotEmpty(vvTried, (bucket, pos));
      FilledAt(vvTried, (bucket, pos), rivalId);
      assert rivalId in mapInfo;
      found, info := true, mapInfo[rivalId];
    }

    /** Swap the entry at a later position into place n. */
    method BringForward(n: int, pos: int) returns (id: Id)
      requires Tables(View()) && 0 <= n <= pos < |vRandom|
      modifies this
      ensures View() == AddrManOps.SwapRandom(old(View()), n, pos) && Tables(View())
      ensures n < |vRandom| && id == vRandom[n] && id in mapInfo
    {
      hide Tables, RandomIndex, Filled, AddrManOps.SwapRandom;
      SwapRandomKeepsTables(View(), n, pos);
      TablesHaveRandomIndex(View());
      SwapRandom(n, pos);
      VRandomNames(View(), n);
      id := vRandom[n];
      assert id in mapInfo;
    }

    /** A random sample of the entries of good quality in the given network, if one is given. */
    method GetAddr(maxAddresses: nat, maxPct: nat, wanted: AddrInfo -> bool, draws: nat -> nat)
      returns (addrs: seq<Address>, ids: seq<Id>)
      requires Shape() && Inv(View()) && IgnoresPosition(wanted)
      modifies this
      ensures (View(), ids) == Sample(old(View()), 0, [], SampleSize(|old(vRandom)|, maxAddresses, maxPct), draws, wanted)
      ensures GoodSample(old(mapInfo), ids, SampleSize(|old(vRandom)|, maxAddresses, maxPct), wanted)
      ensures |addrs| == |ids| && forall i | 0 <= i < |ids| :: addrs[i] == AddressOf(old(mapInfo), ids[i])
      ensures Inv(View())
    {
      hide Tables, Filled, RefBounds, Counters, IgnoresPosition, GoodSample, SampleSize, Sample;
      var limit := SampleSize(|vRandom|, maxAddresses, maxPct);
      SampleFromStart(View(), limit, draws, wanted);
      ghost var s := View();
      ids := TakeSample(limit, wanted, draws);
      SampleStable(s, 0, [], limit, draws, wanted);
      addrs := CopyAddresses(mapInfo, ids);
      SampledAddresses(s.mapInfo, mapInfo);
    }

    method TakeSample(limit: nat, wanted: AddrInfo -> bool, draws: nat -> nat) returns (ids: seq<Id>)
      requires Tables(View())
      modifies this
      ensures (View(), ids) == Sample(old(View()), 0, [], limit, draws, wanted)
    {
      hide Tables, Filled, AddrManOps.SwapRandom, RandomIndex, SamePositionsAside;
      ghost var s := View();
      ids := [];
      var n := 0;
      while n < |vRandom|
        invariant 0 <= n <= |vRandom|
        invariant Tables(View())
        invariant Sample(View(), n, ids, limit, draws, wanted) == Sample(s, 0, [], limit, draws, wanted)
      {
        if |ids| >= limit {
          break;
        }
        var pos := n + draws(n) % (|vRandom| - n);
        var id := BringForward(n, pos);
        if wanted(mapInfo[id]) {
          ids := ids + [id];
        }
        n := n + 1;
      }
    }

    /******* Clearing, storing and loading *******/

    method Wipe(a: array2<int>)
      modifies a
      ensures Filled(a) == map[]
    {
      var b := 0;
      while b < a.Length0
        invariant 0 <= b <= a.Length0
        invariant forall i, j | 0 <= i < b && 0 <= j < a.Length1 :: a[i, j] == NONE
      {
        var p := 0;
        while p < a.Length1
          invariant 0 <= p <= a.Length1
          invariant forall i, j | 0 <= i < b && 0 <= j < a.Length1 :: a[i, j] == NONE
          invariant forall j | 0 <= j < p :: a[b, j] == NONE
        {
          a[b, p] := NONE;
          p := p + 1;
        }
        b := b + 1;
      }
    }

    /** The collision candidates are the one thing that clearing leaves alone. */
    method Clear(newKey: Key)
      requires Shape()
      modifies this, vvTried, vvNew
      ensures View() == EmptyState(Config(newKey, asmap, hashing), old(collisions)) && asmap == old(asmap)
    {
      vRandom := [];
      key := newKey;
      Wipe(vvNew);
      Wipe(vvTried);
      nIdCount := 0;
      nTried := 0;
      nNew := 0;
      lastGood := 1;
      mapInfo := map[];
      mapAddr := map[];
    }

    constructor (h: Hashing, map_: Asmap, newKey: Key)
      ensures Shape() && fresh(vvTried) && fresh(vvNew)
      ensures View() == EmptyState(Config(newKey, map_, h), {}) && Inv(View())
    {
      hashing := h;
      asmap := map_;
      collisions := {};
      vvTried := new int[TRIED_BUCKET_COUNT, BUCKET_SIZE];
      vvNew := new int[NEW_BUCKET_COUNT, BUCKET_SIZE];
      vRandom := [];
      key := newKey;
      nIdCount, nTried, nNew, lastGood := 0, 0, 0, 1;
      mapInfo, mapAddr := map[], map[];
      new;
      Clear(newKey);
    }

    /** Write the wanted entries in increasing order of id, numbering them from 0. */
    method WriteEntries(wanted: AddrInfo -> bool, ghost expected: int) returns (infos: seq<Stored>, index: map<Id, int>)
      requires expected == |Chosen(mapInfo, mapInfo.Keys, wanted)|
      ensures infos == StoreChosen(mapInfo, mapInfo.Keys, wanted)
      ensures index.Keys == mapInfo.Keys
      ensures forall id | id in index :: index[id] == Rank(Chosen(mapInfo, mapInfo.Keys, wanted), id)
    {
      hide Written;
      var pending := mapInfo.Keys;
      infos, index := [], map[];
      NothingWritten(mapInfo, wanted);
      while |pending| != 0
        invariant Written(mapInfo, wanted, pending, infos, index)
        decreases |pending|
      {
        HasLeast(pending);
        var id :| id in pending && forall k | k in pending :: id <= k;
        WrittenNext(mapInfo, wanted, pending, infos, index, id);
        index := index[id := |infos|];
        if wanted(mapInfo[id]) {
          assert |infos| != expected;
          infos := infos + [Store(mapInfo[id])];
        }
        pending := pending - {id};
      }
      AllWritten(mapInfo, wanted, pending, infos, index);
    }

    /** The numbers of the entries in one bucket, in the order of their positions. */
    method WriteBucket(bucket: nat, index: map<Id, int>, ghost ids: set<Id>) returns (entries: seq<int>)
      requires Shape() && bucket < NEW_BUCKET_COUNT
      requires forall slot | slot in Filled(vvNew) :: var id := Filled(vvNew)[slot]; id in index && index[id] == Rank(ids, id)
      ensures entries == BucketFrom(Filled(vvNew), ids, bucket, 0)
    {
      hide Filled, Rank, BucketFrom;
      ghost var slots := Filled(vvNew);
      entries := [];
      var i := 0;
      while i < BUCKET_SIZE
        invariant 0 <= i <= BUCKET_SIZE
        invariant entries + BucketFrom(slots, ids, bucket, i) == BucketFrom(slots, ids, bucket, 0)
      {
        SlotEmpty(vvNew, (bucket, i));
        BucketFromNext(slots, ids, bucket, i, entries);
        if vvNew[bucket, i] != NONE {
          FilledAt(vvNew, (bucket, i), vvNew[bucket, i]);
          entries := entries + [index[vvNew[bucket, i]]];
        }
        i := i + 1;
      }
      BucketFromEnd(slots, ids, bucket, i);
    }

    method WriteBuckets(index: map<Id, int>, ghost ids: set<Id>) returns (buckets: seq<seq<int>>)
      requires Shape()
      requires forall slot | slot in Filled(vvNew) :: var id := Filled(vvNew)[slot]; id in index && index[id] == Rank(ids, id)
      ensures buckets == BucketsFrom(Filled(vvNew), ids, 0)
    {
      hide Filled, Rank, BucketFrom;
      ghost var slots := Filled(vvNew);
      buckets := [];
      var bucket := 0;
      while bucket < NEW_BUCKET_COUNT
        invariant 0 <= bucket <= NEW_BUCKET_COUNT
        invariant |buckets| == bucket
        invariant forall i | 0 <= i < bucket :: buckets[i] == BucketFrom(slots, ids, i, 0)
      {
        var entries := WriteBucket(bucket, index, ids);
        buckets := buckets + [entries];
        bucket := bucket + 1;
      }
    }

    method Serialize() returns (st: Stream)
      requires Shape() && Inv(View())
      ensures nNew >= 0 && nTried >= 0
      ensures st == Save(View())
    {
      hide Filled, InvWith, Rank, Ascending, BucketsFrom, Chosen, Referenced, TriedIds;
      CountersAddUp(View());
      ReferencedAreNew(View());
      var isReferenced := (info: AddrInfo) => info.refCount != 0;
      var isTried := (info: AddrInfo) => info.inTried;
      ChosenBy(mapInfo, isReferenced, isTried);
      var newInfos, index := WriteEntries(isReferenced, nNew);
      var triedInfos, _ := WriteEntries(isTried, nTried);
      NewSlotsIndexed(View());
      var buckets := WriteBuckets(index, Referenced(mapInfo));
      st := Stream(FILE_FORMAT, INCOMPATIBILITY_BASE + V3_BIP155, key, nNew, nTried, FlipBit30(NEW_BUCKET_COUNT),
                   newInfos, triedInfos, buckets, Cfg().AsmapVersion());
    }

    method ReadNew(st: Stream)
      requires Complete(st) && nIdCount == 0
      modifies this
      ensures View() == LoadNew(st, old(View()), st.nNew)
    {
      hide Filled, Restore, LoadNew;
      ghost var base := View();
      LoadNewStart(st, base);
      var n := 0;
      while n < st.nNew
        invariant 0 <= n <= st.nNew && nIdCount == 0
        invariant View().(nIdCount := n) == LoadNew(st, base, n)
      {
        LoadNewStep(st, base, n);
        mapInfo := mapInfo[n := Restore(st.newInfos[n])];
        mapAddr := mapAddr[mapInfo[n].addr.ip := n];
        mapInfo := mapInfo[n := mapInfo[n].(randomPos := |vRandom|)];
        vRandom := vRandom + [n];
        n := n + 1;
      }
      nIdCount := st.nNew;
    }

    /** Enter one tried entry, unless its slot is taken. */
    method ReadTriedEntry(stored: Stored) returns (lost: bool)
      requires Shape()
      modifies this, vvTried
      ensures View().(nTried := nTried - if lost then 1 else 0) == LoadTriedOne(Restore(stored), old(View()))
    {
      hide Filled;
      ghost var s := View();
      var info := Restore(stored);
      var bucket := Cfg().TriedBucket(info.addr);
      var pos := Cfg().BucketPosition(info.addr, false, bucket);
      SlotEmpty(vvTried, (bucket, pos));
      lost := vvTried[bucket, pos] != NONE;
      if !lost {
        info := info.(randomPos := |vRandom|, inTried := true);
        vRandom := vRandom + [nIdCount];
        mapInfo := mapInfo[nIdCount := info];
        mapAddr := mapAddr[info.addr.ip := nIdCount];
        SetSlot(vvTried, (bucket, pos), nIdCount);
        nIdCount := nIdCount + 1;
        assert LoadTriedOne(Restore(stored), s).mapInfo == mapInfo;
      }
    }

    method ReadTried(st: Stream)
      requires Shape() && Complete(st)
      modifies this, vvTried
      ensures View() == LoadTried(st, old(View()), st.nTried)
    {
      hide Filled, LoadTriedOne;
      ghost var a := View();
      var totalLost := 0;
      var n := 0;
      while n < st.nTried
        invariant 0 <= n <= st.nTried
        invariant View().(nTried := nTried - totalLost) == LoadTried(st, a, n)
      {
        LoadTriedOneCount(Restore(st.triedInfos[n]), View(), nTried - totalLost);
        var lost := ReadTriedEntry(st.triedInfos[n]);
        if lost {
          totalLost := totalLost + 1;
        }
        n := n + 1;
      }
      nTried := nTried - totalLost;
    }

    /** Which bucket each new entry was last listed in. */
    static method ReadBuckets(st: Stream) returns (known: map<int, int>)
      requires Complete(st)
      ensures known == NoteBuckets(st, Max(0, BucketCount(st)))
    {
      known := map[];
      var bucket := 0;
      while bucket < BucketCount(st)
        invariant 0 <= bucket <= Max(0, BucketCount(st)) && known == NoteBuckets(st, bucket)
      {
        var entries := st.buckets[bucket];
        ghost var before := known;
        var n := 0;
        while n < |entries|
          invariant 0 <= n <= |entries| && known == NoteBucket(entries, st.nNew, bucket, before, n)
        {
          if 0 <= entries[n] < st.nNew {
            known := known[entries[n] := bucket];
          }
          n := n + 1;
        }
        bucket := bucket + 1;
      }
    }

    /** Give one new entry a slot. */
    method SettleEntry(st: Stream, n: nat, known: map<int, int>)
      requires Shape() && n in mapInfo
      requires SameBucketing(st, Cfg()) ==> KnownBucketsExist(known, NEW_BUCKET_COUNT)
      modifies this, vvNew
      ensures View() == Settle(old(View()), n, if n in known then known[n] else 0, SameBucketing(st, old(Cfg())))
    {
      hide Filled;
      var info := mapInfo[n];
      var bucket := if n in known then known[n] else 0;
      var pos := Cfg().BucketPosition(info.addr, true, bucket);
      if SameBucketing(st, Cfg()) {
        SlotEmpty(vvNew, (bucket, pos));
      }
      if SameBucketing(st, Cfg()) && vvNew[bucket, pos] == NONE && info.refCount < NEW_BUCKETS_PER_ADDRESS {
        SetSlot(vvNew, (bucket, pos), n);
        mapInfo := mapInfo[n := mapInfo[n].(refCount := mapInfo[n].refCount + 1)];
      } else {
        bucket := Cfg().NewBucket(info.addr, info.source);
        pos := Cfg().BucketPosition(info.addr, true, bucket);
        SlotEmpty(vvNew, (bucket, pos));
        if vvNew[bucket, pos] == NONE {
          SetSlot(vvNew, (bucket, pos), n);
          mapInfo := mapInfo[n := mapInfo[n].(refCount := mapInfo[n].refCount + 1)];
        }
      }
    }

    method SettleNew(st: Stream, known: map<int, int>)
      requires Shape() && forall i | 0 <= i < st.nNew :: i in mapInfo
      requires SameBucketing(st, Cfg()) ==> KnownBucketsExist(known, NEW_BUCKET_COUNT)
      modifies this, vvNew
      ensures View() == SettleAll(st, old(View()), known, st.nNew)
    {
      hide Filled, Settle, SameBucketing, KnownBucketsExist;
      ghost var b := View();
      var n := 0;
      while n < st.nNew
        invariant 0 <= n <= st.nNew && View() == SettleAll(st, b, known, n)
        invariant Cfg() == b.cfg && mapInfo.Keys == b.mapInfo.Keys
      {
        SettleKeeps(View(), n, if n in known then known[n] else 0, SameBucketing(st, Cfg()));
        SettleEntry(st, n, known);
        n := n + 1;
      }
    }

    /** Drop the new entries that got no slot. */
    method PruneNew()
      requires Shape() && RandomIndex(mapInfo, vRandom)
      modifies this
      ensures View() == Prune(old(View()), old(mapInfo).Keys)
    {
      hide Filled, RandomIndex, AddrManOps.Delete, Prune;
      ghost var c := View();
      var pending := mapInfo.Keys;
      while |pending| != 0
        invariant RandomIndex(mapInfo, vRandom)
        invariant Prune(View(), pending) == Prune(c, c.mapInfo.Keys)
        decreases |pending|
      {
        HasLeast(pending);
        var id :| id in pending && forall k | k in pending :: id <= k;
        PruneNext(View(), pending, id);
        if id in mapInfo && !mapInfo[id].inTried && mapInfo[id].refCount == 0 {
          Delete(id);
        }
        pending := pending - {id};
      }
      PruneEnds(View(), pending);
    }

    /** Load a stored table; ok is false where the node throws. */
    method Unserialize(st: Stream, scratchKey: Key) returns (ok: bool)
      requires Shape()
      modifies this, vvTried, vvNew
      ensures ok <==> Accepted(st) && Complete(st)
      ensures ok ==> View() == Load(st, old(Cfg()), old(collisions))
      ensures ok ==> (Inv(View()) <==> AddrManRepeats.PlacedAreAlone(st, AddrManRepeats.Keyed(st, old(Cfg()))))
      ensures ok && DistinctAddresses(st) ==> Inv(View())
    {
      hide Filled, LoadNew, LoadTried, SettleAll, Prune, NoteBuckets, RandomIndex, InvWith, AddrManRepeats.PlacedAreAlone;
      ghost var cfg := Cfg();
      ghost var candidates := collisions;
      Clear(scratchKey);
      if (st.compat - INCOMPATIBILITY_BASE) % 256 > FILE_FORMAT {
        return false;
      }
      key := st.key;
      nNew := st.nNew;
      nTried := st.nTried;
      if nNew > NEW_BUCKET_COUNT * BUCKET_SIZE {
        return false;
      }
      if nTried > TRIED_BUCKET_COUNT * BUCKET_SIZE {
        return false;
      }
      if !Complete(st) {
        return false;
      }
      ghost var base := Blank(st, cfg, candidates);
      assert View() == base;
      LoadNewRandom(st, base, st.nNew);
      LoadTriedRandom(st, LoadNew(st, base, st.nNew), st.nTried);
      ReadNew(st);
      ReadTried(st);
      var known := ReadBuckets(st);
      NoteBucketsRange(st, Max(0, BucketCount(st)), Max(0, BucketCount(st)));
      SettleAllRandom(st, View(), known, st.nNew);
      SettleNew(st, known);
      PruneNew();
      AddrManRepeats.LoadExactlyByStream(st, cfg, candidates);
      if DistinctAddresses(st) {
        LoadIsConsistent(st, cfg, candidates);
      }
      ok := true;
    }
  }

  /** What is told about an entry; of an unknown id nothing. */
  function AddressOf(m: map<Id, AddrInfo>, id: Id): Address {
    if id in m then Address(m[id].addr, m[id].services, m[id].time) else Address(Service(0, 0), {}, 0)
  }

  method CopyAddresses(m: map<Id, AddrInfo>, ids: seq<Id>) returns (addrs: seq<Address>)
    ensures |addrs| == |ids| && forall i | 0 <= i < |ids| :: addrs[i] == AddressOf(m, ids[i])
  {
    addrs := [];
    for n := 0 to |ids|
      invariant |addrs| == n && forall i | 0 <= i < n :: addrs[i] == AddressOf(m, ids[i])
    {
      addrs := addrs + [AddressOf(m, ids[n])];
    }
  }

  lemma SampledAddresses(m: map<Id, AddrInfo>, n: map<Id, AddrInfo>)
    requires SamePositionsAside(m, n)
    ensures forall id :: AddressOf(m, id) == AddressOf(n, id)
  {
    forall id ensures AddressOf(m, id) == AddressOf(n, id) {
      assert id in m ==> SameButPosition(m[id], n[id]);
    }
  }

  /** Loading a tried entry only adds to the count it is given. */
  lemma LoadTriedOneCount(info: AddrInfo, s: State, count: int)
    ensures LoadTriedOne(info, s.(nTried := count)) ==
            LoadTriedOne(info, s).(nTried := LoadTriedOne(info, s).nTried - s.nTried + count)
  {
    var t := s.(nTried := count);
    var slot := s.cfg.TriedSlot(info.addr);
    assert Insert(t, info) == Insert(s, info).(nTried := count);
    if slot !in s.triedSlots {
      var a, b := Place(Insert(t, info), t.nIdCount, slot), Place(Insert(s, info), s.nIdCount, slot);
      assert a.(nTried := count) == b.(nTried := count);
    }
  }

  lemma PruneEnds(s: State, pending: set<Id>)
    requires RandomIndex(s.mapInfo, s.vRandom) && |pending| == 0
    ensures Prune(s, pending) == s
  {
  }

  lemma PruneNext(s: State, pending: set<Id>, id: Id)
    requires RandomIndex(s.mapInfo, s.vRandom) && id in pending && forall k | k in pending :: id <= k
    ensures Prune(s, pending) ==
            if id in s.mapInfo && !s.mapInfo[id].inTried && s.mapInfo[id].refCount == 0
            then Prune(Delete(s, id), pending - {id}) else Prune(s, pending - {id})
  {
    hide RandomIndex, Delete;
    assert |pending| > 0;
    assert id == Least(pending);
  }

  lemma SettleKeeps(s: State, id: Id, bucket: int, same: bool)
    ensures Settle(s, id, bucket, same).cfg == s.cfg && Settle(s, id, bucket, same).mapInfo.Keys == s.mapInfo.Keys
  {
  }

  lemma BucketFromNext(slots: map<Slot, Id>, ids: set<Id>, bucket: int, pos: nat, prefix: seq<int>)
    requires pos < BUCKET_SIZE
    ensures prefix + BucketFrom(slots, ids, bucket, pos) ==
            (if (bucket, pos) in slots then prefix + [Rank(ids, slots[(bucket, pos)])] else prefix)
            + BucketFrom(slots, ids, bucket, pos + 1)
  {
  }

  lemma BucketFromEnd(slots: map<Slot, Id>, ids: set<Id>, bucket: int, pos: nat)
    requires pos >= BUCKET_SIZE
    ensures BucketFrom(slots, ids, bucket, pos) == []
  {
  }

  lemma ChosenBy(m: map<Id, AddrInfo>, isReferenced: AddrInfo -> bool, isTried: AddrInfo -> bool)
    requires forall info :: isReferenced(info) == (info.refCount != 0)
    requires forall info :: isTried(info) == info.inTried
    ensures Chosen(m, m.Keys, isReferenced) == Referenced(m) && Chosen(m, m.Keys, isTried) == TriedIds(m)
  {
  }

  lemma NewSlotsIndexed(s: State)
    requires Inv(s)
    ensures forall slot | slot in s.newSlots :: s.newSlots[slot] in s.mapInfo
  {
  }

  /** The wanted entries among some ids. */
  ghost function Chosen(m: map<Id, AddrInfo>, ids: set<Id>, wanted: AddrInfo -> bool): set<Id> {
    set id | id in ids && id in m && wanted(m[id])
  }

  /** The stored form of the wanted entries among some ids, in increasing order. */
  ghost function StoreChosen(m: map<Id, AddrInfo>, ids: set<Id>, wanted: AddrInfo -> bool): seq<Stored> {
    StoreAll(m, Ascending(Chosen(m, ids, wanted)))
  }

  /** All entries but the pending ones have been numbered, and the wanted ones among them written. */
  ghost predicate Written(m: map<Id, AddrInfo>, wanted: AddrInfo -> bool, pending: set<Id>, infos: seq<Stored>, index: map<Id, int>) {
    && pending <= m.Keys && index.Keys == m.Keys - pending
    && (forall a, b | a in index && b in pending :: a < b)
    && infos + StoreChosen(m, pending, wanted) == StoreChosen(m, m.Keys, wanted)
    && |infos| == |Chosen(m, m.Keys, wanted) - pending|
    && (forall id | id in index :: index[id] == Rank(Chosen(m, m.Keys, wanted), id))
  }

  lemma NothingWritten(m: map<Id, AddrInfo>, wanted: AddrInfo -> bool)
    ensures Written(m, wanted, m.Keys, [], map[])
  {
    assert Chosen(m, m.Keys, wanted) - m.Keys == {};
  }

  lemma WrittenNext(m: map<Id, AddrInfo>, wanted: AddrInfo -> bool, pending: set<Id>, infos: seq<Stored>, index: map<Id, int>, id: Id)
    requires Written(m, wanted, pending, infos, index) && id in pending && forall k | k in pending :: id <= k
    ensures id in m && (wanted(m[id]) ==> |infos| < |Chosen(m, m.Keys, wanted)|)
    ensures Written(m, wanted, pending - {id}, if wanted(m[id]) then infos + [Store(m[id])] else infos, index[id := |infos|])
  {
    hide Rank, Chosen, StoreChosen;
    forall a, b | a in m.Keys - pending && b in pending ensures a < b {
      assert a in index.Keys;
    }
    RankWhenLeast(m, pending, wanted, id);
    ChosenNext(m, pending, wanted, id);
    assert index[id := |infos|].Keys == m.Keys - (pending - {id});
    var rest := StoreChosen(m, pending - {id}, wanted);
    if wanted(m[id]) {
      assert infos + ([Store(m[id])] + rest) == (infos + [Store(m[id])]) + rest;
    } else {
      assert [] + rest == rest;
    }
  }

  lemma AllWritten(m: map<Id, AddrInfo>, wanted: AddrInfo -> bool, pending: set<Id>, infos: seq<Stored>, index: map<Id, int>)
    requires Written(m, wanted, pending, infos, index) && |pending| == 0
    ensures infos == StoreChosen(m, m.Keys, wanted) && index.Keys == m.Keys
    ensures forall id | id in index :: index[id] == Rank(Chosen(m, m.Keys, wanted), id)
  {
    assert pending == {};
    assert Chosen(m, pending, wanted) == {};
    assert StoreChosen(m, pending, wanted) == [];
  }

  lemma RankWhenLeast(m: map<Id, AddrInfo>, pending: set<Id>, wanted: AddrInfo -> bool, id: Id)
    requires pending <= m.Keys && id in pending && forall k | k in pending :: id <= k
    requires forall a, b | a in m.Keys - pending && b in pending :: a < b
    ensures var all := Chosen(m, m.Keys, wanted);
            && Rank(all, id) == |all - pending|
            && |all - (pending - {id})| == |all - pending| + (if wanted(m[id]) then 1 else 0)
            && (wanted(m[id]) ==> |all - pending| < |all|)
  {
    var all := Chosen(m, m.Keys, wanted);
    forall k | k in all ensures k < id <==> k !in pending {
      if k !in pending {
        assert k in m.Keys - pending;
      }
    }
    assert (set k | k in all && k < id) == all - pending;
    if wanted(m[id]) {
      assert all - (pending - {id}) == (all - pending) + {id};
      SubsetSize(all - (pending - {id}), all);
    } else {
      assert all - (pending - {id}) == all - pending;
    }
  }

  lemma ChosenNext(m: map<Id, AddrInfo>, pending: set<Id>, wanted: AddrInfo -> bool, id: Id)
    requires pending <= m.Keys && id in pending && forall k | k in pending :: id <= k
    ensures var rest := StoreChosen(m, pending - {id}, wanted);
            StoreChosen(m, pending, wanted) == (if wanted(m[id]) then [Store(m[id])] else []) + rest
  {
    var now, later := Chosen(m, pending, wanted), Chosen(m, pending - {id}, wanted);
    if wanted(m[id]) {
      assert id in now && now - {id} == later;
      assert |now| > 0;
      assert id == Least(now);
      assert Ascending(now) == [id] + Ascending(later);
    } else {
      assert now == later;
    }
  }

  /** Is a bucket among the n visited from start on, wrapping around? */
  ghost predicate Visited(bucket: int, start: int, n: nat) {
    (bucket - start) % NEW_BUCKET_COUNT < n
  }

  /** The slots left when an id has been taken out of n buckets from start on. */
  ghost function Remaining(slots: map<Slot, Id>, id: Id, start: int, n: nat): map<Slot, Id> {
    map slot | slot in slots && !(slots[slot] == id && Visited(slot.0, start, n)) :: slots[slot]
  }

  lemma RemainingAtStart(slots: map<Slot, Id>, id: Id, start: int)
    ensures Remaining(slots, id, start, 0) == slots
  {
  }

  lemma CountOf(s: State, id: Id)
    requires Tables(s) && id in s.mapInfo
    ensures s.mapInfo[id].refCount == |Refs(s.newSlots, id)|
  {
  }

  lemma VisitedNext(bucket: int, start: int, n: nat)
    requires 0 <= start < NEW_BUCKET_COUNT && n < NEW_BUCKET_COUNT && 0 <= bucket < NEW_BUCKET_COUNT
    ensures Visited(bucket, start, n + 1) <==> Visited(bucket, start, n) || bucket == (start + n) % NEW_BUCKET_COUNT
    ensures bucket == (start + n) % NEW_BUCKET_COUNT ==> !Visited(bucket, start, n)
  {
  }

  lemma HeldAtHashPosition(s: State, id: Id)
    requires Tables(s) && id in s.mapInfo
    ensures forall slot | slot in s.newSlots && s.newSlots[slot] == id ::
              0 <= slot.0 < NEW_BUCKET_COUNT && slot == s.cfg.NewSlot(s.mapInfo[id].addr, slot.0)
  {
  }

  /** Visiting one bucket takes out the one slot of it that may hold the id. */
  lemma RemainingNext(s: State, id: Id, start: int, n: nat)
    requires Tables(s) && id in s.mapInfo && 0 <= start < NEW_BUCKET_COUNT && n < NEW_BUCKET_COUNT
    ensures var slot := s.cfg.NewSlot(s.mapInfo[id].addr, (start + n) % NEW_BUCKET_COUNT);
            var before := Remaining(s.newSlots, id, start, n);
            var after := Remaining(s.newSlots, id, start, n + 1);
            if slot in before && before[slot] == id
            then after == before - {slot} && |Refs(after, id)| == |Refs(before, id)| - 1
            else after == before
  {
    hide Tables, Visited;
    HeldAtHashPosition(s, id);
    var slot := s.cfg.NewSlot(s.mapInfo[id].addr, (start + n) % NEW_BUCKET_COUNT);
    var before := Remaining(s.newSlots, id, start, n);
    var after := Remaining(s.newSlots, id, start, n + 1);
    VisitedNext(slot.0, start, n);
    forall other | other in s.newSlots && s.newSlots[other] == id
      ensures other in after <==> other in before && other != slot
    {
      VisitedNext(other.0, start, n);
    }
    if slot in before && before[slot] == id {
      assert after == before - {slot};
      RefsWithout(before, slot, id);
    } else {
      assert after == before;
    }
  }

  lemma NothingRemains(slots: map<Slot, Id>, id: Id, start: int, n: nat)
    requires |Refs(Remaining(slots, id, start, n), id)| == 0
    ensures Remaining(slots, id, start, n) == WithoutId(slots, id)
  {
    var left := Remaining(slots, id, start, n);
    forall slot | slot in slots && slots[slot] == id ensures slot !in left {
      assert slot !in Refs(left, id);
    }
  }

  lemma AllVisited(s: State, id: Id, start: int)
    requires Tables(s) && id in s.mapInfo
    ensures Remaining(s.newSlots, id, start, NEW_BUCKET_COUNT) == WithoutId(s.newSlots, id)
    ensures |Refs(Remaining(s.newSlots, id, start, NEW_BUCKET_COUNT), id)| == 0
  {
    assert Refs(Remaining(s.newSlots, id, start, NEW_BUCKET_COUNT), id) == {};
  }
}
