/**
 * Every operation of the address manager keeps the whole invariant: the
 * counters are exact and every new entry holds between one and eight slots.
 */
module AddrManProofs {
  import opened AddrManState
  import opened AddrManOps

  lemma DeleteKeepsInv(s: State, id: Id, loose: set<Id>, off: int)
    requires InvWith(s, loose, off) && id in s.mapInfo && !s.mapInfo[id].inTried && s.mapInfo[id].refCount == 0
    ensures InvWith(Delete(s, id), loose, off)
  {
    hide Tables;
    NoRefsIsUnreferenced(s, id);
    TablesHaveRandomIndex(s);
    DeleteKeepsTables(s, id);
    var r := Delete(s, id);
    assert NewIds(r.mapInfo) == NewIds(s.mapInfo) - {id};
    assert TriedIds(r.mapInfo) == TriedIds(s.mapInfo);
  }

  lemma ClearNewKeepsInv(s: State, slot: Slot, loose: set<Id>, off: int)
    requires InvWith(s, loose, off)
    ensures InvWith(ClearNew(s, slot), loose, off)
  {
    hide Tables, Delete;
    if slot in s.newSlots {
      var id := s.newSlots[slot];
      NewSlotHoldsKnown(s, slot);
      DecRefKeepsTables(s, slot);
      var t := DecRef(s, slot);
      assert NewIds(t.mapInfo) == NewIds(s.mapInfo);
      assert TriedIds(t.mapInfo) == TriedIds(s.mapInfo);
      assert InvWith(t, loose + {id}, off);
      if t.mapInfo[id].refCount == 0 {
        DeleteKeepsInv(t, id, loose + {id}, off);
      }
    }
  }

  /******* The stages of a move to the tried table *******/

  lemma UnlinkKeepsInv(s: State, id: Id)
    requires Inv(s) && id in s.mapInfo && !s.mapInfo[id].inTried
    ensures InvWith(Unlink(s, id), {id}, 1)
  {
    hide Tables;
    UnlinkKeepsTables(s, id);
    var r := Unlink(s, id);
    assert NewIds(r.mapInfo) == NewIds(s.mapInfo);
    assert TriedIds(r.mapInfo) == TriedIds(s.mapInfo);
  }

  lemma RetireKeepsInv(s: State, slot: Slot, loose: set<Id>, off: int)
    requires InvWith(s, loose, off) && slot in s.triedSlots
    ensures InvWith(Retire(s, slot), loose + {s.triedSlots[slot]}, off + 1)
  {
    hide Tables;
    var evicted := s.triedSlots[slot];
    TriedSlotHoldsTried(s, slot);
    RetireKeepsTables(s, slot);
    var r := Retire(s, slot);
    assert NewIds(r.mapInfo) == NewIds(s.mapInfo) + {evicted};
    assert TriedIds(r.mapInfo) == TriedIds(s.mapInfo) - {evicted};
  }

  lemma RehomeKeepsInv(s: State, id: Id, loose: set<Id>, off: int)
    requires InvWith(s, loose + {id}, off + 1) && id in s.mapInfo
    requires !s.mapInfo[id].inTried && Unreferenced(s, id)
    ensures InvWith(Rehome(s, id), loose, off)
  {
    hide Tables, ClearNew;
    var slot := HomeSlot(s, id);
    ClearNewKeepsInv(s, slot, loose + {id}, off + 1);
    RehomeKeepsTables(s, id);
    var t := ClearNew(s, slot);
    var r := Rehome(s, id);
    assert SameButPosition(s.mapInfo[id], t.mapInfo[id]);
    assert NewIds(r.mapInfo) == NewIds(t.mapInfo);
    assert TriedIds(r.mapInfo) == TriedIds(t.mapInfo);
  }

  lemma MakeRoomKeepsInv(s: State, slot: Slot, loose: set<Id>, off: int)
    requires InvWith(s, loose, off)
    ensures InvWith(MakeRoom(s, slot), loose, off)
  {
    if slot in s.triedSlots {
      RetireKeepsTables(s, slot);
      RetireKeepsInv(s, slot, loose, off);
      RehomeKeepsInv(Retire(s, slot), s.triedSlots[slot], loose, off);
    }
  }

  lemma PlaceKeepsInv(s: State, id: Id, slot: Slot)
    requires InvWith(s, {id}, 1) && id in s.mapInfo && !s.mapInfo[id].inTried && s.mapInfo[id].refCount == 0
    requires slot !in s.triedSlots && slot == s.cfg.TriedSlot(s.mapInfo[id].addr)
    ensures Inv(Place(s, id, slot))
  {
    hide Tables;
    NoRefsIsUnreferenced(s, id);
    PlaceKeepsTables(s, id, slot);
    var r := Place(s, id, slot);
    assert NewIds(r.mapInfo) == NewIds(s.mapInfo) - {id};
    assert TriedIds(r.mapInfo) == TriedIds(s.mapInfo) + {id};
  }

  lemma MakeTriedKeepsInv(s: State, id: Id)
    requires Inv(s) && id in s.mapInfo && !s.mapInfo[id].inTried
    ensures Inv(MakeTried(s, id))
  {
    var slot := s.cfg.TriedSlot(s.mapInfo[id].addr);
    UnlinkKeepsInv(s, id);
    var u := Unlink(s, id);
    MakeRoomKeepsInv(u, slot, {id}, 1);
    var t := MakeRoom(u, slot);
    hide Tables, MakeRoom;
    MakeRoomSpares(u, slot, id);
    PlaceKeepsInv(t, id, slot);
  }

  /******* The public operations *******/

  lemma SetInfoKeepsInv(s: State, id: Id, info: AddrInfo, loose: set<Id>, off: int)
    requires InvWith(s, loose, off) && id in s.mapInfo && SameLinks(s.mapInfo[id], info)
    ensures InvWith(SetInfo(s, id, info), loose, off)
  {
    hide Tables;
    SetInfoKeepsTables(s, id, info);
    var r := SetInfo(s, id, info);
    assert NewIds(r.mapInfo) == NewIds(s.mapInfo);
    assert TriedIds(r.mapInfo) == TriedIds(s.mapInfo);
  }

  lemma InvIgnores(s: State, r: State)
    requires Inv(s) && r == s.(lastGood := r.lastGood, collisions := r.collisions)
    ensures Inv(r)
  {
    hide Tables;
    TablesIgnoreCounters(s, r);
  }

  lemma GoodKeepsInv(s: State, service: Service, testBeforeEvict: bool, time: int)
    requires Inv(s)
    ensures Inv(Good(s, service, testBeforeEvict, time))
  {
    hide Tables, MakeTried;
    var s0 := s.(lastGood := time);
    InvIgnores(s, s0);
    if Matches(s, service) {
      var id := s.mapAddr[service.ip];
      var info := AfterSuccess(s.mapInfo[id], time);
      SetInfoKeepsInv(s0, id, info, {}, 0);
      var s1 := SetInfo(s0, id, info);
      if info.inTried || info.refCount <= 0 {
      } else if testBeforeEvict && s.cfg.TriedSlot(info.addr) in s.triedSlots {
        InvIgnores(s1, s1.(collisions := s1.collisions + {id}));
      } else {
        MakeTriedKeepsInv(s1, id);
      }
    }
  }

  lemma AttemptKeepsInv(s: State, service: Service, countFailure: bool, time: int)
    requires Inv(s)
    ensures Inv(Attempt(s, service, countFailure, time))
  {
    if Matches(s, service) {
      var id := s.mapAddr[service.ip];
      SetInfoKeepsInv(s, id, AfterAttempt(s.mapInfo[id], countFailure, time, s.lastGood), {}, 0);
    }
  }

  lemma ConnectedKeepsInv(s: State, service: Service, time: int)
    requires Inv(s)
    ensures Inv(Connected(s, service, time))
  {
    if Matches(s, service) {
      var id := s.mapAddr[service.ip];
      SetInfoKeepsInv(s, id, s.mapInfo[id].(time := ToUint32(time)), {}, 0);
    }
  }

  lemma SetServicesKeepsInv(s: State, service: Service, services: Services)
    requires Inv(s)
    ensures Inv(SetServices(s, service, services))
  {
    if Matches(s, service) {
      var id := s.mapAddr[service.ip];
      SetInfoKeepsInv(s, id, s.mapInfo[id].(services := services), {}, 0);
    }
  }

  lemma IncRefKeepsInv(s: State, id: Id, slot: Slot, loose: set<Id>)
    requires InvWith(s, loose + {id}, 0) && id in s.mapInfo && !s.mapInfo[id].inTried
    requires s.mapInfo[id].refCount < NEW_BUCKETS_PER_ADDRESS
    requires Tables(IncRef(s, id, slot))
    ensures InvWith(IncRef(s, id, slot), loose, 0)
  {
    hide Tables;
    RefCountIsNatural(s, id);
    var r := IncRef(s, id, slot);
    assert NewIds(r.mapInfo) == NewIds(s.mapInfo);
    assert TriedIds(r.mapInfo) == TriedIds(s.mapInfo);
  }

  lemma IdsAreBelow(s: State)
    requires Tables(s)
    ensures forall id | id in s.mapInfo :: 0 <= id < s.nIdCount
  {
  }

  lemma RefCountIsNatural(s: State, id: Id)
    requires Tables(s) && id in s.mapInfo
    ensures 0 <= s.mapInfo[id].refCount
  {
  }

  lemma PlaceNewKeepsInv(s: State, id: Id, source: NetAddr, now: int)
    requires id in s.mapInfo && !s.mapInfo[id].inTried
    requires InvWith(s, if s.mapInfo[id].refCount == 0 then {id} else {}, 0)
    requires s.mapInfo[id].refCount < NEW_BUCKETS_PER_ADDRESS
    ensures Inv(PlaceNew(s, id, source, now))
  {
    hide Tables, ClearNew, Delete;
    var info := s.mapInfo[id];
    var loose := if info.refCount == 0 then {id} else {};
    var slot := s.cfg.NewSlot(info.addr, s.cfg.NewBucket(info.addr, source));
    if slot in s.newSlots && s.newSlots[slot] == id {
      SlotHolderHasCount(s, slot);
    } else if slot !in s.newSlots || (NewSlotHoldsKnown(s, slot); Replaceable(s.mapInfo[s.newSlots[slot]], info, now)) {
      ClearNewKeepsInv(s, slot, loose, 0);
      var t := ClearNew(s, slot);
      assert SameButPosition(info, t.mapInfo[id]);
      IncRefKeepsTables(t, id, slot);
      InvAllowsMore(t, loose, {id});
      IncRefKeepsInv(t, id, slot, {});
    } else if info.refCount == 0 {
      TablesHaveRandomIndex(s);
      DeleteKeepsInv(s, id, loose, 0);
      InvNeedsOnlyKnown(Delete(s, id), id);
    }
  }

  lemma SlotHolderHasCount(s: State, slot: Slot)
    requires Tables(s) && slot in s.newSlots
    ensures s.newSlots[slot] in s.mapInfo && s.mapInfo[s.newSlots[slot]].refCount > 0
  {
    assert slot in Refs(s.newSlots, s.newSlots[slot]);
  }

  lemma InvAllowsMore(s: State, loose: set<Id>, more: set<Id>)
    requires InvWith(s, loose, 0) && loose <= more
    ensures InvWith(s, more, 0)
  {
    hide Tables;
  }

  lemma InvNeedsOnlyKnown(s: State, id: Id)
    requires InvWith(s, {id}, 0) && id !in s.mapInfo
    ensures Inv(s)
  {
    hide Tables;
  }

  lemma CreateCountedKeepsInv(s: State, addr: Address, source: NetAddr, penalty: int)
    requires Inv(s) && !Knows(s, addr.service.ip)
    ensures InvWith(CreateCounted(s, addr, source, penalty), {s.nIdCount}, 0)
  {
    hide Tables;
    IdsAreBelow(s);
    var r := CreateCounted(s, addr, source, penalty);
    assert NewIds(r.mapInfo) == NewIds(s.mapInfo) + {s.nIdCount};
    assert TriedIds(r.mapInfo) == TriedIds(s.mapInfo);
  }

  lemma AddKeepsInv(s: State, addr: Address, source: NetAddr, timePenalty: int,
                    routable: bool, now: int, later: int, draw: nat)
    requires Inv(s)
    ensures Inv(Add(s, addr, source, timePenalty, routable, now, later, draw).0)
  {
    hide Tables, CreateCounted, PlaceNew;
    if routable {
      var penalty := if addr.service.ip == source then 0 else timePenalty;
      if Knows(s, addr.service.ip) {
        var id := s.mapAddr[addr.service.ip];
        var info := AfterAnnouncement(s.mapInfo[id], addr, penalty, now);
        SetInfoKeepsInv(s, id, info, {}, 0);
        if WantsAnotherSlot(info, addr, draw) {
          PlaceNewKeepsInv(SetInfo(s, id, info), id, source, later);
        }
      } else {
        CreateCountedKeepsInv(s, addr, source, penalty);
        PlaceNewKeepsInv(CreateCounted(s, addr, source, penalty), s.nIdCount, source, later);
      }
    }
  }
}
