/**
 * The operations of the address manager as functions on states.  Clocks and
 * random choices are parameters.
 */
module AddrManOps {
  import opened AddrManState
  import opened SetFacts

  function Max(a: int, b: int): int {
    if a < b then b else a
  }

  /** Conversion of a 64-bit time to the 32-bit field it is stored in. */
  function ToUint32(t: int): int {
    t % TWO_TO_THE_32
  }

  /******* Facts about changing one entry *******/

  ghost predicate SameButPosition(a: AddrInfo, b: AddrInfo) {
    b == a.(randomPos := b.randomPos)
  }

  ghost predicate SamePositionsAside(m: map<Id, AddrInfo>, n: map<Id, AddrInfo>) {
    && m.Keys == n.Keys
    && forall k | k in m :: SameButPosition(m[k], n[k])
  }

  lemma PositionAside(m: map<Id, AddrInfo>, n: map<Id, AddrInfo>, id: Id)
    requires SamePositionsAside(m, n) && id in m
    ensures id in n && SameButPosition(m[id], n[id])
  {
  }

  /** Only RandomIndex looks at the positions. */
  lemma TablesIgnorePositions(s: State, m: map<Id, AddrInfo>)
    requires Links(s) && SamePositionsAside(s.mapInfo, m)
    ensures IdsBelow(m, s.nIdCount) && (AddrIndex(s.mapInfo, s.mapAddr) ==> AddrIndex(m, s.mapAddr))
    ensures TriedTable(s.cfg, m, s.triedSlots)
    ensures NewTable(s.cfg, m, s.newSlots) && RefCounts(m, s.newSlots)
  {
  }

  lemma TablesAreLinks(s: State)
    ensures Tables(s) <==> Links(s) && AddrIndex(s.mapInfo, s.mapAddr)
  {
  }

  /******* Helpers on the indexes *******/

  function NewInfo(addr: Address, source: NetAddr, pos: int): AddrInfo {
    AddrInfo(addr.service, addr.services, addr.time, source, 0, 0, 0, 0, 0, false, pos)
  }

  /** Enter an entry into the indexes under the next id. */
  ghost function Insert(s: State, info: AddrInfo): (r: State) {
    var id := s.nIdCount;
    s.(nIdCount := id + 1,
       mapInfo := s.mapInfo[id := info.(randomPos := |s.vRandom|)],
       mapAddr := s.mapAddr[info.addr.ip := id],
       vRandom := s.vRandom + [id])
  }

  ghost function Create(s: State, addr: Address, source: NetAddr): (r: State) {
    Insert(s, NewInfo(addr, source, |s.vRandom|))
  }

  lemma RandomIndexAppend(m: map<Id, AddrInfo>, v: seq<Id>, id: Id, info: AddrInfo)
    requires RandomIndex(m, v) && id !in m && info.randomPos == |v|
    ensures RandomIndex(m[id := info], v + [id])
  {
  }

  lemma AddrIndexAdd(m: map<Id, AddrInfo>, n: map<NetAddr, Id>, id: Id, info: AddrInfo)
    requires AddrIndex(m, n) && id !in m && info.addr.ip !in n
    ensures AddrIndex(m[id := info], n[info.addr.ip := id])
  {
  }

  lemma AddrIndexIgnores(m: map<Id, AddrInfo>, n: map<NetAddr, Id>, id: Id, info: AddrInfo)
    requires id in m && m[id].addr == info.addr
    ensures AddrIndex(m, n) ==> AddrIndex(m[id := info], n)
  {
  }

  lemma SlotsIgnoreUnknown(s: State, id: Id, info: AddrInfo)
    requires Links(s) && id !in s.mapInfo && !info.inTried && info.refCount == 0
    ensures TriedTable(s.cfg, s.mapInfo[id := info], s.triedSlots)
    ensures NewTable(s.cfg, s.mapInfo[id := info], s.newSlots)
    ensures RefCounts(s.mapInfo[id := info], s.newSlots)
  {
    hide IdsBelow, RandomIndex;
    assert Refs(s.newSlots, id) == {};
  }

  lemma InsertKeepsLinks(s: State, info: AddrInfo)
    requires Links(s) && !info.inTried && info.refCount == 0
    ensures Links(Insert(s, info))
  {
    hide RandomIndex, TriedTable, NewTable, RefCounts;
    var id := s.nIdCount;
    RandomIndexAppend(s.mapInfo, s.vRandom, id, info.(randomPos := |s.vRandom|));
    SlotsIgnoreUnknown(s, id, info.(randomPos := |s.vRandom|));
  }

  lemma InsertKeepsTables(s: State, info: AddrInfo)
    requires Tables(s) && info.addr.ip !in s.mapAddr && !info.inTried && info.refCount == 0
    ensures Tables(Insert(s, info))
  {
    hide AddrIndex, RandomIndex, TriedTable, NewTable, RefCounts;
    InsertKeepsLinks(s, info);
    AddrIndexAdd(s.mapInfo, s.mapAddr, s.nIdCount, info.(randomPos := |s.vRandom|));
  }

  ghost function SwapRandom(s: State, i: int, j: int): (r: State)
    requires RandomIndex(s.mapInfo, s.vRandom)
    requires 0 <= i < |s.vRandom| && 0 <= j < |s.vRandom|
    ensures SamePositionsAside(s.mapInfo, r.mapInfo)
    ensures RandomIndex(r.mapInfo, r.vRandom) && |r.vRandom| == |s.vRandom|
    ensures r == s.(mapInfo := r.mapInfo, vRandom := r.vRandom)
  {
    if i == j then s
    else
      var a, b := s.vRandom[i], s.vRandom[j];
      s.(mapInfo := s.mapInfo[a := s.mapInfo[a].(randomPos := j)][b := s.mapInfo[b].(randomPos := i)],
         vRandom := s.vRandom[i := b][j := a])
  }

  lemma TablesHaveRandomIndex(s: State)
    requires Tables(s)
    ensures RandomIndex(s.mapInfo, s.vRandom)
  {
  }

  lemma SwapRandomKeepsTables(s: State, i: int, j: int)
    requires Tables(s)
    requires 0 <= i < |s.vRandom| && 0 <= j < |s.vRandom|
    ensures Tables(SwapRandom(s, i, j))
  {
    hide RandomIndex, SwapRandom;
    TablesHaveRandomIndex(s);
    TablesIgnorePositions(s, SwapRandom(s, i, j).mapInfo);
  }

  /** No slot of either table holds the id. */
  ghost predicate Unreferenced(s: State, id: Id) {
    && (forall slot | slot in s.newSlots :: s.newSlots[slot] != id)
    && (forall slot | slot in s.triedSlots :: s.triedSlots[slot] != id)
  }

  /** Remove the entry that vRandom lists last. */
  ghost function DropLast(s: State, id: Id): (r: State)
    requires id in s.mapInfo && |s.vRandom| > 0
  {
    s.(vRandom := s.vRandom[..|s.vRandom| - 1],
       mapAddr := s.mapAddr - {s.mapInfo[id].addr.ip},
       mapInfo := s.mapInfo - {id},
       nNew := s.nNew - 1)
  }

  ghost function Delete(s: State, id: Id): (r: State)
    requires RandomIndex(s.mapInfo, s.vRandom) && id in s.mapInfo
    ensures r.mapInfo.Keys == s.mapInfo.Keys - {id}
    ensures forall k | k in r.mapInfo :: SameButPosition(s.mapInfo[k], r.mapInfo[k])
    ensures r == s.(mapInfo := r.mapInfo, mapAddr := r.mapAddr, vRandom := r.vRandom, nNew := s.nNew - 1)
    ensures RandomIndex(r.mapInfo, r.vRandom)
  {
    var t := SwapRandom(s, s.mapInfo[id].randomPos, |s.vRandom| - 1);
    RandomIndexDropLast(t.mapInfo, t.vRandom, id);
    DropLast(t, id)
  }

  lemma RandomIndexDropLast(m: map<Id, AddrInfo>, v: seq<Id>, id: Id)
    requires RandomIndex(m, v) && |v| > 0 && v[|v| - 1] == id
    ensures RandomIndex(m - {id}, v[..|v| - 1])
  {
    forall k | k in m - {id}
      ensures 0 <= m[k].randomPos < |v| - 1 && v[m[k].randomPos] == k
    {
    }
  }

  lemma AddrIndexDrop(m: map<Id, AddrInfo>, n: map<NetAddr, Id>, id: Id, r: map<Id, AddrInfo>)
    requires AddrIndex(m, n) && id in m && r.Keys == m.Keys - {id} && forall k | k in r :: SameButPosition(m[k], r[k])
    ensures AddrIndex(r, n - {m[id].addr.ip})
  {
  }

  lemma SlotsDrop(s: State, m: map<Id, AddrInfo>, id: Id)
    requires TriedTable(s.cfg, m, s.triedSlots) && NewTable(s.cfg, m, s.newSlots) && RefCounts(m, s.newSlots)
    requires Unreferenced(s, id)
    ensures TriedTable(s.cfg, m - {id}, s.triedSlots)
    ensures NewTable(s.cfg, m - {id}, s.newSlots)
    ensures RefCounts(m - {id}, s.newSlots)
  {
  }

  lemma DropLastKeepsLinks(s: State, id: Id)
    requires Links(s) && id in s.mapInfo && Unreferenced(s, id)
    requires s.mapInfo[id].randomPos == |s.vRandom| - 1
    ensures Links(DropLast(s, id))
  {
    RandomIndexDropLast(s.mapInfo, s.vRandom, id);
    SlotsDrop(s, s.mapInfo, id);
  }

  lemma DeleteKeepsLinks(s: State, id: Id)
    requires Links(s) && id in s.mapInfo && Unreferenced(s, id)
    ensures Links(Delete(s, id))
    ensures Delete(s, id).mapAddr == s.mapAddr - {s.mapInfo[id].addr.ip}
  {
    hide TriedTable, NewTable, RefCounts, IdsBelow, SamePositionsAside;
    var last := |s.vRandom| - 1;
    var t := SwapRandom(s, s.mapInfo[id].randomPos, last);
    assert SameButPosition(s.mapInfo[id], t.mapInfo[id]) by { PositionAside(s.mapInfo, t.mapInfo, id); }
    TablesIgnorePositions(s, t.mapInfo);
    DropLastKeepsLinks(t, id);
  }

  lemma DeleteKeepsTables(s: State, id: Id)
    requires Tables(s) && id in s.mapInfo && Unreferenced(s, id)
    ensures Tables(Delete(s, id))
  {
    hide AddrIndex, RandomIndex, TriedTable, NewTable, RefCounts, IdsBelow, Delete;
    DeleteKeepsLinks(s, id);
    AddrIndexDrop(s.mapInfo, s.mapAddr, id, Delete(s, id).mapInfo);
  }

  /** Take an id out of one slot of the new table. */
  ghost function DecRef(s: State, slot: Slot): (r: State)
    requires Tables(s) && slot in s.newSlots
  {
    var id := s.newSlots[slot];
    s.(mapInfo := s.mapInfo[id := s.mapInfo[id].(refCount := s.mapInfo[id].refCount - 1)],
       newSlots := s.newSlots - {slot})
  }

  /** Put an id into one free slot of the new table. */
  ghost function IncRef(s: State, id: Id, slot: Slot): (r: State)
    requires id in s.mapInfo
  {
    s.(mapInfo := s.mapInfo[id := s.mapInfo[id].(refCount := s.mapInfo[id].refCount + 1)],
       newSlots := s.newSlots[slot := id])
  }

  lemma RefsWithout(slots: map<Slot, Id>, slot: Slot, id: Id)
    requires slot in slots
    ensures |Refs(slots - {slot}, id)| == |Refs(slots, id)| - (if slots[slot] == id then 1 else 0)
  {
    assert Refs(slots - {slot}, id) == Refs(slots, id) - {slot};
  }

  lemma RefsWith(slots: map<Slot, Id>, slot: Slot, added: Id, id: Id)
    requires slot !in slots
    ensures |Refs(slots[slot := added], id)| == |Refs(slots, id)| + (if added == id then 1 else 0)
  {
    assert Refs(slots[slot := added], id) == Refs(slots, id) + if added == id then {slot} else {};
  }

  lemma IndexesIgnoreRefCount(s: State, id: Id, refCount: int)
    requires Links(s) && id in s.mapInfo
    ensures var m := s.mapInfo[id := s.mapInfo[id].(refCount := refCount)];
            && IdsBelow(m, s.nIdCount) && (AddrIndex(s.mapInfo, s.mapAddr) ==> AddrIndex(m, s.mapAddr))
            && RandomIndex(m, s.vRandom)
            && TriedTable(s.cfg, m, s.triedSlots) && NewTable(s.cfg, m, s.newSlots)
  {
    hide RefCounts;
  }

  lemma DecRefKeepsTables(s: State, slot: Slot)
    requires Tables(s) && slot in s.newSlots
    ensures Tables(DecRef(s, slot))
  {
    hide IdsBelow, AddrIndex, RandomIndex, TriedTable;
    var id := s.newSlots[slot];
    IndexesIgnoreRefCount(s, id, s.mapInfo[id].refCount - 1);
    var r := DecRef(s, slot);
    forall id | id in r.mapInfo ensures r.mapInfo[id].refCount == |Refs(r.newSlots, id)| {
      RefsWithout(s.newSlots, slot, id);
    }
  }

  lemma IncRefKeepsLinks(s: State, id: Id, slot: Slot)
    requires Links(s) && id in s.mapInfo && !s.mapInfo[id].inTried
    requires slot !in s.newSlots && 0 <= slot.0 < NEW_BUCKET_COUNT
    requires slot == s.cfg.NewSlot(s.mapInfo[id].addr, slot.0)
    ensures Links(IncRef(s, id, slot))
  {
    hide IdsBelow, AddrIndex, RandomIndex, TriedTable;
    IndexesIgnoreRefCount(s, id, s.mapInfo[id].refCount + 1);
    var r := IncRef(s, id, slot);
    forall k | k in r.mapInfo ensures r.mapInfo[k].refCount == |Refs(r.newSlots, k)| {
      RefsWith(s.newSlots, slot, id, k);
    }
  }

  lemma IncRefKeepsTables(s: State, id: Id, slot: Slot)
    requires Tables(s) && id in s.mapInfo && !s.mapInfo[id].inTried
    requires slot !in s.newSlots && 0 <= slot.0 < NEW_BUCKET_COUNT
    requires slot == s.cfg.NewSlot(s.mapInfo[id].addr, slot.0)
    ensures Tables(IncRef(s, id, slot))
  {
    hide IdsBelow, AddrIndex, RandomIndex, TriedTable, NewTable, RefCounts;
    IncRefKeepsLinks(s, id, slot);
    IndexesIgnoreRefCount(s, id, s.mapInfo[id].refCount + 1);
  }

  lemma NoRefsIsUnreferenced(s: State, id: Id)
    requires Links(s) || Tables(s)
    requires id in s.mapInfo && !s.mapInfo[id].inTried && s.mapInfo[id].refCount == 0
    ensures Unreferenced(s, id)
  {
    assert Refs(s.newSlots, id) == {};
    forall slot | slot in s.newSlots ensures s.newSlots[slot] != id {
      assert slot !in Refs(s.newSlots, id);
    }
  }

  /** An entry that no slot of the new table refers to any more is deleted. */
  ghost function DropUnreferenced(s: State, id: Id): (r: State)
    requires RandomIndex(s.mapInfo, s.vRandom) && id in s.mapInfo
    ensures r.newSlots == s.newSlots && r.triedSlots == s.triedSlots && r.cfg == s.cfg && r.nTried == s.nTried
    ensures forall k | k in s.mapInfo && k != id :: k in r.mapInfo && SameButPosition(s.mapInfo[k], r.mapInfo[k])
    ensures r.mapInfo.Keys <= s.mapInfo.Keys
  {
    hide Delete, RandomIndex;
    if s.mapInfo[id].refCount == 0 then Delete(s, id) else s
  }

  ghost function ClearNew(s: State, slot: Slot): (r: State)
    requires Tables(s)
    ensures r.newSlots == s.newSlots - {slot} && r.triedSlots == s.triedSlots
    ensures r.cfg == s.cfg && r.nTried == s.nTried
    ensures forall k | k in s.mapInfo && !(slot in s.newSlots && k == s.newSlots[slot]) ::
              k in r.mapInfo && SameButPosition(s.mapInfo[k], r.mapInfo[k])
    ensures r.mapInfo.Keys <= s.mapInfo.Keys
  {
    hide Tables, Delete, RandomIndex, DropUnreferenced;
    if slot !in s.newSlots then s
    else
      var id := s.newSlots[slot];
      DecRefKeepsTables(s, slot);
      var t := DecRef(s, slot);
      TablesHaveRandomIndex(t);
      DropUnreferenced(t, id)
  }

  lemma ClearNewKeepsTables(s: State, slot: Slot)
    requires Tables(s)
    ensures Tables(ClearNew(s, slot))
  {
    if slot in s.newSlots {
      var id := s.newSlots[slot];
      var t := DecRef(s, slot);
      DecRefKeepsTables(s, slot);
      if t.mapInfo[id].refCount == 0 {
        NoRefsIsUnreferenced(t, id);
        DeleteKeepsTables(t, id);
      }
    }
  }

  /******* Moving an entry to the tried table *******/

  ghost function WithoutId(slots: map<Slot, Id>, id: Id): map<Slot, Id> {
    map slot | slot in slots && slots[slot] != id :: slots[slot]
  }

  /** Take an entry out of every slot of the new table. */
  ghost function Unlink(s: State, id: Id): (r: State)
    requires id in s.mapInfo
  {
    s.(mapInfo := s.mapInfo[id := s.mapInfo[id].(refCount := 0)],
       newSlots := WithoutId(s.newSlots, id),
       nNew := s.nNew - 1)
  }

  /** Take the entry in a tried slot out of the tried table. */
  ghost function Retire(s: State, slot: Slot): (r: State)
    requires Tables(s) && slot in s.triedSlots
  {
    var evicted := s.triedSlots[slot];
    s.(mapInfo := s.mapInfo[evicted := s.mapInfo[evicted].(inTried := false)],
       triedSlots := s.triedSlots - {slot},
       nTried := s.nTried - 1)
  }

  /** The slot an entry has in the new table by its own source. */
  ghost function HomeSlot(s: State, id: Id): Slot
    requires id in s.mapInfo
  {
    var info := s.mapInfo[id];
    s.cfg.NewSlot(info.addr, s.cfg.NewBucket(info.addr, info.source))
  }

  /** Make an entry that is in no table the only holder of its home slot. */
  ghost function Rehome(s: State, id: Id): (r: State)
    requires Tables(s) && id in s.mapInfo && Unreferenced(s, id)
  {
    var slot := HomeSlot(s, id);
    var t := ClearNew(s, slot);
    t.(mapInfo := t.mapInfo[id := t.mapInfo[id].(refCount := 1)],
       newSlots := t.newSlots[slot := id],
       nNew := t.nNew + 1)
  }

  /** Put an entry that is in no table into a tried slot. */
  ghost function Place(s: State, id: Id, slot: Slot): (r: State)
    requires id in s.mapInfo
  {
    s.(triedSlots := s.triedSlots[slot := id],
       nTried := s.nTried + 1,
       mapInfo := s.mapInfo[id := s.mapInfo[id].(inTried := true)])
  }

  lemma UnlinkKeepsTables(s: State, id: Id)
    requires Tables(s) && id in s.mapInfo
    ensures Tables(Unlink(s, id))
    ensures Refs(Unlink(s, id).newSlots, id) == {}
  {
    hide IdsBelow, AddrIndex, RandomIndex, TriedTable;
    IndexesIgnoreRefCount(s, id, 0);
    var r := Unlink(s, id);
    assert Refs(r.newSlots, id) == {};
    forall k | k in r.mapInfo && k != id ensures r.mapInfo[k].refCount == |Refs(r.newSlots, k)| {
      assert Refs(r.newSlots, k) == Refs(s.newSlots, k);
    }
  }

  lemma TriedTableWithout(cfg: Config, m: map<Id, AddrInfo>, slots: map<Slot, Id>, slot: Slot)
    requires TriedTable(cfg, m, slots) && slot in slots
    ensures TriedTable(cfg, m[slots[slot] := m[slots[slot]].(inTried := false)], slots - {slot})
  {
  }

  lemma TriedTableWith(cfg: Config, m: map<Id, AddrInfo>, slots: map<Slot, Id>, slot: Slot, id: Id)
    requires TriedTable(cfg, m, slots) && slot !in slots && id in m && !m[id].inTried && slot == cfg.TriedSlot(m[id].addr)
    ensures TriedTable(cfg, m[id := m[id].(inTried := true)], slots[slot := id])
  {
  }

  lemma IndexesIgnoreInTried(s: State, id: Id, inTried: bool)
    requires Links(s) && id in s.mapInfo
    ensures var m := s.mapInfo[id := s.mapInfo[id].(inTried := inTried)];
            && IdsBelow(m, s.nIdCount) && (AddrIndex(s.mapInfo, s.mapAddr) ==> AddrIndex(m, s.mapAddr))
            && RandomIndex(m, s.vRandom) && RefCounts(m, s.newSlots)
            && ((!inTried || Unreferenced(s, id)) ==> NewTable(s.cfg, m, s.newSlots))
  {
    hide AddrIndex, TriedTable;
    AddrIndexIgnores(s.mapInfo, s.mapAddr, id, s.mapInfo[id].(inTried := inTried));
  }

  lemma RetireKeepsTables(s: State, slot: Slot)
    requires Tables(s) && slot in s.triedSlots
    ensures Tables(Retire(s, slot))
    ensures Unreferenced(Retire(s, slot), s.triedSlots[slot])
  {
    hide AddrIndex, RandomIndex, IdsBelow, RefCounts;
    TriedTableWithout(s.cfg, s.mapInfo, s.triedSlots, slot);
    IndexesIgnoreInTried(s, s.triedSlots[slot], false);
    assert Unreferenced(Retire(s, slot), s.triedSlots[slot]);
  }

  lemma UnreferencedHasNoCount(s: State, id: Id)
    requires Tables(s) && id in s.mapInfo && Unreferenced(s, id)
    ensures s.mapInfo[id].refCount == 0
  {
    assert Refs(s.newSlots, id) == {};
  }

  lemma TablesIgnoreCounters(s: State, r: State)
    requires Tables(s)
    requires r == s.(nNew := r.nNew, nTried := r.nTried, lastGood := r.lastGood, collisions := r.collisions)
    ensures Tables(r)
  {
  }

  lemma RehomeKeepsTables(s: State, id: Id)
    requires Tables(s) && id in s.mapInfo && !s.mapInfo[id].inTried && Unreferenced(s, id)
    ensures Tables(Rehome(s, id))
  {
    hide ClearNew, Tables;
    var slot := HomeSlot(s, id);
    var t := ClearNew(s, slot);
    ClearNewKeepsTables(s, slot);
    assert SameButPosition(s.mapInfo[id], t.mapInfo[id]);
    UnreferencedHasNoCount(t, id);
    IncRefKeepsTables(t, id, slot);
    TablesIgnoreCounters(IncRef(t, id, slot), Rehome(s, id));
  }

  lemma PlaceKeepsLinks(s: State, id: Id, slot: Slot)
    requires Links(s) && id in s.mapInfo && !s.mapInfo[id].inTried && Unreferenced(s, id)
    requires slot !in s.triedSlots && slot == s.cfg.TriedSlot(s.mapInfo[id].addr)
    ensures Links(Place(s, id, slot))
  {
    hide IdsBelow, AddrIndex, RandomIndex, NewTable, RefCounts;
    IndexesIgnoreInTried(s, id, true);
    TriedTableWith(s.cfg, s.mapInfo, s.triedSlots, slot, id);
  }

  lemma PlaceKeepsTables(s: State, id: Id, slot: Slot)
    requires Tables(s) && id in s.mapInfo && !s.mapInfo[id].inTried && Unreferenced(s, id)
    requires slot !in s.triedSlots && slot == s.cfg.TriedSlot(s.mapInfo[id].addr)
    ensures Tables(Place(s, id, slot))
  {
    hide IdsBelow, AddrIndex, RandomIndex, TriedTable, NewTable, RefCounts;
    PlaceKeepsLinks(s, id, slot);
    IndexesIgnoreInTried(s, id, true);
  }

  lemma TriedSlotHoldsTried(s: State, slot: Slot)
    requires Tables(s) && slot in s.triedSlots
    ensures s.triedSlots[slot] in s.mapInfo && s.mapInfo[s.triedSlots[slot]].inTried
  {
  }

  /** Make room in a tried slot: its entry goes back to the new table. */
  ghost function MakeRoom(s: State, slot: Slot): (r: State)
    requires Tables(s)
    ensures Tables(r) && slot !in r.triedSlots && r.cfg == s.cfg
  {
    hide Tables, ClearNew;
    if slot !in s.triedSlots then s
    else
      var evicted := s.triedSlots[slot];
      TriedSlotHoldsTried(s, slot);
      RetireKeepsTables(s, slot);
      RehomeKeepsTables(Retire(s, slot), evicted);
      Rehome(Retire(s, slot), evicted)
  }

  /** An entry in no table is not touched by making room for it. */
  lemma MakeRoomSpares(s: State, slot: Slot, id: Id)
    requires Tables(s) && id in s.mapInfo && s.mapInfo[id].refCount == 0 && !s.mapInfo[id].inTried
    ensures id in MakeRoom(s, slot).mapInfo && SameButPosition(s.mapInfo[id], MakeRoom(s, slot).mapInfo[id])
  {
    hide Tables, ClearNew;
    if slot in s.triedSlots {
      var evicted := s.triedSlots[slot];
      TriedSlotHoldsTried(s, slot);
      RetireKeepsTables(s, slot);
      var t := Retire(s, slot);
      NoRefsIsUnreferenced(t, id);
      var u := ClearNew(t, HomeSlot(t, evicted));
      assert SameButPosition(t.mapInfo[id], u.mapInfo[id]);
    }
  }

  ghost function MakeTried(s: State, id: Id): (r: State)
    requires Tables(s) && id in s.mapInfo && !s.mapInfo[id].inTried
    ensures Tables(r)
  {
    hide Tables, MakeRoom;
    var slot := s.cfg.TriedSlot(s.mapInfo[id].addr);
    UnlinkKeepsTables(s, id);
    MakeRoomSpares(Unlink(s, id), slot, id);
    var t := MakeRoom(Unlink(s, id), slot);
    NoRefsIsUnreferenced(t, id);
    PlaceKeepsTables(t, id, slot);
    Place(t, id, slot)
  }

  /******* Updating statistics *******/

  ghost function SetInfo(s: State, id: Id, info: AddrInfo): State {
    s.(mapInfo := s.mapInfo[id := info])
  }

  /** The parts of an entry that the tables and indexes depend on. */
  ghost predicate SameLinks(a: AddrInfo, b: AddrInfo) {
    b.addr == a.addr && b.refCount == a.refCount && b.inTried == a.inTried && b.randomPos == a.randomPos
  }

  lemma IndexesIgnoreStatistics(s: State, id: Id, info: AddrInfo)
    requires Tables(s) && id in s.mapInfo && SameLinks(s.mapInfo[id], info)
    ensures var m := s.mapInfo[id := info];
            IdsBelow(m, s.nIdCount) && AddrIndex(m, s.mapAddr) && RandomIndex(m, s.vRandom)
  {
    hide TriedTable, NewTable, RefCounts;
  }

  lemma SlotsIgnoreStatistics(s: State, id: Id, info: AddrInfo)
    requires Tables(s) && id in s.mapInfo && SameLinks(s.mapInfo[id], info)
    ensures var m := s.mapInfo[id := info];
            TriedTable(s.cfg, m, s.triedSlots) && NewTable(s.cfg, m, s.newSlots) && RefCounts(m, s.newSlots)
  {
    hide IdsBelow, AddrIndex, RandomIndex;
  }

  lemma SetInfoKeepsTables(s: State, id: Id, info: AddrInfo)
    requires Tables(s) && id in s.mapInfo && SameLinks(s.mapInfo[id], info)
    ensures Tables(SetInfo(s, id, info))
  {
    hide IdsBelow, AddrIndex, RandomIndex, TriedTable, NewTable, RefCounts;
    IndexesIgnoreStatistics(s, id, info);
    SlotsIgnoreStatistics(s, id, info);
  }

  /** Is there an entry for the network address of this service? */
  ghost predicate Knows(s: State, ip: NetAddr) {
    ip in s.mapAddr && s.mapAddr[ip] in s.mapInfo
  }

  /** Is there an entry for exactly this service, port included? */
  ghost predicate Matches(s: State, service: Service) {
    Knows(s, service.ip) && s.mapInfo[s.mapAddr[service.ip]].addr == service
  }

  function AfterSuccess(info: AddrInfo, time: int): AddrInfo {
    info.(lastSuccess := time, lastTry := time, attempts := 0)
  }

  ghost function Good(s: State, service: Service, testBeforeEvict: bool, time: int): (r: State)
    requires Tables(s)
    ensures Tables(r)
  {
    hide Tables;
    TablesIgnoreCounters(s, s.(lastGood := time));
    var s0 := s.(lastGood := time);
    if !Matches(s, service) then s0
    else
      var id := s.mapAddr[service.ip];
      var info := AfterSuccess(s.mapInfo[id], time);
      SetInfoKeepsTables(s0, id, info);
      var s1 := SetInfo(s0, id, info);
      if info.inTried || info.refCount <= 0 then s1
      else if testBeforeEvict && s.cfg.TriedSlot(info.addr) in s.triedSlots then
        if |s.collisions| < TRIED_COLLISION_SIZE then
          TablesIgnoreCounters(s1, s1.(collisions := s1.collisions + {id}));
          s1.(collisions := s1.collisions + {id})
        else s1
      else MakeTried(s1, id)
  }

  function AfterAttempt(info: AddrInfo, countFailure: bool, time: int, lastGood: int): AddrInfo {
    if countFailure && info.lastCountAttempt < lastGood
    then info.(lastTry := time, lastCountAttempt := time, attempts := info.attempts + 1)
    else info.(lastTry := time)
  }

  ghost function Attempt(s: State, service: Service, countFailure: bool, time: int): (r: State) {
    if !Matches(s, service) then s
    else
      var id := s.mapAddr[service.ip];
      SetInfo(s, id, AfterAttempt(s.mapInfo[id], countFailure, time, s.lastGood))
  }

  ghost function Connected(s: State, service: Service, time: int): (r: State) {
    if !Matches(s, service) then s
    else
      var id := s.mapAddr[service.ip];
      var info := s.mapInfo[id];
      if time - info.time > 20 * 60 then SetInfo(s, id, info.(time := ToUint32(time))) else s
  }

  ghost function SetServices(s: State, service: Service, services: Services): (r: State) {
    if !Matches(s, service) then s
    else
      var id := s.mapAddr[service.ip];
      SetInfo(s, id, s.mapInfo[id].(services := services))
  }

  /******* Adding an address *******/

  /** An announcement refreshes the time now and then, and adds services. */
  function AfterAnnouncement(info: AddrInfo, addr: Address, penalty: int, now: int): (r: AddrInfo)
    ensures SameLinks(info, r) && r == info.(time := r.time, services := r.services)
  {
    var interval := if now - addr.time < 24 * 60 * 60 then 60 * 60 else 24 * 60 * 60;
    var stale := addr.time != 0 && (info.time == 0 || info.time < addr.time - interval - penalty);
    info.(time := if stale then ToUint32(Max(0, addr.time - penalty)) else info.time,
          services := info.services + addr.services)
  }

  /** An announcement can be worth another slot only for a new entry that has not got all. */
  predicate WantsAnotherSlot(info: AddrInfo, addr: Address, draw: nat) {
    && addr.time != 0 && !(info.time != 0 && addr.time <= info.time)
    && !info.inTried
    && info.refCount != NEW_BUCKETS_PER_ADDRESS
    && !(info.refCount > 0 && draw != 0)
  }

  /** May the entry in a new slot be overwritten? */
  predicate Replaceable(existing: AddrInfo, incoming: AddrInfo, now: int) {
    existing.IsTerrible(now) || (existing.refCount > 1 && incoming.refCount == 0)
  }

  lemma NewSlotHoldsKnown(s: State, slot: Slot)
    requires Tables(s) && slot in s.newSlots
    ensures s.newSlots[slot] in s.mapInfo && !s.mapInfo[s.newSlots[slot]].inTried
  {
  }

  /** Give an entry the slot that the source of the announcement selects, if it may have it. */
  ghost function PlaceNew(s: State, id: Id, source: NetAddr, now: int): (r: State)
    requires Tables(s) && id in s.mapInfo && !s.mapInfo[id].inTried
    ensures Tables(r)
  {
    hide Tables, ClearNew, Delete;
    var info := s.mapInfo[id];
    var slot := s.cfg.NewSlot(info.addr, s.cfg.NewBucket(info.addr, source));
    if slot in s.newSlots && s.newSlots[slot] == id then s
    else if slot !in s.newSlots || (NewSlotHoldsKnown(s, slot); Replaceable(s.mapInfo[s.newSlots[slot]], info, now)) then
      ClearNewKeepsTables(s, slot);
      assert SameButPosition(info, ClearNew(s, slot).mapInfo[id]);
      IncRefKeepsTables(ClearNew(s, slot), id, slot);
      IncRef(ClearNew(s, slot), id, slot)
    else if info.refCount == 0 then
      NoRefsIsUnreferenced(s, id);
      TablesHaveRandomIndex(s);
      DeleteKeepsTables(s, id);
      Delete(s, id)
    else s
  }

  lemma AddrsAreKnown(s: State)
    requires Tables(s)
    ensures forall ip | ip in s.mapAddr :: Knows(s, ip)
  {
  }

  /** Create an entry for an address that is not known, and count it. */
  ghost function CreateCounted(s: State, addr: Address, source: NetAddr, penalty: int): (r: State)
    requires Tables(s) && !Knows(s, addr.service.ip)
    ensures Tables(r) && s.nIdCount in r.mapInfo && !r.mapInfo[s.nIdCount].inTried
    ensures r.mapInfo[s.nIdCount].refCount == 0
  {
    hide Tables;
    AddrsAreKnown(s);
    InsertKeepsTables(s, NewInfo(addr, source, |s.vRandom|));
    var t := Create(s, addr, source);
    var id := s.nIdCount;
    var info := t.mapInfo[id].(time := ToUint32(Max(0, addr.time - penalty)));
    SetInfoKeepsTables(t, id, info);
    TablesIgnoreCounters(SetInfo(t, id, info), SetInfo(t, id, info).(nNew := s.nNew + 1));
    SetInfo(t, id, info).(nNew := s.nNew + 1)
  }

  ghost function Add(s: State, addr: Address, source: NetAddr, timePenalty: int,
                     routable: bool, now: int, later: int, draw: nat): (r: (State, bool))
    requires Tables(s)
    ensures Tables(r.0)
  {
    hide Tables, CreateCounted, PlaceNew;
    if !routable then (s, false)
    else
      var penalty := if addr.service.ip == source then 0 else timePenalty;
      if Knows(s, addr.service.ip) then
        var id := s.mapAddr[addr.service.ip];
        var info := AfterAnnouncement(s.mapInfo[id], addr, penalty, now);
        SetInfoKeepsTables(s, id, info);
        var t := SetInfo(s, id, info);
        if WantsAnotherSlot(info, addr, draw) then (PlaceNew(t, id, source, later), false) else (t, false)
      else
        (PlaceNew(CreateCounted(s, addr, source, penalty), s.nIdCount, source, later), true)
  }

  /******* Collisions in the tried table *******/

  /** The readings of the clock while one candidate is resolved, in program order. */
  type Clock = nat -> int

  /** Does resolving this candidate replace the entry in its tried slot, or use the free slot? */
  ghost predicate ResolvesByMove(s: State, id: Id, clock: Clock, valid: Service -> bool)
    requires Tables(s) && id in s.mapInfo
  {
    var info := s.mapInfo[id];
    var slot := s.cfg.TriedSlot(info.addr);
    && valid(info.addr)
    && (slot in s.triedSlots ==>
          var rival := s.mapInfo[s.triedSlots[slot]];
          && clock(0) - rival.lastSuccess >= REPLACEMENT_HOURS * 60 * 60
          && if clock(1) - rival.lastTry < REPLACEMENT_HOURS * 60 * 60
             then clock(2) - rival.lastTry > 60
             else clock(3) - info.lastSuccess > TEST_WINDOW)
  }

  /** Is this candidate given up without a move? */
  ghost predicate ResolvesByDrop(s: State, id: Id, clock: Clock, valid: Service -> bool)
    requires Tables(s)
  {
    id in s.mapInfo ==>
      var info := s.mapInfo[id];
      var slot := s.cfg.TriedSlot(info.addr);
      || !valid(info.addr)
      || (slot in s.triedSlots &&
          clock(0) - s.mapInfo[s.triedSlots[slot]].lastSuccess < REPLACEMENT_HOURS * 60 * 60)
  }

  ghost function ResolveOne(s: State, id: Id, clock: Clock, valid: Service -> bool): (r: State)
    requires Tables(s)
    ensures Tables(r)
  {
    if id in s.mapInfo && ResolvesByMove(s, id, clock, valid) then
      hide Tables;
      var t := Good(s, s.mapInfo[id].addr, false, clock(4));
      TablesIgnoreCounters(t, t.(collisions := t.collisions - {id}));
      t.(collisions := t.collisions - {id})
    else if ResolvesByDrop(s, id, clock, valid) then
      hide Tables;
      TablesIgnoreCounters(s, s.(collisions := s.collisions - {id}));
      s.(collisions := s.collisions - {id})
    else s
  }

  /** Go through the candidates in increasing order. */
  ghost function ResolveAll(s: State, pending: set<Id>, clock: Id -> Clock, valid: Service -> bool): (r: State)
    requires Tables(s)
    ensures Tables(r)
    decreases |pending|
  {
    if |pending| == 0 then s
    else
      var id := Least(pending);
      ResolveAll(ResolveOne(s, id, clock(id), valid), pending - {id}, clock, valid)
  }

  ghost function ResolveCollisions(s: State, clock: Id -> Clock, valid: Service -> bool): (r: State)
    requires Tables(s)
    ensures Tables(r)
  {
    ResolveAll(s, s.collisions, clock, valid)
  }

  /** The state after looking at one candidate: a forgotten one is dropped. */
  ghost function SelectCollision(s: State, choice: Id): (r: State) {
    if choice in s.collisions && choice !in s.mapInfo
    then s.(collisions := s.collisions - {choice})
    else s
  }

  /******* Sampling addresses *******/

  /** The number of addresses asked for, given a maximum and a percentage (0 is no limit). */
  function SampleSize(known: nat, maxAddresses: nat, maxPct: nat): nat {
    var n := if maxPct != 0 then maxPct * known / 100 else known;
    if maxAddresses != 0 && maxAddresses < n then maxAddresses else n
  }

  /**
   * Shuffle vRandom from position n on, and collect the wanted entries met
   * until there are limit of them.  draws holds the random numbers.
   */
  ghost function Sample(s: State, n: nat, got: seq<Id>, limit: nat, draws: nat -> nat, wanted: AddrInfo -> bool): (r: (State, seq<Id>))
    requires Tables(s)
    decreases |s.vRandom| - n
  {
    if n >= |s.vRandom| || |got| >= limit then (s, got)
    else
      var j := n + draws(n) % (|s.vRandom| - n);
      SwapRandomKeepsTables(s, n, j);
      var t := SwapRandom(s, n, j);
      var id := t.vRandom[n];
      Sample(t, n + 1, if wanted(t.mapInfo[id]) then got + [id] else got, limit, draws, wanted)
  }
}
