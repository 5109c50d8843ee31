/**
 * Whole runs of the address manager: the invariant holds after any sequence of
 * operations, a tried slot once filled stays filled, and every collision
 * candidate still known has a rival in the tried table.
 */
module AddrManRuns {
  import opened AddrManState
  import opened AddrManOps
  import opened AddrManProofs
  import opened SetFacts

  /** One public operation, with the clock readings and random choices it meets. */
  datatype Op =
    | OpAdd(addr: Address, source: NetAddr, penalty: int, routable: bool, now: int, later: int, draw: nat)
    | OpGood(service: Service, testBeforeEvict: bool, time: int)
    | OpAttempt(service: Service, countFailure: bool, time: int)
    | OpConnected(service: Service, time: int)
    | OpSetServices(service: Service, services: Services)
    | OpResolve(clock: Id -> Clock, valid: Service -> bool)
    | OpSelectCollision(choice: Id)
    | OpSample(limit: nat, draws: nat -> nat, wanted: AddrInfo -> bool)

  ghost function Step(s: State, op: Op): State
    requires Inv(s)
  {
    match op
    case OpAdd(addr, source, penalty, routable, now, later, draw) =>
      Add(s, addr, source, penalty, routable, now, later, draw).0
    case OpGood(service, testBeforeEvict, time) => Good(s, service, testBeforeEvict, time)
    case OpAttempt(service, countFailure, time) => Attempt(s, service, countFailure, time)
    case OpConnected(service, time) => Connected(s, service, time)
    case OpSetServices(service, services) => SetServices(s, service, services)
    case OpResolve(clock, valid) => ResolveCollisions(s, clock, valid)
    case OpSelectCollision(choice) => SelectCollision(s, choice)
    case OpSample(limit, draws, wanted) => Sample(s, 0, [], limit, draws, wanted).0
  }

  /******* The invariant *******/

  lemma ResolveOneKeepsInv(s: State, id: Id, clock: Clock, valid: Service -> bool)
    requires Inv(s)
    ensures Inv(ResolveOne(s, id, clock, valid))
  {
    hide Tables, Good;
    var r := ResolveOne(s, id, clock, valid);
    if id in s.mapInfo && ResolvesByMove(s, id, clock, valid) {
      var t := Good(s, s.mapInfo[id].addr, false, clock(4));
      GoodKeepsInv(s, s.mapInfo[id].addr, false, clock(4));
      InvIgnores(t, t.(collisions := t.collisions - {id}));
    } else {
      InvIgnores(s, s.(collisions := s.collisions - {id}));
    }
  }

  lemma {:induction false} ResolveAllKeepsInv(s: State, pending: set<Id>, clock: Id -> Clock, valid: Service -> bool)
    requires Inv(s)
    ensures Inv(ResolveAll(s, pending, clock, valid))
    decreases |pending|
  {
    hide Tables, ResolveOne;
    if |pending| != 0 {
      var id := Least(pending);
      ResolveOneKeepsInv(s, id, clock(id), valid);
      ResolveAllKeepsInv(ResolveOne(s, id, clock(id), valid), pending - {id}, clock, valid);
    }
  }

  lemma SwapRandomKeepsInv(s: State, i: int, j: int)
    requires Inv(s) && 0 <= i < |s.vRandom| && 0 <= j < |s.vRandom|
    ensures Inv(SwapRandom(s, i, j))
  {
    hide Tables, RandomIndex;
    SwapRandomKeepsTables(s, i, j);
    TablesHaveRandomIndex(s);
    var r := SwapRandom(s, i, j);
    assert forall k | k in s.mapInfo :: SameButPosition(s.mapInfo[k], r.mapInfo[k]);
    assert NewIds(r.mapInfo) == NewIds(s.mapInfo);
    assert TriedIds(r.mapInfo) == TriedIds(s.mapInfo);
  }

  lemma {:induction false} SampleKeepsInv(s: State, n: nat, got: seq<Id>, limit: nat, draws: nat -> nat, wanted: AddrInfo -> bool)
    requires Inv(s)
    ensures Inv(Sample(s, n, got, limit, draws, wanted).0)
    decreases |s.vRandom| - n
  {
    hide Tables, RandomIndex, RefBounds, Counters, SwapRandom, SamePositionsAside;
    if n < |s.vRandom| && |got| < limit {
      var j := n + draws(n) % (|s.vRandom| - n);
      SwapRandomKeepsInv(s, n, j);
      SwapRandomKeepsTables(s, n, j);
      TablesHaveRandomIndex(s);
      var t := SwapRandom(s, n, j);
      var id := t.vRandom[n];
      VRandomNames(t, n);
      SampleKeepsInv(t, n + 1, if wanted(t.mapInfo[id]) then got + [id] else got, limit, draws, wanted);
    }
  }

  lemma VRandomNames(s: State, n: nat)
    requires Tables(s) && n < |s.vRandom|
    ensures s.vRandom[n] in s.mapInfo
  {
  }

  lemma StepKeepsInv(s: State, op: Op)
    requires Inv(s)
    ensures Inv(Step(s, op))
  {
    hide Tables, Good, Add, ResolveAll, Sample, InvWith;
    match op
    case OpAdd(addr, source, penalty, routable, now, later, draw) =>
      AddKeepsInv(s, addr, source, penalty, routable, now, later, draw);
    case OpGood(service, testBeforeEvict, time) => GoodKeepsInv(s, service, testBeforeEvict, time);
    case OpAttempt(service, countFailure, time) => AttemptKeepsInv(s, service, countFailure, time);
    case OpConnected(service, time) => ConnectedKeepsInv(s, service, time);
    case OpSetServices(service, services) => SetServicesKeepsInv(s, service, services);
    case OpResolve(clock, valid) => ResolveAllKeepsInv(s, s.collisions, clock, valid);
    case OpSelectCollision(choice) => InvIgnores(s, SelectCollision(s, choice));
    case OpSample(limit, draws, wanted) => SampleKeepsInv(s, 0, [], limit, draws, wanted);
  }

  ghost function Run(s: State, ops: seq<Op>): (r: State)
    requires Inv(s)
    ensures Inv(r)
    decreases |ops|
  {
    if ops == [] then s
    else
      StepKeepsInv(s, ops[0]);
      Run(Step(s, ops[0]), ops[1..])
  }

  /******* What no operation changes *******/

  /** Entries are only dropped, and those left keep id, address and statistics. */
  ghost predicate OnlyDrops(s: State, r: State) {
    && r.cfg == s.cfg && r.nIdCount == s.nIdCount && r.collisions == s.collisions && r.lastGood == s.lastGood
    && r.mapInfo.Keys <= s.mapInfo.Keys
    && forall id | id in r.mapInfo :: SameHistory(s.mapInfo[id], r.mapInfo[id])
  }

  /** Nothing but the place of an entry in the tables differs. */
  ghost predicate SameHistory(a: AddrInfo, b: AddrInfo) {
    b == a.(refCount := b.refCount, inTried := b.inTried, randomPos := b.randomPos)
  }

  /** No entry but one enters the tried table. */
  ghost predicate OnlyTries(s: State, r: State, only: set<Id>) {
    forall id | id in r.mapInfo && r.mapInfo[id].inTried && id !in only :: id in s.mapInfo && s.mapInfo[id].inTried
  }

  /** Every entry that was tried, or held more than one new slot, is still there. */
  ghost predicate KeepsTried(s: State, r: State) {
    forall id | id in s.mapInfo && (s.mapInfo[id].inTried || s.mapInfo[id].refCount != 1) :: id in r.mapInfo
  }

  lemma ClearNewOnlyDrops(s: State, slot: Slot)
    requires Tables(s)
    ensures OnlyDrops(s, ClearNew(s, slot)) && KeepsTried(s, ClearNew(s, slot)) && OnlyTries(s, ClearNew(s, slot), {})
  {
    if slot in s.newSlots {
      var id := s.newSlots[slot];
      NewSlotHoldsKnown(s, slot);
      DecRefKeepsTables(s, slot);
      var t := DecRef(s, slot);
      hide Tables, Delete;
      var r := ClearNew(s, slot);
      forall k | k in r.mapInfo
        ensures k in s.mapInfo && SameHistory(s.mapInfo[k], r.mapInfo[k])
        ensures r.mapInfo[k].inTried == s.mapInfo[k].inTried
      {
        assert SameButPosition(t.mapInfo[k], r.mapInfo[k]);
      }
    }
  }

  lemma MakeRoomEffect(s: State, slot: Slot)
    requires Tables(s)
    ensures OnlyDrops(s, MakeRoom(s, slot)) && KeepsTried(s, MakeRoom(s, slot)) && OnlyTries(s, MakeRoom(s, slot), {})
    ensures MakeRoom(s, slot).triedSlots == s.triedSlots - {slot}
  {
    hide Tables, ClearNew;
    if slot in s.triedSlots {
      var evicted := s.triedSlots[slot];
      RetireKeepsTables(s, slot);
      TriedSlotHoldsTried(s, slot);
      var t := Retire(s, slot);
      ClearNewOnlyDrops(t, HomeSlot(t, evicted));
      var u := ClearNew(t, HomeSlot(t, evicted));
      assert OnlyDrops(t, u);
      assert OnlyDrops(s, MakeRoom(s, slot));
    }
  }

  /**
   * A move to the tried table fills the entry's slot and empties none; the
   * entry that was there stays known, and at most new entries are dropped.
   */
  lemma MakeTriedEffect(s: State, id: Id)
    requires Tables(s) && id in s.mapInfo && !s.mapInfo[id].inTried
    ensures OnlyDrops(s, MakeTried(s, id)) && KeepsTried(s, MakeTried(s, id)) && OnlyTries(s, MakeTried(s, id), {id})
    ensures MakeTried(s, id).triedSlots == s.triedSlots[s.cfg.TriedSlot(s.mapInfo[id].addr) := id]
    ensures id in MakeTried(s, id).mapInfo && MakeTried(s, id).mapInfo[id].inTried
  {
    hide Tables, MakeRoom;
    var slot := s.cfg.TriedSlot(s.mapInfo[id].addr);
    UnlinkKeepsTables(s, id);
    var u := Unlink(s, id);
    MakeRoomEffect(u, slot);
    MakeRoomSpares(u, slot, id);
    var t := MakeRoom(u, slot);
    assert MakeTried(s, id) == Place(t, id, slot);
  }

  /**
   * Filled tried slots stay filled, and an id is never given to a second
   * address: what is known under an old id was known under it before.
   */
  ghost predicate Stable(s: State, r: State) {
    && r.cfg == s.cfg && s.nIdCount <= r.nIdCount
    && s.triedSlots.Keys <= r.triedSlots.Keys
    && forall id | id in r.mapInfo && id < s.nIdCount ::
         id in s.mapInfo && r.mapInfo[id].addr == s.mapInfo[id].addr
  }

  /** The candidates are old ones, and possibly one whose tried slot is taken. */
  ghost predicate CollisionsGrowRightly(s: State, r: State) {
    forall id | id in r.collisions :: id in s.collisions ||
      (id in s.mapInfo && id < s.nIdCount && s.cfg.TriedSlot(s.mapInfo[id].addr) in s.triedSlots)
  }

  lemma GoodStable(s: State, service: Service, testBeforeEvict: bool, time: int)
    requires Tables(s)
    ensures var r := Good(s, service, testBeforeEvict, time);
            Stable(s, r) && CollisionsGrowRightly(s, r) && KeepsTried(s, r)
    ensures !testBeforeEvict ==> Good(s, service, testBeforeEvict, time).collisions == s.collisions
  {
    hide Tables, MakeTried;
    IdsAreBelow(s);
    var s0 := s.(lastGood := time);
    TablesIgnoreCounters(s, s0);
    if Matches(s, service) {
      var id := s.mapAddr[service.ip];
      var info := AfterSuccess(s.mapInfo[id], time);
      SetInfoKeepsTables(s0, id, info);
      var s1 := SetInfo(s0, id, info);
      if info.inTried || info.refCount <= 0 {
      } else if testBeforeEvict && s.cfg.TriedSlot(info.addr) in s.triedSlots {
      } else {
        MakeTriedEffect(s1, id);
      }
    }
  }

  lemma PlaceNewStable(s: State, id: Id, source: NetAddr, now: int)
    requires Tables(s) && id in s.mapInfo && !s.mapInfo[id].inTried
    ensures OnlyDrops(s, PlaceNew(s, id, source, now)) && OnlyTries(s, PlaceNew(s, id, source, now), {})
    ensures PlaceNew(s, id, source, now).triedSlots == s.triedSlots
  {
    hide Tables, ClearNew, Delete;
    var info := s.mapInfo[id];
    var slot := s.cfg.NewSlot(info.addr, s.cfg.NewBucket(info.addr, source));
    if slot in s.newSlots && s.newSlots[slot] == id {
    } else if slot !in s.newSlots || (NewSlotHoldsKnown(s, slot); Replaceable(s.mapInfo[s.newSlots[slot]], info, now)) {
      ClearNewOnlyDrops(s, slot);
    } else if info.refCount == 0 {
      TablesHaveRandomIndex(s);
      var r := Delete(s, id);
      assert forall k | k in r.mapInfo :: SameButPosition(s.mapInfo[k], r.mapInfo[k]);
    }
  }

  lemma AddStable(s: State, addr: Address, source: NetAddr, timePenalty: int,
                  routable: bool, now: int, later: int, draw: nat)
    requires Tables(s)
    ensures var r := Add(s, addr, source, timePenalty, routable, now, later, draw).0;
            Stable(s, r) && r.collisions == s.collisions && r.triedSlots == s.triedSlots
  {
    hide Tables, PlaceNew;
    IdsAreBelow(s);
    if routable {
      var penalty := if addr.service.ip == source then 0 else timePenalty;
      if Knows(s, addr.service.ip) {
        var id := s.mapAddr[addr.service.ip];
        var info := AfterAnnouncement(s.mapInfo[id], addr, penalty, now);
        SetInfoKeepsTables(s, id, info);
        if WantsAnotherSlot(info, addr, draw) {
          PlaceNewStable(SetInfo(s, id, info), id, source, later);
        }
      } else {
        PlaceNewStable(CreateCounted(s, addr, source, penalty), s.nIdCount, source, later);
      }
    }
  }

  lemma StableIsTransitive(s: State, t: State, r: State)
    requires Stable(s, t) && Stable(t, r)
    ensures Stable(s, r)
  {
  }

  lemma ResolveOneStable(s: State, id: Id, clock: Clock, valid: Service -> bool)
    requires Tables(s)
    ensures Stable(s, ResolveOne(s, id, clock, valid))
    ensures ResolveOne(s, id, clock, valid).collisions <= s.collisions
  {
    if id in s.mapInfo && ResolvesByMove(s, id, clock, valid) {
      GoodStable(s, s.mapInfo[id].addr, false, clock(4));
    }
  }

  lemma {:induction false} ResolveAllStable(s: State, pending: set<Id>, clock: Id -> Clock, valid: Service -> bool)
    requires Tables(s)
    ensures Stable(s, ResolveAll(s, pending, clock, valid))
    ensures ResolveAll(s, pending, clock, valid).collisions <= s.collisions
    decreases |pending|
  {
    hide Tables, ResolveOne;
    if |pending| != 0 {
      var id := Least(pending);
      var t := ResolveOne(s, id, clock(id), valid);
      ResolveOneStable(s, id, clock(id), valid);
      ResolveAllStable(t, pending - {id}, clock, valid);
      StableIsTransitive(s, t, ResolveAll(t, pending - {id}, clock, valid));
    }
  }

  lemma PositionsAsideTransitive(a: map<Id, AddrInfo>, b: map<Id, AddrInfo>, c: map<Id, AddrInfo>)
    requires SamePositionsAside(a, b) && SamePositionsAside(b, c)
    ensures SamePositionsAside(a, c)
  {
    forall k | k in a ensures SameButPosition(a[k], c[k]) {
      assert SameButPosition(a[k], b[k]) && SameButPosition(b[k], c[k]);
    }
  }

  lemma PositionsAsideReflexive(a: map<Id, AddrInfo>)
    ensures SamePositionsAside(a, a)
  {
  }

  lemma {:induction false} SampleStable(s: State, n: nat, got: seq<Id>, limit: nat, draws: nat -> nat, wanted: AddrInfo -> bool)
    requires Tables(s)
    ensures var r := Sample(s, n, got, limit, draws, wanted).0;
            r == s.(mapInfo := r.mapInfo, vRandom := r.vRandom) && SamePositionsAside(s.mapInfo, r.mapInfo)
    decreases |s.vRandom| - n
  {
    hide Tables, RandomIndex, SwapRandom, SamePositionsAside;
    if n < |s.vRandom| && |got| < limit {
      var j := n + draws(n) % (|s.vRandom| - n);
      SwapRandomKeepsTables(s, n, j);
      TablesHaveRandomIndex(s);
      var t := SwapRandom(s, n, j);
      var id := t.vRandom[n];
      VRandomNames(t, n);
      SampleStable(t, n + 1, if wanted(t.mapInfo[id]) then got + [id] else got, limit, draws, wanted);
      PositionsAsideTransitive(s.mapInfo, t.mapInfo, Sample(s, n, got, limit, draws, wanted).0.mapInfo);
    } else {
      PositionsAsideReflexive(s.mapInfo);
    }
  }

  lemma StepStable(s: State, op: Op)
    requires Inv(s)
    ensures Stable(s, Step(s, op)) && CollisionsGrowRightly(s, Step(s, op))
  {
    hide Tables, Good, Add, ResolveAll, Sample, RefBounds, Counters;
    IdsAreBelow(s);
    match op
    case OpAdd(addr, source, penalty, routable, now, later, draw) =>
      AddStable(s, addr, source, penalty, routable, now, later, draw);
    case OpGood(service, testBeforeEvict, time) => GoodStable(s, service, testBeforeEvict, time);
    case OpAttempt(_, _, _) =>
    case OpConnected(_, _) =>
    case OpSetServices(_, _) =>
    case OpResolve(clock, valid) => ResolveAllStable(s, s.collisions, clock, valid);
    case OpSelectCollision(_) =>
    case OpSample(limit, draws, wanted) => SampleStable(s, 0, [], limit, draws, wanted);
  }

  lemma StepKeepsCollisionsOk(s: State, op: Op)
    requires Inv(s) && CollisionsOk(s)
    ensures CollisionsOk(Step(s, op))
  {
    StepStable(s, op);
    hide Step, Inv;
    var r := Step(s, op);
    assert forall id | id in r.collisions :: id < s.nIdCount;
  }

  /**
   * Over a whole run: slots of the tried table never become empty, ids keep
   * their addresses, and candidates still known have a rival.
   */
  lemma {:induction false} RunStable(s: State, ops: seq<Op>)
    requires Inv(s) && CollisionsOk(s)
    ensures Stable(s, Run(s, ops)) && CollisionsOk(Run(s, ops))
    decreases |ops|
  {
    hide Step, InvWith, CollisionsOk;
    if ops == [] {
      IdsAreBelowInv(s);
    } else {
      StepKeepsInv(s, ops[0]);
      StepStable(s, ops[0]);
      StepKeepsCollisionsOk(s, ops[0]);
      RunStable(Step(s, ops[0]), ops[1..]);
      StableIsTransitive(s, Step(s, ops[0]), Run(s, ops));
    }
  }

  lemma IdsAreBelowInv(s: State)
    requires Inv(s)
    ensures Stable(s, s)
  {
  }

  /** The rival of a candidate: always an entry of the tried table. */
  ghost function Rival(s: State, choice: Id): (r: AddrInfo)
    requires Inv(s) && CollisionsOk(s) && choice in s.collisions && choice in s.mapInfo
    ensures r.inTried && s.cfg.TriedSlot(r.addr) == s.cfg.TriedSlot(s.mapInfo[choice].addr)
    ensures exists id | id in s.mapInfo :: s.mapInfo[id] == r
  {
    s.mapInfo[s.triedSlots[s.cfg.TriedSlot(s.mapInfo[choice].addr)]]
  }

  /******* The times in the consistency check *******/

  /**
   * Marking an address good keeps the times in order exactly when the time is
   * positive, or nothing matches, or the time is zero and the entry stays new.
   */
  lemma GoodTimes(s: State, service: Service, testBeforeEvict: bool, time: int)
    requires Inv(s) && TimesOk(s)
    ensures TimesOk(Good(s, service, testBeforeEvict, time)) <==>
            || !Matches(s, service)
            || time > 0
            || (time == 0 && testBeforeEvict
                && !s.mapInfo[s.mapAddr[service.ip]].inTried
                && s.cfg.TriedSlot(service) in s.triedSlots)
  {
    hide Tables, MakeTried, Counters;
    var s0 := s.(lastGood := time);
    TablesIgnoreCounters(s, s0);
    if Matches(s, service) {
      var id := s.mapAddr[service.ip];
      var info := AfterSuccess(s.mapInfo[id], time);
      SetInfoKeepsTables(s0, id, info);
      var s1 := SetInfo(s0, id, info);
      assert info.inTried || info.refCount > 0;
      var r := Good(s, service, testBeforeEvict, time);
      if !info.inTried && !(testBeforeEvict && s.cfg.TriedSlot(info.addr) in s.triedSlots) {
        MakeTriedEffect(s1, id);
      }
      assert id in r.mapInfo && SameHistory(info, r.mapInfo[id]);
      assert forall k | k in r.mapInfo && k != id :: k in s.mapInfo && SameHistory(s.mapInfo[k], r.mapInfo[k]);
    }
  }

  /** The times an operation reads or is given are those of a clock past its start. */
  ghost predicate PositiveTimes(op: Op) {
    match op
    case OpGood(_, _, time) => time > 0
    case OpAttempt(_, _, time) => time > 0
    case OpResolve(clock, _) => forall id :: clock(id)(4) > 0
    case _ => true
  }

  lemma {:induction false} ResolveAllTimes(s: State, pending: set<Id>, clock: Id -> Clock, valid: Service -> bool)
    requires Inv(s) && TimesOk(s) && forall id :: clock(id)(4) > 0
    ensures TimesOk(ResolveAll(s, pending, clock, valid))
    decreases |pending|
  {
    hide Tables, RefBounds, Counters, Good;
    if |pending| != 0 {
      var id := Least(pending);
      var t := ResolveOne(s, id, clock(id), valid);
      ResolveOneKeepsInv(s, id, clock(id), valid);
      if id in s.mapInfo && ResolvesByMove(s, id, clock(id), valid) {
        GoodTimes(s, s.mapInfo[id].addr, false, clock(id)(4));
      }
      ResolveAllTimes(t, pending - {id}, clock, valid);
    }
  }

  lemma AddTimes(s: State, addr: Address, source: NetAddr, timePenalty: int,
                 routable: bool, now: int, later: int, draw: nat)
    requires Tables(s) && TimesOk(s)
    ensures TimesOk(Add(s, addr, source, timePenalty, routable, now, later, draw).0)
  {
    hide Tables, PlaceNew;
    if routable {
      var penalty := if addr.service.ip == source then 0 else timePenalty;
      if Knows(s, addr.service.ip) {
        var id := s.mapAddr[addr.service.ip];
        var info := AfterAnnouncement(s.mapInfo[id], addr, penalty, now);
        SetInfoKeepsTables(s, id, info);
        if WantsAnotherSlot(info, addr, draw) {
          PlaceNewStable(SetInfo(s, id, info), id, source, later);
          DropsKeepTimes(SetInfo(s, id, info), PlaceNew(SetInfo(s, id, info), id, source, later));
        }
      } else {
        var t := CreateCounted(s, addr, source, penalty);
        PlaceNewStable(t, s.nIdCount, source, later);
        DropsKeepTimes(t, PlaceNew(t, s.nIdCount, source, later));
      }
    }
  }

  lemma DropsKeepTimes(s: State, r: State)
    requires OnlyDrops(s, r) && OnlyTries(s, r, {}) && TimesOk(s)
    ensures TimesOk(r)
  {
  }

  lemma StepTimes(s: State, op: Op)
    requires Inv(s) && TimesOk(s) && PositiveTimes(op)
    ensures TimesOk(Step(s, op))
  {
    hide Tables, Good, Add, ResolveAll, Sample, RefBounds, Counters;
    match op
    case OpAdd(addr, source, penalty, routable, now, later, draw) =>
      AddTimes(s, addr, source, penalty, routable, now, later, draw);
    case OpGood(service, testBeforeEvict, time) => GoodTimes(s, service, testBeforeEvict, time);
    case OpAttempt(_, _, _) =>
    case OpConnected(_, _) =>
    case OpSetServices(_, _) =>
    case OpResolve(clock, valid) => ResolveAllTimes(s, s.collisions, clock, valid);
    case OpSelectCollision(_) =>
    case OpSample(limit, draws, wanted) =>
      SampleStable(s, 0, [], limit, draws, wanted);
      var r := Step(s, op);
      assert forall k | k in r.mapInfo :: SameButPosition(s.mapInfo[k], r.mapInfo[k]);
  }

  /** The whole consistency check of the node. */
  ghost predicate Consistent(s: State) {
    Inv(s) && TimesOk(s) && s.cfg.key != 0
  }

  /** After any run of operations at positive times the consistency check passes. */
  lemma {:induction false} RunConsistent(s: State, ops: seq<Op>)
    requires Consistent(s) && forall op | op in ops :: PositiveTimes(op)
    ensures Consistent(Run(s, ops))
    decreases |ops|
  {
    hide Step, InvWith;
    if ops != [] {
      StepKeepsInv(s, ops[0]);
      StepTimes(s, ops[0]);
      StepStable(s, ops[0]);
      RunConsistent(Step(s, ops[0]), ops[1..]);
    }
  }

  /******* What a sample of addresses contains *******/

  ghost predicate IgnoresPosition(wanted: AddrInfo -> bool) {
    forall a, b | SameButPosition(a, b) :: wanted(a) == wanted(b)
  }

  /** got lists, without repetition, exactly the wanted entries at positions below n. */
  ghost predicate Collected(m: map<Id, AddrInfo>, n: nat, got: seq<Id>, wanted: AddrInfo -> bool) {
    && (forall i, j | 0 <= i < j < |got| :: got[i] != got[j])
    && (forall id | id in got :: id in m && wanted(m[id]) && m[id].randomPos < n)
    && (forall id | id in m && wanted(m[id]) && m[id].randomPos < n :: id in got)
  }

  lemma SwapAbove(s: State, n: nat, j: nat, got: seq<Id>, wanted: AddrInfo -> bool)
    requires Tables(s) && n <= j < |s.vRandom| && IgnoresPosition(wanted) && Collected(s.mapInfo, n, got, wanted)
    ensures Collected(SwapRandom(s, n, j).mapInfo, n, got, wanted)
  {
    var t := SwapRandom(s, n, j);
    forall k | k in s.mapInfo
      ensures wanted(s.mapInfo[k]) == wanted(t.mapInfo[k])
      ensures s.mapInfo[k].randomPos < n <==> t.mapInfo[k].randomPos < n
    {
      assert SameButPosition(s.mapInfo[k], t.mapInfo[k]);
    }
  }

  lemma CollectNext(m: map<Id, AddrInfo>, v: seq<Id>, n: nat, got: seq<Id>, wanted: AddrInfo -> bool)
    requires RandomIndex(m, v) && n < |v| && Collected(m, n, got, wanted)
    ensures Collected(m, n + 1, if wanted(m[v[n]]) then got + [v[n]] else got, wanted)
  {
    var id := v[n];
    assert m[id].randomPos == n && id !in got;
    forall k | k in m && wanted(m[k]) && m[k].randomPos < n + 1 && k != id ensures k in got {
      assert v[m[k].randomPos] == k;
    }
  }

  /**
   * A sample holds wanted, known entries, none twice and no more than asked
   * for; and if it holds fewer than asked for, it holds all the wanted ones.
   */
  ghost predicate GoodSample(m: map<Id, AddrInfo>, ids: seq<Id>, limit: nat, wanted: AddrInfo -> bool) {
    && |ids| <= limit
    && (forall i, j | 0 <= i < j < |ids| :: ids[i] != ids[j])
    && (forall id | id in ids :: id in m && wanted(m[id]))
    && (|ids| < limit ==> forall id | id in m && wanted(m[id]) :: id in ids)
  }

  lemma GoodSampleIgnoresPositions(m: map<Id, AddrInfo>, n: map<Id, AddrInfo>, ids: seq<Id>, limit: nat, wanted: AddrInfo -> bool)
    requires SamePositionsAside(m, n) && IgnoresPosition(wanted) && GoodSample(n, ids, limit, wanted)
    ensures GoodSample(m, ids, limit, wanted)
  {
    forall k | k in m ensures wanted(m[k]) == wanted(n[k]) {
      assert SameButPosition(m[k], n[k]);
    }
  }

  lemma {:induction false} SampleResult(s: State, n: nat, got: seq<Id>, limit: nat, draws: nat -> nat, wanted: AddrInfo -> bool)
    requires Tables(s) && n <= |s.vRandom| && |got| <= limit
    requires IgnoresPosition(wanted) && Collected(s.mapInfo, n, got, wanted)
    ensures GoodSample(s.mapInfo, Sample(s, n, got, limit, draws, wanted).1, limit, wanted)
    decreases |s.vRandom| - n
  {
    hide Tables, RandomIndex, SwapRandom, Collected, GoodSample, SamePositionsAside, IgnoresPosition;
    if n < |s.vRandom| && |got| < limit {
      var j := n + draws(n) % (|s.vRandom| - n);
      SwapRandomKeepsTables(s, n, j);
      TablesHaveRandomIndex(s);
      var t := SwapRandom(s, n, j);
      VRandomNames(t, n);
      SwapAbove(s, n, j, got, wanted);
      CollectNext(t.mapInfo, t.vRandom, n, got, wanted);
      var id := t.vRandom[n];
      var got' := if wanted(t.mapInfo[id]) then got + [id] else got;
      var ids := Sample(t, n + 1, got', limit, draws, wanted).1;
      assert ids == Sample(s, n, got, limit, draws, wanted).1;
      SampleResult(t, n + 1, got', limit, draws, wanted);
      GoodSampleIgnoresPositions(s.mapInfo, t.mapInfo, ids, limit, wanted);
    } else {
      SampleEnds(s, n, got, limit, wanted);
    }
  }

  lemma SampleFromStart(s: State, limit: nat, draws: nat -> nat, wanted: AddrInfo -> bool)
    requires Inv(s) && IgnoresPosition(wanted)
    ensures Inv(Sample(s, 0, [], limit, draws, wanted).0)
    ensures GoodSample(s.mapInfo, Sample(s, 0, [], limit, draws, wanted).1, limit, wanted)
  {
    hide Tables, IgnoresPosition, GoodSample, RefBounds, Counters;
    SampleKeepsInv(s, 0, [], limit, draws, wanted);
    PositionsInRange(s);
    SampleResult(s, 0, [], limit, draws, wanted);
  }

  lemma SampleEnds(s: State, n: nat, got: seq<Id>, limit: nat, wanted: AddrInfo -> bool)
    requires Tables(s) && |got| <= limit && (n == |s.vRandom| || |got| == limit)
    requires Collected(s.mapInfo, n, got, wanted)
    ensures GoodSample(s.mapInfo, got, limit, wanted)
  {
    hide Tables;
    PositionsInRange(s);
  }

  lemma PositionsInRange(s: State)
    requires Tables(s)
    ensures forall id | id in s.mapInfo :: 0 <= s.mapInfo[id].randomPos < |s.vRandom|
  {
  }

  /******* What the answer of Add means *******/

  /**
   * Add answers true exactly for a routable address that was not known.  Such
   * an address is known afterwards exactly when its slot was free or its
   * holder could be replaced: the answer is true even if it is dropped again.
   */
  lemma AddAnswer(s: State, addr: Address, source: NetAddr, timePenalty: int,
                  routable: bool, now: int, later: int, draw: nat)
    requires Inv(s)
    ensures var (r, added) := Add(s, addr, source, timePenalty, routable, now, later, draw);
            && (added <==> routable && !Knows(s, addr.service.ip))
            && (added ==>
                  var slot := s.cfg.NewSlot(addr.service, s.cfg.NewBucket(addr.service, source));
                  Knows(r, addr.service.ip) <==>
                  || slot !in s.newSlots
                  || s.mapInfo[s.newSlots[slot]].IsTerrible(later)
                  || s.mapInfo[s.newSlots[slot]].refCount > 1)
  {
    hide Tables, RefBounds, Counters, ClearNew, Delete;
    if routable && !Knows(s, addr.service.ip) {
      var penalty := if addr.service.ip == source then 0 else timePenalty;
      var t := CreateCounted(s, addr, source, penalty);
      var id := s.nIdCount;
      IdsAreBelow(s);
      var slot := s.cfg.NewSlot(addr.service, s.cfg.NewBucket(addr.service, source));
      if slot in s.newSlots {
        NewSlotHoldsKnown(s, slot);
      }
      var r := PlaceNew(t, id, source, later);
      EntryIsKnown(r, id, addr.service.ip);
      if slot !in s.newSlots || Replaceable(s.mapInfo[s.newSlots[slot]], t.mapInfo[id], later) {
        assert SameButPosition(t.mapInfo[id], ClearNew(t, slot).mapInfo[id]);
      } else {
        TablesHaveRandomIndex(t);
        assert r == Delete(t, id);
        NowUnknown(t, id);
      }
    }
  }

  lemma EntryIsKnown(r: State, id: Id, ip: NetAddr)
    requires Tables(r)
    ensures id in r.mapInfo && r.mapInfo[id].addr.ip == ip ==> Knows(r, ip)
  {
  }

  lemma NowUnknown(s: State, id: Id)
    requires Tables(s) && id in s.mapInfo
    ensures !Knows(Delete(s, id), s.mapInfo[id].addr.ip)
  {
  }

  /******* How far one group of addresses can spread *******/

  lemma {:induction false} ImageSize(f: nat -> int, n: nat, image: set<int>)
    requires forall b | b in image :: exists k: nat :: k < n && b == f(k)
    ensures |image| <= n
  {
    if n == 0 {
      EmptyOrInhabited(image);
      assert image == {};
    } else {
      var rest := image - {f(n - 1)};
      forall b | b in rest ensures exists k: nat :: k < n - 1 && b == f(k) {
        var k: nat :| k < n && b == f(k);
      }
      ImageSize(f, n - 1, rest);
      assert image <= rest + {f(n - 1)};
      SubsetSize(image, rest + {f(n - 1)});
    }
  }

  /** All addresses of one group together reach at most eight tried buckets. */
  lemma TriedBucketsOfGroup(c: Config, g: Group, buckets: set<int>)
    requires forall b | b in buckets :: exists a: Service :: c.hashing.group(a.ip, c.asmap) == g && b == c.TriedBucket(a)
    ensures |buckets| <= TRIED_BUCKETS_PER_GROUP
  {
    var f := (k: nat) => c.hashing.triedHash(c.key, g, k) % TRIED_BUCKET_COUNT;
    forall b | b in buckets ensures exists k: nat :: k < TRIED_BUCKETS_PER_GROUP && b == f(k) {
      var a: Service :| c.hashing.group(a.ip, c.asmap) == g && b == c.TriedBucket(a);
      var k: nat := c.hashing.triedSpread(c.key, a) % TRIED_BUCKETS_PER_GROUP;
      assert b == f(k);
    }
    ImageSize(f, TRIED_BUCKETS_PER_GROUP, buckets);
  }

  /** All announcements from sources of one group together reach at most 64 new buckets. */
  lemma NewBucketsOfSourceGroup(c: Config, g: Group, buckets: set<int>)
    requires forall b | b in buckets ::
               exists a: Service, source: NetAddr :: c.hashing.group(source, c.asmap) == g && b == c.NewBucket(a, source)
    ensures |buckets| <= NEW_BUCKETS_PER_SOURCE_GROUP
  {
    var f := (k: nat) => c.hashing.newHash(c.key, g, k) % NEW_BUCKET_COUNT;
    forall b | b in buckets ensures exists k: nat :: k < NEW_BUCKETS_PER_SOURCE_GROUP && b == f(k) {
      var a: Service, source: NetAddr :| c.hashing.group(source, c.asmap) == g && b == c.NewBucket(a, source);
      var k: nat := c.hashing.newSpread(c.key, c.hashing.group(a.ip, c.asmap), g) % NEW_BUCKETS_PER_SOURCE_GROUP;
      assert b == f(k);
    }
    ImageSize(f, NEW_BUCKETS_PER_SOURCE_GROUP, buckets);
  }
}
