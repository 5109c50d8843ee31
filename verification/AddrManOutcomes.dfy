/**
 * What each operation of the address manager means for the entry it is about:
 * the cases with their times, and what repeated calls add up to.
 */
module AddrManOutcomes {
  import opened AddrManState
  import opened AddrManOps
  import opened AddrManProofs
  import opened AddrManRuns
  import SetFacts

  /******* Marking an address good *******/

  /** The tables and the candidates are as they were. */
  ghost predicate SamePlaces(s: State, r: State) {
    r.triedSlots == s.triedSlots && r.newSlots == s.newSlots && r.collisions == s.collisions && r.mapInfo.Keys == s.mapInfo.Keys
  }

  /** The entry holds the tried slot, and whoever held it before is a new entry now. */
  ghost predicate MovedIn(s: State, r: State, id: Id, slot: Slot) {
    && id in r.mapInfo && r.mapInfo[id].inTried && r.triedSlots == s.triedSlots[slot := id]
    && (slot in s.triedSlots && s.triedSlots[slot] != id ==>
          var rival := s.triedSlots[slot];
          && rival in s.mapInfo && rival in r.mapInfo && !r.mapInfo[rival].inTried
          && SameHistory(s.mapInfo[rival], r.mapInfo[rival]))
  }

  /** Whatever happens to one entry, those that are left keep their statistics, and no tried one is dropped. */
  ghost predicate OthersKept(s: State, r: State, id: Id) {
    && (forall k | k in r.mapInfo && k != id :: k in s.mapInfo && SameHistory(s.mapInfo[k], r.mapInfo[k]))
    && (forall k | k in s.mapInfo && s.mapInfo[k].inTried :: k in r.mapInfo)
  }

  lemma MakeTriedMovesIn(s: State, id: Id)
    requires Tables(s) && id in s.mapInfo && !s.mapInfo[id].inTried
    ensures MovedIn(s, MakeTried(s, id), id, s.cfg.TriedSlot(s.mapInfo[id].addr))
    ensures SameHistory(s.mapInfo[id], MakeTried(s, id).mapInfo[id]) && MakeTried(s, id).collisions == s.collisions
    ensures MakeTried(s, id).lastGood == s.lastGood && MakeTried(s, id).cfg == s.cfg && OthersKept(s, MakeTried(s, id), id)
  {
    hide Tables, MakeTried;
    MakeTriedEffect(s, id);
    var slot := s.cfg.TriedSlot(s.mapInfo[id].addr);
    if slot in s.triedSlots {
      TriedSlotHoldsTried(s, slot);
      SlotOfTried(s, slot);
      LostSlot(MakeTried(s, id), s.triedSlots[slot], id, slot);
    }
  }

  lemma SlotOfTried(s: State, slot: Slot)
    requires Tables(s) && slot in s.triedSlots
    ensures s.triedSlots[slot] in s.mapInfo && s.cfg.TriedSlot(s.mapInfo[s.triedSlots[slot]].addr) == slot
  {
  }

  /** An entry whose tried slot is held by another one is not in the tried table. */
  lemma LostSlot(s: State, id: Id, holder: Id, slot: Slot)
    requires Tables(s) && slot in s.triedSlots && s.triedSlots[slot] == holder != id
    requires id in s.mapInfo && s.cfg.TriedSlot(s.mapInfo[id].addr) == slot
    ensures !s.mapInfo[id].inTried
  {
  }

  /** Statistics of an entry that was just connected to. */
  ghost predicate Renewed(a: AddrInfo, b: AddrInfo, time: int) {
    && b.lastSuccess == time && b.lastTry == time && b.attempts == 0
    && b.addr == a.addr && b.services == a.services && b.time == a.time && b.source == a.source
    && b.lastCountAttempt == a.lastCountAttempt
  }

  /**
   * A match is renewed.  A new entry moves to its tried slot if that is free
   * or may be taken; otherwise it becomes a candidate, of which there are at
   * most ten.
   */
  lemma GoodOutcome(s: State, service: Service, testBeforeEvict: bool, time: int)
    requires Inv(s)
    ensures var r := Good(s, service, testBeforeEvict, time);
            && r.lastGood == time && r.cfg == s.cfg
            && (!Matches(s, service) ==> r == s.(lastGood := time))
            && (Matches(s, service) ==>
                  var id, slot := s.mapAddr[service.ip], s.cfg.TriedSlot(service);
                  && id in r.mapInfo && Renewed(s.mapInfo[id], r.mapInfo[id], time) && OthersKept(s, r, id)
                  && (s.mapInfo[id].inTried ==> SamePlaces(s, r))
                  && (!s.mapInfo[id].inTried && !(testBeforeEvict && slot in s.triedSlots) ==>
                        MovedIn(s, r, id, slot) && r.collisions == s.collisions)
                  && (!s.mapInfo[id].inTried && testBeforeEvict && slot in s.triedSlots ==>
                        SamePlaces(s, r.(collisions := s.collisions)) &&
                        r.collisions == if |s.collisions| < 10 then s.collisions + {id} else s.collisions))
  {
    hide Tables, MakeTried, Counters;
    var s0 := s.(lastGood := time);
    TablesIgnoreCounters(s, s0);
    if Matches(s, service) {
      var id := s.mapAddr[service.ip];
      var info := AfterSuccess(s.mapInfo[id], time);
      SetInfoKeepsTables(s0, id, info);
      var s1 := SetInfo(s0, id, info);
      assert info.inTried || info.refCount > 0;
      var slot := s.cfg.TriedSlot(service);
      if !info.inTried && !(testBeforeEvict && slot in s.triedSlots) {
        MakeTriedMovesIn(s1, id);
        if slot in s.triedSlots {
          TriedSlotHoldsTried(s, slot);
        }
      }
    }
  }

  /******* Resolving a collision *******/

  /** The candidate is given up: nothing else changes. */
  ghost predicate GivenUp(s: State, r: State, id: Id) {
    r == s.(collisions := s.collisions - {id})
  }

  /** The candidate has taken its tried slot and is one no more. */
  ghost predicate TakenOver(s: State, r: State, id: Id, slot: Slot) {
    && r.triedSlots == s.triedSlots[slot := id] && id in r.mapInfo && r.mapInfo[id].inTried
    && r.collisions == s.collisions - {id} && r.cfg == s.cfg && OthersKept(s, r, id)
    && (slot in s.triedSlots && s.triedSlots[slot] != id ==>
          s.triedSlots[slot] in r.mapInfo && !r.mapInfo[s.triedSlots[slot]].inTried)
  }

  /** An unknown candidate and one whose address is not valid are given up; a free slot is taken. */
  lemma ResolveWithoutRival(s: State, id: Id, clock: Clock, valid: Service -> bool)
    requires Inv(s)
    ensures var r := ResolveOne(s, id, clock, valid);
            && (id !in s.mapInfo ==> GivenUp(s, r, id))
            && (id in s.mapInfo && !valid(s.mapInfo[id].addr) ==> GivenUp(s, r, id))
            && (id in s.mapInfo && valid(s.mapInfo[id].addr) && s.cfg.TriedSlot(s.mapInfo[id].addr) !in s.triedSlots ==>
                  TakenOver(s, r, id, s.cfg.TriedSlot(s.mapInfo[id].addr)))
  {
    hide Tables, Good, RefBounds, Counters;
    if id in s.mapInfo && valid(s.mapInfo[id].addr) {
      GoodTakesOver(s, id, clock(4));
    }
  }

  /** Marking a known entry good without a test puts it in its tried slot. */
  lemma GoodTakesOver(s: State, id: Id, time: int)
    requires Inv(s) && id in s.mapInfo
    ensures var r := Good(s, s.mapInfo[id].addr, false, time);
            TakenOver(s, r.(collisions := r.collisions - {id}), id, s.cfg.TriedSlot(s.mapInfo[id].addr))
  {
    hide Tables, Good, RefBounds, Counters;
    var addr := s.mapInfo[id].addr;
    EntryMatches(s, id);
    GoodOutcome(s, addr, false, time);
    if s.mapInfo[id].inTried {
      HoldsItsSlot(s, id);
      GoodKeepsInv(s, addr, false, time);
      SlotsHoldTried(Good(s, addr, false, time));
      var slot := s.cfg.TriedSlot(addr);
      assert s.triedSlots[slot := id] == s.triedSlots;
    }
  }

  lemma EntryMatches(s: State, id: Id)
    requires Tables(s) && id in s.mapInfo
    ensures Matches(s, s.mapInfo[id].addr) && s.mapAddr[s.mapInfo[id].addr.ip] == id
  {
  }

  lemma HoldsItsSlot(s: State, id: Id)
    requires Tables(s) && id in s.mapInfo && s.mapInfo[id].inTried
    ensures var slot := s.cfg.TriedSlot(s.mapInfo[id].addr); slot in s.triedSlots && s.triedSlots[slot] == id
  {
  }

  lemma SlotsHoldTried(s: State)
    requires Tables(s)
    ensures forall slot | slot in s.triedSlots :: s.triedSlots[slot] in s.mapInfo && s.mapInfo[s.triedSlots[slot]].inTried
  {
  }

  /**
   * What decides between a candidate and the entry in its tried slot.  A rival
   * that was connected to in the last four hours stays.  One that was tried in
   * the last four hours has had its chance after a minute.  One that was not
   * tried is replaced forty minutes after the candidate's own success.
   */
  lemma ResolveWithRival(s: State, id: Id, clock: Clock, valid: Service -> bool)
    requires Inv(s) && id in s.mapInfo && valid(s.mapInfo[id].addr)
    requires s.cfg.TriedSlot(s.mapInfo[id].addr) in s.triedSlots
    ensures var slot := s.cfg.TriedSlot(s.mapInfo[id].addr);
            var r := ResolveOne(s, id, clock, valid);
            && s.triedSlots[slot] in s.mapInfo
            && var rival := s.mapInfo[s.triedSlots[slot]];
               && (clock(0) - rival.lastSuccess < 14400 ==> GivenUp(s, r, id))
               && (clock(0) - rival.lastSuccess >= 14400 ==>
                     && (clock(1) - rival.lastTry < 14400 && clock(2) - rival.lastTry > 60 ==> TakenOver(s, r, id, slot))
                     && (clock(1) - rival.lastTry < 14400 && clock(2) - rival.lastTry <= 60 ==> r == s)
                     && (clock(1) - rival.lastTry >= 14400 && clock(3) - s.mapInfo[id].lastSuccess > 2400 ==> TakenOver(s, r, id, slot))
                     && (clock(1) - rival.lastTry >= 14400 && clock(3) - s.mapInfo[id].lastSuccess <= 2400 ==> r == s))
  {
    hide Tables, Good, RefBounds, Counters, TakenOver;
    var slot := s.cfg.TriedSlot(s.mapInfo[id].addr);
    TriedSlotHoldsTried(s, slot);
    GoodTakesOver(s, id, clock(4));
  }

  /** Resolving a candidate leaves a live entry, connected to in the last four hours, in its tried slot. */
  lemma LiveHolderStaysOnce(s: State, id: Id, clock: Clock, valid: Service -> bool, slot: Slot)
    requires Inv(s) && slot in s.triedSlots && s.triedSlots[slot] in s.mapInfo
    requires clock(0) - s.mapInfo[s.triedSlots[slot]].lastSuccess < 14400
    ensures var r, holder := ResolveOne(s, id, clock, valid), s.triedSlots[slot];
            && slot in r.triedSlots && r.triedSlots[slot] == holder
            && holder in r.mapInfo && r.mapInfo[holder].lastSuccess == s.mapInfo[holder].lastSuccess
  {
    hide Tables, ResolveOne, RefBounds, Counters;
    TriedSlotHoldsTried(s, slot);
    SlotOfTried(s, slot);
    ResolveWithoutRival(s, id, clock, valid);
    if id in s.mapInfo && valid(s.mapInfo[id].addr) && s.cfg.TriedSlot(s.mapInfo[id].addr) in s.triedSlots {
      ResolveWithRival(s, id, clock, valid);
      if s.mapInfo[id].inTried {
        HoldsItsSlot(s, id);
      }
    }
  }

  /** And so does resolving all of them. */
  lemma {:induction false} LiveHolderStays(s: State, pending: set<Id>, clock: Id -> Clock, valid: Service -> bool, slot: Slot)
    requires Inv(s) && slot in s.triedSlots && s.triedSlots[slot] in s.mapInfo
    requires forall id :: clock(id)(0) - s.mapInfo[s.triedSlots[slot]].lastSuccess < 14400
    ensures var r := ResolveAll(s, pending, clock, valid); slot in r.triedSlots && r.triedSlots[slot] == s.triedSlots[slot]
    decreases |pending|
  {
    hide Tables, ResolveOne, RefBounds, Counters;
    if |pending| != 0 {
      var id := SetFacts.Least(pending);
      ResolveOneKeepsInv(s, id, clock(id), valid);
      LiveHolderStaysOnce(s, id, clock(id), valid, slot);
      LiveHolderStays(ResolveOne(s, id, clock(id), valid), pending - {id}, clock, valid, slot);
    }
  }

  /******* Attempts and connections *******/

  lemma AttemptOutcome(s: State, service: Service, countFailure: bool, time: int)
    ensures var r := Attempt(s, service, countFailure, time);
            && (!Matches(s, service) ==> r == s)
            && (Matches(s, service) ==>
                  var id := s.mapAddr[service.ip];
                  var a, b := s.mapInfo[id], r.mapInfo[id];
                  && r == s.(mapInfo := s.mapInfo[id := b]) && b.lastTry == time
                  && b == a.(lastTry := time, lastCountAttempt := b.lastCountAttempt, attempts := b.attempts)
                  && (countFailure && a.lastCountAttempt < s.lastGood ==> b.attempts == a.attempts + 1 && b.lastCountAttempt == time)
                  && (!countFailure || a.lastCountAttempt >= s.lastGood ==>
                        b.attempts == a.attempts && b.lastCountAttempt == a.lastCountAttempt))
  {
  }

  ghost function Attempts(s: State, service: Service, times: seq<int>): State
    decreases |times|
  {
    if times == [] then s else Attempts(Attempt(s, service, true, times[0]), service, times[1..])
  }

  /** However often an address fails, it counts once as long as no connection to any address succeeds. */
  lemma {:induction false} FailuresCountOnce(s: State, service: Service, times: seq<int>)
    requires Matches(s, service) && forall i | 0 <= i < |times| :: times[i] >= s.lastGood
    ensures var r := Attempts(s, service, times);
            && Matches(r, service) && r.mapAddr == s.mapAddr && r.lastGood == s.lastGood
            && var id := s.mapAddr[service.ip];
               var a, b := s.mapInfo[id], r.mapInfo[id];
               b.attempts == a.attempts + if times != [] && a.lastCountAttempt < s.lastGood then 1 else 0
    decreases |times|
  {
    if times != [] {
      FailuresCountOnce(Attempt(s, service, true, times[0]), service, times[1..]);
    }
  }

  /** A connection leaves a recorded time that is at most twenty minutes behind, and moves it only for that. */
  lemma ConnectedOutcome(s: State, service: Service, time: int)
    requires 0 <= time < 0x1_0000_0000
    ensures var r := Connected(s, service, time);
            && (!Matches(s, service) ==> r == s)
            && (Matches(s, service) ==>
                  var id := s.mapAddr[service.ip];
                  && id in r.mapInfo && r == s.(mapInfo := s.mapInfo[id := s.mapInfo[id].(time := r.mapInfo[id].time)])
                  && time - r.mapInfo[id].time <= 1200
                  && (time - s.mapInfo[id].time <= 1200 ==> r == s)
                  && (r.mapInfo[id].time == s.mapInfo[id].time || r.mapInfo[id].time == time))
  {
    if Matches(s, service) {
      var id := s.mapAddr[service.ip];
      assert s.mapInfo[id := s.mapInfo[id]] == s.mapInfo;
    }
  }

  lemma SetServicesOutcome(s: State, service: Service, services: Services)
    ensures var r := SetServices(s, service, services);
            && (!Matches(s, service) ==> r == s)
            && (Matches(s, service) ==>
                  var id := s.mapAddr[service.ip];
                  r == s.(mapInfo := s.mapInfo[id := r.mapInfo[id]]) && r.mapInfo[id] == s.mapInfo[id].(services := services))
  {
  }

  /******* Repeated announcements *******/

  /**
   * What a known entry learns: services are only added, and the time moves, to
   * that announced less the penalty, when it is behind by more than an hour
   * for an address that is on line, by more than a day otherwise.
   */
  lemma AnnouncementOutcome(info: AddrInfo, addr: Address, penalty: int, now: int)
    requires 0 <= penalty && 0 <= addr.time < 0x1_0000_0000 && 0 <= info.time
    ensures var r, told := AfterAnnouncement(info, addr, penalty, now), if penalty <= addr.time then addr.time - penalty else 0;
            && (forall x :: x in r.services <==> x in info.services || x in addr.services)
            && r == info.(time := r.time, services := r.services)
            && (r.time == info.time || r.time == told)
            && (addr.time == 0 ==> r.time == info.time)
            && (addr.time > 0 && info.time == 0 ==> r.time == told)
            && (addr.time > now - 86400 && info.time != 0 ==>
                  (r.time != info.time ==> r.time >= info.time + 3600) &&
                  (told - info.time > 3600 ==> r.time == told))
            && (addr.time <= now - 86400 && info.time != 0 ==>
                  (r.time != info.time ==> r.time >= info.time + 86400) &&
                  (told - info.time > 86400 ==> r.time == told))
  {
  }

  /** An address that was not known and is kept: its entry holds what was announced, and no history. */
  lemma AddNew(s: State, addr: Address, source: NetAddr, timePenalty: int, now: int, later: int, draw: nat)
    requires Inv(s) && !Knows(s, addr.service.ip) && 0 <= timePenalty && 0 <= addr.time < 0x1_0000_0000
    ensures var r := Add(s, addr, source, timePenalty, true, now, later, draw).0;
            s.nIdCount in r.mapInfo ==>
              var info := r.mapInfo[s.nIdCount];
              && info.addr == addr.service && info.services == addr.services && info.source == source
              && info.time == (if addr.service.ip == source then addr.time else if timePenalty <= addr.time then addr.time - timePenalty else 0)
              && info.lastTry == info.lastCountAttempt == info.lastSuccess == info.attempts == 0
              && info.refCount == 1 && !info.inTried
  {
    hide Tables, ClearNew, Delete, Counters, RefBounds;
    var penalty := if addr.service.ip == source then 0 else timePenalty;
    var t := CreateCounted(s, addr, source, penalty);
    var id := s.nIdCount;
    IdsAreBelow(s);
    PlaceNewStable(t, id, source, later);
    var slot := s.cfg.NewSlot(addr.service, s.cfg.NewBucket(addr.service, source));
    if slot in s.newSlots {
      NewSlotHoldsKnown(s, slot);
    }
    if slot !in s.newSlots || Replaceable(s.mapInfo[s.newSlots[slot]], t.mapInfo[id], later) {
      assert SameButPosition(t.mapInfo[id], ClearNew(t, slot).mapInfo[id]);
    } else {
      TablesHaveRandomIndex(t);
    }
  }

  /**
   * When a known address is announced again: the answer is false, no tried
   * slot changes, and its entry gets at most one more slot, the one that the
   * announcing source selects.  It gets it if the announcement is news, the
   * entry is new and not in eight slots, the dice say so, and the slot is
   * free or held by a terrible entry.
   */
  lemma AddAgain(s: State, addr: Address, source: NetAddr, timePenalty: int, now: int, later: int, draw: nat)
    requires Inv(s) && Knows(s, addr.service.ip)
    ensures var (r, added) := Add(s, addr, source, timePenalty, true, now, later, draw);
            var id := s.mapAddr[addr.service.ip];
            var info := AfterAnnouncement(s.mapInfo[id], addr, if addr.service.ip == source then 0 else timePenalty, now);
            var slot := s.cfg.NewSlot(info.addr, s.cfg.NewBucket(info.addr, source));
            && !added && r.triedSlots == s.triedSlots && id in r.mapInfo && SameHistory(info, r.mapInfo[id])
            && (addr.time == 0 || (info.time != 0 && addr.time <= info.time) || info.inTried || info.refCount == 8 || draw != 0 ==>
                  r == SetInfo(s, id, info))
            && (addr.time != 0 && (info.time == 0 || addr.time > info.time) && !info.inTried && info.refCount != 8 && draw == 0 ==>
                  (slot in r.newSlots && r.newSlots[slot] == id <==>
                   || slot !in s.newSlots
                   || s.newSlots[slot] == id
                   || (s.newSlots[slot] in s.mapInfo && s.mapInfo[s.newSlots[slot]].IsTerrible(later))))
  {
    hide Tables, ClearNew, Delete, Counters;
    var id := s.mapAddr[addr.service.ip];
    var info := AfterAnnouncement(s.mapInfo[id], addr, if addr.service.ip == source then 0 else timePenalty, now);
    SetInfoKeepsTables(s, id, info);
    var t := SetInfo(s, id, info);
    var slot := s.cfg.NewSlot(info.addr, s.cfg.NewBucket(info.addr, source));
    assert info.inTried || info.refCount > 0;
    if slot in s.newSlots {
      NewSlotHoldsKnown(s, slot);
    }
    if WantsAnotherSlot(info, addr, draw) {
      PlaceNewStable(t, id, source, later);
      ClearNewKeepsTables(t, slot);
      assert slot in s.newSlots && s.newSlots[slot] != id ==> t.mapInfo[s.newSlots[slot]] == s.mapInfo[s.newSlots[slot]];
      assert id in ClearNew(t, slot).mapInfo || (slot in t.newSlots && t.newSlots[slot] == id);
    }
  }

  /******* Which entries are terrible *******/

  /** The reasons, with their times in seconds. */
  lemma TerribleCases(info: AddrInfo, now: int)
    ensures info.lastTry != 0 && info.lastTry >= now - 60 ==> !info.IsTerrible(now)
    ensures info.lastTry == 0 || info.lastTry < now - 60 ==>
              && (info.time > now + 600 ==> info.IsTerrible(now))
              && (info.time == 0 || info.time < now - 2592000 ==> info.IsTerrible(now))
              && (info.lastSuccess == 0 && info.attempts >= 3 ==> info.IsTerrible(now))
              && (info.lastSuccess < now - 604800 && info.attempts >= 10 ==> info.IsTerrible(now))
    ensures info.time != 0 && now - 2592000 <= info.time <= now + 600 &&
            (info.attempts < 3 || (info.lastSuccess != 0 && (info.attempts < 10 || info.lastSuccess >= now - 604800))) ==>
              !info.IsTerrible(now)
  {
  }

  /** An entry that is terrible, and not for a time in the future, stays so until it is touched. */
  lemma TerribleStays(info: AddrInfo, now: int, later: int)
    requires info.IsTerrible(now) && info.time <= now + 600 && now <= later
    ensures info.IsTerrible(later)
  {
  }

  /** A success makes an entry that is seen and not from the future good for a week and more. */
  lemma GoodIsNotTerrible(info: AddrInfo, time: int, later: int)
    requires info.time != 0 && later - 2592000 <= info.time <= later + 600
    ensures !AfterSuccess(info, time).IsTerrible(later)
  {
  }

  /******* Which addresses are given, and how many *******/

  /** The first entry that is looked at is the one the first draw selects, so that it can be any of them. */
  lemma SampleFirst(s: State, draws: nat -> nat)
    requires Inv(s) && s.vRandom != []
    ensures Sample(s, 0, [], 1, draws, info => true).1 == [s.vRandom[draws(0) % |s.vRandom|]]
  {
    hide RefBounds, Counters;
    var j := draws(0) % |s.vRandom|;
    SwapRandomKeepsTables(s, 0, j);
    var t := SwapRandom(s, 0, j);
    assert t.vRandom[0] == s.vRandom[j];
    assert Sample(t, 1, [t.vRandom[0]], 1, draws, info => true).1 == [t.vRandom[0]];
  }

  /** At most the maximum, if there is one; and otherwise exactly the percentage, rounded down. */
  lemma SampleSizeIs(known: nat, maxAddresses: nat, maxPct: nat)
    ensures var n := SampleSize(known, maxAddresses, maxPct);
            var share := if maxPct == 0 then 100 * known else maxPct * known;
            && (maxAddresses != 0 ==> n <= maxAddresses) && 100 * n <= share
            && (n == maxAddresses != 0 || share < 100 * (n + 1))
  {
  }
}
