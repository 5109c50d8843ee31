/**
 * Short runs from the empty table on which a promise of the address manager
 * fails.
 */
module AddrManFailures {
  import opened AddrManState
  import opened AddrManOps
  import opened AddrManProofs
  import AddrManRuns

  lemma EmptyIsConsistent(cfg: Config)
    ensures Inv(EmptyState(cfg, {})) && TimesOk(EmptyState(cfg, {}))
  {
    assert TriedIds(map[]) == {};
    assert NewIds(map[]) == {};
  }

  /** The first announcement gets id 0, one reference and the slot of its hash. */
  lemma FirstAdd(cfg: Config, addr: Address, source: NetAddr, now: int, later: int, draw: nat)
    requires Inv(EmptyState(cfg, {}))
    ensures var r := Add(EmptyState(cfg, {}), addr, source, 0, true, now, later, draw).0;
            && r.cfg == cfg && r.nIdCount == 1
            && r.mapAddr == map[addr.service.ip := 0]
            && r.mapInfo == map[0 := NewInfo(addr, source, 0).(time := ToUint32(Max(0, addr.time)), refCount := 1)]
            && r.newSlots == map[cfg.NewSlot(addr.service, cfg.NewBucket(addr.service, source)) := 0]
            && r.triedSlots == map[]
  {
    hide Tables, RefBounds, Counters, Delete;
    var s := EmptyState(cfg, {});
    var t := CreateCounted(s, addr, source, 0);
    var slot := cfg.NewSlot(addr.service, cfg.NewBucket(addr.service, source));
    assert t.mapInfo[0].addr == addr.service;
    assert ClearNew(t, slot) == t;
    assert Add(s, addr, source, 0, true, now, later, draw).0 == IncRef(t, 0, slot);
  }

  /**
   * One announcement, and then its address is marked good at a time that is
   * not positive: the consistency check objects.
   */
  lemma GoodSpoilsTimes(cfg: Config, addr: Address, source: NetAddr, now: int, draw: nat, time: int)
    requires time <= 0
    ensures var s := EmptyState(cfg, {});
            && Inv(s) && TimesOk(s)
            && !TimesOk(AddrManRuns.Run(s, [ AddrManRuns.OpAdd(addr, source, 0, true, now, now, draw),
                                             AddrManRuns.OpGood(addr.service, false, time) ]))
  {
    hide Tables, RefBounds, Counters, Add, Good;
    EmptyIsConsistent(cfg);
    var s := EmptyState(cfg, {});
    var add := AddrManRuns.OpAdd(addr, source, 0, true, now, now, draw);
    var good := AddrManRuns.OpGood(addr.service, false, time);
    FirstAdd(cfg, addr, source, now, now, draw);
    AddrManRuns.StepKeepsInv(s, add);
    var t := AddrManRuns.Step(s, add);
    assert Matches(t, addr.service);
    AddrManRuns.GoodTimes(t, addr.service, false, time);
    AddrManRuns.StepKeepsInv(t, good);
    var u := AddrManRuns.Step(t, good);
    assert [add, good][1..] == [good];
    assert AddrManRuns.Run(u, []) == u;
    assert AddrManRuns.Run(t, [good]) == u;
  }

  /** Hash functions that put every address in the same slot. */
  function OneSlot(): Hashing {
    Hashing((_, _) => 0, (_, _) => 0, (_, _, _) => 0, (_, _, _) => 0, (_, _, _) => 0, (_, _, _, _) => 0, _ => 0)
  }

  /**
   * Two announcements that meet in one slot: the second is answered true, and
   * its address is not known afterwards.
   */
  lemma AddForgets(draw: nat)
    ensures var now := 1_000_000;
            var s := EmptyState(Config(1, [], OneSlot()), {});
            Inv(s) &&
            var t := Add(s, Address(Service(1, 8333), {}, now), 1, 0, true, now, now, draw).0;
            var (u, added) := Add(t, Address(Service(2, 8333), {}, now), 2, 0, true, now, now, draw);
            Inv(t) && added && !Knows(u, 2)
  {
    hide Tables, RefBounds, Counters, Add;
    var cfg := Config(1, [], OneSlot());
    var now := 1_000_000;
    var s := EmptyState(cfg, {});
    var first, second := Address(Service(1, 8333), {}, now), Address(Service(2, 8333), {}, now);
    EmptyIsConsistent(cfg);
    FirstAdd(cfg, first, 1, now, now, draw);
    AddKeepsInv(s, first, 1, 0, true, now, now, draw);
    var t := Add(s, first, 1, 0, true, now, now, draw).0;
    assert !t.mapInfo[0].IsTerrible(now);
    assert cfg.NewSlot(second.service, cfg.NewBucket(second.service, 2)) == (0, 0);
    AddrManRuns.AddAnswer(t, second, 2, 0, true, now, now, draw);
  }
}
