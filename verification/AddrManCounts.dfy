/** How many entries there are: the counters against the tables. */
module AddrManCounts {
  import opened AddrManState
  import opened SetFacts

  lemma {:induction false} DistinctCount(v: seq<Id>)
    requires forall i, j | 0 <= i < j < |v| :: v[i] != v[j]
    ensures |set i | 0 <= i < |v| :: v[i]| == |v|
  {
    if v != [] {
      var last := |v| - 1;
      DistinctCount(v[..last]);
      var front := set i | 0 <= i < last :: v[..last][i];
      assert (set i | 0 <= i < |v| :: v[i]) == front + {v[last]} by {
        forall x | x in front + {v[last]} ensures x in set i | 0 <= i < |v| :: v[i] {
          if x in front {
            var i :| 0 <= i < last && v[..last][i] == x;
            assert v[i] == x;
          }
        }
        forall x | x in set i | 0 <= i < |v| :: v[i] ensures x in front + {v[last]} {
          var i :| 0 <= i < |v| && v[i] == x;
          if i < last {
            assert v[..last][i] == x;
          }
        }
      }
    }
  }

  lemma RandomCount(m: map<Id, AddrInfo>, v: seq<Id>)
    requires RandomIndex(m, v)
    ensures |v| == |m|
  {
    DistinctCount(v);
    assert m.Keys == set i | 0 <= i < |v| :: v[i] by {
      forall id | id in m ensures id in set i | 0 <= i < |v| :: v[i] {
        assert v[m[id].randomPos] == id;
      }
    }
  }

  /** The counters add up to the number of entries and of positions in vRandom. */
  lemma CountersAddUp(s: State)
    requires Inv(s)
    ensures s.nNew + s.nTried == |s.mapInfo| == |s.vRandom|
    ensures 0 <= s.nNew && 0 <= s.nTried
  {
    RandomCount(s.mapInfo, s.vRandom);
    hide Tables;
    assert s.mapInfo.Keys == NewIds(s.mapInfo) + TriedIds(s.mapInfo);
    assert NewIds(s.mapInfo) !! TriedIds(s.mapInfo);
  }

  /******* Capacity *******/

  lemma {:induction false} ValuesAtMostKeys(m: map<Slot, Id>)
    ensures |m.Values| <= |m.Keys|
    decreases |m.Keys|
  {
    if m.Keys != {} {
      var slot :| slot in m.Keys;
      var rest := m - {slot};
      ValuesAtMostKeys(rest);
      assert rest.Keys == m.Keys - {slot};
      assert m.Values <= rest.Values + {m[slot]} by {
        forall x | x in m.Values ensures x in rest.Values + {m[slot]} {
          var k :| k in m && m[k] == x;
          if k != slot {
            assert k in rest && rest[k] == x;
          }
        }
      }
      SubsetSize(m.Values, rest.Values + {m[slot]});
    } else {
      assert m.Values == {};
    }
  }

  ghost function Row(b: int, size: nat): set<Slot> {
    set p | 0 <= p < size :: (b, p)
  }

  lemma {:induction false} RowSize(b: int, size: nat)
    ensures |Row(b, size)| == size
  {
    if size > 0 {
      RowSize(b, size - 1);
      assert Row(b, size) == Row(b, size - 1) + {(b, size - 1)};
    }
  }

  /** The slots of a table. */
  ghost function Grid(buckets: nat, size: nat): (g: set<Slot>)
    ensures forall slot :: slot in g <==> 0 <= slot.0 < buckets && 0 <= slot.1 < size
    ensures |g| == buckets * size
  {
    if buckets == 0 then {}
    else
      RowSize(buckets - 1, size);
      assert Grid(buckets - 1, size) !! Row(buckets - 1, size);
      assert (buckets - 1) * size + size == buckets * size;
      Grid(buckets - 1, size) + Row(buckets - 1, size)
  }

  lemma TableCapacity(slots: map<Slot, Id>, ids: set<Id>, buckets: nat)
    requires forall slot | slot in slots :: 0 <= slot.0 < buckets && 0 <= slot.1 < BUCKET_SIZE
    requires forall id | id in ids :: exists slot :: slot in slots && slots[slot] == id
    ensures |ids| <= buckets * BUCKET_SIZE
  {
    ValuesAtMostKeys(slots);
    forall id | id in ids ensures id in slots.Values {
      var slot :| slot in slots && slots[slot] == id;
    }
    SubsetSize(ids, slots.Values);
    SubsetSize(slots.Keys, Grid(buckets, BUCKET_SIZE));
  }

  /** No table can hold more entries than it has slots. */
  lemma CountersWithinCapacity(s: State)
    requires Inv(s)
    ensures s.nNew <= NEW_BUCKET_COUNT * BUCKET_SIZE
    ensures s.nTried <= TRIED_BUCKET_COUNT * BUCKET_SIZE
  {
    var untried := NewIds(s.mapInfo);
    forall id | id in untried ensures exists slot :: slot in s.newSlots && s.newSlots[slot] == id {
      assert |Refs(s.newSlots, id)| > 0;
      var slot :| slot in Refs(s.newSlots, id);
    }
    forall id | id in TriedIds(s.mapInfo) ensures exists slot :: slot in s.triedSlots && s.triedSlots[slot] == id {
      assert s.cfg.TriedSlot(s.mapInfo[id].addr) in s.triedSlots;
    }
    TableCapacity(s.newSlots, untried, NEW_BUCKET_COUNT);
    TableCapacity(s.triedSlots, TriedIds(s.mapInfo), TRIED_BUCKET_COUNT);
  }
}
