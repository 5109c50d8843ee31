/**
 * Selecting packages of transactions for a block: an abstract pool with exact
 * ancestor totals, the patched totals that the selection keeps as ancestors
 * enter the block, and what they are worth.
 */
module PackageSelection {
  import opened SetSum

  datatype Tx = Tx(id: int)

  type Weight = Tx -> int

  /** Totals of a package; fees are those modified by prioritisation. */
  datatype Totals = Totals(size: int, fees: int, sigOps: int)

  /** A memory pool: every transaction with its in-pool ancestors, and cached totals for both together. */
  datatype Pool = Pool(
    txs: set<Tx>,
    anc: map<Tx, set<Tx>>,
    size: Weight,
    sigOps: Weight,
    fee: Weight,
    modifiedFee: Weight,
    isFinal: Tx -> bool,
    shielded: Tx -> bool,
    full: map<Tx, Totals>)

  ghost predicate Acyclic(p: Pool) {
    && p.anc.Keys == p.txs
    && (forall t | t in p.txs :: t !in p.anc[t] && p.anc[t] <= p.txs)
    && (forall t, a | t in p.txs && a in p.anc[t] :: p.anc[a] <= p.anc[t])
  }

  ghost predicate WellFormed(p: Pool) {
    && Acyclic(p)
    && (forall t :: p.size(t) >= 0 && p.sigOps(t) >= 0)
    && p.full.Keys == p.txs
    && (forall t | t in p.txs ::
          p.full[t] == Totals(Need(p.size, p, {}, t), Need(p.modifiedFee, p, {}, t), Need(p.sigOps, p, {}, t)))
  }

  /******* Packages *******/

  /** A transaction with those of its ancestors that are not yet counted as selected. */
  ghost function Package(p: Pool, done: set<Tx>, t: Tx): set<Tx>
    requires t in p.anc
  {
    p.anc[t] + {t} - done
  }

  ghost function Need(w: Weight, p: Pool, done: set<Tx>, t: Tx): int
    requires t in p.anc
  {
    Sum(w, Package(p, done, t))
  }

  function Recorded(p: Pool, mod: map<Tx, Totals>, t: Tx): Totals
    requires t in p.full
  {
    if t in mod then mod[t] else p.full[t]
  }

  predicate Pays(minFee: int -> int, totals: Totals) {
    totals.fees >= minFee(totals.size)
  }

  /** Whatever is in the block already, what is left of every package pays. */
  ghost predicate AllPay(p: Pool, minFee: int -> int) {
    forall done: set<Tx>, t | t in p.anc && t !in done ::
      Need(p.modifiedFee, p, done, t) >= minFee(Need(p.size, p, done, t))
  }

  /** Then so does every record, exact or not, as long as there are no priorities. */
  lemma RecordPays(p: Pool, minFee: int -> int, done: set<Tx>, t: Tx, r: Totals)
    requires t in p.anc && t !in done && Partly(p, done, t, r) && AllPay(p, minFee) && NoPriorities(p)
    ensures Pays(minFee, r)
  {
    hide Need;
    var part :| part <= done && Exact(p, part, t, r);
  }

  ghost predicate NoPriorities(p: Pool) {
    forall t :: p.fee(t) == p.modifiedFee(t)
  }

  ghost predicate Exact(p: Pool, done: set<Tx>, t: Tx, r: Totals)
    requires t in p.anc
  {
    && r.size == Need(p.size, p, done, t) && r.sigOps == Need(p.sigOps, p, done, t)
    && (NoPriorities(p) ==> r.fees == Need(p.modifiedFee, p, done, t))
  }

  ghost predicate Enough(p: Pool, done: set<Tx>, t: Tx, r: Totals)
    requires t in p.anc
  {
    r.size >= Need(p.size, p, done, t) && r.sigOps >= Need(p.sigOps, p, done, t)
  }

  /** The totals are right for some part of what has been deducted. */
  ghost predicate Partly(p: Pool, done: set<Tx>, t: Tx, r: Totals)
    requires t in p.anc
  {
    exists part :: part <= done && Exact(p, part, t, r)
  }

  /**
   * The records, when the transactions in done have been deducted: exact for
   * every transaction that has not failed before, and for the others right
   * for a part of it, so that none is too small.
   */
  ghost predicate Tracked(p: Pool, done: set<Tx>, inBlock: set<Tx>, mod: map<Tx, Totals>, failed: set<Tx>) {
    && p.anc.Keys == p.txs == p.full.Keys
    && mod.Keys <= p.txs - inBlock
    && (forall t | t in p.txs && t !in inBlock ::
          && Enough(p, done, t, Recorded(p, mod, t)) && Partly(p, done, t, Recorded(p, mod, t))
          && (t !in failed ==> Exact(p, done, t, Recorded(p, mod, t))))
  }

  function Descendants(p: Pool, it: Tx): set<Tx> {
    set t | t in p.anc && (t == it || it in p.anc[t])
  }

  /** A record made now deducts the modified fee; one that was there before, the plain fee. */
  function Less(p: Pool, r: Totals, it: Tx, isNew: bool): Totals {
    Totals(r.size - p.size(it), r.fees - (if isNew then p.modifiedFee(it) else p.fee(it)), r.sigOps - p.sigOps(it))
  }

  /** The records after one transaction has been deducted from its descendants. */
  ghost function Deduct(p: Pool, mod: map<Tx, Totals>, added: set<Tx>, it: Tx): (r: map<Tx, Totals>)
    requires p.anc.Keys == p.full.Keys
  {
    var touched := Descendants(p, it) - added;
    map t | t in mod.Keys + touched ::
      if t in touched then Less(p, Recorded(p, mod, t), it, t !in mod) else mod[t]
  }

  lemma NeedDeduct(w: Weight, p: Pool, done: set<Tx>, it: Tx, t: Tx)
    requires t in p.anc && it !in done && it != t
    ensures Need(w, p, done + {it}, t) == Need(w, p, done, t) - if it in p.anc[t] then w(it) else 0
  {
    if it in p.anc[t] {
      SumRemove(w, Package(p, done, t), it);
      assert Package(p, done, t) - {it} == Package(p, done + {it}, t);
    } else {
      assert Package(p, done, t) == Package(p, done + {it}, t);
    }
  }

  ghost predicate Distinct(s: seq<Tx>) {
    forall i, j | 0 <= i < j < |s| :: s[i] != s[j]
  }

  /** The records after several transactions have been deducted, one after the other. */
  ghost function DeductAll(p: Pool, mod: map<Tx, Totals>, added: set<Tx>, its: seq<Tx>): (r: map<Tx, Totals>)
    requires p.anc.Keys == p.full.Keys
  {
    if its == [] then mod
    else Deduct(p, DeductAll(p, mod, added, its[..|its| - 1]), added, its[|its| - 1])
  }

  lemma LastMember(its: seq<Tx>)
    requires its != [] && Distinct(its)
    ensures var n := |its| - 1;
            Distinct(its[..n]) && its[n] !in Members(its[..n]) && Members(its) == Members(its[..n]) + {its[n]}
  {
    var n := |its| - 1;
    assert its == its[..n] + [its[n]];
  }

  /** One deduction, seen from one transaction. */
  lemma DeductExact(p: Pool, part: set<Tx>, mod: map<Tx, Totals>, added: set<Tx>, it: Tx, t: Tx)
    requires p.anc.Keys == p.full.Keys && t in p.anc && t !in added && it in added && it !in part
    requires Exact(p, part, t, Recorded(p, mod, t))
    ensures Exact(p, if it in p.anc[t] then part + {it} else part, t, Recorded(p, Deduct(p, mod, added, it), t))
    ensures Exact(p, part + {it}, t, Recorded(p, Deduct(p, mod, added, it), t))
  {
    NeedDeduct(p.size, p, part, it, t);
    NeedDeduct(p.sigOps, p, part, it, t);
    NeedDeduct(p.modifiedFee, p, part, it, t);
  }

  lemma DeductPartly(p: Pool, done: set<Tx>, mod: map<Tx, Totals>, added: set<Tx>, it: Tx, t: Tx)
    requires p.anc.Keys == p.full.Keys && t in p.anc && t !in added && it in added && it !in done
    requires Partly(p, done, t, Recorded(p, mod, t))
    ensures Partly(p, done + {it}, t, Recorded(p, Deduct(p, mod, added, it), t))
  {
    hide Exact, Deduct;
    var part :| part <= done && Exact(p, part, t, Recorded(p, mod, t));
    DeductExact(p, part, mod, added, it, t);
    assert part + {it} <= done + {it};
  }

  /** Deducting one transaction of the block keeps the records right. */
  lemma DeductTracks(p: Pool, done: set<Tx>, inBlock: set<Tx>, mod: map<Tx, Totals>, failed: set<Tx>,
                     added: set<Tx>, it: Tx)
    requires Tracked(p, done, inBlock, mod, failed) && it in added && it !in done && added <= inBlock
    requires forall t | t in p.txs && it in p.anc[t] && t in inBlock :: t in added
    ensures Tracked(p, done + {it}, inBlock, Deduct(p, mod, added, it), failed)
  {
    hide Exact, Partly;
    var r := Deduct(p, mod, added, it);
    forall t | t in r ensures t in p.txs - inBlock {
    }
    forall t | t in p.txs && t !in inBlock
      ensures Enough(p, done + {it}, t, Recorded(p, r, t)) && Partly(p, done + {it}, t, Recorded(p, r, t))
      ensures t !in failed ==> Exact(p, done + {it}, t, Recorded(p, r, t))
    {
      NeedDeduct(p.size, p, done, it, t);
      NeedDeduct(p.sigOps, p, done, it, t);
      assert Enough(p, done, t, Recorded(p, mod, t));
      DeductPartly(p, done, mod, added, it, t);
      if t !in failed {
        DeductExact(p, done, mod, added, it, t);
      }
    }
  }

  /** And so does deducting all that entered the block together. */
  lemma {:induction false} DeductAllTracks(p: Pool, done: set<Tx>, inBlock: set<Tx>, mod: map<Tx, Totals>,
                                           failed: set<Tx>, added: set<Tx>, its: seq<Tx>)
    requires Tracked(p, done, inBlock, mod, failed) && Distinct(its) && Members(its) <= added <= inBlock
    requires Members(its) !! done && forall t, it | t in p.txs && it in added && it in p.anc[t] && t in inBlock :: t in added
    ensures Tracked(p, done + Members(its), inBlock, DeductAll(p, mod, added, its), failed)
  {
    hide Tracked, Deduct;
    TrackedKeys(p, done, inBlock, mod, failed);
    if its == [] {
      assert done + Members(its) == done;
    } else {
      var n := |its| - 1;
      LastMember(its);
      DeductAllTracks(p, done, inBlock, mod, failed, added, its[..n]);
      DeductTracks(p, done + Members(its[..n]), inBlock, DeductAll(p, mod, added, its[..n]), failed, added, its[n]);
      assert done + Members(its) == done + Members(its[..n]) + {its[n]};
    }
  }

  lemma TrackedKeys(p: Pool, done: set<Tx>, inBlock: set<Tx>, mod: map<Tx, Totals>, failed: set<Tx>)
    requires Tracked(p, done, inBlock, mod, failed)
    ensures p.anc.Keys == p.txs == p.full.Keys
  {
  }

  /******* Packages that break off *******/

  /** The size of a transaction if it is a shielded one. */
  function ShieldedSize(p: Pool): Weight {
    (t: Tx) => if p.shielded(t) then p.size(t) else 0
  }

  /** Records of transactions in the package itself are passed over. */
  lemma {:induction false} DeductAllPasses(p: Pool, mod: map<Tx, Totals>, package: set<Tx>, its: seq<Tx>, t: Tx)
    requires p.anc.Keys == p.full.Keys && t in package
    ensures var r := DeductAll(p, mod, package, its); (t in r <==> t in mod) && (t in mod ==> r[t] == mod[t])
  {
    if its != [] {
      DeductAllPasses(p, mod, package, its[..|its| - 1], t);
    }
  }

  /** Records are only made for descendants outside the package, and none is dropped. */
  lemma {:induction false} DeductAllKeys(p: Pool, mod: map<Tx, Totals>, package: set<Tx>, its: seq<Tx>)
    requires p.anc.Keys == p.full.Keys && Members(its) <= package
    ensures var r := DeductAll(p, mod, package, its);
            && mod.Keys <= r.Keys
            && forall t | t in r && t !in mod :: t in p.anc && t !in package && p.anc[t] * package != {}
  {
    if its != [] {
      var n := |its| - 1;
      assert its[n] in Members(its) && Members(its[..n]) <= Members(its);
      DeductAllKeys(p, mod, package, its[..n]);
      var q := DeductAll(p, mod, package, its[..n]);
      forall t | t in Deduct(p, q, package, its[n]) && t !in q ensures t in p.anc && t !in package && p.anc[t] * package != {} {
        assert its[n] in p.anc[t] * package;
      }
    }
  }

  /** What is deducted from a record is all of the package that is among the ancestors. */
  lemma {:induction false} DeductAllSums(p: Pool, mod: map<Tx, Totals>, package: set<Tx>, its: seq<Tx>, t: Tx)
    requires p.anc.Keys == p.full.Keys && Distinct(its) && Members(its) <= package && t in p.anc && t !in package
    ensures var r := Recorded(p, DeductAll(p, mod, package, its), t);
            && r.size == Recorded(p, mod, t).size - Sum(p.size, Members(its) * p.anc[t])
            && r.sigOps == Recorded(p, mod, t).sigOps - Sum(p.sigOps, Members(its) * p.anc[t])
  {
    if its == [] {
      assert Members(its) * p.anc[t] == {};
    } else {
      var n := |its| - 1;
      var it := its[n];
      LastMember(its);
      assert it in package;
      DeductAllSums(p, mod, package, its[..n], t);
      var before := Members(its[..n]) * p.anc[t];
      if it in p.anc[t] {
        SumAdd(p.size, before, it);
        SumAdd(p.sigOps, before, it);
        assert Members(its) * p.anc[t] == before + {it};
      } else {
        assert Members(its) * p.anc[t] == before;
      }
    }
  }

  /** The room needed shrinks by the ancestors that entered the block. */
  lemma NeedLess(w: Weight, p: Pool, inBlock: set<Tx>, added: set<Tx>, t: Tx)
    requires t in p.anc && t !in added && added !! inBlock
    ensures Need(w, p, inBlock + added, t) == Need(w, p, inBlock, t) - Sum(w, added * p.anc[t])
  {
    SumUnion(w, Package(p, inBlock + added, t), added * p.anc[t]);
    assert Package(p, inBlock, t) == Package(p, inBlock + added, t) + added * p.anc[t];
  }

  /**
   * The record of a transaction outside a package of which only a part entered
   * the block: too small by the ancestors that were left behind.
   */
  lemma BreakRecord(p: Pool, inBlock: set<Tx>, mod: map<Tx, Totals>, package: set<Tx>, its: seq<Tx>, added: set<Tx>, t: Tx)
    requires p.anc.Keys == p.full.Keys && t in p.anc && t !in package && added <= package && package !! inBlock
    requires Distinct(its) && Members(its) == package
    ensures var r := Recorded(p, DeductAll(p, mod - added, package, its), t);
            var left := (package - added) * p.anc[t];
            && r.size - Need(p.size, p, inBlock + added, t) ==
               Recorded(p, mod, t).size - Need(p.size, p, inBlock, t) - Sum(p.size, left)
            && r.sigOps - Need(p.sigOps, p, inBlock + added, t) ==
               Recorded(p, mod, t).sigOps - Need(p.sigOps, p, inBlock, t) - Sum(p.sigOps, left)
  {
    hide Need, DeductAll;
    DeductAllSums(p, mod - added, package, its, t);
    assert Recorded(p, mod - added, t) == Recorded(p, mod, t);
    NeedLess(p.size, p, inBlock, added, t);
    NeedLess(p.sigOps, p, inBlock, added, t);
    var left := (package - added) * p.anc[t];
    assert package * p.anc[t] == added * p.anc[t] + left;
    SumUnion(p.size, added * p.anc[t], left);
    SumUnion(p.sigOps, added * p.anc[t], left);
  }

  /** So a record that was exact is still large enough exactly when nothing with a weight was left behind. */
  lemma BreakSpoilsExactly(p: Pool, inBlock: set<Tx>, mod: map<Tx, Totals>, package: set<Tx>, its: seq<Tx>, added: set<Tx>, t: Tx)
    requires WellFormed(p) && t in p.txs && t !in package && added <= package && package !! inBlock
    requires Distinct(its) && Members(its) == package && Exact(p, inBlock, t, Recorded(p, mod, t))
    ensures Enough(p, inBlock + added, t, Recorded(p, DeductAll(p, mod - added, package, its), t)) <==>
            var left := (package - added) * p.anc[t]; Sum(p.size, left) == 0 && Sum(p.sigOps, left) == 0
  {
    hide Need, DeductAll;
    BreakRecord(p, inBlock, mod, package, its, added, t);
    var left := (package - added) * p.anc[t];
    SumNonNegative(p.size, left);
    SumNonNegative(p.sigOps, left);
  }

  /** Nothing outside the package waits for something of it that was left behind. */
  ghost predicate Tidy(p: Pool, inBlock: set<Tx>, package: set<Tx>) {
    forall t | t in p.anc && t !in inBlock && t !in package ::
      var left := (package - inBlock) * p.anc[t]; Sum(p.size, left) == 0 && Sum(p.sigOps, left) == 0
  }

  ghost predicate AllEnough(p: Pool, inBlock: set<Tx>, mod: map<Tx, Totals>) {
    && p.anc.Keys == p.txs == p.full.Keys
    && forall t | t in p.txs && t !in inBlock :: Enough(p, inBlock, t, Recorded(p, mod, t))
  }

  /** A package that breaks off tidily leaves no record too small. */
  lemma TidyKeepsEnough(p: Pool, inBlock: set<Tx>, mod: map<Tx, Totals>, package: set<Tx>, its: seq<Tx>, added: set<Tx>)
    requires WellFormed(p) && AllEnough(p, inBlock, mod) && added <= package && package !! inBlock
    requires Distinct(its) && Members(its) == package && Tidy(p, inBlock + added, package)
    ensures AllEnough(p, inBlock + added, DeductAll(p, mod - added, package, its))
  {
    hide Need, DeductAll, Acyclic;
    var r := DeductAll(p, mod - added, package, its);
    forall t | t in p.txs && t !in inBlock + added ensures Enough(p, inBlock + added, t, Recorded(p, r, t)) {
      assert Enough(p, inBlock, t, Recorded(p, mod, t));
      if t in package {
        DeductAllPasses(p, mod - added, package, its, t);
        assert Recorded(p, r, t) == Recorded(p, mod, t);
        NeedsNoMore(p, inBlock, added, t);
      } else {
        BreakRecord(p, inBlock, mod, package, its, added, t);
        assert package - (inBlock + added) == package - added;
      }
    }
  }

  lemma NeedsNoMore(p: Pool, inBlock: set<Tx>, added: set<Tx>, t: Tx)
    requires WellFormed(p) && t in p.txs
    ensures Need(p.size, p, inBlock + added, t) <= Need(p.size, p, inBlock, t)
    ensures Need(p.sigOps, p, inBlock + added, t) <= Need(p.sigOps, p, inBlock, t)
  {
    SumSubset(p.size, Package(p, inBlock + added, t), Package(p, inBlock, t));
    SumSubset(p.sigOps, Package(p, inBlock + added, t), Package(p, inBlock, t));
  }

  /** The unsigned subtractions never wrap: what is deducted was still in the record. */
  lemma RecordsDoNotWrap(p: Pool, done: set<Tx>, inBlock: set<Tx>, mod: map<Tx, Totals>, failed: set<Tx>, it: Tx, t: Tx)
    requires WellFormed(p) && Tracked(p, done, inBlock, mod, failed) && t in p.txs && t !in inBlock
    requires it in p.anc[t] && it !in done
    ensures Recorded(p, mod, t).size >= p.size(it) && Recorded(p, mod, t).sigOps >= p.sigOps(it)
  {
    var package := Package(p, done, t);
    SumRemove(p.size, package, it);
    SumRemove(p.sigOps, package, it);
    SumNonNegative(p.size, package - {it});
    SumNonNegative(p.sigOps, package - {it});
    assert Enough(p, done, t, Recorded(p, mod, t));
  }

  /**
   * Fees are patched unevenly: a right fee total stays right exactly when the
   * record is new or the transaction deducted carries no priority.
   */
  lemma FeesStayExact(p: Pool, done: set<Tx>, mod: map<Tx, Totals>, added: set<Tx>, it: Tx, t: Tx)
    requires WellFormed(p) && t in p.txs && t !in added && it in p.anc[t] && it !in done
    requires Recorded(p, mod, t).fees == Need(p.modifiedFee, p, done, t)
    ensures Recorded(p, Deduct(p, mod, added, it), t).fees == Need(p.modifiedFee, p, done + {it}, t) <==>
            t !in mod || p.fee(it) == p.modifiedFee(it)
    ensures t in Deduct(p, mod, added, it)
  {
    hide Need;
    NeedDeduct(p.modifiedFee, p, done, it, t);
  }

  /** So it goes wrong for every child of two selected transactions of which the later is prioritised. */
  lemma PrioritisedFeesDrift(p: Pool, first: Tx, second: Tx, child: Tx)
    requires WellFormed(p) && child in p.txs && first in p.anc[child] && second in p.anc[child] && first != second
    requires p.fee(second) != p.modifiedFee(second)
    ensures var added := {first, second};
            var mod := Deduct(p, Deduct(p, map[], added, first), added, second);
            Recorded(p, mod, child).fees != Need(p.modifiedFee, p, added, child)
  {
    hide Need, Deduct;
    var added := {first, second};
    FeesStayExact(p, {}, map[], added, first, child);
    FeesStayExact(p, {} + {first}, Deduct(p, map[], added, first), added, second, child);
    assert {} + {first} + {second} == added;
  }

  /******* The order inside the block *******/

  ghost function Members(vtx: seq<Tx>): set<Tx> {
    set y | y in vtx
  }

  ghost predicate ParentsFirst(p: Pool, vtx: seq<Tx>) {
    forall j, a | 0 <= j < |vtx| && vtx[j] in p.anc && a in p.anc[vtx[j]] :: a in vtx[..j]
  }

  function CountWithAncestors(p: Pool, t: Tx): nat
    requires t in p.anc
  {
    |p.anc[t]| + 1
  }

  lemma AncestorCountsLess(p: Pool, t: Tx, a: Tx)
    requires Acyclic(p) && t in p.txs && a in p.anc[t]
    ensures CountWithAncestors(p, a) < CountWithAncestors(p, t)
  {
    var rest := p.anc[t] - p.anc[a] - {a};
    assert p.anc[t] == p.anc[a] + {a} + rest;
  }

  ghost predicate SortedByCount(p: Pool, s: seq<Tx>) {
    && (forall i | 0 <= i < |s| :: s[i] in p.anc)
    && (forall i, j | 0 <= i < j < |s| :: CountWithAncestors(p, s[i]) <= CountWithAncestors(p, s[j]))
  }

  lemma SortedAppend(p: Pool, s: seq<Tx>, x: Tx)
    requires SortedByCount(p, s) && x in p.anc
    requires forall y | y in s :: CountWithAncestors(p, y) <= CountWithAncestors(p, x)
    ensures SortedByCount(p, s + [x]) && Members(s + [x]) == Members(s) + {x}
  {
  }

  /** Sorting a package by ancestor count puts parents before children. */
  lemma AppendPackage(p: Pool, vtx: seq<Tx>, t: Tx, sorted: seq<Tx>)
    requires Acyclic(p) && t in p.txs && ParentsFirst(p, vtx) && SortedByCount(p, sorted)
    requires forall x :: x in sorted <==> x in Package(p, Members(vtx), t)
    ensures ParentsFirst(p, vtx + sorted)
  {
    var all := vtx + sorted;
    forall j, a | 0 <= j < |all| && all[j] in p.anc && a in p.anc[all[j]] ensures a in all[..j] {
      if j < |vtx| {
        assert all[..j] == vtx[..j];
      } else {
        var x := sorted[j - |vtx|];
        assert all[..j] == vtx + sorted[..j - |vtx|];
        assert x in Package(p, Members(vtx), t);
        if a !in vtx {
          assert a in Package(p, Members(vtx), t);
          var k :| 0 <= k < |sorted| && sorted[k] == a;
          AncestorCountsLess(p, x, a);
          assert sorted[..j - |vtx|][k] == a;
        }
      }
    }
  }

  /** A set of transactions with all their ancestors. */
  ghost predicate Closed(p: Pool, s: set<Tx>) {
    forall t, a | t in s && t in p.anc && a in p.anc[t] :: a in s
  }

  lemma ParentsFirstClosed(p: Pool, vtx: seq<Tx>)
    requires ParentsFirst(p, vtx)
    ensures Closed(p, Members(vtx))
  {
    forall t, a | t in vtx && t in p.anc && a in p.anc[t] ensures a in vtx {
      var j :| 0 <= j < |vtx| && vtx[j] == t;
      assert a in vtx[..j];
    }
  }

  /******* Why a transaction stays out *******/

  datatype Limits = Limits(size: int, sigOps: int)

  /** Its package does not fit, or holds a transaction that is not final. */
  ghost predicate Blocked(p: Pool, inBlock: set<Tx>, used: Limits, max: Limits, t: Tx)
    requires t in p.anc
  {
    || used.size + Need(p.size, p, inBlock, t) >= max.size
    || used.sigOps + Need(p.sigOps, p, inBlock, t) >= max.sigOps
    || exists x :: x in Package(p, inBlock, t) && !p.isFinal(x)
  }

  lemma NeedAfter(w: Weight, p: Pool, inBlock: set<Tx>, added: set<Tx>, t: Tx)
    requires t in p.anc && forall x :: w(x) >= 0
    ensures Need(w, p, inBlock, t) <= Need(w, p, inBlock + added, t) + Sum(w, added)
  {
    var after := Package(p, inBlock + added, t);
    SumSubset(w, Package(p, inBlock, t), after + added);
    SumUnion(w, after, added);
  }

  /** Once blocked, always blocked: adding final transactions frees no room for a package. */
  lemma BlockedStays(p: Pool, inBlock: set<Tx>, used: Limits, max: Limits, added: set<Tx>, t: Tx)
    requires WellFormed(p) && t in p.txs && Blocked(p, inBlock, used, max, t)
    requires forall x | x in added :: p.isFinal(x)
    ensures Blocked(p, inBlock + added, Limits(used.size + Sum(p.size, added), used.sigOps + Sum(p.sigOps, added)), max, t)
  {
    NeedAfter(p.size, p, inBlock, added, t);
    NeedAfter(p.sigOps, p, inBlock, added, t);
    if exists x :: x in Package(p, inBlock, t) && !p.isFinal(x) {
      var x :| x in Package(p, inBlock, t) && !p.isFinal(x);
      assert x in Package(p, inBlock + added, t);
    }
  }
}
