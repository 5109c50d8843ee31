/**
 * The block assembler object: the selection loop and its helpers, over its own
 * fields.  A package with a shielded transaction for which there is no room
 * breaks off in the middle; what that does to the loop is part of the model.
 */
module BlockAssembly {
  import opened PackageSelection
  import opened SetSum
  import opened Arith

  /** Shielded transactions have a limit of their own, and are kept out during maintenance. */
  datatype Rules = Rules(max: Limits, maintenance: bool, maxShielded: int)

  predicate Refuses(p: Pool, rules: Rules, sizeShielded: int, x: Tx) {
    p.shielded(x) && (rules.maintenance || sizeShielded + p.size(x) > rules.maxShielded)
  }

  /** How the selection ends: nothing is left, a package pays too little, or the turns are used up. */
  datatype Outcome = Complete | PaysTooLittle | Unfinished

  class BlockAssembler {
    const rules: Rules
    // The transactions selected from the pool, in block order.
    var vtx: seq<Tx>
    var txFees: seq<int>
    var txSigOps: seq<int>
    var inBlock: set<Tx>
    var used: Limits
    var nBlockTx: nat
    var nFees: int
    var sizeShielded: int

    /** An empty block with room taken for the coinbase. */
    constructor (rules: Rules, reserved: Limits)
      ensures this.rules == rules && Now() == Block([], {}, reserved, 0, 0, 0)
      ensures forall p :: Consistent(p)
    {
      this.rules := rules;
      vtx, txFees, txSigOps, inBlock, used, nBlockTx, nFees, sizeShielded := [], [], [], {}, reserved, 0, 0, 0;
    }

    /** The lists go with the transactions, each of which is there once. */
    ghost predicate Consistent(p: Pool)
      reads this`vtx, this`inBlock, this`txFees, this`txSigOps
    {
      inBlock == Members(vtx) && |inBlock| == |vtx| && ListsFit(p, vtx, txFees, txSigOps)
    }

    ghost function Now(): Block
      reads this
    {
      Block(vtx, inBlock, used, nBlockTx, nFees, sizeShielded)
    }

    /** The set without what is already in the block. */
    method OnlyUnconfirmed(testSet: set<Tx>) returns (r: set<Tx>)
      ensures r == testSet - inBlock
    {
      r := testSet;
      var todo := testSet;
      while todo != {}
        invariant todo <= testSet && r == testSet - (inBlock - todo)
        decreases todo
      {
        var x :| x in todo;
        if x in inBlock {
          r := r - {x};
        }
        todo := todo - {x};
      }
    }

    method TestPackage(t: Totals) returns (ok: bool)
      ensures ok <==> used.size + t.size < rules.max.size && used.sigOps + t.sigOps < rules.max.sigOps
    {
      if used.size + t.size >= rules.max.size {
        return false;
      }
      if used.sigOps + t.sigOps >= rules.max.sigOps {
        return false;
      }
      return true;
    }

    method TestPackageFinality(p: Pool, package: set<Tx>) returns (ok: bool)
      ensures ok <==> AllFinal(p, package)
    {
      var todo := package;
      while todo != {}
        invariant todo <= package && forall x | x in package && x !in todo :: p.isFinal(x)
        decreases todo
      {
        var x :| x in todo;
        if !p.isFinal(x) {
          return false;
        }
        todo := todo - {x};
      }
      return true;
    }

    /** Any order that is sorted by ancestor count; ties are left open. */
    method SortForBlock(p: Pool, package: set<Tx>) returns (sorted: seq<Tx>)
      requires package <= p.anc.Keys
      ensures SortedByCount(p, sorted) && Members(sorted) == package
      ensures Distinct(sorted)
    {
      hide CountWithAncestors;
      sorted := [];
      var todo := package;
      while todo != {}
        invariant todo <= package && Members(sorted) == package - todo
        invariant Distinct(sorted)
        invariant SortedByCount(p, sorted)
        invariant forall x, y | x in Members(sorted) && y in todo :: CountWithAncestors(p, x) <= CountWithAncestors(p, y)
        decreases todo
      {
        var least := LeastByCount(p, todo);
        SortedAppend(p, sorted, least);
        sorted := sorted + [least];
        todo := todo - {least};
      }
    }

    method LeastByCount(p: Pool, s: set<Tx>) returns (least: Tx)
      requires s <= p.anc.Keys && s != {}
      ensures least in s && forall y | y in s :: CountWithAncestors(p, least) <= CountWithAncestors(p, y)
    {
      least :| least in s;
      var todo := s - {least};
      while todo != {}
        invariant todo <= s && least in s
        invariant forall y | y in s && y !in todo :: CountWithAncestors(p, least) <= CountWithAncestors(p, y)
        decreases todo
      {
        var y :| y in todo;
        if CountWithAncestors(p, y) < CountWithAncestors(p, least) {
          least := y;
        }
        todo := todo - {y};
      }
    }

    method AddToBlock(p: Pool, t: Tx)
      requires Consistent(p) && t !in inBlock
      modifies this
      ensures Consistent(p) && vtx == old(vtx) + [t] && inBlock == old(inBlock) + {t}
      ensures used == Limits(old(used).size + p.size(t), old(used).sigOps + p.sigOps(t))
      ensures nBlockTx == old(nBlockTx) + 1 && nFees == old(nFees) + p.fee(t) && sizeShielded == old(sizeShielded)
    {
      hide ListsFit, Members;
      vtx := vtx + [t];
      txFees := txFees + [p.fee(t)];
      txSigOps := txSigOps + [p.sigOps(t)];
      used := Limits(used.size + p.size(t), used.sigOps + p.sigOps(t));
      nBlockTx := nBlockTx + 1;
      nFees := nFees + p.fee(t);
      inBlock := inBlock + {t};
      MembersGrow(old(vtx), t);
      ListsGrow(p, old(vtx), old(txFees), old(txSigOps), t);
    }

    /** One transaction is deducted from all its descendants outside the package. */
    method DeductFromDescendants(p: Pool, mod: map<Tx, Totals>, added: set<Tx>, it: Tx) returns (r: map<Tx, Totals>)
      requires p.anc.Keys == p.full.Keys
      ensures r == Deduct(p, mod, added, it)
    {
      r := mod;
      var descendants := Descendants(p, it);
      var todo := descendants;
      while todo != {}
        invariant todo <= descendants
        invariant r.Keys == mod.Keys + (descendants - added - todo)
        invariant forall t | t in r ::
                    r[t] == if t in descendants - added - todo then Less(p, Recorded(p, mod, t), it, t !in mod) else mod[t]
        decreases todo
      {
        var desc :| desc in todo;
        if desc !in added {
          if desc !in r {
            r := r[desc := Less(p, p.full[desc], it, true)];
          } else {
            r := r[desc := Less(p, r[desc], it, false)];
          }
        }
        todo := todo - {desc};
      }
    }

    /** Deduct a whole package, whether all of it is in the block or not; its is the order in which that is done. */
    method UpdatePackagesForAdded(p: Pool, added: set<Tx>, mod: map<Tx, Totals>)
      returns (r: map<Tx, Totals>, its: seq<Tx>)
      requires p.anc.Keys == p.full.Keys
      ensures Members(its) == added && Distinct(its) && r == DeductAll(p, mod, added, its)
    {
      r, its := mod, [];
      var todo := added;
      while todo != {}
        invariant todo <= added && Members(its) == added - todo && Distinct(its) && r == DeductAll(p, mod, added, its)
        decreases todo
      {
        var it :| it in todo;
        r := DeductFromDescendants(p, r, added, it);
        assert (its + [it])[..|its|] == its && Members(its + [it]) == Members(its) + {it};
        its := its + [it];
        todo := todo - {it};
      }
    }

    /******* Putting a package into the block *******/

    /** Count a transaction that has passed, and add it. */
    method AddOne(p: Pool, x: Tx, ghost st: Block, ghost done: set<Tx>)
      requires Consistent(p) && x !in inBlock && x !in done && !Refuses(p, rules, sizeShielded, x)
      requires Ledger(p, st, Now(), done) && ShieldStep(p, rules, st, Now(), done)
      modifies this
      ensures Consistent(p) && vtx == old(vtx) + [x] && inBlock == old(inBlock) + {x}
      ensures Ledger(p, st, Now(), done + {x}) && ShieldStep(p, rules, st, Now(), done + {x})
    {
      hide Consistent, Ledger, ShieldStep, Refuses;
      ghost var before := Now();
      if p.shielded(x) {
        sizeShielded := sizeShielded + p.size(x);
      }
      AddToBlock(p, x);
      OneMore(p, rules, st, before, Now(), done, x);
    }

    /** Add the first k of the sorted transactions, up to one that is refused. */
    method AddSorted(p: Pool, sorted: seq<Tx>, mod: map<Tx, Totals>) returns (r: map<Tx, Totals>, k: nat)
      requires Consistent(p) && Members(sorted) !! inBlock && Distinct(sorted)
      modifies this
      ensures Consistent(p) && k <= |sorted| && vtx == old(vtx) + sorted[..k]
      ensures var added := Members(sorted[..k]);
              && inBlock == old(inBlock) + added && r == mod - added
              && Ledger(p, old(Now()), Now(), added) && ShieldStep(p, rules, old(Now()), Now(), added)
      ensures k < |sorted| ==> Refuses(p, rules, sizeShielded, sorted[k])
      ensures k == 0 ==> Now() == old(Now())
    {
      hide Sum, Members, Distinct, Consistent, Ledger, Refuses, ShieldStep;
      ghost var st := Now();
      r, k := mod, 0;
      NothingAdded(p, rules, st);
      assert sorted[..0] == [];
      while k < |sorted|
        invariant Consistent(p) && k <= |sorted| && vtx == st.vtx + sorted[..k] && (k == 0 ==> Now() == st)
        invariant inBlock == st.inBlock + Members(sorted[..k]) && r == mod - Members(sorted[..k])
        invariant Ledger(p, st, Now(), Members(sorted[..k])) && ShieldStep(p, rules, st, Now(), Members(sorted[..k]))
      {
        var x := sorted[k];
        if Refuses(p, rules, sizeShielded, x) {
          return;
        }
        NextMember(st.vtx, st.inBlock, mod, sorted, k);
        AddOne(p, x, st, Members(sorted[..k]));
        r := r - {x};
        k := k + 1;
      }
    }

    /** Add a package, parents first, as far as it goes. */
    method AddPackage(p: Pool, t: Tx, package: set<Tx>, mod: map<Tx, Totals>)
      returns (r: map<Tx, Totals>, ghost added: set<Tx>, ghost first: Tx)
      requires WellFormed(p) && Consistent(p) && ParentsFirst(p, vtx)
      requires t in p.txs && t !in inBlock && package == Package(p, inBlock, t)
      modifies this
      ensures Consistent(p) && ParentsFirst(p, vtx) && old(vtx) <= vtx
      ensures added <= package && inBlock == old(inBlock) + added && r == mod - added
      ensures Ledger(p, old(Now()), Now(), added) && ShieldStep(p, rules, old(Now()), Now(), added)
      ensures IsFirst(p, package, first) && (added == {} <==> Refuses(p, rules, old(sizeShielded), first))
      ensures added != package ==> exists x :: x in package - added && Refuses(p, rules, sizeShielded, x)
      ensures added == {} ==> Now() == old(Now())
    {
      hide Sum, Members, Ledger, ShieldStep, Refuses, SortedByCount, ParentsFirst, Consistent, Acyclic, IsFirst, Distinct,
           WellFormed;
      PoolKeys(p);
      PackageInPool(p, inBlock, t);
      assert t in package;
      var sorted := SortForBlock(p, package);
      assert forall x :: x in sorted <==> x in package by { MembersAre(sorted); }
      assert inBlock == Members(vtx) by { ConsistentFacts(p); }
      AppendPackage(p, vtx, t, sorted);
      ghost var before := Now();
      var k;
      r, k := AddSorted(p, sorted, mod);
      added := Members(sorted[..k]);
      first := sorted[0];
      PartAdded(p, before.vtx, package, sorted, k);
      if k > 0 {
        FirstPassed(p, rules, before, Now(), sorted, k);
      }
    }

    lemma ConsistentFacts(p: Pool)
      requires Consistent(p)
      ensures inBlock == Members(vtx)
    {
    }

    /******* The selection loop *******/

    /** A package that failed is taken off the records and remembered. */
    method Fail(p: Pool, ghost st: Block, t: Tx, usingModified: bool, mod: map<Tx, Totals>, failed: set<Tx>, ghost f: Flags)
      returns (mod': map<Tx, Totals>, failed': set<Tx>)
      requires Selecting(p, rules, st, Now(), mod, failed, f) && t in p.txs && t !in inBlock
      requires !f.broke ==> Settled(p, rules.max, Now(), t)
      ensures Selecting(p, rules, st, Now(), mod', failed', f)
      ensures mod' == if usingModified then mod - {t} else mod
    {
      hide Progress, Settled, WellFormed, Tracked, AllEnough;
      mod', failed' := mod, failed;
      if usingModified {
        if !f.broke {
          FailTracked(p, inBlock, mod, failed, t);
        }
        if !f.spoiled {
          FailEnough(p, inBlock, mod, t);
        }
        mod', failed' := mod - {t}, failed + {t};
      }
    }

    /** Put a package that passed all tests into the block, as far as it goes. */
    method Select(p: Pool, ghost st: Block, t: Tx, package: set<Tx>, mod: map<Tx, Totals>, ghost failed: set<Tx>, ghost f: Flags)
      returns (r: map<Tx, Totals>, ghost f': Flags, ghost added: set<Tx>, ghost first: Tx, ghost its: seq<Tx>)
      requires Consistent(p) && Selecting(p, rules, st, Now(), mod, failed, f)
      requires t in p.txs && t !in inBlock && package == Package(p, inBlock, t) && AllFinal(p, package)
      requires !f.spoiled ==> Fits(p, rules.max, used, package)
      modifies this
      ensures Consistent(p) && Selecting(p, rules, st, Now(), r, failed, f')
      ensures added <= package && inBlock == old(inBlock) + added
      ensures f' == AfterBreak(p, f, inBlock, package) && Raised(f, f') && (added == {} ==> f'.broke)
      ensures !f'.broke ==> added == package && Keeps(p, rules.max, old(Now()), Now())
      ensures mod.Keys <= r.Keys + inBlock
      ensures IsFirst(p, package, first) && (added == {} <==> Refuses(p, rules, old(sizeShielded), first))
      ensures added == {} ==>
                && Now() == old(Now()) && p.anc.Keys == p.full.Keys
                && r == DeductAll(p, mod, package, its) && Members(its) == package
      ensures NoRefusals(p, rules, st.sizeShielded) ==> f' == f && added != {}
      ensures ShieldedApart(p) && !f.spoiled ==> !f'.spoiled
    {
      hide Sum, Members, Ledger, ShieldStep, Refuses, ParentsFirst, Consistent, Acyclic, IsFirst, Distinct, WellFormed,
           Selecting, AfterBreak, Fits, Keeps, DeductAll, AllFinal, Progress, ShieldedApart;
      ghost var before := Now();
      SelectingFacts(p, rules, st, before, mod, failed, f);
      ProgressFacts(p, rules, st, before);
      var rest;
      rest, added, first := AddPackage(p, t, package, mod);
      r, its := UpdatePackagesForAdded(p, package, rest);
      f' := AfterBreak(p, f, inBlock, package);
      assert inBlock == Members(vtx) by { ConsistentFacts(p); }
      SelectDone(p, rules, st, before, Now(), mod, failed, f, t, package, added, its);
      if NoRefusals(p, rules, st.sizeShielded) {
        WholeIfNoRefusals(p, rules, st, Now(), package, added, before.inBlock, t, f);
      }
      assert added == {} ==> mod - added == mod;
    }

    /** Test a package; add it or put it aside. */
    method Try(p: Pool, ghost st: Block, ghost minFee: int -> int, t: Tx, usingModified: bool, mod: map<Tx, Totals>,
               failed: set<Tx>, ghost f: Flags)
      returns (mod': map<Tx, Totals>, failed': set<Tx>, ghost f': Flags, ghost stalled: bool)
      requires Consistent(p) && Selecting(p, rules, st, Now(), mod, failed, f) && t in p.txs && t !in inBlock
      requires t in p.anc && if usingModified then t in mod && Pays(minFee, mod[t]) else t !in mod && t !in failed
      modifies this
      ensures Consistent(p) && Selecting(p, rules, st, Now(), mod', failed', f')
      ensures Raised(f, f') && old(inBlock) <= inBlock && t in p.anc && inBlock <= old(inBlock) + old(Package(p, inBlock, t))
      ensures !f'.broke ==> Settled(p, rules.max, Now(), t) && Keeps(p, rules.max, old(Now()), Now())
      ensures mod.Keys <= mod'.Keys + inBlock + {t}
      ensures !stalled && usingModified && inBlock == old(inBlock) ==> mod' == mod - {t}
      ensures stalled ==> f'.broke && Now() == old(Now()) && usingModified && Stalls(p, rules, minFee, Now(), mod, mod', t)
      ensures NoRefusals(p, rules, st.sizeShielded) ==> f' == f && !stalled
      ensures ShieldedApart(p) && !f.spoiled ==> !f'.spoiled
    {
      hide Progress, Settled, WellFormed, Fits, Acyclic, DeductAll, Consistent, AllFinal, Selecting, AfterBreak, IsFirst, Refuses,
           Keeps, StallsWith, NoRefusals, ShieldedApart;
      SelectingFacts(p, rules, st, Now(), mod, failed, f);
      stalled, f' := false, f;
      KeepsItself(p, rules.max, Now());
      var fits := TestPackage(Recorded(p, mod, t));
      if !fits {
        if !f.broke {
          TooBig(p, rules, st, Now(), mod, failed, t, f);
        }
        mod', failed' := Fail(p, st, t, usingModified, mod, failed, f);
        return;
      }
      var package := OnlyUnconfirmed(p.anc[t]);
      package := package + {t};
      assert package == Package(p, inBlock, t);
      var final := TestPackageFinality(p, package);
      if !final {
        NotFinal(p, rules.max, Now(), t);
        mod', failed' := Fail(p, st, t, usingModified, mod, failed, f);
        return;
      }
      if !f.spoiled {
        EnoughFits(p, rules, st, Now(), mod, failed, t, f);
      }
      ghost var added, first, its;
      mod', f', added, first, its := Select(p, st, t, package, mod, failed, f);
      failed' := failed;
      stalled := usingModified && added == {};
      if !f'.broke {
        InIsSettled(p, rules.max, Now(), t);
      }
      if stalled {
        Stalled(p, rules, minFee, Now(), mod, mod', t, first, its);
      }
    }

    /**
     * What is skipped is on record or settled; what is not skipped has exact
     * totals in the pool, as long as no package has broken off.
     */
    method SkipMapTxEntry(p: Pool, ghost st: Block, t: Tx, mod: map<Tx, Totals>, failed: set<Tx>, ghost f: Flags)
      returns (skip: bool)
      requires Selecting(p, rules, st, Now(), mod, failed, f) && t in p.txs
      ensures !f.broke ==> p.anc.Keys == p.txs == p.full.Keys
      ensures !f.broke && skip ==> t in mod || Settled(p, rules.max, Now(), t)
      ensures !f.broke && !skip ==> Exact(p, inBlock, t, p.full[t])
      ensures !skip ==> t !in inBlock && t !in mod && t !in failed
    {
      hide Blocked, Exact, Enough, Progress;
      skip := t in mod || t in inBlock || t in failed;
    }

    /** Deduct what is in the block already. */
    method StartSelection(p: Pool, ghost st: Block) returns (mod: map<Tx, Totals>, failed: set<Tx>)
      requires WellFormed(p) && Consistent(p) && inBlock <= p.txs && ParentsFirst(p, vtx) && st == Now()
      ensures Selecting(p, rules, st, Now(), mod, failed, Flags(false, false))
    {
      hide Sum, ParentsFirst, Members, DeductAll, Distinct, Tracked, WellFormed, AllEnough, Progress;
      PoolKeys(p);
      failed := {};
      ghost var its;
      mod, its := UpdatePackagesForAdded(p, inBlock, map[]);
      StartTracked(p, inBlock, its);
      StartProgress(p, rules, st);
      TrackedIsEnough(p, inBlock, mod, failed);
    }

    /** The next transaction to look at: the next of the pool, or one on record. */
    method Choose(order: seq<Tx>, mi: nat, mod: map<Tx, Totals>) returns (t: Tx, usingModified: bool)
      requires mi < |order| || (mi == |order| && mod != map[])
      ensures if usingModified then t in mod else mi < |order| && t == order[mi]
    {
      if mi == |order| {
        t :| t in mod;
        return t, true;
      }
      t, usingModified := order[mi], false;
      if mod != map[] {
        var best :| best in mod;
        var better: bool := *;
        if better {
          t, usingModified := best, true;
        }
      }
    }

    /**
     * Any number of turns of the selection loop, fewer only if nothing is left
     * to consider or a package pays too little; trace shows them one by one.
     * The score order is left open: any record may be the best, and it may or
     * may not beat the next transaction of the pool.
     *
     * The block always grows by final transactions, parents first, with exact
     * totals and within the room for shielded ones.  The two limits are kept
     * unless a package broke off and spoiled records; a transaction is left out
     * without reason only if one broke off; and only turns that stall can keep
     * the loop from ending.  All of these failures need a package that broke
     * off, and then there is a transaction outside the block that is still
     * refused.  Nothing breaks off where NoRefusals holds, and no limit is
     * passed where ShieldedApart holds.  Selection ends early only at a
     * transaction outside the block whose totals do not pay.
     */
    method AddPackageTxs(p: Pool, order: seq<Tx>, minFee: int -> int, turns: nat)
      returns (outcome: Outcome, ghost f: Flags, ghost stalls: nat, ghost trace: seq<Snapshot>)
      requires WellFormed(p) && Members(order) == p.txs
      requires Consistent(p) && inBlock <= p.txs && ParentsFirst(p, vtx)
      modifies this
      ensures Consistent(p) && Progress(p, rules, old(Now()), Now())
      ensures !f.spoiled ==> Within(rules, old(Now()), Now())
      ensures !f.broke ==> !f.spoiled && stalls == 0
      ensures f.broke ==> SomeRefused(p, rules, Now())
      ensures outcome == Complete && !f.broke ==>
                forall t | t in p.txs :: t in inBlock || Blocked(p, inBlock, used, rules.max, t)
      ensures outcome == Unfinished && turns > MostTurns(|p.txs|, |order|) ==> stalls > 0
      ensures outcome == PaysTooLittle ==> exists t, r :: Underpaid(p, rules, minFee, Now(), f, t, r)
      ensures AllPay(p, minFee) && NoPriorities(p) && !f.broke ==> outcome != PaysTooLittle
      ensures NoRefusals(p, rules, old(sizeShielded)) ==> !f.broke
      ensures ShieldedApart(p) ==> !f.spoiled
      ensures IsTrace(p, rules, minFee, order, trace) && trace[0].b == old(Now()) && trace[|trace| - 1].b == Now()
      ensures |trace| <= turns + 1 && (outcome == Unfinished ==> |trace| == turns + 1)
    {
      hide Progress, WellFormed, Blocked, Consistent, Selecting, Seen, ParentsFirst, Members, Within, RankOf, MostTurns, NoRefusals,
           SomeRefused, ShieldedApart, AllPay, NoPriorities, Underpaid, IsTrace;
      ghost var st := Now();
      PoolKeys(p);
      f, stalls := Flags(false, false), 0;
      var mod, failed := StartSelection(p, st);
      var mi: nat := 0;
      var turn := 0;
      NothingSeen(p, rules.max, Now(), order, mod);
      SelectingFacts(p, rules, st, Now(), mod, failed, f);
      StartRank(p.txs, inBlock, mod, |order|);
      trace := [Snapshot(Now(), mi, mod, f, false)];
      TraceStarts(p, rules, minFee, order, trace[0]);
      while (mi < |order| || mod != map[]) && turn < turns
        invariant Consistent(p) && Selecting(p, rules, st, Now(), mod, failed, f) && turn <= turns
        invariant mi <= |order| && (!f.broke ==> Seen(p, rules.max, Now(), order, mi, mod))
        invariant stalls == 0 ==> turn + RankOf(p.txs, inBlock, mod, |order| - mi, |order|) <= MostTurns(|p.txs|, |order|)
        invariant NoRefusals(p, rules, st.sizeShielded) ==> !f.broke && stalls == 0
        invariant (stalls > 0 ==> f.broke) && (ShieldedApart(p) ==> !f.spoiled)
        invariant IsTrace(p, rules, minFee, order, trace) && |trace| == turn + 1 && trace[0].b == st
        invariant trace[turn] == Snapshot(Now(), mi, mod, f, trace[turn].stalled)
        decreases turns - turn
      {
        var stop;
        ghost var stalled, f' := false, f;
        mi, mod, failed, stop, f', stalled := Turn(p, st, order, minFee, mi, mod, failed, f);
        f, stalls, turn := f', if stalled then stalls + 1 else stalls, turn + 1;
        if stop {
          SelectingFacts(p, rules, st, Now(), mod, failed, f);
          return PaysTooLittle, f, stalls, trace;
        }
        TraceGrows(p, rules, minFee, order, trace, Snapshot(Now(), mi, mod, f, stalled));
        trace := trace + [Snapshot(Now(), mi, mod, f, stalled)];
      }
      SelectingFacts(p, rules, st, Now(), mod, failed, f);
      if mi < |order| || mod != map[] {
        outcome := Unfinished;
      } else {
        if !f.broke {
          AllSettled(p, rules.max, Now(), order, mod);
        }
        outcome := Complete;
      }
    }

    /** One turn of the selection loop; stop says that a package pays too little. */
    method Turn(p: Pool, ghost st: Block, order: seq<Tx>, minFee: int -> int, mi: nat, mod: map<Tx, Totals>,
                failed: set<Tx>, ghost f: Flags)
      returns (mi': nat, mod': map<Tx, Totals>, failed': set<Tx>, stop: bool, ghost f': Flags, ghost stalled: bool)
      requires Consistent(p) && Selecting(p, rules, st, Now(), mod, failed, f) && Members(order) == p.txs == p.anc.Keys
      requires mi <= |order| && (!f.broke ==> Seen(p, rules.max, Now(), order, mi, mod)) && (mi < |order| || mod != map[])
      modifies this
      ensures Consistent(p) && Selecting(p, rules, st, Now(), mod', failed', f') && Raised(f, f')
      ensures !stop ==> Turned(p, rules, minFee, order, old(Now()), Now(), mi, mod, mi', mod', f', stalled)
      ensures stalled ==> f'.broke
      ensures stop ==> Now() == old(Now()) && f' == f && exists t, r :: Underpaid(p, rules, minFee, Now(), f, t, r)
      ensures AllPay(p, minFee) && NoPriorities(p) && !f.broke ==> !stop
      ensures NoRefusals(p, rules, st.sizeShielded) ==> f' == f && !stalled
      ensures ShieldedApart(p) && !f.spoiled ==> !f'.spoiled
    {
      hide Progress, Settled, WellFormed, Acyclic, Consistent, Selecting, Seen, Turned, NoRefusals, Exact, Members, ShieldedApart, AllPay, NoPriorities,
           Underpaid;
      SelectingFacts(p, rules, st, Now(), mod, failed, f);
      if mi < |order| {
        assert order[mi] in p.txs by { MembersAre(order); }
        var skip := SkipMapTxEntry(p, st, order[mi], mod, failed, f);
        if skip {
          TurnSkips(p, rules, minFee, order, Now(), mi, mod, f);
          mi', mod', failed', stop, f', stalled := mi + 1, mod, failed, false, f, false;
          return;
        }
      }
      mi', mod', failed', stop, f', stalled := Consider(p, st, order, minFee, mi, mod, failed, f);
    }

    /** The part of a turn that looks at a package. */
    method Consider(p: Pool, ghost st: Block, order: seq<Tx>, minFee: int -> int, mi: nat, mod: map<Tx, Totals>,
                    failed: set<Tx>, ghost f: Flags)
      returns (mi': nat, mod': map<Tx, Totals>, failed': set<Tx>, stop: bool, ghost f': Flags, ghost stalled: bool)
      requires Consistent(p) && Selecting(p, rules, st, Now(), mod, failed, f) && Members(order) == p.txs == p.anc.Keys
      requires mi <= |order| && (!f.broke ==> Seen(p, rules.max, Now(), order, mi, mod)) && (mi < |order| || mod != map[])
      requires mi < |order| ==> order[mi] !in mod && order[mi] !in inBlock && order[mi] !in failed
      modifies this
      ensures Consistent(p) && Selecting(p, rules, st, Now(), mod', failed', f') && Raised(f, f')
      ensures !stop ==> Turned(p, rules, minFee, order, old(Now()), Now(), mi, mod, mi', mod', f', stalled)
      ensures stalled ==> f'.broke
      ensures stop ==> Now() == old(Now()) && f' == f && exists t, r :: Underpaid(p, rules, minFee, Now(), f, t, r)
      ensures AllPay(p, minFee) && NoPriorities(p) && !f.broke ==> !stop
      ensures NoRefusals(p, rules, st.sizeShielded) ==> f' == f && !stalled
      ensures ShieldedApart(p) && !f.spoiled ==> !f'.spoiled
    {
      hide Progress, Settled, WellFormed, Acyclic, Consistent, Selecting, Seen, Turned, Stalls, NoRefusals, Keeps, Members, ShieldedApart,
           AllPay, NoPriorities, Underpaid;
      mi', mod', failed', stop, f', stalled := mi, mod, failed, false, f, false;
      SelectingFacts(p, rules, st, Now(), mod, failed, f);
      MembersAre(order);
      ghost var before := Now();
      var t, usingModified := Choose(order, mi, mod);
      if !usingModified {
        mi' := mi + 1;
      }
      var totals := Recorded(p, mod, t);
      if !Pays(minFee, totals) {
        FoundUnderpaid(p, rules, minFee, st, Now(), mod, failed, f, t);
        stop := true;
        return;
      }
      mod', failed', f', stalled := Try(p, st, minFee, t, usingModified, mod, failed, f);
      SelectingFacts(p, rules, st, Now(), mod', failed', f');
      assert PaidFor(p, minFee, before, Now(), mod, t);
      TurnDone(p, rules, minFee, order, before, Now(), mi, mod, mi', mod', f', stalled, t, usingModified);
    }
  }

  /******* The state of a selection *******/

  /** The fields of an assembler. */
  datatype Block = Block(vtx: seq<Tx>, inBlock: set<Tx>, used: Limits, nBlockTx: nat, nFees: int, sizeShielded: int)

  /** Has a package broken off, and has that left a record too small? */
  datatype Flags = Flags(broke: bool, spoiled: bool)

  ghost predicate Raised(f: Flags, g: Flags) {
    (f.broke ==> g.broke) && (f.spoiled ==> g.spoiled)
  }

  ghost function AfterBreak(p: Pool, f: Flags, inBlock: set<Tx>, package: set<Tx>): Flags {
    if package <= inBlock then f else Flags(true, f.spoiled || !Tidy(p, inBlock, package))
  }

  ghost predicate AllFinal(p: Pool, package: set<Tx>) {
    forall x | x in package :: p.isFinal(x)
  }

  /** One of the transactions that sorting may put first. */
  ghost predicate IsFirst(p: Pool, package: set<Tx>, first: Tx) {
    && package <= p.anc.Keys && first in package
    && forall y | y in package :: CountWithAncestors(p, first) <= CountWithAncestors(p, y)
  }

  /** The running totals are those of the transactions added since the start. */
  ghost predicate Ledger(p: Pool, st: Block, b: Block, added: set<Tx>) {
    && b.used == Limits(st.used.size + Sum(p.size, added), st.used.sigOps + Sum(p.sigOps, added))
    && b.nFees == st.nFees + Sum(p.fee, added)
    && b.nBlockTx == st.nBlockTx + |added|
    && b.sizeShielded == st.sizeShielded + Sum(ShieldedSize(p), added)
  }

  /** Adding shielded transactions keeps to the rules; adding others changes nothing about them. */
  ghost predicate ShieldStep(p: Pool, rules: Rules, b: Block, c: Block, added: set<Tx>) {
    if exists x :: x in added && p.shielded(x)
    then !rules.maintenance && c.sizeShielded <= rules.maxShielded
    else c.sizeShielded == b.sizeShielded
  }

  /** Is the transaction in the block, or kept out for good? */
  ghost predicate Settled(p: Pool, max: Limits, b: Block, t: Tx)
    requires t in p.anc
  {
    t in b.inBlock || Blocked(p, b.inBlock, b.used, max, t)
  }

  /** What the selection has done to the block since its start. */
  ghost predicate Progress(p: Pool, rules: Rules, st: Block, b: Block) {
    && b.inBlock == Members(b.vtx) && b.inBlock <= p.txs && ParentsFirst(p, b.vtx)
    && st.vtx <= b.vtx && st.inBlock <= b.inBlock && Ledger(p, st, b, b.inBlock - st.inBlock)
    && AllFinal(p, b.inBlock - st.inBlock) && ShieldStep(p, rules, st, b, b.inBlock - st.inBlock)
  }

  /** A block that something was added to is within the limits. */
  ghost predicate Within(rules: Rules, st: Block, b: Block) {
    b.inBlock != st.inBlock ==> b.used.size < rules.max.size && b.used.sigOps < rules.max.sigOps
  }

  /** There is a transaction outside the block that would be refused now. */
  ghost predicate SomeRefused(p: Pool, rules: Rules, b: Block) {
    exists x :: x in p.txs && x !in b.inBlock && Refuses(p, rules, b.sizeShielded, x)
  }

  /** Everything that holds between two turns of the selection loop. */
  ghost predicate Selecting(p: Pool, rules: Rules, st: Block, b: Block, mod: map<Tx, Totals>, failed: set<Tx>, f: Flags) {
    && WellFormed(p) && Progress(p, rules, st, b)
    && mod.Keys <= p.txs - b.inBlock && failed <= p.txs
    && (!f.spoiled ==> AllEnough(p, b.inBlock, mod) && Within(rules, st, b))
    && (!f.broke ==>
          && !f.spoiled && Tracked(p, b.inBlock, b.inBlock, mod, failed)
          && forall t | t in failed :: Settled(p, rules.max, b, t))
    && (f.broke ==> SomeRefused(p, rules, b))
  }

  ghost predicate Fits(p: Pool, max: Limits, used: Limits, package: set<Tx>) {
    used.size + Sum(p.size, package) < max.size && used.sigOps + Sum(p.sigOps, package) < max.sigOps
  }

  /** What is settled stays settled. */
  ghost predicate Keeps(p: Pool, max: Limits, b: Block, c: Block) {
    p.anc.Keys == p.txs && forall x | x in p.txs :: Settled(p, max, b, x) ==> Settled(p, max, c, x)
  }

  lemma PoolKeys(p: Pool)
    requires WellFormed(p)
    ensures p.anc.Keys == p.txs == p.full.Keys && Acyclic(p)
  {
  }

  lemma SelectingFacts(p: Pool, rules: Rules, st: Block, b: Block, mod: map<Tx, Totals>, failed: set<Tx>, f: Flags)
    requires Selecting(p, rules, st, b, mod, failed, f)
    ensures WellFormed(p) && Acyclic(p) && Progress(p, rules, st, b) && b.inBlock <= p.txs && failed <= p.txs
    ensures mod.Keys <= p.txs - b.inBlock && p.anc.Keys == p.txs == p.full.Keys
    ensures (!f.spoiled ==> Within(rules, st, b)) && (!f.broke ==> !f.spoiled) && (f.broke ==> SomeRefused(p, rules, b))
  {
  }

  lemma ProgressFacts(p: Pool, rules: Rules, st: Block, b: Block)
    requires Progress(p, rules, st, b)
    ensures b.inBlock == Members(b.vtx) && b.inBlock <= p.txs && ParentsFirst(p, b.vtx) && Closed(p, b.inBlock)
  {
    ParentsFirstClosed(p, b.vtx);
  }

  /******* Adding *******/

  /** Fees and numbers of signature operations, transaction by transaction. */
  ghost predicate ListsFit(p: Pool, vtx: seq<Tx>, fees: seq<int>, sigOps: seq<int>) {
    && |fees| == |sigOps| == |vtx|
    && forall i | 0 <= i < |vtx| :: fees[i] == p.fee(vtx[i]) && sigOps[i] == p.sigOps(vtx[i])
  }

  lemma ListsGrow(p: Pool, vtx: seq<Tx>, fees: seq<int>, sigOps: seq<int>, t: Tx)
    requires ListsFit(p, vtx, fees, sigOps)
    ensures ListsFit(p, vtx + [t], fees + [p.fee(t)], sigOps + [p.sigOps(t)])
  {
  }

  lemma MembersGrow(vtx: seq<Tx>, t: Tx)
    ensures Members(vtx + [t]) == Members(vtx) + {t}
  {
  }

  /** One more element of the sorted package. */
  lemma NextMember(vtx: seq<Tx>, inBlock: set<Tx>, mod: map<Tx, Totals>, s: seq<Tx>, i: nat)
    requires i < |s| && Distinct(s) && Members(s) !! inBlock
    ensures var x, done := s[i], Members(s[..i]);
            && x !in done && x !in inBlock + done
            && Members(s[..i + 1]) == done + {x}
            && vtx + s[..i + 1] == vtx + s[..i] + [x]
            && inBlock + Members(s[..i + 1]) == inBlock + done + {x}
            && mod - Members(s[..i + 1]) == mod - done - {x}
  {
    assert s[..i + 1] == s[..i] + [s[i]];
    assert s[i] in Members(s);
  }

  lemma NothingAdded(p: Pool, rules: Rules, st: Block)
    ensures Members([]) == {} && Ledger(p, st, st, {}) && ShieldStep(p, rules, st, st, {})
  {
  }

  lemma LedgerGrows(p: Pool, added: set<Tx>, x: Tx)
    requires x !in added
    ensures |added + {x}| == |added| + 1
    ensures Sum(p.size, added + {x}) == Sum(p.size, added) + p.size(x)
    ensures Sum(p.sigOps, added + {x}) == Sum(p.sigOps, added) + p.sigOps(x)
    ensures Sum(p.fee, added + {x}) == Sum(p.fee, added) + p.fee(x)
    ensures Sum(ShieldedSize(p), added + {x}) == Sum(ShieldedSize(p), added) + if p.shielded(x) then p.size(x) else 0
  {
    SumAdd(p.size, added, x);
    SumAdd(p.sigOps, added, x);
    SumAdd(p.fee, added, x);
    SumAdd(ShieldedSize(p), added, x);
  }

  lemma OneMore(p: Pool, rules: Rules, st: Block, b: Block, c: Block, done: set<Tx>, x: Tx)
    requires Ledger(p, st, b, done) && ShieldStep(p, rules, st, b, done) && x !in done && !Refuses(p, rules, b.sizeShielded, x)
    requires c.used == Limits(b.used.size + p.size(x), b.used.sigOps + p.sigOps(x))
    requires c.nBlockTx == b.nBlockTx + 1 && c.nFees == b.nFees + p.fee(x)
    requires c.sizeShielded == if p.shielded(x) then b.sizeShielded + p.size(x) else b.sizeShielded
    ensures Ledger(p, st, c, done + {x}) && ShieldStep(p, rules, st, c, done + {x})
  {
    hide Sum;
    LedgerGrows(p, done, x);
    assert forall y :: y in done + {x} && p.shielded(y) ==> y == x || y in done;
    assert p.shielded(x) ==> exists y :: y in done + {x} && p.shielded(y);
    assert (exists y :: y in done && p.shielded(y)) ==> exists y :: y in done + {x} && p.shielded(y) by {
      if exists y :: y in done && p.shielded(y) {
        var y :| y in done && p.shielded(y);
        assert y in done + {x};
      }
    }
  }

  lemma LedgerComposes(p: Pool, st: Block, b: Block, c: Block, first: set<Tx>, second: set<Tx>)
    requires first !! second && Ledger(p, st, b, first) && Ledger(p, b, c, second)
    ensures Ledger(p, st, c, first + second)
  {
    hide Sum;
    SumUnion(p.size, first, second);
    SumUnion(p.sigOps, first, second);
    SumUnion(p.fee, first, second);
    SumUnion(ShieldedSize(p), first, second);
  }

  lemma MembersAre(s: seq<Tx>)
    ensures forall x :: x in s <==> x in Members(s)
  {
  }

  /** The part of a sorted package that was added. */
  lemma PartAdded(p: Pool, vtx: seq<Tx>, package: set<Tx>, sorted: seq<Tx>, k: nat)
    requires k <= |sorted| && Members(sorted) == package && Distinct(sorted) && SortedByCount(p, sorted) && package != {}
    requires ParentsFirst(p, vtx + sorted)
    ensures sorted != [] && IsFirst(p, package, sorted[0]) && Members(sorted[..k]) <= package
    ensures if k < |sorted| then sorted[k] in package - Members(sorted[..k]) else Members(sorted[..k]) == package
    ensures k == 0 <==> Members(sorted[..k]) == {}
    ensures ParentsFirst(p, vtx + sorted[..k]) && vtx <= vtx + sorted[..k]
  {
    hide ParentsFirst;
    assert k < |sorted| ==> sorted[k] in Members(sorted);
    assert k > 0 ==> sorted[..k][0] in Members(sorted[..k]);
    assert k == |sorted| ==> sorted[..k] == sorted;
    forall y | y in package ensures y in p.anc && CountWithAncestors(p, sorted[0]) <= CountWithAncestors(p, y) {
      assert y in Members(sorted);
      var i :| 0 <= i < |sorted| && sorted[i] == y;
    }
    PrefixParentsFirst(p, vtx, sorted, k);
  }

  lemma PrefixParentsFirst(p: Pool, vtx: seq<Tx>, sorted: seq<Tx>, k: nat)
    requires k <= |sorted| && ParentsFirst(p, vtx + sorted)
    ensures ParentsFirst(p, vtx + sorted[..k])
  {
    var all, part := vtx + sorted, vtx + sorted[..k];
    assert part == all[..|part|];
    forall j, a | 0 <= j < |part| && part[j] in p.anc && a in p.anc[part[j]] ensures a in part[..j] {
      assert part[j] == all[j] && part[..j] == all[..j];
    }
  }

  /** If something was added then the first transaction was not refused. */
  lemma FirstPassed(p: Pool, rules: Rules, b: Block, c: Block, sorted: seq<Tx>, k: nat)
    requires 0 < k <= |sorted| && ShieldStep(p, rules, b, c, Members(sorted[..k])) && Ledger(p, b, c, Members(sorted[..k]))
    requires WellFormed(p)
    ensures !Refuses(p, rules, b.sizeShielded, sorted[0])
  {
    var first, added := sorted[0], Members(sorted[..k]);
    assert sorted[..k][0] == first && first in added;
    SumRemove(ShieldedSize(p), added, first);
    SumNonNegative(ShieldedSize(p), added - {first});
  }

  lemma SelectProgress(p: Pool, rules: Rules, st: Block, b: Block, c: Block, added: set<Tx>, package: set<Tx>)
    requires Progress(p, rules, st, b) && added <= package && package !! b.inBlock && package <= p.txs && AllFinal(p, package)
    requires c.inBlock == Members(c.vtx) && ParentsFirst(p, c.vtx) && b.vtx <= c.vtx
    requires c.inBlock == b.inBlock + added && Ledger(p, b, c, added) && ShieldStep(p, rules, b, c, added)
    ensures Progress(p, rules, st, c)
  {
    hide ParentsFirst, Sum, Members, Ledger, ShieldStep;
    assert c.inBlock - st.inBlock == b.inBlock - st.inBlock + added;
    LedgerComposes(p, st, b, c, b.inBlock - st.inBlock, added);
    ShieldComposes(p, rules, st, b, c, b.inBlock - st.inBlock, added);
    assert st.vtx == c.vtx[..|st.vtx|];
  }

  lemma ShieldComposes(p: Pool, rules: Rules, st: Block, b: Block, c: Block, first: set<Tx>, second: set<Tx>)
    requires ShieldStep(p, rules, st, b, first) && ShieldStep(p, rules, b, c, second)
    ensures ShieldStep(p, rules, st, c, first + second)
  {
    if exists x :: x in first && p.shielded(x) {
      var x :| x in first && p.shielded(x);
      assert x in first + second;
    }
    if exists x :: x in second && p.shielded(x) {
      var x :| x in second && p.shielded(x);
      assert x in first + second;
    }
  }

  lemma SelectWithin(p: Pool, rules: Rules, st: Block, b: Block, c: Block, added: set<Tx>, package: set<Tx>)
    requires WellFormed(p) && Fits(p, rules.max, b.used, package) && added <= package && Ledger(p, b, c, added)
    requires Within(rules, st, b) && c.inBlock == b.inBlock + added
    ensures Within(rules, st, c)
  {
    SumSubset(p.size, added, package);
    SumSubset(p.sigOps, added, package);
    if added == {} {
      assert c.inBlock == b.inBlock;
    }
  }

  /** Records are kept for transactions outside the block only. */
  lemma SelectKeys(p: Pool, inBlock: set<Tx>, mod: map<Tx, Totals>, package: set<Tx>, added: set<Tx>, its: seq<Tx>)
    requires p.anc.Keys == p.txs == p.full.Keys && Closed(p, inBlock) && mod.Keys <= p.txs - inBlock
    requires added <= package && package !! inBlock && Members(its) == package
    ensures var r := DeductAll(p, mod - added, package, its);
            r.Keys <= p.txs - (inBlock + added) && mod.Keys <= r.Keys + (inBlock + added)
  {
    DeductAllKeys(p, mod - added, package, its);
    var r := DeductAll(p, mod - added, package, its);
    forall t | t in r ensures t in p.txs - (inBlock + added) {
      if t !in mod - added {
        var x :| x in p.anc[t] * package;
        assert t in inBlock ==> x in inBlock;
      }
    }
  }

  /** When all of the package is in the block the records are as exact as before. */
  lemma WholeTracked(p: Pool, inBlock: set<Tx>, mod: map<Tx, Totals>, failed: set<Tx>, package: set<Tx>, its: seq<Tx>)
    requires Tracked(p, inBlock, inBlock, mod, failed) && Closed(p, inBlock) && package !! inBlock
    requires Members(its) == package && Distinct(its)
    ensures Tracked(p, inBlock + package, inBlock + package, DeductAll(p, mod - package, package, its), failed)
  {
    hide Tracked, Distinct, Members, DeductAll;
    TrackedKeys(p, inBlock, inBlock, mod, failed);
    ShrinkTracked(p, inBlock, mod, failed, package);
    forall t, it | t in p.txs && it in package && it in p.anc[t] && t in inBlock + package ensures t in package {
      assert t in inBlock ==> it in inBlock;
    }
    DeductAllTracks(p, inBlock, inBlock + package, mod - package, failed, package, its);
  }

  /** Transactions that enter the block need no records any more. */
  lemma ShrinkTracked(p: Pool, inBlock: set<Tx>, mod: map<Tx, Totals>, failed: set<Tx>, added: set<Tx>)
    requires Tracked(p, inBlock, inBlock, mod, failed)
    ensures Tracked(p, inBlock, inBlock + added, mod - added, failed)
  {
    forall t | t in p.txs && t !in inBlock + added ensures Recorded(p, mod - added, t) == Recorded(p, mod, t) {
    }
  }

  lemma StartTracked(p: Pool, inBlock: set<Tx>, its: seq<Tx>)
    requires WellFormed(p) && inBlock <= p.txs && Members(its) == inBlock && Distinct(its)
    ensures p.anc.Keys == p.full.Keys && Tracked(p, inBlock, inBlock, DeductAll(p, map[], inBlock, its), {})
  {
    hide Distinct, Members, DeductAll, Need, Tracked, WellFormed;
    PoolKeys(p);
    NothingDeducted(p, inBlock);
    DeductAllTracks(p, {}, inBlock, map[], {}, inBlock, its);
    assert {} + inBlock == inBlock;
  }

  lemma NothingDeducted(p: Pool, inBlock: set<Tx>)
    requires WellFormed(p)
    ensures Tracked(p, {}, inBlock, map[], {})
  {
    hide Enough, Partly, Exact;
    PoolKeys(p);
    forall t | t in p.txs
      ensures Enough(p, {}, t, p.full[t]) && Partly(p, {}, t, p.full[t]) && Exact(p, {}, t, p.full[t])
    {
      FullIsEnough(p, {}, t);
      FullIsPartly(p, {}, t);
      FullIsExact(p, t);
    }
  }

  lemma FullIsExact(p: Pool, t: Tx)
    requires WellFormed(p) && t in p.txs
    ensures Exact(p, {}, t, p.full[t])
  {
  }

  lemma StartProgress(p: Pool, rules: Rules, st: Block)
    requires st.inBlock == Members(st.vtx) && st.inBlock <= p.txs && ParentsFirst(p, st.vtx)
    ensures Progress(p, rules, st, st) && Within(rules, st, st)
  {
    assert st.inBlock - st.inBlock == {};
    NothingAdded(p, rules, st);
  }

  lemma TrackedIsEnough(p: Pool, inBlock: set<Tx>, mod: map<Tx, Totals>, failed: set<Tx>)
    requires Tracked(p, inBlock, inBlock, mod, failed)
    ensures AllEnough(p, inBlock, mod) && mod.Keys <= p.txs - inBlock
  {
  }

  /** Everything still holds after a package has entered the block, all of it or not. */
  lemma SelectDone(p: Pool, rules: Rules, st: Block, b: Block, c: Block, mod: map<Tx, Totals>, failed: set<Tx>, f: Flags,
                   t: Tx, package: set<Tx>, added: set<Tx>, its: seq<Tx>)
    requires Selecting(p, rules, st, b, mod, failed, f)
    requires t in p.txs && t in p.anc && package == Package(p, b.inBlock, t) && AllFinal(p, package) && added <= package
    requires !f.spoiled ==> Fits(p, rules.max, b.used, package)
    requires c.inBlock == b.inBlock + added && c.inBlock == Members(c.vtx) && ParentsFirst(p, c.vtx) && b.vtx <= c.vtx
    requires Ledger(p, b, c, added) && ShieldStep(p, rules, b, c, added)
    requires added != package ==> exists x :: x in package - added && Refuses(p, rules, c.sizeShielded, x)
    requires Members(its) == package && Distinct(its) && p.anc.Keys == p.full.Keys
    ensures var r, f' := DeductAll(p, mod - added, package, its), AfterBreak(p, f, c.inBlock, package);
            && Selecting(p, rules, st, c, r, failed, f') && Progress(p, rules, st, c) && Raised(f, f')
            && mod.Keys <= r.Keys + c.inBlock && (!f'.broke ==> added == package && Keeps(p, rules.max, b, c))
            && (ShieldedApart(p) && !f.spoiled ==> !f'.spoiled)
  {
    hide Sum, Members, Ledger, ShieldStep, ParentsFirst, Acyclic, Distinct, Settled, Tidy,
         WellFormed, Fits, DeductAll, AllFinal, Progress, Tracked, AllEnough, Within, Closed, Package, Refuses, SomeRefused,
         ShieldedApart;
    SelectingFacts(p, rules, st, b, mod, failed, f);
    ProgressFacts(p, rules, st, b);
    PackageInPool(p, b.inBlock, t);
    SelectProgress(p, rules, st, b, c, added, package);
    SelectKeys(p, b.inBlock, mod, package, added, its);
    var f' := AfterBreak(p, f, c.inBlock, package);
    if package <= c.inBlock {
      assert added == package;
      WholeIsTidy(p, c.inBlock, package);
    }
    if f'.broke {
      StillRefused(p, rules, b, c, added, package);
    }
    if ShieldedApart(p) && added != package {
      ApartIsTidy(p, rules, b.inBlock, added, t, package, c.sizeShielded);
    }
    if !f'.spoiled {
      SelectWithin(p, rules, st, b, c, added, package);
      TidyKeepsEnough(p, b.inBlock, mod, package, its, added);
    }
    if !f'.broke {
      WholeTracked(p, b.inBlock, mod, failed, package, its);
      AllStaySettled(p, rules.max, b, c, package);
    }
  }

  /** What was refused is never added, and stays refused. */
  lemma StillRefused(p: Pool, rules: Rules, b: Block, c: Block, added: set<Tx>, package: set<Tx>)
    requires WellFormed(p) && package <= p.txs && added <= package && package !! b.inBlock && c.inBlock == b.inBlock + added
    requires Ledger(p, b, c, added) && ShieldStep(p, rules, b, c, added)
    requires added != package ==> exists x :: x in package - added && Refuses(p, rules, c.sizeShielded, x)
    requires added == package ==> SomeRefused(p, rules, b)
    ensures SomeRefused(p, rules, c)
  {
    if added != package {
      var x :| x in package - added && Refuses(p, rules, c.sizeShielded, x);
      assert x !in c.inBlock;
    } else {
      var x :| x in p.txs && x !in b.inBlock && Refuses(p, rules, b.sizeShielded, x);
      SumNonNegative(ShieldedSize(p), added);
      RefusedStaysOut(p, rules, b, c, added, x);
    }
  }

  lemma RefusedStaysOut(p: Pool, rules: Rules, b: Block, c: Block, added: set<Tx>, x: Tx)
    requires WellFormed(p) && Ledger(p, b, c, added) && ShieldStep(p, rules, b, c, added)
    requires Refuses(p, rules, b.sizeShielded, x)
    ensures x !in added
  {
    if x in added {
      SumRemove(ShieldedSize(p), added, x);
      SumNonNegative(ShieldedSize(p), added - {x});
    }
  }

  lemma WholeIsTidy(p: Pool, inBlock: set<Tx>, package: set<Tx>)
    requires package <= inBlock
    ensures Tidy(p, inBlock, package)
  {
    forall t | t in p.anc && t !in inBlock && t !in package
      ensures var left := (package - inBlock) * p.anc[t]; Sum(p.size, left) == 0 && Sum(p.sigOps, left) == 0
    {
      assert (package - inBlock) * p.anc[t] == {};
    }
  }

  /******* Testing *******/

  /**
   * A package that fails the size test does not fit: its record is exact, or
   * it has failed before and is still out.
   */
  lemma TooBig(p: Pool, rules: Rules, st: Block, b: Block, mod: map<Tx, Totals>, failed: set<Tx>, t: Tx, f: Flags)
    requires Selecting(p, rules, st, b, mod, failed, f) && !f.broke && t in p.txs && t !in b.inBlock && t in p.full
    requires var r := Recorded(p, mod, t);
             b.used.size + r.size >= rules.max.size || b.used.sigOps + r.sigOps >= rules.max.sigOps
    ensures t in p.anc && Settled(p, rules.max, b, t)
  {
    hide Progress, WellFormed, Need, AllEnough;
    assert t !in failed ==> Exact(p, b.inBlock, t, Recorded(p, mod, t));
  }

  lemma NotFinal(p: Pool, max: Limits, b: Block, t: Tx)
    requires t in p.anc && !AllFinal(p, Package(p, b.inBlock, t))
    ensures Settled(p, max, b, t)
  {
    assert exists x :: x in Package(p, b.inBlock, t) && !p.isFinal(x);
  }

  lemma EnoughFits(p: Pool, rules: Rules, st: Block, b: Block, mod: map<Tx, Totals>, failed: set<Tx>, t: Tx, f: Flags)
    requires Selecting(p, rules, st, b, mod, failed, f) && !f.spoiled && t in p.txs && t !in b.inBlock && t in p.full
    requires var r := Recorded(p, mod, t);
             b.used.size + r.size < rules.max.size && b.used.sigOps + r.sigOps < rules.max.sigOps
    ensures t in p.anc && Fits(p, rules.max, b.used, Package(p, b.inBlock, t))
  {
    hide Progress, WellFormed, Tracked;
    assert Enough(p, b.inBlock, t, Recorded(p, mod, t));
  }

  lemma InIsSettled(p: Pool, max: Limits, b: Block, t: Tx)
    requires t in p.anc && t in b.inBlock
    ensures Settled(p, max, b, t)
  {
  }

  lemma KeepsItself(p: Pool, max: Limits, b: Block)
    requires p.anc.Keys == p.txs
    ensures Keeps(p, max, b, b)
  {
  }

  lemma AllStaySettled(p: Pool, max: Limits, b: Block, c: Block, package: set<Tx>)
    requires WellFormed(p) && AllFinal(p, package)
    requires c.inBlock == b.inBlock + package && Ledger(p, b, c, package)
    ensures Keeps(p, max, b, c)
  {
    hide Blocked, WellFormed, Acyclic;
    assert p.anc.Keys == p.txs by { PoolKeys(p); }
    forall x | x in p.txs && Settled(p, max, b, x) ensures Settled(p, max, c, x) {
      if x !in b.inBlock {
        BlockedStays(p, b.inBlock, b.used, max, package, x);
      }
    }
  }

  /** Dropping the record of a transaction that is marked as failed does no harm. */
  lemma FailTracked(p: Pool, inBlock: set<Tx>, mod: map<Tx, Totals>, failed: set<Tx>, t: Tx)
    requires WellFormed(p) && Tracked(p, inBlock, inBlock, mod, failed) && t in p.txs
    ensures Tracked(p, inBlock, inBlock, mod - {t}, failed + {t})
  {
    hide WellFormed, Enough, Exact, Partly;
    PoolKeys(p);
    FullIsEnough(p, inBlock, t);
    FullIsPartly(p, inBlock, t);
    forall x | x in p.txs && x !in inBlock
      ensures Enough(p, inBlock, x, Recorded(p, mod - {t}, x)) && Partly(p, inBlock, x, Recorded(p, mod - {t}, x))
      ensures x !in failed + {t} ==> Exact(p, inBlock, x, Recorded(p, mod - {t}, x))
    {
      assert x != t ==> Recorded(p, mod - {t}, x) == Recorded(p, mod, x);
    }
  }

  lemma FullIsPartly(p: Pool, inBlock: set<Tx>, t: Tx)
    requires WellFormed(p) && t in p.txs
    ensures Partly(p, inBlock, t, p.full[t])
  {
    assert {} <= inBlock && Exact(p, {}, t, p.full[t]);
  }

  lemma FailEnough(p: Pool, inBlock: set<Tx>, mod: map<Tx, Totals>, t: Tx)
    requires WellFormed(p) && AllEnough(p, inBlock, mod) && t in p.txs
    ensures AllEnough(p, inBlock, mod - {t})
  {
    hide WellFormed, Enough;
    PoolKeys(p);
    FullIsEnough(p, inBlock, t);
    forall x | x in p.txs && x !in inBlock ensures Enough(p, inBlock, x, Recorded(p, mod - {t}, x)) {
      assert x != t ==> Recorded(p, mod - {t}, x) == Recorded(p, mod, x);
    }
  }

  lemma FullIsEnough(p: Pool, done: set<Tx>, t: Tx)
    requires WellFormed(p) && t in p.txs
    ensures Enough(p, done, t, p.full[t])
  {
    SumSubset(p.size, Package(p, done, t), Package(p, {}, t));
    SumSubset(p.sigOps, Package(p, done, t), Package(p, {}, t));
  }

  lemma PackageInPool(p: Pool, inBlock: set<Tx>, t: Tx)
    requires Acyclic(p) && t in p.txs
    ensures Package(p, inBlock, t) <= p.txs && Package(p, inBlock, t) !! inBlock
  {
  }

  /******* When nothing breaks off *******/

  /** There is room for every shielded transaction of the pool, or there is none. */
  ghost predicate NoRefusals(p: Pool, rules: Rules, sizeShielded: int) {
    || (forall x | x in p.txs :: !p.shielded(x))
    || (!rules.maintenance && sizeShielded + Sum(ShieldedSize(p), p.txs) <= rules.maxShielded)
  }

  lemma NeverRefused(p: Pool, rules: Rules, st: Block, b: Block, x: Tx)
    requires WellFormed(p) && Progress(p, rules, st, b) && x in p.txs && x !in b.inBlock
    requires NoRefusals(p, rules, st.sizeShielded)
    ensures !Refuses(p, rules, b.sizeShielded, x)
  {
    hide ParentsFirst, Acyclic, Need;
    var added := b.inBlock - st.inBlock;
    SumAdd(ShieldedSize(p), added, x);
    SumSubset(ShieldedSize(p), added + {x}, p.txs);
  }

  /** All of a package with a shielded transaction in it is needed by nothing outside that package. */
  ghost predicate ShieldedApart(p: Pool) {
    forall t, y, d | t in p.anc && HasShielded(p, t) && y in p.anc[t] + {t} && d in p.anc && y in p.anc[d] :: d in p.anc[t] + {t}
  }

  ghost predicate HasShielded(p: Pool, t: Tx)
    requires t in p.anc
  {
    exists x :: x in p.anc[t] + {t} && p.shielded(x)
  }

  /** Then a package that breaks off leaves no record too small. */
  lemma ApartIsTidy(p: Pool, rules: Rules, inBlock: set<Tx>, added: set<Tx>, t: Tx, package: set<Tx>, sizeShielded: int)
    requires ShieldedApart(p) && t in p.anc && package == Package(p, inBlock, t)
    requires exists x :: x in package - added && Refuses(p, rules, sizeShielded, x)
    ensures Tidy(p, inBlock + added, package)
  {
    var x :| x in package - added && Refuses(p, rules, sizeShielded, x);
    assert x in p.anc[t] + {t} && HasShielded(p, t);
    var after := inBlock + added;
    forall d | d in p.anc && d !in after && d !in package
      ensures var left := (package - after) * p.anc[d]; Sum(p.size, left) == 0 && Sum(p.sigOps, left) == 0
    {
      assert (package - after) * p.anc[d] == {};
    }
  }

  lemma WholeIfNoRefusals(p: Pool, rules: Rules, st: Block, c: Block, package: set<Tx>, added: set<Tx>, inBlock: set<Tx>, t: Tx, f: Flags)
    requires WellFormed(p) && Progress(p, rules, st, c) && NoRefusals(p, rules, st.sizeShielded)
    requires t in p.txs && t in p.anc && t !in inBlock && package == Package(p, inBlock, t) && c.inBlock == inBlock + added
    requires added <= package && (added != package ==> exists x :: x in package - added && Refuses(p, rules, c.sizeShielded, x))
    ensures added == package && added != {} && AfterBreak(p, f, c.inBlock, package) == f
  {
    hide NoRefusals, Refuses, Progress, WellFormed;
    assert Acyclic(p) by { PoolKeys(p); }
    PackageInPool(p, inBlock, t);
    forall x | x in package - added ensures !Refuses(p, rules, c.sizeShielded, x) {
      NeverRefused(p, rules, st, c, x);
    }
    assert t in package;
  }

  /******* What has been looked at *******/

  /** Every pool transaction looked at so far is on record or settled. */
  ghost predicate Seen(p: Pool, max: Limits, b: Block, order: seq<Tx>, mi: nat, mod: map<Tx, Totals>) {
    && p.anc.Keys == p.txs == Members(order) && mi <= |order|
    && forall i | 0 <= i < mi :: order[i] in p.anc && (order[i] in mod || Settled(p, max, b, order[i]))
  }

  lemma NothingSeen(p: Pool, max: Limits, b: Block, order: seq<Tx>, mod: map<Tx, Totals>)
    requires p.anc.Keys == p.txs == Members(order)
    ensures Seen(p, max, b, order, 0, mod)
  {
  }

  lemma SkipSeen(p: Pool, max: Limits, b: Block, mod: map<Tx, Totals>, order: seq<Tx>, mi: nat)
    requires Seen(p, max, b, order, mi, mod) && mi < |order| && order[mi] in p.anc
    requires order[mi] in mod || Settled(p, max, b, order[mi])
    ensures Seen(p, max, b, order, mi + 1, mod)
  {
    hide Blocked;
  }

  lemma StillSeen(p: Pool, max: Limits, b: Block, c: Block, mod: map<Tx, Totals>, mod': map<Tx, Totals>,
                  order: seq<Tx>, mi: nat, t: Tx, usingModified: bool)
    requires Seen(p, max, b, order, mi, mod) && Keeps(p, max, b, c) && t in p.txs && Settled(p, max, c, t)
    requires mod.Keys <= mod'.Keys + c.inBlock + {t}
    requires usingModified || (mi < |order| && order[mi] == t)
    ensures Seen(p, max, c, order, if usingModified then mi else mi + 1, mod')
  {
    hide Blocked;
  }

  lemma AllSettled(p: Pool, max: Limits, b: Block, order: seq<Tx>, mod: map<Tx, Totals>)
    requires mod == map[] && Seen(p, max, b, order, |order|, mod)
    ensures forall t | t in p.txs :: t in p.anc && (t in b.inBlock || Blocked(p, b.inBlock, b.used, max, t))
  {
    hide Blocked;
    forall t | t in p.txs ensures t in p.anc && (t in b.inBlock || Blocked(p, b.inBlock, b.used, max, t)) {
      assert t in Members(order);
      var i :| 0 <= i < |order| && order[i] == t;
      assert Settled(p, max, b, order[i]);
    }
  }

  /******* How far the loop has come *******/

  /** Transactions outside the block, pool entries to come, and records, in this order of importance. */
  function Rank(out: nat, ahead: nat, records: nat, n: nat, m: nat): nat {
    (out * (m + 1) + ahead) * (n + 1) + records
  }

  ghost function RankOf(txs: set<Tx>, inBlock: set<Tx>, mod: map<Tx, Totals>, ahead: nat, m: nat): nat {
    Rank(|txs - inBlock|, ahead, |mod|, |txs|, m)
  }

  /** How many turns n transactions and m pool entries can take when none stalls. */
  function MostTurns(n: nat, m: nat): nat {
    Rank(n, m, n, n, m)
  }

  lemma RankLess(a: nat, b: nat, c: nat, a': nat, b': nat, c': nat, n: nat, m: nat)
    requires b' <= m && c' <= n
    requires a' < a || (a' == a && b' < b) || (a' == a && b' == b && c' < c)
    ensures Rank(a', b', c', n, m) < Rank(a, b, c, n, m)
  {
    var x, x' := a * (m + 1) + b, a' * (m + 1) + b';
    if a' < a {
      MulLe(a' + 1, a, m + 1);
      assert (a' + 1) * (m + 1) == a' * (m + 1) + (m + 1);
    }
    if x' < x {
      MulLe(x' + 1, x, n + 1);
      assert (x' + 1) * (n + 1) == x' * (n + 1) + (n + 1);
    }
  }

  lemma RankDrops(txs: set<Tx>, before: set<Tx>, mod: map<Tx, Totals>, b: nat, after: set<Tx>, mod': map<Tx, Totals>, b': nat, m: nat)
    requires before <= after <= txs && mod'.Keys <= txs && b' <= m
    requires before < after || b' < b || (b' == b && |mod'| < |mod|)
    ensures RankOf(txs, after, mod', b', m) < RankOf(txs, before, mod, b, m)
  {
    hide Rank;
    SubsetSmaller(mod'.Keys, txs);
    SubsetSmaller(txs - after, txs - before);
    if before < after {
      var x :| x in after && x !in before;
      SubsetSmaller(txs - after, txs - before - {x});
    } else {
      assert before == after;
    }
    RankLess(|txs - before|, b, |mod|, |txs - after|, b', |mod'|, |txs|, m);
  }

  lemma TurnDrops(txs: set<Tx>, before: set<Tx>, mod: map<Tx, Totals>, b: nat, after: set<Tx>, mod': map<Tx, Totals>, b': nat,
                  m: nat, t: Tx, usingModified: bool)
    requires before <= after <= txs && mod'.Keys <= txs && b' <= m && b' == if usingModified then b else b - 1
    requires usingModified ==> t in mod && (before == after ==> mod' == mod - {t})
    ensures RankOf(txs, after, mod', b', m) < RankOf(txs, before, mod, b, m)
  {
    hide RankOf;
    OneLess(mod, t);
    RankDrops(txs, before, mod, b, after, mod', b', m);
  }

  /** What a turn has done: more is seen and the loop is closer to its end, or nothing has happened to the block. */
  ghost predicate Turned(p: Pool, rules: Rules, minFee: int -> int, order: seq<Tx>, b: Block, c: Block, mi: nat, mod: map<Tx, Totals>,
                         mi': nat, mod': map<Tx, Totals>, f: Flags, stalled: bool) {
    && mi <= |order| && mi' <= |order| && (!f.broke ==> Seen(p, rules.max, c, order, mi', mod'))
    && (c.inBlock != b.inBlock ==> exists t :: PaidFor(p, minFee, b, c, mod, t))
    && (!stalled ==> RankOf(p.txs, c.inBlock, mod', |order| - mi', |order|) < RankOf(p.txs, b.inBlock, mod, |order| - mi, |order|))
    && (stalled ==> c == b && mi' == mi && exists t :: t in mod && Stalls(p, rules, minFee, c, mod, mod', t))
  }

  /** All that was added belongs to the package of a transaction whose totals pay. */
  ghost predicate PaidFor(p: Pool, minFee: int -> int, b: Block, c: Block, mod: map<Tx, Totals>, t: Tx) {
    && t in p.anc && t in p.full && t !in b.inBlock && Pays(minFee, Recorded(p, mod, t))
    && c.inBlock <= b.inBlock + Package(p, b.inBlock, t)
  }

  /**
   * A transaction outside the block with totals that do not pay.  While no
   * package has broken off they are its exact totals, or those of a package
   * that is blocked anyway.
   */
  ghost predicate Underpaid(p: Pool, rules: Rules, minFee: int -> int, b: Block, f: Flags, t: Tx, r: Totals) {
    && t in p.txs && t in p.anc && t !in b.inBlock && r.fees < minFee(r.size)
    && (!f.broke ==> Exact(p, b.inBlock, t, r) || Blocked(p, b.inBlock, b.used, rules.max, t))
  }

  lemma FoundUnderpaid(p: Pool, rules: Rules, minFee: int -> int, st: Block, b: Block, mod: map<Tx, Totals>, failed: set<Tx>,
                       f: Flags, t: Tx)
    requires Selecting(p, rules, st, b, mod, failed, f) && t in p.txs && t !in b.inBlock && t in p.full
    requires !Pays(minFee, Recorded(p, mod, t))
    ensures exists t, r :: Underpaid(p, rules, minFee, b, f, t, r)
    ensures !(AllPay(p, minFee) && NoPriorities(p) && !f.broke)
  {
    hide Progress, WellFormed, Exact, Enough, Blocked, AllPay, NoPriorities, Partly, AllEnough, Acyclic;
    var r := Recorded(p, mod, t);
    assert t in p.anc by { PoolKeys(p); }
    if !f.broke {
      assert t in failed ==> Settled(p, rules.max, b, t);
      if AllPay(p, minFee) && NoPriorities(p) {
        RecordPays(p, minFee, b.inBlock, t, r);
      }
    }
    assert Underpaid(p, rules, minFee, b, f, t, r);
  }

  /** Where the loop is after a turn, and whether the turn stalled. */
  datatype Snapshot = Snapshot(b: Block, mi: nat, mod: map<Tx, Totals>, f: Flags, stalled: bool)

  ghost predicate TurnBetween(p: Pool, rules: Rules, minFee: int -> int, order: seq<Tx>, x: Snapshot, y: Snapshot) {
    Turned(p, rules, minFee, order, x.b, y.b, x.mi, x.mod, y.mi, y.mod, y.f, y.stalled)
  }

  /** A run of the loop, turn by turn. */
  ghost predicate IsTrace(p: Pool, rules: Rules, minFee: int -> int, order: seq<Tx>, trace: seq<Snapshot>) {
    trace != [] && forall i | 0 < i < |trace| :: TurnBetween(p, rules, minFee, order, trace[i - 1], trace[i])
  }

  lemma TraceStarts(p: Pool, rules: Rules, minFee: int -> int, order: seq<Tx>, x: Snapshot)
    ensures IsTrace(p, rules, minFee, order, [x])
  {
  }

  lemma TraceGrows(p: Pool, rules: Rules, minFee: int -> int, order: seq<Tx>, trace: seq<Snapshot>, y: Snapshot)
    requires IsTrace(p, rules, minFee, order, trace) && TurnBetween(p, rules, minFee, order, trace[|trace| - 1], y)
    ensures IsTrace(p, rules, minFee, order, trace + [y])
  {
    hide TurnBetween;
  }

  lemma TurnSkips(p: Pool, rules: Rules, minFee: int -> int, order: seq<Tx>, b: Block, mi: nat, mod: map<Tx, Totals>, f: Flags)
    requires mi < |order| && b.inBlock <= p.txs && mod.Keys <= p.txs && order[mi] in p.anc
    requires !f.broke ==> Seen(p, rules.max, b, order, mi, mod) && (order[mi] in mod || Settled(p, rules.max, b, order[mi]))
    ensures Turned(p, rules, minFee, order, b, b, mi, mod, mi + 1, mod, f, false)
  {
    hide Seen, Settled, RankOf;
    if !f.broke {
      SkipSeen(p, rules.max, b, mod, order, mi);
    }
    RankDrops(p.txs, b.inBlock, mod, |order| - mi, b.inBlock, mod, |order| - (mi + 1), |order|);
  }

  lemma TurnDone(p: Pool, rules: Rules, minFee: int -> int, order: seq<Tx>, b: Block, c: Block, mi: nat, mod: map<Tx, Totals>,
                 mi': nat, mod': map<Tx, Totals>, f: Flags, stalled: bool, t: Tx, usingModified: bool)
    requires mi <= |order| && b.inBlock <= c.inBlock <= p.txs && mod'.Keys <= p.txs && t in p.txs && p.anc.Keys == p.txs
    requires if usingModified then t in mod else mi < |order| && order[mi] == t
    requires mi' == if usingModified then mi else mi + 1
    requires !f.broke ==>
               Seen(p, rules.max, b, order, mi, mod) && Settled(p, rules.max, c, t) && Keeps(p, rules.max, b, c)
    requires mod.Keys <= mod'.Keys + c.inBlock + {t}
    requires !stalled && usingModified && c.inBlock == b.inBlock ==> mod' == mod - {t}
    requires PaidFor(p, minFee, b, c, mod, t)
    requires stalled ==> c == b && usingModified && Stalls(p, rules, minFee, c, mod, mod', t)
    ensures Turned(p, rules, minFee, order, b, c, mi, mod, mi', mod', f, stalled)
  {
    hide Seen, Settled, RankOf, Keeps, Stalls;
    if !f.broke {
      StillSeen(p, rules.max, b, c, mod, mod', order, mi, t, usingModified);
    }
    if !stalled {
      TurnDrops(p.txs, b.inBlock, mod, |order| - mi, c.inBlock, mod', |order| - mi', |order|, t, usingModified);
    }
  }

  lemma SubsetSmaller(a: set<Tx>, b: set<Tx>)
    requires a <= b
    ensures |a| <= |b|
  {
    assert b == a + (b - a);
  }

  lemma StartRank(txs: set<Tx>, inBlock: set<Tx>, mod: map<Tx, Totals>, m: nat)
    requires mod.Keys <= txs
    ensures RankOf(txs, inBlock, mod, m, m) <= MostTurns(|txs|, m)
  {
    hide Rank;
    SubsetSmaller(mod.Keys, txs);
    SubsetSmaller(txs - inBlock, txs);
    if |txs - inBlock| < |txs| || |mod| < |txs| {
      RankLess(|txs|, m, |txs|, |txs - inBlock|, m, |mod|, |txs|, m);
    }
  }

  lemma OneLess(mod: map<Tx, Totals>, t: Tx)
    ensures t in mod ==> |mod - {t}| == |mod| - 1
  {
    if t in mod {
      assert (mod - {t}).Keys == mod.Keys - {t};
      assert |mod.Keys - {t}| == |mod.Keys| - 1;
    }
  }

  /******* Turns that stall *******/

  /**
   * The chosen record passes all tests, but the first transaction of its
   * package is refused: the block stays as it is, and the record stays.
   */
  ghost predicate StallsWith(p: Pool, rules: Rules, minFee: int -> int, b: Block, mod: map<Tx, Totals>, mod': map<Tx, Totals>, t: Tx,
                             first: Tx, its: seq<Tx>) {
    && p.anc.Keys == p.full.Keys && t in mod && t in p.anc && t !in b.inBlock && Pays(minFee, mod[t])
    && b.used.size + mod[t].size < rules.max.size && b.used.sigOps + mod[t].sigOps < rules.max.sigOps
    && var package := Package(p, b.inBlock, t);
       && AllFinal(p, package) && IsFirst(p, package, first) && Refuses(p, rules, b.sizeShielded, first)
       && Members(its) == package && mod' == DeductAll(p, mod, package, its)
  }

  ghost predicate Stalls(p: Pool, rules: Rules, minFee: int -> int, b: Block, mod: map<Tx, Totals>, mod': map<Tx, Totals>, t: Tx) {
    exists first, its :: StallsWith(p, rules, minFee, b, mod, mod', t, first, its)
  }

  lemma Stalled(p: Pool, rules: Rules, minFee: int -> int, b: Block, mod: map<Tx, Totals>, mod': map<Tx, Totals>, t: Tx, first: Tx, its: seq<Tx>)
    requires StallsWith(p, rules, minFee, b, mod, mod', t, first, its)
    ensures Stalls(p, rules, minFee, b, mod, mod', t)
  {
  }

  /** A turn that stalled can be repeated as it was. */
  lemma StallsAgain(p: Pool, rules: Rules, minFee: int -> int, b: Block, mod: map<Tx, Totals>, mod': map<Tx, Totals>, t: Tx)
    requires Stalls(p, rules, minFee, b, mod, mod', t)
    ensures t in mod && t in mod' && mod'[t] == mod[t] && exists next :: Stalls(p, rules, minFee, b, mod', next, t)
  {
    hide DeductAll, Refuses, AllFinal, IsFirst;
    var first, its :| StallsWith(p, rules, minFee, b, mod, mod', t, first, its);
    var package := Package(p, b.inBlock, t);
    DeductAllPasses(p, mod, package, its, t);
    var next := DeductAll(p, mod', package, its);
    assert StallsWith(p, rules, minFee, b, mod', next, t, first, its);
    assert Stalls(p, rules, minFee, b, mod', next, t);
  }

  /** The records go from one to the other by n turns that all choose t and all stall. */
  ghost predicate StalledRun(p: Pool, rules: Rules, minFee: int -> int, b: Block, mod: map<Tx, Totals>, mod': map<Tx, Totals>, t: Tx, n: nat)
    decreases n
  {
    if n == 0 then mod' == mod
    else exists m :: Stalls(p, rules, minFee, b, mod, m, t) && StalledRun(p, rules, minFee, b, m, mod', t, n - 1)
  }

  /** Once a turn stalls, the loop may go on stalling for any number of turns. */
  lemma {:induction false} StallsForever(p: Pool, rules: Rules, minFee: int -> int, b: Block, mod: map<Tx, Totals>, t: Tx, n: nat)
    requires exists m :: Stalls(p, rules, minFee, b, mod, m, t)
    ensures exists mod' :: StalledRun(p, rules, minFee, b, mod, mod', t, n)
    decreases n
  {
    hide Stalls;
    if n == 0 {
      assert StalledRun(p, rules, minFee, b, mod, mod, t, 0);
    } else {
      var m :| Stalls(p, rules, minFee, b, mod, m, t);
      StallsAgain(p, rules, minFee, b, mod, m, t);
      StallsForever(p, rules, minFee, b, m, t, n - 1);
      var mod' :| StalledRun(p, rules, minFee, b, m, mod', t, n - 1);
      assert StalledRun(p, rules, minFee, b, mod, mod', t, n);
    }
  }

  /** If all descendants of the package are in it nothing changes at all, so that no choice helps. */
  lemma StallIsFinal(p: Pool, rules: Rules, minFee: int -> int, b: Block, mod: map<Tx, Totals>, mod': map<Tx, Totals>, t: Tx)
    requires Stalls(p, rules, minFee, b, mod, mod', t) && t in p.anc
    requires forall x, d | x in Package(p, b.inBlock, t) && d in p.anc && x in p.anc[d] :: d in Package(p, b.inBlock, t)
    ensures mod' == mod
  {
    hide DeductAll, Refuses, AllFinal, IsFirst;
    var first, its :| StallsWith(p, rules, minFee, b, mod, mod', t, first, its);
    NothingToDeduct(p, mod, Package(p, b.inBlock, t), its);
  }

  lemma {:induction false} NothingToDeduct(p: Pool, mod: map<Tx, Totals>, package: set<Tx>, its: seq<Tx>)
    requires p.anc.Keys == p.full.Keys && Members(its) <= package
    requires forall x, d | x in package && d in p.anc && x in p.anc[d] :: d in package
    ensures DeductAll(p, mod, package, its) == mod
  {
    if its != [] {
      var n := |its| - 1;
      assert its[n] in Members(its) && Members(its[..n]) <= Members(its);
      NothingToDeduct(p, mod, package, its[..n]);
      assert Descendants(p, its[n]) - package == {};
    }
  }
}
