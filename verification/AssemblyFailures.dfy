/** Small pools on which a promise of the selection of transactions fails. */
module AssemblyFailures {
  import opened PackageSelection
  import opened BlockAssembly
  import opened SetSum

  const A := Tx(1)
  const B := Tx(2)
  const C := Tx(3)
  const D := Tx(4)

  /** The ancestors of each transaction, closed and without cycles. */
  ghost predicate Ancestry(anc: map<Tx, set<Tx>>) {
    && (forall t | t in anc :: t !in anc[t] && anc[t] <= anc.Keys)
    && (forall t, a | t in anc && a in anc[t] && a in anc :: anc[a] <= anc[t])
  }

  /** The pool with these ancestors and weights, and with the totals that belong to them. */
  ghost function PoolOf(anc: map<Tx, set<Tx>>, size: Weight, fee: Weight, modifiedFee: Weight, shielded: Tx -> bool): (p: Pool)
    requires Ancestry(anc) && forall t :: size(t) >= 0
    ensures WellFormed(p) && p.anc == anc && p.txs == anc.Keys && p.size == size && p.fee == fee && p.modifiedFee == modifiedFee
    ensures p.shielded == shielded && forall t :: p.isFinal(t) && p.sigOps(t) == 0
  {
    var p := Pool(anc.Keys, anc, size, t => 0, fee, modifiedFee, t => true, shielded, map[]);
    p.(full := map t | t in anc :: Totals(Need(p.size, p, {}, t), Need(p.modifiedFee, p, {}, t), Need(p.sigOps, p, {}, t)))
  }

  lemma SumOfOne(w: Weight, x: Tx)
    ensures Sum(w, {x}) == w(x)
  {
    SumAdd(w, {}, x);
    assert {} + {x} == {x};
  }

  lemma SumOfTwo(w: Weight, x: Tx, y: Tx)
    requires x != y
    ensures Sum(w, {x, y}) == w(x) + w(y)
  {
    SumOfOne(w, x);
    SumAdd(w, {x}, y);
    assert {x} + {y} == {x, y};
  }

  lemma FullTotals(p: Pool, t: Tx)
    requires WellFormed(p) && t in p.txs
    ensures t in p.full && t in p.anc && p.full[t].size == Sum(p.size, p.anc[t] + {t})
    ensures p.full[t].fees == Sum(p.modifiedFee, p.anc[t] + {t}) && p.full[t].sigOps == Sum(p.sigOps, p.anc[t] + {t})
  {
    assert Package(p, {}, t) == p.anc[t] + {t};
  }

  /** A record that is made by a deduction. */
  lemma FirstRecord(p: Pool, added: set<Tx>, it: Tx, t: Tx)
    requires p.anc.Keys == p.full.Keys && t in p.anc && t !in added && it in p.anc[t]
    ensures var r := DeductAll(p, map[], added, [it]);
            && t in r && r[t] == Less(p, p.full[t], it, true)
            && r.Keys == Descendants(p, it) - added
  {
    assert [it][..0] == [];
  }

  /******* Fees *******/

  /** Two parents with a common child; the second parent is prioritised. */
  ghost function TwoParents(): (p: Pool)
    ensures WellFormed(p) && p.txs == {A, B, C} && p.anc[C] == {A, B}
    ensures p.fee(B) == 0 && p.modifiedFee(B) == 5
  {
    PoolOf(map[A := {}, B := {}, C := {A, B}], t => 1, t => 0, t => if t == B then 5 else 0, t => false)
  }

  /** With both parents in the block the fees recorded for the child are wrong. */
  lemma FeesDrift()
    ensures var p := TwoParents();
            && p.anc.Keys == p.full.Keys
            && var mod := Deduct(p, Deduct(p, map[], {A, B}, A), {A, B}, B);
               Recorded(p, mod, C).fees != Need(p.modifiedFee, p, {A, B}, C)
  {
    hide Deduct, Need, PoolOf, WellFormed;
    PoolKeys(TwoParents());
    PrioritisedFeesDrift(TwoParents(), A, B, C);
  }

  /******* A loop without end *******/

  /** A plain parent and a shielded child, both of which pay some fee. */
  ghost function ShieldedChild(fee: int): (p: Pool)
    ensures WellFormed(p) && p.txs == {A, B} && p.anc == map[A := {}, B := {A}]
    ensures forall t :: p.size(t) == 1 && p.fee(t) == p.modifiedFee(t) == fee
    ensures forall t :: p.sigOps(t) == 0 && p.isFinal(t) && (p.shielded(t) <==> t == B)
  {
    PoolOf(map[A := {}, B := {A}], t => 1, t => fee, t => fee, t => t == B)
  }

  /** A block with one transaction of the pool. */
  function OneIn(x: Tx, fee: int): Block {
    Block([x], {x}, Limits(1, 0), 1, fee, 0)
  }

  lemma OneInBlock(p: Pool, rules: Rules, x: Tx)
    requires x in p.txs && x in p.anc && p.anc[x] == {} && p.isFinal(x) && !p.shielded(x)
    requires p.size(x) == 1 && p.sigOps(x) == 0
    ensures Progress(p, rules, Block([], {}, Limits(0, 0), 0, 0, 0), OneIn(x, p.fee(x)))
  {
    assert {x} - {} == {x};
    SumOfOne(p.size, x);
    SumOfOne(p.sigOps, x);
    SumOfOne(p.fee, x);
    SumOfOne(ShieldedSize(p), x);
  }

  /**
   * In maintenance the parent, which pays enough, enters the block.  Then the
   * child's record is all there is to look at; it pays enough, and a turn that
   * looks at it changes nothing.
   */
  lemma LoopNeverEnds(minFee: int -> int, fee: int, maxShielded: int)
    requires fee >= minFee(1)
    ensures var p, rules := ShieldedChild(fee), Rules(Limits(10, 10), true, maxShielded);
            && p.anc.Keys == p.full.Keys && Pays(minFee, p.full[A])
            && var mod := DeductAll(p, map[], {A}, [A]);
               && Progress(p, rules, Block([], {}, Limits(0, 0), 0, 0, 0), OneIn(A, fee))
               && mod.Keys == {B} && Pays(minFee, mod[B]) && Stalls(p, rules, minFee, OneIn(A, fee), mod, mod, B)
  {
    hide PoolOf, WellFormed, DeductAll, Progress, Sum, Stalls;
    var p, rules := ShieldedChild(fee), Rules(Limits(10, 10), true, maxShielded);
    PoolKeys(p);
    OneInBlock(p, rules, A);
    FirstRecord(p, {A}, A, B);
    assert Descendants(p, A) - {A} == {B};
    ChildTotals(p, fee);
    var mod := DeductAll(p, map[], {A}, [A]);
    assert Members([B]) == {B} == Package(p, {A}, B);
    NothingToDeduct(p, mod, {B}, [B]);
    Stalled(p, rules, minFee, OneIn(A, fee), mod, mod, B, B, [B]);
  }

  lemma ChildTotals(p: Pool, fee: int)
    requires p == ShieldedChild(fee)
    ensures A in p.full && p.full[A] == Totals(1, fee, 0) && B in p.full && p.full[B] == Totals(2, 2 * fee, 0)
  {
    hide PoolOf, WellFormed, Sum;
    FullTotals(p, A);
    FullTotals(p, B);
    assert p.anc[A] + {A} == {A} && p.anc[B] + {B} == {A, B};
    SumOfOne(p.size, A);
    SumOfOne(p.modifiedFee, A);
    SumOfOne(p.sigOps, A);
    SumOfTwo(p.size, A, B);
    SumOfTwo(p.modifiedFee, A, B);
    SumOfTwo(p.sigOps, A, B);
  }

  /******* A block that is too large *******/

  /** C needs the shielded A and the plain B, and D needs B only; all pay some fee. */
  ghost function SharedParent(fee: int): (p: Pool)
    ensures WellFormed(p) && p.txs == {A, B, C, D} && p.anc == map[A := {}, B := {}, C := {A, B}, D := {B}]
    ensures p.size(A) == p.size(C) == 1 && p.size(B) == 5 && p.size(D) == 10
    ensures forall t :: p.fee(t) == p.modifiedFee(t) == fee
    ensures forall t :: p.sigOps(t) == 0 && p.isFinal(t) && (p.shielded(t) <==> t == A)
  {
    hide WellFormed;
    var anc := map[A := {}, B := {}, C := {A, B}, D := {B}];
    assert Ancestry(anc);
    PoolOf(anc, t => if t == B then 5 else if t == D then 10 else 1, t => fee, t => fee, t => t == A)
  }

  lemma SharedTotals(p: Pool, fee: int)
    requires p == SharedParent(fee)
    ensures p.anc.Keys == p.full.Keys && p.full[C].size == 7 && p.full[D].size == 15
    ensures p.full[C].fees == 3 * fee && p.full[D].fees == 2 * fee
    ensures Package(p, {}, C) == {A, B, C} && Package(p, {}, D) == {B, D} && Sum(p.size, {B, D}) == 15
  {
    hide PoolOf, WellFormed, Sum;
    PoolKeys(p);
    FullTotals(p, C);
    FullTotals(p, D);
    assert p.anc[C] + {C} == {A, B} + {C} && p.anc[D] + {D} == {B, D};
    SumOfTwo(p.size, A, B);
    SumAdd(p.size, {A, B}, C);
    SumOfTwo(p.size, B, D);
    SumOfTwo(p.modifiedFee, A, B);
    SumAdd(p.modifiedFee, {A, B}, C);
    SumOfTwo(p.modifiedFee, B, D);
    assert Package(p, {}, C) == {A, B, C} && Package(p, {}, D) == {B, D};
  }

  /**
   * In maintenance the package of C, which pays enough and fits, breaks off at
   * once, and B is deducted from D all the same.  So D pays enough and passes
   * the test with its own size, and nothing of its package is refused: the
   * block becomes larger than allowed.
   */
  lemma LimitIsPassed(minFee: int -> int, fee: nat, maxShielded: int)
    requires fee >= minFee(7) && fee >= minFee(10)
    ensures var p, rules := SharedParent(fee), Rules(Limits(12, 10), true, maxShielded);
            var package := {A, B, C};
            && p.anc.Keys == p.full.Keys && package == Package(p, {}, C)
            && Pays(minFee, p.full[C]) && p.full[C].size < rules.max.size
            && IsFirst(p, package, A) && Refuses(p, rules, 0, A)
            && var mod := DeductAll(p, map[], package, [A, B, C]);
               && D in mod && Pays(minFee, mod[D]) && mod[D].size < rules.max.size && Package(p, {}, D) == {B, D}
               && !Refuses(p, rules, 0, B) && !Refuses(p, rules, 0, D)
               && Sum(p.size, {B, D}) > rules.max.size
  {
    hide PoolOf, WellFormed, Sum, DeductAll, Package;
    var p := SharedParent(fee);
    var package := {A, B, C};
    SharedTotals(p, fee);
    assert Members([A, B, C]) == package;
    RecordMade(p, package);
    assert p.anc[A] == {} && CountWithAncestors(p, A) == 1;
  }

  lemma RecordMade(p: Pool, package: set<Tx>)
    requires p.anc.Keys == p.full.Keys && package == {A, B, C} && D in p.anc && p.anc[D] == {B}
    ensures var r := DeductAll(p, map[], package, [A, B, C]); D in r && r[D] == Less(p, p.full[D], B, true)
  {
    hide Deduct, Less;
    assert [A, B, C][..2] == [A, B];
    assert [A, B][..1] == [A] && [A][..0] == [];
    var none: map<Tx, Totals> := map[];
    assert DeductAll(p, none, package, [A][..0]) == none;
    var one := DeductAll(p, none, package, [A]);
    assert one == Deduct(p, none, package, A);
    DeductEffect(p, none, package, A, D);
    var two := DeductAll(p, map[], package, [A, B]);
    assert two == Deduct(p, one, package, B);
    DeductEffect(p, one, package, B, D);
    DeductEffect(p, two, package, C, D);
  }

  /** What one deduction does to one record. */
  lemma DeductEffect(p: Pool, mod: map<Tx, Totals>, added: set<Tx>, it: Tx, t: Tx)
    requires p.anc.Keys == p.full.Keys && t in p.anc && t !in added && t != it
    ensures var r := Deduct(p, mod, added, it);
            if it in p.anc[t] then t in r && r[t] == Less(p, Recorded(p, mod, t), it, t !in mod)
            else (t in r <==> t in mod) && (t in mod ==> r[t] == mod[t])
  {
  }
}
