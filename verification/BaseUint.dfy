/**
 * Unsigned integers of any number of 32-bit limbs, least significant first,
 * with arithmetic in place: exact modulo a power of two, and an exact quotient.
 */
module BaseUint {
  import opened Arith
  import opened Positional
  import opened Bits

  const B: nat := 0x1_0000_0000

  type Limbs = seq<nat>

  ghost function V(d: Limbs): nat {
    Val(B, d)
  }

  /** The number of values of w limbs. */
  ghost function M(w: nat): (m: nat)
    ensures m > 0
  {
    Pow(B, w)
  }

  ghost predicate Ok(d: Limbs) {
    Digits(B, d)
  }

  /** Equal up to a multiple of m. */
  ghost predicate Cong(x: int, y: int, m: nat) {
    exists k: int :: x == y + k * m
  }

  lemma CongIs(x: int, y: int, m: nat, k: int)
    requires x == y + k * m
    ensures Cong(x, y, m)
  {
  }

  lemma CongTrans(x: int, y: int, z: int, m: nat)
    requires Cong(x, y, m) && Cong(y, z, m)
    ensures Cong(x, z, m)
  {
    var k :| x == y + k * m;
    var l :| y == z + l * m;
    assert (k + l) * m == k * m + l * m;
    CongIs(x, z, m, k + l);
  }

  lemma CongAdd(x: int, y: int, c: int, m: nat)
    requires Cong(x, y, m)
    ensures Cong(x + c, y + c, m)
  {
    var k :| x == y + k * m;
    CongIs(x + c, y + c, m, k);
  }

  /** A number below m that is congruent to y is y's remainder. */
  lemma CongMod(x: nat, y: nat, m: nat)
    requires x < m && Cong(x, y, m)
    ensures x == y % m
  {
    var k :| x == y + k * m;
    Unique(y, m, -k, x);
  }

  /******* Sums with carry *******/

  /** Part of the way: the limbs before i hold the sum so far, the others are as before. */
  ghost predicate Carrying(before: Limbs, now: Limbs, i: nat, carry: nat, sum: nat) {
    && i <= |now| == |before| && Ok(now)
    && V(now[..i]) + carry * M(i) == sum
    && (forall j | i <= j < |now| :: now[j] == before[j])
  }

  lemma CarryingStart(d: Limbs)
    requires Ok(d)
    ensures Carrying(d, d, 0, 0, 0) && Carrying(d, d, 0, 1, 1)
  {
    assert d[..0] == [];
  }

  lemma CarryingStep(before: Limbs, now: Limbs, i: nat, carry: nat, sum: nat, t: nat)
    requires Carrying(before, now, i, carry, sum) && i < |now|
    ensures var n := carry + t; Carrying(before, now[i := n % B], i + 1, n / B, sum + t * M(i))
  {
    hide Val, Pow;
    var n := carry + t;
    var next := now[i := n % B];
    CarryNext(V(now[..i]), carry, M(i), t, sum, B);
    ValStep(B, next, i);
    assert next[..i] == now[..i];
    MNext(i);
  }

  lemma MNext(i: nat)
    ensures M(i + 1) == B * M(i) && M(0) == 1
  {
  }

  /** At the end the carry is dropped. */
  lemma CarryingDone(before: Limbs, now: Limbs, carry: nat, sum: nat)
    requires Carrying(before, now, |now|, carry, sum)
    ensures V(now) < M(|now|) && Cong(V(now), sum, M(|now|)) && V(now) == sum % M(|now|)
  {
    hide Val, Pow;
    assert now[..|now|] == now;
    ValBound(B, now);
    CongIs(V(now), sum, M(|now|), 0 - carry);
    CongMod(V(now), sum, M(|now|));
  }

  /******* The object *******/

  class Uint {
    const pn: array<nat>

    ghost predicate Valid()
      reads pn
    {
      pn.Length > 0 && Ok(pn[..])
    }

    ghost function Value(): nat
      reads pn
    {
      V(pn[..])
    }

    /** Zero. */
    constructor (width: nat)
      requires width > 0
      ensures Valid() && fresh(pn) && pn.Length == width && Value() == 0
    {
      pn := new nat[width](i => 0);
      new;
      AllZero(pn[..]);
    }

    /** A copy. */
    constructor Copy(d: Limbs)
      requires Ok(d) && d != []
      ensures Valid() && fresh(pn) && pn[..] == d
    {
      pn := new nat[|d|](i requires 0 <= i < |d| => d[i]);
      new;
      assert pn[..] == d;
    }

    method AddAssign(b: Limbs)
      requires Valid() && Ok(b) && |b| == pn.Length
      modifies pn
      ensures Valid() && Value() == (old(Value()) + V(b)) % M(pn.Length)
    {
      hide Val, Pow, Carrying;
      ghost var before := pn[..];
      var carry: nat := 0;
      CarryingStart(before);
      ghost var sum: nat := 0;
      assert before[..0] == [] && b[..0] == [];
      ValNothing(B);
      for i := 0 to pn.Length
        invariant Carrying(before, pn[..], i, carry, sum) && sum == V(before[..i]) + V(b[..i])
      {
        Untouched(before, pn[..], i, carry, sum);
        CarryingStep(before, pn[..], i, carry, sum, pn[i] + b[i]);
        ghost var was := pn[..];
        var n := carry + pn[i] + b[i];
        pn[i] := n % B;
        carry := n / B;
        assert pn[..] == was[i := pn[i]];
        ValStep(B, before, i);
        ValStep(B, b, i);
        sum := sum + (before[i] + b[i]) * M(i);
      }
      assert before[..pn.Length] == before && b[..pn.Length] == b;
      CarryingDone(before, pn[..], carry, sum);
      CarryingOk(before, pn[..], pn.Length, carry, sum);
    }

    /** Plus one; the carry runs on while limbs turn to zero. */
    method Increment()
      requires Valid()
      modifies pn
      ensures Valid() && Value() == (old(Value()) + 1) % M(pn.Length)
    {
      hide Val, Pow, Carrying;
      ghost var before := pn[..];
      CarryingStart(before);
      CarryingStep(before, pn[..], 0, 1, 1, pn[0]);
      HeadOne(before);
      var i: nat := 0;
      pn[0] := (pn[0] + 1) % B;
      assert pn[..] == before[0 := pn[0]];
      ghost var carry: nat := (1 + before[0]) / B;
      while pn[i] == 0 && i < pn.Length - 1
        invariant i < pn.Length && carry == if pn[i] == 0 then 1 else 0
        invariant Carrying(before, pn[..], i + 1, carry, V(before[..i + 1]) + 1)
        decreases pn.Length - i
      {
        Untouched(before, pn[..], i + 1, carry, V(before[..i + 1]) + 1);
        CarryingStep(before, pn[..], i + 1, carry, V(before[..i + 1]) + 1, pn[i + 1]);
        ValStep(B, before, i + 1);
        ghost var was := pn[..];
        carry := (1 + pn[i + 1]) / B;
        i := i + 1;
        pn[i] := (pn[i] + 1) % B;
        assert pn[..] == was[i := pn[i]];
      }
      CarryingOk(before, pn[..], i + 1, carry, V(before[..i + 1]) + 1);
      if i == pn.Length - 1 {
        assert before[..pn.Length] == before;
        CarryingDone(before, pn[..], carry, V(before) + 1);
      } else {
        CarryingStop(before, pn[..], i + 1, V(before[..i + 1]) + 1);
        Unique(V(pn[..]), M(pn.Length), 0, V(pn[..]));
      }
    }

    /** The two's complement: all bits inverted, plus one. */
    method Negated() returns (r: Uint)
      requires Valid()
      ensures fresh(r) && fresh(r.pn) && r.Valid() && r.pn.Length == pn.Length
      ensures r.Value() == (M(pn.Length) - Value()) % M(pn.Length)
    {
      hide Val, Pow;
      r := new Uint(pn.Length);
      for i := 0 to pn.Length
        invariant forall j | 0 <= j < i :: r.pn[j] == B - 1 - pn[j]
      {
        r.pn[i] := B - 1 - pn[i];
      }
      Complement(pn[..], r.pn[..]);
      r.Increment();
    }

    method SubAssign(b: Limbs)
      requires Valid() && Ok(b) && |b| == pn.Length
      modifies pn
      ensures Valid() && Value() == (old(Value()) - V(b)) % M(pn.Length)
    {
      hide Val, Pow;
      var copy := new Uint.Copy(b);
      var neg := copy.Negated();
      ghost var x := Value();
      AddAssign(neg.pn[..]);
      ValBound(B, b);
      SubIs(x, V(b), M(pn.Length));
    }

    method MulSmall(b32: nat)
      requires Valid() && b32 < B
      modifies pn
      ensures Valid() && Value() == old(Value()) * b32 % M(pn.Length)
    {
      hide Val, Pow, Carrying;
      ghost var before := pn[..];
      var carry: nat := 0;
      CarryingStart(before);
      assert before[..0] == [];
      ValNothing(B);
      for i := 0 to pn.Length
        invariant Carrying(before, pn[..], i, carry, V(before[..i]) * b32) && carry < B
      {
        Untouched(before, pn[..], i, carry, V(before[..i]) * b32);
        CarryingStep(before, pn[..], i, carry, V(before[..i]) * b32, b32 * pn[i]);
        ValStep(B, before, i);
        TimesSmall(V(before[..i]), before[i], M(i), b32);
        ghost var was := pn[..];
        NoOverflow(carry, 0, b32, pn[i]);
        var n := carry + b32 * pn[i];
        pn[i] := n % B;
        carry := n / B;
        assert pn[..] == was[i := pn[i]];
      }
      assert before[..pn.Length] == before;
      CarryingOk(before, pn[..], pn.Length, carry, V(before) * b32);
      CarryingDone(before, pn[..], carry, V(before) * b32);
    }

    /** Schoolbook multiplication; rows are cut off at the width. */
    method MulAssign(b: Limbs)
      requires Valid() && Ok(b) && |b| == pn.Length
      modifies pn
      ensures Valid() && Value() == old(Value()) * V(b) % M(pn.Length)
    {
      hide Val, Pow, Cong;
      ghost var w := pn.Length;
      var a := new Uint(pn.Length);
      ghost var x := pn[..];
      assert x[..0] == [];
      ValNothing(B);
      CongIs(0, 0, M(w), 0);
      for j := 0 to pn.Length
        invariant a.Valid() && a.pn.Length == w && pn[..] == x
        invariant Cong(a.Value(), V(x[..j]) * V(b), M(w))
      {
        ghost var v := a.Value();
        a.AddRow(pn[j], b, j);
        ValStep(B, x, j);
        RowCong(a.Value(), v, V(x[..j]), x[j], M(j), V(b), M(w));
      }
      assert x[..w] == x;
      ValBound(B, a.pn[..]);
      CongMod(a.Value(), V(x) * V(b), M(w));
      for i := 0 to pn.Length
        invariant forall k | 0 <= k < i :: pn[k] == a.pn[k]
        invariant a.Valid() && a.Value() == V(x) * V(b) % M(w)
      {
        pn[i] := a.pn[i];
      }
      assert pn[..] == a.pn[..];
    }

    /** Adds x times y and a carry to one limb; the new carry goes to the next one. */
    method AddLimb(k: nat, carry: nat, x: nat, y: nat) returns (carry': nat)
      requires Valid() && k < pn.Length && carry < B && x < B && y < B
      modifies pn
      ensures carry' == (carry + old(pn[k]) + x * y) / B < B
      ensures pn[..] == old(pn[..])[k := (carry + old(pn[k]) + x * y) % B]
    {
      hide Val, Pow;
      NoOverflow(carry, pn[k], x, y);
      var n := carry + pn[k] + x * y;
      pn[k] := n % B;
      carry' := n / B;
    }

    /** Adds x times b, shifted up by j limbs. */
    method AddRow(x: nat, b: Limbs, j: nat)
      requires Valid() && x < B && Ok(b) && |b| == pn.Length && j < pn.Length
      modifies pn
      ensures Valid() && Cong(Value(), old(Value()) + x * V(b) * M(j), M(pn.Length))
    {
      hide Val, Pow, Carrying, Cong, RowSum;
      ghost var before := pn[..];
      var carry: nat := 0;
      CarryingFrom(before, j);
      RowSumStart(before, x, b, j);
      var i: nat := 0;
      while i + j < pn.Length
        invariant i + j <= pn.Length && carry < B
        invariant Carrying(before, pn[..], i + j, carry, RowSum(before, x, b, i, j))
      {
        ghost var sum := RowSum(before, x, b, i, j);
        Untouched(before, pn[..], i + j, carry, sum);
        CarryingOk(before, pn[..], i + j, carry, sum);
        NoOverflow(carry, pn[i + j], x, b[i]);
        CarryingStep(before, pn[..], i + j, carry, sum, pn[i + j] + x * b[i]);
        RowSumStep(before, x, b, i, j);
        carry := AddLimb(i + j, carry, x, b[i]);
        i := i + 1;
      }
      CarryingOk(before, pn[..], pn.Length, carry, RowSum(before, x, b, i, j));
      CarryingDone(before, pn[..], carry, RowSum(before, x, b, i, j));
      RowTail(V(pn[..]), before, x, b, i, j);
    }

    /** Negative, zero or positive as this number is below, equal to or above the other. */
    method CompareTo(b: Limbs) returns (r: int)
      requires Valid() && Ok(b) && |b| == pn.Length
      ensures (r < 0 <==> Value() < V(b)) && (r > 0 <==> Value() > V(b))
    {
      hide Val, Pow;
      var i := pn.Length - 1;
      while i >= 0
        invariant -1 <= i < pn.Length && forall j | i < j < pn.Length :: pn[j] == b[j]
      {
        if pn[i] < b[i] {
          Decides(pn[..], b, i);
          return -1;
        }
        if pn[i] > b[i] {
          Decides(b, pn[..], i);
          return 1;
        }
        i := i - 1;
      }
      assert pn[..] == b;
      r := 0;
    }

    /** The position of the highest bit set, counted from one; zero for zero. */
    method Bits() returns (r: nat)
      requires Valid()
      ensures Value() == 0 <==> r == 0
      ensures r > 0 ==> Pow(2, r - 1) <= Value() < Pow(2, r) && r <= 32 * pn.Length
    {
      hide Val, Pow;
      var pos := pn.Length - 1;
      while pos >= 0
        invariant -1 <= pos < pn.Length && forall j | pos < j < pn.Length :: pn[j] == 0
      {
        if pn[pos] != 0 {
          var bits := 31;
          PowerOf2();
          while bits > 0
            invariant 0 <= bits <= 31 && pn[pos] < Pow(2, bits + 1)
          {
            BitTest(pn[pos], bits);
            if pn[pos] / Pow(2, bits) % 2 == 1 {
              TopLimb(pn[..], pos, bits);
              return 32 * pos + bits + 1;
            }
            bits := bits - 1;
          }
          TopLimb(pn[..], pos, 0);
          return 32 * pos + 1;
        }
        pos := pos - 1;
      }
      AllZero(pn[..]);
      r := 0;
    }

    method SetZero()
      modifies pn
      ensures forall i | 0 <= i < pn.Length :: pn[i] == 0
    {
      for i := 0 to pn.Length
        invariant forall j | 0 <= j < i :: pn[j] == 0
      {
        pn[i] := 0;
      }
    }

    /** Puts the two parts of a limb that is shifted up into their places, as far as there are any. */
    method OrLeft(x: nat, m: nat, s: nat)
      requires s < 32
      modifies pn
      ensures forall j | 0 <= j < pn.Length ::
                pn[j] == if j == m then Or(old(pn[j]), Low(x, Pow(2, s)))
                         else if j == m + 1 && s != 0 then Or(old(pn[j]), UpperPart(x, Pow(2, 32 - s))) else old(pn[j])
    {
      hide Or, Pow, Low, UpperPart;
      if m + 1 < pn.Length && s != 0 {
        pn[m + 1] := Or(pn[m + 1], UpperPart(x, Pow(2, 32 - s)));
      }
      if m < pn.Length {
        pn[m] := Or(pn[m], Low(x, Pow(2, s)));
      }
    }

    /**
     * Each limb is split into a part that stays and a part that moves on to
     * the next limb.  The parts that meet in a limb have no bits in common.
     */
    method ShiftLeft(shift: nat)
      requires Valid()
      modifies pn
      ensures Valid() && Value() == old(Value()) * Pow(2, shift) % M(pn.Length)
    {
      hide Or, Val, Pow, ShiftingLeft, ShiftedLeft, High, Low, UpperPart;
      var a := pn[..];
      SetZero();
      var k, s := shift / 32, shift % 32;
      var p := Pow(2, s);
      PowersOfLimb(s);
      PowerOf2();
      LeftStart(a, pn[..], k, p);
      ghost var carry: nat := 0;
      for i := 0 to pn.Length
        invariant if i + k < |a| then ShiftingLeft(a, pn[..], i, k, p, carry) else ShiftedLeft(a, pn[..], k, p)
      {
        ghost var was := pn[..];
        if i + k < |a| {
          LeftStep(a, pn[..], i, k, p, Pow(2, 32 - s), carry);
          LeftOrs(a, pn[..], i, k, s, p, Pow(2, 32 - s), carry);
        }
        OrLeft(a[i], i + k, s);
        if i + k < |a| {
          carry := High(a[i], p);
          assert pn[..] == PutLeft(was, i + k, Low(a[i], p), High(a[i], p));
        } else {
          assert pn[..] == was;
        }
      }
      LeftDone(a, pn[..], shift);
    }

    method ShiftRight(shift: nat)
      requires Valid()
      modifies pn
      ensures Valid() && Value() == old(Value()) / Pow(2, shift)
    {
      hide Or, Val, Pow, ShiftingRight, UpperPart, LowerPart;
      var a := pn[..];
      SetZero();
      var k, s := shift / 32, shift % 32;
      var p, q := Pow(2, s), Pow(2, 32 - s);
      PowersOfLimb(s);
      PowerOf2();
      RightStart(a, pn[..], k, p);
      for i := 0 to pn.Length
        invariant ShiftingRight(a, pn[..], i, k, p)
      {
        ghost var was := pn[..];
        if i >= k {
          RightStep(a, pn[..], i, k, p, q);
          RightOrs(a, pn[..], i, k, s, p, q);
        } else {
          RightWait(a, pn[..], i, k, p);
        }
        if i - k - 1 >= 0 && s != 0 {
          pn[i - k - 1] := Or(pn[i - k - 1], LowerPart(a[i], p, q));
        }
        if i - k >= 0 {
          pn[i - k] := Or(pn[i - k], UpperPart(a[i], p));
        }
        assert i >= k ==> pn[..] == PutRight(was, i - k, LowerPart(a[i], p, q), UpperPart(a[i], p));
        assert i < k ==> pn[..] == was;
      }
      RightDone(a, pn[..], shift);
    }

    method SetBit(shift: nat)
      requires Valid() && shift < 32 * pn.Length && LowClear(pn[..], shift)
      modifies pn
      ensures Valid() && Value() == old(Value()) + Pow(2, shift) && (shift > 0 ==> LowClear(pn[..], shift - 1))
    {
      hide Or, Val, Pow, LowClear;
      ghost var before := pn[..];
      var q, r := shift / 32, shift % 32;
      BitFits(before, shift);
      AddAt(before, q, Pow(2, r));
      ShiftFactor(q, r);
      BitOr(before, shift);
      pn[q] := Or(pn[q], Pow(2, r));
      assert pn[..] == before[q := before[q] + Pow(2, r)];
    }

    /**
     * Long division bit by bit.  Answers false for a zero divisor, where the
     * node throws with the number already cleared.
     */
    method DivAssign(b: Limbs) returns (ok: bool)
      requires Valid() && Ok(b) && |b| == pn.Length
      modifies pn
      ensures Valid() && (ok <==> V(b) != 0) && Value() == if ok then old(Value()) / V(b) else 0
    {
      hide Val, Pow, LowClear, Dividing;
      var div := new Uint.Copy(b);
      var num := new Uint.Copy(pn[..]);
      ghost var x, d := Value(), V(b);
      SetZero();
      AllZero(pn[..]);
      var numBits := num.Bits();
      var divBits := div.Bits();
      if divBits == 0 {
        return false;
      }
      if divBits > numBits {
        QuotientZero(x, d, numBits, divBits);
        return true;
      }
      var shift: int := numBits - divBits;
      DivisionStart(x, d, numBits, divBits, pn.Length);
      div.ShiftLeft(shift);
      AllClear(pn[..], shift);
      while shift >= 0
        invariant -1 <= shift < 32 * pn.Length && Valid() && num.Valid() && div.Valid()
        invariant num.pn.Length == div.pn.Length == pn.Length
        invariant Dividing(x, d, Value(), num.Value(), div.Value(), shift)
        invariant shift >= 0 ==> LowClear(pn[..], shift)
        decreases shift
      {
        var c := num.CompareTo(div.pn[..]);
        ghost var n, v, u := num.Value(), div.Value(), Value();
        InWidth(num.pn[..]);
        DivisionStep(x, d, u, n, v, shift);
        if c >= 0 {
          num.SubAssign(div.pn[..]);
          Difference(n, v, M(pn.Length));
          SetBit(shift);
        } else {
          StillClear(pn[..], shift);
        }
        div.ShiftRight(1);
        shift := shift - 1;
      }
      DivisionDone(x, d, Value(), num.Value(), div.Value());
      ok := true;
    }
  }

  lemma {:induction false} AllZero(d: Limbs)
    requires forall i | 0 <= i < |d| :: d[i] == 0
    ensures V(d) == 0 && Ok(d)
  {
    ValZeros(B, d, 0);
    assert d[..0] == [];
  }

  lemma Untouched(before: Limbs, now: Limbs, i: nat, carry: nat, sum: nat)
    requires Carrying(before, now, i, carry, sum) && i < |now|
    ensures |before| == |now| && now[i] == before[i]
  {
  }

  lemma CarryingOk(before: Limbs, now: Limbs, i: nat, carry: nat, sum: nat)
    requires Carrying(before, now, i, carry, sum)
    ensures Ok(now) && |now| == |before|
  {
  }

  lemma HeadOne(d: Limbs)
    requires d != []
    ensures V(d[..1]) == d[0] && M(0) == 1
  {
    ValStep(B, d, 0);
    assert d[..0] == [];
  }

  /** With no carry left the higher limbs add nothing. */
  lemma {:induction false} CarryingStop(before: Limbs, now: Limbs, i: nat, sum: nat)
    requires Carrying(before, now, i, 0, sum)
    ensures V(now) - sum == V(before) - V(before[..i]) && V(now) < M(|now|)
  {
    ValBound(B, now);
    SameTop(before, now, i);
  }

  lemma {:induction false} SameTop(a: Limbs, b: Limbs, i: nat)
    requires i <= |a| == |b| && forall j | i <= j < |a| :: a[j] == b[j]
    ensures V(a) - V(a[..i]) == V(b) - V(b[..i])
    decreases |a|
  {
    if i < |a| {
      var n := |a| - 1;
      SameTop(a[..n], b[..n], i);
      assert a[..n][..i] == a[..i] && b[..n][..i] == b[..i];
    } else {
      assert a[..i] == a && b[..i] == b;
    }
  }

  lemma {:induction false} Complement(a: Limbs, b: Limbs)
    requires |a| == |b| && Ok(a) && forall i | 0 <= i < |a| :: b[i] == B - 1 - a[i]
    ensures Ok(b) && V(a) + V(b) == M(|a|) - 1
  {
    if a != [] {
      var n := |a| - 1;
      Complement(a[..n], b[..n]);
      assert a[n] * M(n) + b[n] * M(n) == (B - 1) * M(n);
    }
  }

  lemma SubIs(x: nat, y: nat, m: nat)
    requires m > 0 && y < m
    ensures (x + (m - y) % m) % m == (x - y) % m
  {
    if y == 0 {
      Unique(m, m, 1, 0);
    } else {
      Unique(m - y, m, 0, m - y);
      ModPlus(x - y, m);
    }
  }

  lemma ModPlus(a: int, m: nat)
    requires m > 0
    ensures (a + m) % m == a % m
  {
    ModUnique(a + m, m, a / m + 1, a % m);
  }

  lemma ModUnique(a: int, m: nat, q: int, r: int)
    requires m > 0 && a == q * m + r && 0 <= r < m
    ensures a % m == r
  {
    var x := a / m - q;
    assert x * m == a / m * m - q * m;
    assert a == a / m * m + a % m;
    NoGap(x, m);
  }

  lemma TimesSmall(v: nat, x: nat, p: nat, b: nat)
    ensures v * b + b * x * p == (v + x * p) * b
  {
    MulAssoc(b, x, p);
  }

  /** The 64-bit sums of the loops do not wrap, and their carry is again below 2^32. */
  lemma NoOverflow(carry: nat, a: nat, x: nat, y: nat)
    requires carry < B && a < B && x < B && y < B
    ensures carry + a + x * y < B * B && (carry + a + x * y) / B < B
  {
    MulLe(x, B - 1, y);
    assert x * y <= (B - 1) * (B - 1);
  }

  lemma CarryingFrom(d: Limbs, j: nat)
    requires Ok(d) && j <= |d|
    ensures Carrying(d, d, j, 0, V(d[..j]))
  {
  }

  /** The low limbs with the part of a row that has been added. */
  ghost function RowSum(before: Limbs, x: nat, b: Limbs, i: nat, j: nat): nat
    requires i + j <= |before| && i <= |b|
  {
    V(before[..i + j]) + x * V(b[..i]) * M(j)
  }

  lemma RowSumStart(before: Limbs, x: nat, b: Limbs, j: nat)
    requires j <= |before|
    ensures RowSum(before, x, b, 0, j) == V(before[..j])
  {
    assert b[..0] == [];
  }

  lemma RowSumStep(before: Limbs, x: nat, b: Limbs, i: nat, j: nat)
    requires i + j < |before| && i < |b|
    ensures RowSum(before, x, b, i + 1, j) == RowSum(before, x, b, i, j) + (before[i + j] + x * b[i]) * M(i + j)
  {
    hide Val, Pow;
    ValStep(B, before, i + j);
    ValStep(B, b, i);
    PowAdd(B, i, j);
    RowStep(V(before[..i + j]), before[i + j], x, V(b[..i]), b[i], M(i), M(j), M(i + j));
  }

  lemma RowStep(v: nat, a: nat, x: nat, u: nat, y: nat, p: nat, q: nat, pq: nat)
    requires pq == p * q
    ensures v + x * u * q + (a + x * y) * pq == v + a * pq + x * (u + y * p) * q
  {
    assert (a + x * y) * pq == a * pq + x * y * pq;
    MulAssoc(x * y, p, q);
    MulAssoc(x, y, p);
    assert x * (u + y * p) == x * u + x * (y * p);
    assert (x * u + x * (y * p)) * q == x * u * q + x * (y * p) * q;
  }

  lemma {:induction false} SplitVal(d: Limbs, n: nat)
    requires n <= |d|
    ensures V(d) == V(d[..n]) + M(n) * V(d[n..])
    decreases |d|
  {
    if n == |d| {
      assert d[..n] == d && d[n..] == [];
    } else {
      var m := |d| - 1;
      SplitVal(d[..m], n);
      assert d[..m][..n] == d[..n] && d[..m][n..] == d[n..m];
      assert d[n..][..m - n] == d[n..m];
      PowAdd(B, n, m - n);
      MulAssoc(M(n), M(m - n), d[m]);
      Spread(M(n), V(d[n..m]), d[m], M(m - n));
    }
  }

  lemma Spread(p: nat, v: nat, x: nat, q: nat)
    ensures p * (v + x * q) == p * v + x * (p * q)
  {
  }

  /** What a row would add beyond the width is a multiple of the modulus. */
  lemma RowTail(now: nat, before: Limbs, x: nat, b: Limbs, i: nat, j: nat)
    requires i + j == |b| == |before| && Cong(now, RowSum(before, x, b, i, j), M(|b|))
    ensures Cong(now, V(before) + x * V(b) * M(j), M(|b|))
  {
    hide Val, Pow, Cong;
    assert before[..|b|] == before;
    SplitVal(b, i);
    PowAdd(B, i, j);
    var rest := V(b[i..]);
    TailIs(x, V(b[..i]), M(i), rest, M(j), M(|b|));
    var shorter, longer := RowSum(before, x, b, i, j), V(before) + x * V(b) * M(j);
    CongIs(shorter, longer, M(|b|), -(x * rest));
    CongTrans(now, shorter, longer, M(|b|));
  }

  lemma TailIs(x: nat, u: nat, p: nat, r: nat, q: nat, m: nat)
    requires m == p * q
    ensures x * (u + p * r) * q == x * u * q + x * r * m
  {
    assert x * (u + p * r) == x * u + x * (p * r);
    assert (x * u + x * (p * r)) * q == x * u * q + x * (p * r) * q;
    assert x * (p * r) * q == x * r * (p * q);
  }

  lemma RowCong(now: nat, v: nat, u: nat, x: nat, p: nat, b: nat, m: nat)
    requires Cong(v, u * b, m) && Cong(now, v + x * b * p, m)
    ensures Cong(now, (u + x * p) * b, m)
  {
    hide Cong;
    CongAdd(v, u * b, x * b * p, m);
    assert (u + x * p) * b == u * b + x * b * p;
    CongTrans(now, v + x * b * p, (u + x * p) * b, m);
  }

  /******* Comparing and measuring *******/

  /** The highest limb in which two numbers differ decides. */
  lemma Decides(a: Limbs, b: Limbs, i: nat)
    requires i < |a| == |b| && Ok(a) && Ok(b) && a[i] < b[i] && forall j | i < j < |a| :: a[j] == b[j]
    ensures V(a) < V(b)
  {
    hide Val, Pow;
    SameTop(a, b, i + 1);
    ValStep(B, a, i);
    ValStep(B, b, i);
    ValBound(B, a[..i]);
    InPlace(V(a[..i]), a[i], b[i], M(i));
  }

  lemma PowerOf2()
    ensures Pow(2, 32) == B && Pow(2, 0) == 1 && Pow(2, 1) == 2
  {
    assert Pow(2, 8) == 256;
    PowAdd(2, 8, 8);
    PowAdd(2, 16, 16);
  }

  lemma MIsPower(n: nat)
    ensures M(n) == Pow(2, 32 * n)
  {
    PowerOf2();
    PowPow(2, 32, n);
  }

  lemma BitTest(x: nat, b: nat)
    requires x < Pow(2, b + 1)
    ensures x / Pow(2, b) % 2 == 1 <==> x >= Pow(2, b)
  {
    hide Pow;
    var p := Pow(2, b);
    PowNext(2, b);
    DivMod(x, p);
    if x >= p {
      Unique(x, p, 1, x - p);
    } else {
      Unique(x, p, 0, x);
    }
  }

  lemma TopLimb(d: Limbs, pos: nat, b: nat)
    requires pos < |d| && Ok(d) && Pow(2, b) <= d[pos] < Pow(2, b + 1) && forall j | pos < j < |d| :: d[j] == 0
    ensures Pow(2, 32 * pos + b) <= V(d) < Pow(2, 32 * pos + b + 1)
  {
    hide Val, Pow;
    ValZeros(B, d, pos + 1);
    ValStep(B, d, pos);
    ValBound(B, d[..pos]);
    MIsPower(pos);
    PowAdd(2, b, 32 * pos);
    PowAdd(2, b + 1, 32 * pos);
    MulLe(Pow(2, b), d[pos], M(pos));
    MulLe(d[pos] + 1, Pow(2, b + 1), M(pos));
  }

  /******* Shifting left *******/

  lemma PowersOfLimb(s: nat)
    requires s < 32
    ensures Pow(2, s) * Pow(2, 32 - s) == B
  {
    PowerOf2();
    PowAdd(2, s, 32 - s);
  }

  /** i limbs have been shifted; c is the part of the last one that belongs to the next limb. */
  ghost predicate ShiftingLeft(a: Limbs, now: Limbs, i: nat, k: nat, p: nat, c: nat) {
    && |now| == |a| && Ok(now) && i + k < |a| && c < p
    && V(now[..i + k]) + c * M(i + k) == V(a[..i]) * p * M(k)
    && now[i + k] == c && (forall j | i + k < j < |now| :: now[j] == 0)
  }

  /** All limbs that stay within the width have been shifted. */
  ghost predicate ShiftedLeft(a: Limbs, now: Limbs, k: nat, p: nat) {
    && |now| == |a| && Ok(now)
    && if k < |a| then Cong(V(now), V(a) * p * M(k), M(|a|)) else V(now) == 0
  }

  lemma LeftStart(a: Limbs, now: Limbs, k: nat, p: nat)
    requires |now| == |a| > 0 && p > 0 && forall j | 0 <= j < |now| :: now[j] == 0
    ensures if k < |a| then ShiftingLeft(a, now, 0, k, p, 0) else ShiftedLeft(a, now, k, p)
  {
    AllZero(now);
    if k < |a| {
      AllZero(now[..k]);
      assert a[..0] == [];
    }
  }

  ghost function PutLeft(now: Limbs, m: nat, low: nat, high: nat): Limbs
    requires m < |now|
  {
    var put := now[m := now[m] + low];
    if m + 1 < |now| then put[m + 1 := now[m + 1] + high] else put
  }

  /** The two parts of a shifted limb: what moves on and what stays. */
  function High(x: nat, p: nat): nat {
    x * p / B
  }

  function Low(x: nat, p: nat): nat {
    x * p % B
  }

  lemma LeftParts(x: nat, p: nat, q: nat, c: nat)
    requires x < B && p * q == B && c < p
    ensures x * p / B < p && c + x * p % B < B && x * p == x * p / B * B + x * p % B
  {
    var h, l := x * p / B, x * p % B;
    MulLt(x, B, p);
    assert h < p by { Quotient(x * p, B, p); }
    MulAssoc(h, q, p);
    var y := x - h * q;
    assert l == y * p by { assert (x - h * q) * p == x * p - h * q * p; assert h * B == h * (q * p); }
    assert y < q by {
      if y >= q {
        MulLe(q, y, p);
      }
    }
    MulLe(y + 1, q, p);
  }

  /** The two bitwise ors of a step of the loop are sums. */
  lemma {:induction false} LeftOrs(a: Limbs, now: Limbs, i: nat, k: nat, s: nat, p: nat, q: nat, c: nat)
    requires s < 32 && p == Pow(2, s) && q == Pow(2, 32 - s) && q > 0 && i + k < |a| == |now|
    requires ShiftingLeft(a, now, i, k, p, c) && Ok(a)
    ensures Or(now[i + k], Low(a[i], p)) == now[i + k] + Low(a[i], p)
    ensures i + k + 1 < |a| ==> Or(now[i + k + 1], UpperPart(a[i], q)) == now[i + k + 1] + High(a[i], p)
  {
    hide Val, Pow, Or;
    PowersOfLimb(s);
    LowIsMultiple(a[i], p, q);
    OrIsPlus(c, a[i] % q, s);
    HighIs(a[i], p, q);
    OrZero(High(a[i], p));
  }

  lemma LowIsMultiple(x: nat, p: nat, q: nat)
    requires p * q == B
    ensures Low(x, p) == x % q * p
  {
    assert q > 0;
    DivMod(x, q);
    assert (x / q * q + x % q) * p == x / q * (q * p) + x % q * p;
    MulLt(x % q, q, p);
    Unique(x * p, B, x / q, x % q * p);
  }

  lemma HighIs(x: nat, p: nat, q: nat)
    requires p * q == B
    ensures q > 0 && x / q == High(x, p)
  {
    DivMod(x, q);
    assert (x / q * q + x % q) * p == x / q * (q * p) + x % q * p;
    MulLt(x % q, q, p);
    Unique(x * p, B, x / q, x % q * p);
  }

  lemma Quotient(a: nat, d: nat, q: nat)
    requires d > 0 && a < d * q
    ensures a / d < q
  {
    DivMod(a, d);
    if a / d >= q {
      MulLe(q, a / d, d);
    }
  }

  lemma LeftStep(a: Limbs, now: Limbs, i: nat, k: nat, p: nat, q: nat, c: nat)
    requires ShiftingLeft(a, now, i, k, p, c) && Ok(a) && p * q == B && i < |a|
    ensures var low, high := Low(a[i], p), High(a[i], p);
            var next := PutLeft(now, i + k, low, high);
            if i + 1 + k < |a| then ShiftingLeft(a, next, i + 1, k, p, high) else ShiftedLeft(a, next, k, p)
    ensures p == 1 ==> High(a[i], p) == 0
  {
    hide Val, Pow;
    var low, high := a[i] * p % B, a[i] * p / B;
    LeftParts(a[i], p, q, c);
    var m := i + k;
    var next := PutLeft(now, m, low, high);
    ValStep(B, next, m);
    assert next[..m] == now[..m];
    ValStep(B, a, i);
    PowAdd(B, i, k);
    MNext(m);
    LeftSum(V(now[..m]), c, low, high, M(m), V(a[..i]), a[i], M(i), p, M(k));
    assert p <= B by { assert q > 0; MulLe(1, q, p); }
    if m + 1 == |a| {
      assert next[..m + 1] == next;
      LeftTail(a, V(next), i + 1, k, p, high);
    }
  }

  lemma LeftSum(v: nat, c: nat, low: nat, high: nat, pm: nat, u: nat, x: nat, pi: nat, p: nat, pk: nat)
    requires pm == pi * pk && v + c * pm == u * p * pk && x * p == high * B + low
    ensures v + (c + low) * pm + high * (B * pm) == (u + x * pi) * p * pk
  {
    assert (c + low) * pm == c * pm + low * pm;
    assert high * (B * pm) == high * B * pm;
    assert (high * B + low) * pm == high * B * pm + low * pm;
    assert x * p * (pi * pk) == x * pi * p * pk;
    assert (u + x * pi) * p == u * p + x * pi * p;
    assert (u * p + x * pi * p) * pk == u * p * pk + x * pi * p * pk;
  }

  lemma LeftTail(a: Limbs, now: nat, i: nat, k: nat, p: nat, high: nat)
    requires i + k == |a| && now + high * M(|a|) == V(a[..i]) * p * M(k)
    ensures Cong(now, V(a) * p * M(k), M(|a|))
  {
    hide Val, Pow;
    SplitVal(a, i);
    PowAdd(B, i, k);
    var u, r := V(a[..i]), V(a[i..]);
    assert (u + M(i) * r) * p * M(k) == u * p * M(k) + r * p * M(|a|) by { Tail2(u, M(i), r, p, M(k), M(|a|)); }
    assert (0 - high - r * p) * M(|a|) == 0 - high * M(|a|) - r * p * M(|a|);
    CongIs(now, V(a) * p * M(k), M(|a|), 0 - high - r * p);
  }

  lemma Tail2(u: nat, pi: nat, r: nat, p: nat, pk: nat, m: nat)
    requires m == pi * pk
    ensures (u + pi * r) * p * pk == u * p * pk + r * p * m
  {
    assert (u + pi * r) * p == u * p + pi * r * p;
    assert (u * p + pi * r * p) * pk == u * p * pk + pi * r * p * pk;
    assert pi * r * p * pk == r * p * (pi * pk);
  }

  lemma LeftDone(a: Limbs, now: Limbs, shift: nat)
    requires ShiftedLeft(a, now, shift / 32, Pow(2, shift % 32))
    ensures Ok(now) && V(now) == V(a) * Pow(2, shift) % M(|a|)
  {
    hide V, M, Pow, Cong;
    var k, s := shift / 32, shift % 32;
    if k < |a| {
      ShiftFactor(k, s);
      Reassociate(V(a), Pow(2, s), M(k), Pow(2, shift));
      InWidth(now);
      CongMod(V(now), V(a) * Pow(2, shift), M(|a|));
    } else {
      AllOut(V(a), |a|, shift);
    }
  }

  lemma Reassociate(v: nat, p: nat, m: nat, f: nat)
    requires f == p * m
    ensures v * p * m == v * f
  {
  }

  lemma InWidth(d: Limbs)
    requires Ok(d)
    ensures V(d) < M(|d|)
  {
    ValBound(B, d);
  }

  lemma ShiftFactor(k: nat, s: nat)
    ensures Pow(2, 32 * k + s) == Pow(2, s) * M(k)
  {
    MIsPower(k);
    PowAdd(2, s, 32 * k);
  }

  lemma AllOut(v: nat, w: nat, shift: nat)
    requires shift >= 32 * w
    ensures v * Pow(2, shift) % M(w) == 0
  {
    hide Pow;
    var rest := shift - 32 * w;
    ShiftFactor(w, rest);
    MulAssoc(v, Pow(2, rest), M(w));
    Unique(v * Pow(2, shift), M(w), v * Pow(2, rest), 0);
  }

  /******* Shifting right *******/

  /** The part of a limb that stays in its place, and the part that moves down to the limb below. */
  function UpperPart(x: nat, p: nat): nat
    requires p > 0
  {
    DivMod(x, p);
    x / p
  }

  function LowerPart(x: nat, p: nat, q: nat): nat
    requires p > 0
  {
    x * q % B
  }

  /** Limbs k to i have been shifted. */
  ghost predicate ShiftingRight(a: Limbs, now: Limbs, i: nat, k: nat, p: nat)
    requires p > 0
  {
    && |now| == |a| && Ok(now) && i <= |a|
    && var n := if i >= k then i - k else 0;
       && (forall j | n <= j < |now| :: now[j] == 0)
       && (i >= k ==> V(now[..n]) == V(a[k..i]) / p)
       && (n > 0 ==> now[n - 1] == UpperPart(a[i - 1], p))
  }

  lemma RightStart(a: Limbs, now: Limbs, k: nat, p: nat)
    requires |now| == |a| && p > 0 && forall j | 0 <= j < |now| :: now[j] == 0
    ensures ShiftingRight(a, now, 0, k, p)
  {
    AllZero(now);
    assert now[..0] == [] && a[0..0] == [];
    Unique(0, p, 0, 0);
  }

  lemma RightWait(a: Limbs, now: Limbs, i: nat, k: nat, p: nat)
    requires p > 0 && ShiftingRight(a, now, i, k, p) && i < k && i < |a|
    ensures ShiftingRight(a, now, i + 1, k, p)
  {
    if i + 1 == k {
      assert now[..0] == [] && a[k..i + 1] == [];
      Unique(0, p, 0, 0);
    }
  }

  ghost function PutRight(now: Limbs, n: nat, lower: nat, upper: nat): Limbs
    requires n < |now|
  {
    var put := if n > 0 then now[n - 1 := now[n - 1] + lower] else now;
    put[n := put[n] + upper]
  }

  lemma RightParts(x: nat, p: nat, q: nat)
    requires p * q == B && x < B
    ensures UpperPart(x, p) < q && LowerPart(x, p, q) == x % p * q && x == UpperPart(x, p) * p + x % p && x % p < p
  {
    DivMod(x, p);
    Quotient(x, p, q);
    assert x / p * p * q == x / p * (p * q) by { MulAssoc(x / p, p, q); }
    assert (x / p * p + x % p) * q == x / p * p * q + x % p * q;
    MulLt(x % p, p, q);
    Unique(x * q, B, x / p, x % p * q);
  }

  lemma RightStep(a: Limbs, now: Limbs, i: nat, k: nat, p: nat, q: nat)
    requires p > 0 && p * q == B && ShiftingRight(a, now, i, k, p) && Ok(a) && k <= i < |a|
    ensures ShiftingRight(a, PutRight(now, i - k, LowerPart(a[i], p, q), UpperPart(a[i], p)), i + 1, k, p)
    ensures p == 1 ==> LowerPart(a[i], p, q) == 0
  {
    hide Val, Pow, UpperPart, LowerPart;
    RightParts(a[i], p, q);
    RightFits(a, now, i, k, p, q);
    if i == k {
      RightFirst(a, now, i, p, q);
    } else {
      RightNext(a, now, i, k, p, q);
    }
  }

  lemma RightFirst(a: Limbs, now: Limbs, i: nat, p: nat, q: nat)
    requires p > 0 && i < |a| == |now| && forall j | 0 <= j < |now| :: now[j] == 0
    ensures V(PutRight(now, 0, LowerPart(a[i], p, q), UpperPart(a[i], p))[..1]) == V(a[i..i + 1]) / p
  {
    var next := PutRight(now, 0, LowerPart(a[i], p, q), UpperPart(a[i], p));
    HeadOne(next);
    HeadOne(a[i..i + 1]);
    assert a[i..i + 1][..1] == a[i..i + 1];
  }

  lemma RightNext(a: Limbs, now: Limbs, i: nat, k: nat, p: nat, q: nat)
    requires p > 0 && p * q == B && Ok(a) && k < i < |a| == |now| && now[i - k] == 0
    requires V(now[..i - k]) == V(a[k..i]) / p
    ensures V(PutRight(now, i - k, LowerPart(a[i], p, q), UpperPart(a[i], p))[..i - k + 1]) == V(a[k..i + 1]) / p
  {
    hide Val, Pow, UpperPart, LowerPart;
    var n := i - k;
    var lower, upper := LowerPart(a[i], p, q), UpperPart(a[i], p);
    var next := PutRight(now, n, lower, upper);
    RightParts(a[i], p, q);
    ValStep(B, next, n);
    ValStep(B, next, n - 1);
    ValStep(B, now, n - 1);
    assert next[..n - 1] == now[..n - 1];
    var tail := a[k..i + 1];
    ValStep(B, tail, n);
    assert tail[..n] == a[k..i] && tail[..n + 1] == tail;
    MNext(n - 1);
    RightSum(V(a[k..i]), a[i], M(n - 1), p, q, upper, a[i] % p);
    assert (now[n - 1] + lower) * M(n - 1) == now[n - 1] * M(n - 1) + lower * M(n - 1);
  }

  /** The two bitwise ors of a step of the loop are sums. */
  lemma {:induction false} RightOrs(a: Limbs, now: Limbs, i: nat, k: nat, s: nat, p: nat, q: nat)
    requires s < 32 && p == Pow(2, s) && q == Pow(2, 32 - s) && p > 0 && k <= i < |a| == |now|
    requires ShiftingRight(a, now, i, k, p) && Ok(a)
    ensures i > k ==> Or(now[i - k - 1], LowerPart(a[i], p, q)) == now[i - k - 1] + LowerPart(a[i], p, q)
    ensures Or(now[i - k], UpperPart(a[i], p)) == now[i - k] + UpperPart(a[i], p)
  {
    hide Val, Pow, Or;
    PowersOfLimb(s);
    RightParts(a[i], p, q);
    if i > k {
      RightParts(a[i - 1], p, q);
      OrIsPlus(now[i - k - 1], a[i] % p, 32 - s);
    }
    OrZero(UpperPart(a[i], p));
  }

  /** The two parts that meet in a limb fit into it. */
  lemma RightFits(a: Limbs, now: Limbs, i: nat, k: nat, p: nat, q: nat)
    requires p > 0 && p * q == B && ShiftingRight(a, now, i, k, p) && Ok(a) && k <= i < |a|
    ensures i > k ==> now[i - k - 1] + LowerPart(a[i], p, q) < B
    ensures UpperPart(a[i], p) < B && now[i - k] == 0
  {
    hide Val, UpperPart, LowerPart, V;
    RightParts(a[i], p, q);
    MulLe(1, p, q);
    if i > k {
      RightParts(a[i - 1], p, q);
      Fitting(UpperPart(a[i - 1], p), a[i] % p, p, q);
    }
  }

  lemma Fitting(u: nat, r: nat, p: nat, q: nat)
    requires u < q && r < p
    ensures u + r * q < p * q
  {
    MulLe(r + 1, p, q);
  }

  /** Adding a limb above adds its two parts to the quotient. */
  lemma RightSum(v: nat, x: nat, m: nat, p: nat, q: nat, upper: nat, rest: nat)
    requires p > 0 && p * q == B && x == upper * p + rest && rest < p
    ensures (v + x * (B * m)) / p == v / p + rest * q * m + upper * (B * m)
  {
    DivMod(v, p);
    var t := rest * q * m + upper * (B * m);
    assert t * p == x * (B * m) by { RightProduct(x, m, p, q, upper, rest); }
    assert (v / p + t) * p == v / p * p + t * p;
    Unique(v + x * (B * m), p, v / p + t, v % p);
  }

  lemma RightProduct(x: nat, m: nat, p: nat, q: nat, upper: nat, rest: nat)
    requires p * q == B && x == upper * p + rest
    ensures (rest * q * m + upper * (B * m)) * p == x * (B * m)
  {
    assert rest * q * m * p == rest * (p * q) * m;
    assert rest * (p * q) * m == rest * (B * m);
    assert upper * (B * m) * p == upper * p * (B * m);
    assert (upper * p + rest) * (B * m) == upper * p * (B * m) + rest * (B * m);
    assert (rest * q * m + upper * (B * m)) * p == rest * q * m * p + upper * (B * m) * p;
  }

  lemma RightDone(a: Limbs, now: Limbs, shift: nat)
    requires Ok(a) && ShiftingRight(a, now, |a|, shift / 32, Pow(2, shift % 32))
    ensures Ok(now) && V(now) == V(a) / Pow(2, shift)
  {
    hide Val, Pow;
    var k, s := shift / 32, shift % 32;
    var p := Pow(2, s);
    ShiftFactor(k, s);
    if k <= |a| {
      assert a[k..|a|] == a[k..];
      ValZeros(B, now, |a| - k);
      SplitVal(a, k);
      ValBound(B, a[..k]);
      Unique(V(a), M(k), V(a[k..]), V(a[..k]));
      DivDiv(V(a), M(k), p);
    } else {
      AllZero(now);
      ValBound(B, a);
      PowMonotoneExp(B, |a|, k);
      MulLe(1, p, M(k));
      Unique(V(a), Pow(2, shift), 0, V(a));
    }
  }

  /******* Dividing *******/

  /** The bits of a number up to and including one position are zero. */
  ghost predicate LowClear(d: Limbs, shift: nat) {
    && shift / 32 < |d|
    && (forall j | 0 <= j < shift / 32 :: d[j] == 0)
    && Cong(d[shift / 32], 0, Pow(2, shift % 32 + 1))
  }

  lemma AllClear(d: Limbs, shift: nat)
    requires shift < 32 * |d| && forall j | 0 <= j < |d| :: d[j] == 0
    ensures LowClear(d, shift)
  {
    CongIs(0, 0, Pow(2, shift % 32 + 1), 0);
  }

  lemma HalfCong(x: int, r: nat)
    requires Cong(x, 0, Pow(2, r + 1))
    ensures Cong(x, 0, Pow(2, r)) && Cong(x + Pow(2, r), 0, Pow(2, r))
  {
    hide Pow;
    var k :| x == 0 + k * Pow(2, r + 1);
    PowNext(2, r);
    assert k * (2 * Pow(2, r)) == 2 * k * Pow(2, r);
    CongIs(x, 0, Pow(2, r), 2 * k);
    assert (2 * k + 1) * Pow(2, r) == 2 * k * Pow(2, r) + Pow(2, r);
    CongIs(x + Pow(2, r), 0, Pow(2, r), 2 * k + 1);
  }

  /** One position lower it is enough that the higher one was clear, or was set just now. */
  lemma LowerClear(d: Limbs, x: nat, shift: nat)
    requires shift > 0 && LowClear(d, shift) && (x == d[shift / 32] || x == d[shift / 32] + Pow(2, shift % 32))
    ensures LowClear(d[shift / 32 := x], shift - 1)
  {
    hide Pow, Cong;
    var q, r := shift / 32, shift % 32;
    if r > 0 {
      assert (shift - 1) / 32 == q && (shift - 1) % 32 + 1 == r;
      HalfCong(d[q], r);
    } else {
      assert (shift - 1) / 32 == q - 1;
      CongIs(0, 0, Pow(2, (shift - 1) % 32 + 1), 0);
    }
  }

  lemma StillClear(d: Limbs, shift: nat)
    requires LowClear(d, shift)
    ensures shift > 0 ==> LowClear(d, shift - 1)
  {
    if shift > 0 {
      LowerClear(d, d[shift / 32], shift);
      assert d[shift / 32 := d[shift / 32]] == d;
    }
  }

  lemma BitFits(d: Limbs, shift: nat)
    requires Ok(d) && LowClear(d, shift)
    ensures var q, r := shift / 32, shift % 32;
            && d[q] + Pow(2, r) < B && Ok(d[q := d[q] + Pow(2, r)])
            && (shift > 0 ==> LowClear(d[q := d[q] + Pow(2, r)], shift - 1))
  {
    hide Pow, Cong;
    var q, r := shift / 32, shift % 32;
    MultipleFits(d[q], r);
    if shift > 0 {
      LowerClear(d, d[q] + Pow(2, r), shift);
    }
  }

  /** The bit to be set is not there yet. */
  lemma BitOr(d: Limbs, shift: nat)
    requires LowClear(d, shift)
    ensures Or(d[shift / 32], Pow(2, shift % 32)) == d[shift / 32] + Pow(2, shift % 32)
  {
    hide Pow, Or;
    var x, r := d[shift / 32], shift % 32;
    var k :| x == 0 + k * Pow(2, r + 1);
    PowNext(2, r);
    NotNegative(k, Pow(2, r + 1));
    OrIsPlus(Pow(2, r), k, r + 1);
    OrCommutes(x, Pow(2, r));
  }

  lemma NotNegative(k: int, p: nat)
    requires p > 0 && k * p >= 0
    ensures k >= 0
  {
    if k < 0 {
      MulLe(k, -1, p);
    }
  }

  lemma MultipleFits(x: nat, r: nat)
    requires r < 32 && x < B && Cong(x, 0, Pow(2, r + 1))
    ensures x + Pow(2, r) < B
  {
    hide Pow;
    var k :| x == 0 + k * Pow(2, r + 1);
    var p, q := Pow(2, r + 1), Pow(2, 31 - r);
    PowerOf2();
    PowAdd(2, r + 1, 31 - r);
    PowNext(2, r);
    assert k < q by {
      if k >= q {
        MulLe(q, k, p);
      }
    }
    MulLe(k + 1, q, p);
  }

  lemma AddAt(d: Limbs, q: nat, x: nat)
    requires q < |d|
    ensures V(d[q := d[q] + x]) == V(d) + x * M(q)
  {
    hide Val, Pow;
    var e := d[q := d[q] + x];
    SameTop(d, e, q + 1);
    ValStep(B, d, q);
    ValStep(B, e, q);
    assert e[..q] == d[..q];
    assert (d[q] + x) * M(q) == d[q] * M(q) + x * M(q);
  }

  /**
   * The numbers in long division: x is the dividend and d the divisor; the
   * quotient so far, the remainder so far, and the divisor shifted up.
   */
  ghost predicate Dividing(x: nat, d: nat, quotient: nat, num: nat, div: nat, shift: int) {
    && -1 <= shift && d > 0 && x == quotient * d + num && num < d * Pow(2, shift + 1)
    && (shift >= 0 ==> div == d * Pow(2, shift))
  }

  lemma QuotientZero(x: nat, d: nat, m: nat, n: nat)
    requires m < n && (if m == 0 then x == 0 else x < Pow(2, m)) && Pow(2, n - 1) <= d
    ensures d > 0 && x / d == 0
  {
    if m > 0 {
      PowMonotoneExp(2, m, n - 1);
    }
    Unique(x, d, 0, x);
  }

  /** Shifted up by the difference of the lengths the divisor still fits, and twice it is above the dividend. */
  lemma DivisionStart(x: nat, d: nat, m: nat, n: nat, w: nat)
    requires 0 < n <= m <= 32 * w && Pow(2, m - 1) <= x < Pow(2, m) && Pow(2, n - 1) <= d < Pow(2, n)
    ensures Dividing(x, d, 0, x, d * Pow(2, m - n) % M(w), m - n)
  {
    hide Pow;
    var p := Pow(2, m - n);
    PowAdd(2, n, m - n);
    MulLt(d, Pow(2, n), p);
    MIsPower(w);
    PowMonotoneExp(2, m, 32 * w);
    Unique(d * p, M(w), 0, d * p);
    PowAdd(2, n - 1, m - n + 1);
    MulLe(Pow(2, n - 1), d, Pow(2, m - n + 1));
  }

  lemma DivisionStep(x: nat, d: nat, quotient: nat, num: nat, div: nat, shift: nat)
    requires Dividing(x, d, quotient, num, div, shift)
    ensures num >= div ==> Dividing(x, d, quotient + Pow(2, shift), num - div, div / Pow(2, 1), shift - 1)
    ensures num < div ==> Dividing(x, d, quotient, num, div / Pow(2, 1), shift - 1)
  {
    hide Pow;
    PowerOf2();
    PowNext(2, shift);
    Twice(d, Pow(2, shift));
    OneMoreTime(quotient, Pow(2, shift), d);
    if shift > 0 {
      PowNext(2, shift - 1);
      Twice(d, Pow(2, shift - 1));
    }
  }

  lemma Twice(d: nat, p: nat)
    ensures d * (2 * p) == 2 * (d * p)
  {
  }

  lemma OneMoreTime(quotient: nat, p: nat, d: nat)
    ensures (quotient + p) * d == quotient * d + d * p
  {
  }

  lemma Difference(n: nat, v: nat, m: nat)
    requires v <= n < m
    ensures (n - v) % m == n - v
  {
    Unique(n - v, m, 0, n - v);
  }

  lemma DivisionDone(x: nat, d: nat, quotient: nat, num: nat, div: nat)
    requires Dividing(x, d, quotient, num, div, -1)
    ensures x / d == quotient
  {
    PowerOf2();
    Unique(x, d, quotient, num);
  }
}
