/**
 * What the Bech32 checksum computes: the remainder of a polynomial over the
 * field with 32 elements.
 */
module Bech32Field {
  import opened Bech32Checksum

  /******* The field: polynomials over two elements modulo a^5 + a^3 + 1 *******/

  datatype Element = Element(bits: bv5)

  const ZERO := Element(0)
  const ONE := Element(1)

  function Add(x: Element, y: Element): Element {
    Element(x.bits ^ y.bits)
  }

  /** Times a: a^5 is a^3 + 1. */
  function TimesA(x: bv5): bv5 {
    if x & 16 != 0 then (x << 1) ^ 9 else x << 1
  }

  function Choose(b: bool, x: bv5): bv5 {
    if b then x else 0
  }

  /** The sum of the multiples of x for the powers of a in y. */
  function Product(x: bv5, y: bv5): bv5 {
    var x2 := TimesA(x);
    var x4 := TimesA(x2);
    var x8 := TimesA(x4);
    var x16 := TimesA(x8);
    Choose(y & 1 != 0, x) ^ Choose(y & 2 != 0, x2) ^ Choose(y & 4 != 0, x4) ^ Choose(y & 8 != 0, x8) ^ Choose(y & 16 != 0, x16)
  }

  function Times(x: Element, y: Element): Element {
    Element(Product(x.bits, y.bits))
  }

  lemma ProductCommutes(x: bv5, y: bv5)
    ensures Product(x, y) == Product(y, x)
  {
  }

  lemma ProductNeutral(x: bv5)
    ensures Product(x, 1) == x && Product(1, x) == x && Product(x, 0) == 0 && Product(0, x) == 0
  {
  }

  lemma ProductNotZero(x: bv5, y: bv5)
    requires x != 0 && y != 0
    ensures Product(x, y) != 0
  {
  }

  lemma Commutes(x: Element, y: Element)
    ensures Times(x, y) == Times(y, x)
  {
    hide Product;
    ProductCommutes(x.bits, y.bits);
  }

  lemma Neutral(x: Element)
    ensures Times(x, ONE) == x && Times(ONE, x) == x && Times(ZERO, x) == ZERO && Times(x, ZERO) == ZERO
    ensures Add(x, ZERO) == x && Add(ZERO, x) == x
  {
    hide Product;
    ProductNeutral(x.bits);
  }

  lemma NoZeroDivisors(x: Element, y: Element)
    requires x != ZERO && y != ZERO
    ensures Times(x, y) != ZERO
  {
    hide Product;
    ProductNotZero(x.bits, y.bits);
  }

  /** An example. */
  lemma FiveTimesTwentySix()
    ensures Times(Element(5), Element(26)) == Element(9) && Add(Element(27), Element(13)) == Element(22)
  {
  }

  /******* The coefficients of a remainder *******/

  /** x^6 modulo the generator: 29x^5 + 22x^4 + 20x^3 + 21x^2 + 29x + 18. */
  const TAIL: seq<Element> := [Element(29), Element(22), Element(20), Element(21), Element(29), Element(18)]

  function LowBits(x: bv32): bv5 {
    (x & 31) as bv5
  }

  function Low(x: bv32): Element {
    Element(LowBits(x))
  }

  function Part0(c: bv32): Element {
    Low(c >> 25)
  }

  function Part1(c: bv32): Element {
    Low(c >> 20)
  }

  function Part2(c: bv32): Element {
    Low(c >> 15)
  }

  function Part3(c: bv32): Element {
    Low(c >> 10)
  }

  function Part4(c: bv32): Element {
    Low(c >> 5)
  }

  /** The coefficient of x^(5 - k) in a packed remainder. */
  function Coeff(c: bv32, k: nat): Element
    requires k < 6
  {
    if k == 0 then Part0(c)
    else if k == 1 then Part1(c)
    else if k == 2 then Part2(c)
    else if k == 3 then Part3(c)
    else if k == 4 then Part4(c)
    else Low(c)
  }

  lemma Linear0(a: bv32, b: bv32)
    ensures Part0(Xor(a, b)) == Add(Part0(a), Part0(b))
  {
  }

  lemma Linear1(a: bv32, b: bv32)
    ensures Part1(Xor(a, b)) == Add(Part1(a), Part1(b))
  {
  }

  lemma Linear2(a: bv32, b: bv32)
    ensures Part2(Xor(a, b)) == Add(Part2(a), Part2(b))
  {
  }

  lemma Linear3(a: bv32, b: bv32)
    ensures Part3(Xor(a, b)) == Add(Part3(a), Part3(b))
  {
  }

  lemma Linear4(a: bv32, b: bv32)
    ensures Part4(Xor(a, b)) == Add(Part4(a), Part4(b))
  {
  }

  lemma Linear5(a: bv32, b: bv32)
    ensures Low(Xor(a, b)) == Add(Low(a), Low(b))
  {
  }

  lemma CoeffLinear(a: bv32, b: bv32, k: nat)
    requires k < 6
    ensures Coeff(Xor(a, b), k) == Add(Coeff(a, k), Coeff(b, k))
  {
    hide Xor, Add, Low, Part0, Part1, Part2, Part3, Part4;
    Linear0(a, b);
    Linear1(a, b);
    Linear2(a, b);
    Linear3(a, b);
    Linear4(a, b);
    Linear5(a, b);
  }

  lemma ShiftedHigh(c: bv32)
    ensures Part0(Shifted(c)) == Part1(c) && Part1(Shifted(c)) == Part2(c) && Part2(Shifted(c)) == Part3(c)
  {
  }

  lemma ShiftedLow(c: bv32)
    ensures Part3(Shifted(c)) == Part4(c) && Part4(Shifted(c)) == Low(c) && Low(Shifted(c)) == ZERO
  {
  }

  lemma CoeffShifted(c: bv32, k: nat)
    requires k < 6
    ensures Coeff(Shifted(c), k) == if k == 5 then ZERO else Coeff(c, k + 1)
  {
    hide Shifted, Low, Part0, Part1, Part2, Part3, Part4;
    ShiftedHigh(c);
    ShiftedLow(c);
  }

  lemma CoeffWide(v: bv8, k: nat)
    requires k < 6 && v < 32
    ensures Coeff(Wide(v), k) == if k == 5 then Symbol(v) else ZERO
  {
  }

  function Symbol(v: bv8): Element
    requires v < 32
  {
    Element(v as bv5)
  }

  lemma TopIs(c: bv32)
    requires c < 0x40000000
    ensures Top(c) < 32 && Low(Top(c)) == Coeff(c, 0)
  {
  }

  /** What is fed back is the multiple of the tail. */
  lemma CoeffFeedback(top: bv32, k: nat)
    requires top < 32 && k < 6
    ensures Coeff(Feedback(top), k) == Times(Low(top), TAIL[k])
  {
    if k < 3 {
      FeedbackHigh(top);
    } else {
      FeedbackLow(top);
    }
  }

  lemma FeedbackHigh(top: bv32)
    requires top < 32
    ensures Coeff(Feedback(top), 0) == Times(Low(top), Element(29))
    ensures Coeff(Feedback(top), 1) == Times(Low(top), Element(22))
    ensures Coeff(Feedback(top), 2) == Times(Low(top), Element(20))
  {
  }

  lemma FeedbackLow(top: bv32)
    requires top < 32
    ensures Coeff(Feedback(top), 3) == Times(Low(top), Element(21))
    ensures Coeff(Feedback(top), 4) == Times(Low(top), Element(29))
    ensures Coeff(Feedback(top), 5) == Times(Low(top), Element(18))
  {
  }

  /**
   * One step: the coefficients move up by one, the new value comes last, and
   * the one that falls out at the top adds its multiple of x^6.
   */
  lemma StepCoeff(c: bv32, v: bv8, k: nat)
    requires c < 0x40000000 && v < 32 && k < 6
    ensures Coeff(Step(c, v), k) == Add(if k == 5 then Symbol(v) else Coeff(c, k + 1), Times(Coeff(c, 0), TAIL[k]))
  {
    hide Xor, Shifted, Wide, Feedback, Top, Coeff, Times, Symbol, Low;
    TopIs(c);
    CoeffLinear(Xor(Shifted(c), Wide(v)), Feedback(Top(c)), k);
    CoeffLinear(Shifted(c), Wide(v), k);
    CoeffShifted(c, k);
    CoeffWide(v, k);
    CoeffFeedback(Top(c), k);
  }

  /******* Polynomials *******/

  // Coefficients, highest first.
  type Poly = seq<Element>

  function Zeros(n: nat): (z: Poly)
    ensures |z| == n && forall i | 0 <= i < n :: z[i] == ZERO
  {
    if n == 0 then [] else [ZERO] + Zeros(n - 1)
  }

  function Sum(f: Poly, g: Poly): (r: Poly)
    requires |f| == |g|
    ensures |r| == |f| && forall i | 0 <= i < |r| :: r[i] == Add(f[i], g[i])
  {
    if f == [] then [] else [Add(f[0], g[0])] + Sum(f[1..], g[1..])
  }

  function Scaled(x: Element, f: Poly): (r: Poly)
    ensures |r| == |f| && forall i | 0 <= i < |r| :: r[i] == Times(x, f[i])
  {
    if f == [] then [] else [Times(x, f[0])] + Scaled(x, f[1..])
  }

  /** x^6 + 29x^5 + 22x^4 + 20x^3 + 21x^2 + 29x + 18 (adding and subtracting are the same here). */
  const GENERATOR: Poly := [ONE] + TAIL

  /** The product of a polynomial and the generator. */
  function TimesGenerator(q: Poly): (r: Poly)
    ensures |r| == |q| + 6
  {
    if q == [] then Zeros(6)
    else
      var n := |q| - 1;
      Sum(TimesGenerator(q[..n]) + [ZERO], Zeros(n) + Scaled(q[n], GENERATOR))
  }

  /** f is q times the generator plus r, where r has fewer coefficients than the generator. */
  ghost predicate Divided(f: Poly, q: Poly, r: Poly) {
    |f| == |q| + 6 && |r| == 6 && f == Sum(TimesGenerator(q), Zeros(|q|) + r)
  }

  /** Quotient and remainder are determined. */
  lemma {:induction false} DivisionUnique(f: Poly, q: Poly, r: Poly, q': Poly, r': Poly)
    requires Divided(f, q, r) && Divided(f, q', r')
    ensures q == q' && r == r'
  {
    hide Add, Times;
    var n := |q|;
    forall i | 0 <= i < n ensures TimesGenerator(q)[i] == f[i] == TimesGenerator(q')[i] {
      Neutral(TimesGenerator(q)[i]);
      Neutral(TimesGenerator(q')[i]);
      assert (Zeros(n) + r)[i] == ZERO && (Zeros(n) + r')[i] == ZERO;
    }
    SameQuotient(q, q');
    forall i | 0 <= i < 6 ensures r[i] == r'[i] {
      assert (Zeros(n) + r)[n + i] == r[i] && (Zeros(n) + r')[n + i] == r'[i];
      Cancels(TimesGenerator(q)[n + i], r[i], r'[i]);
    }
  }

  lemma Cancels(x: Element, y: Element, z: Element)
    ensures Add(x, y) == Add(x, z) ==> y == z
    ensures Add(Add(x, y), Add(z, y)) == Add(x, z)
  {
  }

  /** The high coefficients of the product determine the factor, because the generator begins with one. */
  lemma {:induction false} SameQuotient(q: Poly, q': Poly)
    requires |q| == |q'| && forall i | 0 <= i < |q| :: TimesGenerator(q)[i] == TimesGenerator(q')[i]
    ensures q == q'
    decreases |q|
  {
    hide Add, Times, TimesGenerator;
    if q != [] {
      var n := |q| - 1;
      forall i | 0 <= i < n ensures TimesGenerator(q[..n])[i] == TimesGenerator(q'[..n])[i] {
        HighCoefficient(q, i);
        HighCoefficient(q', i);
        Neutral(TimesGenerator(q[..n])[i]);
        Neutral(TimesGenerator(q'[..n])[i]);
      }
      SameQuotient(q[..n], q'[..n]);
      HighCoefficient(q, n);
      HighCoefficient(q', n);
      Cancels(TimesGenerator(q[..n])[n], q[n], q'[n]);
      assert q == q[..n] + [q[n]] && q' == q'[..n] + [q'[n]];
    }
  }

  /** The multiple of the generator that the last coefficient adds. */
  lemma {:induction false} LastAt(n: nat, d: Element, i: nat)
    requires i < n + 7
    ensures (Zeros(n) + Scaled(d, GENERATOR))[i] == if i < n then ZERO else if i == n then d else Times(d, TAIL[i - n - 1])
  {
    hide Times;
    Neutral(d);
    assert i > n ==> GENERATOR[i - n] == TAIL[i - n - 1];
    assert GENERATOR[0] == ONE;
  }

  /** The product with one more coefficient. */
  lemma {:induction false} ProductAt(q: Poly, d: Element, i: nat)
    requires i < |q| + 7
    ensures TimesGenerator(q + [d])[i] ==
            Add(if i < |q| + 6 then TimesGenerator(q)[i] else ZERO,
                if i < |q| then ZERO else if i == |q| then d else Times(d, TAIL[i - |q| - 1]))
  {
    hide Add, Times, Zeros, Sum, Scaled;
    assert (q + [d])[..|q|] == q && (q + [d])[|q|] == d;
    LastAt(|q|, d, i);
  }

  lemma {:induction false} HighCoefficient(q: Poly, i: nat)
    requires i < |q|
    ensures var n := |q| - 1;
            TimesGenerator(q)[i] == Add(TimesGenerator(q[..n])[i], if i == n then q[n] else ZERO)
  {
    hide Add, Times, TimesGenerator;
    var n := |q| - 1;
    assert q == q[..n] + [q[n]];
    ProductAt(q[..n], q[n], i);
  }

  /******* The checksum is a remainder *******/

  /** The coefficients of a packed remainder. */
  function Unpacked(c: bv32): (r: Poly)
    ensures |r| == 6
  {
    [Coeff(c, 0), Coeff(c, 1), Coeff(c, 2), Coeff(c, 3), Coeff(c, 4), Coeff(c, 5)]
  }

  function Elements(x: Data): (r: Poly)
    requires FiveBit(x)
    ensures |r| == |x| && forall i | 0 <= i < |r| :: x[i] < 32 && r[i] == Symbol(x[i])
  {
    if x == [] then [] else [Symbol(x[0])] + Elements(x[1..])
  }

  /** The polynomial of an input: a one and then its values. */
  function Input(x: Data): (r: Poly)
    requires FiveBit(x)
    ensures |r| == |x| + 6
  {
    Zeros(5) + [ONE] + Elements(x)
  }

  lemma {:induction false} OneMore(c: bv32, v: bv8, q: Poly, f: Poly)
    requires c < 0x40000000 && v < 32 && Divided(f, q, Unpacked(c))
    ensures Divided(f + [Symbol(v)], q + [Coeff(c, 0)], Unpacked(Step(c, v)))
  {
    hide Step, Coeff, Add, Times, Symbol, Zeros, Sum, Scaled, TimesGenerator;
    var n, d := |q|, Coeff(c, 0);
    var q' := q + [d];
    var r, r' := Unpacked(c), Unpacked(Step(c, v));
    assert q'[..n] == q;
    var g := f + [Symbol(v)];
    var product := TimesGenerator(q');
    forall i | 0 <= i < n + 7 ensures g[i] == Add(product[i], (Zeros(n + 1) + r')[i]) {
      ProductAt(q, d, i);
      if i < n {
        Neutral(TimesGenerator(q)[i]);
        assert (Zeros(n) + r)[i] == ZERO;
      } else if i == n {
        assert (Zeros(n) + r)[n] == d;
        Neutral(Add(TimesGenerator(q)[n], d));
      } else {
        var k := i - n - 1;
        StepCoeff(c, v, k);
        Commutes(d, TAIL[k]);
        assert (Zeros(n + 1) + r')[i] == r'[k] == Coeff(Step(c, v), k);
        if k < 5 {
          assert (Zeros(n) + r)[i] == r[k + 1] == Coeff(c, k + 1);
          Reorder(TimesGenerator(q)[i], Times(d, TAIL[k]), Coeff(c, k + 1));
        } else {
          Reorder(ZERO, Times(d, TAIL[k]), Symbol(v));
          Neutral(Symbol(v));
        }
      }
    }
    assert g == Sum(product, Zeros(n + 1) + r');
  }

  lemma Reorder(a: Element, t: Element, b: Element)
    ensures Add(Add(a, t), Add(b, t)) == Add(a, b)
  {
  }

  /**
   * The checksum of an input is the remainder of its polynomial modulo the
   * generator; by DivisionUnique there is no other.
   */
  lemma {:induction false} PolyModIsRemainder(x: Data) returns (q: Poly)
    requires FiveBit(x)
    ensures PolyMod(x) < 0x40000000 && Divided(Input(x), q, Unpacked(PolyMod(x)))
  {
    hide Step, Coeff, TimesGenerator, Sum;
    if x == [] {
      q := [];
      StartDivided();
    } else {
      var n := |x| - 1;
      q := PolyModIsRemainder(x[..n]);
      var c := PolyMod(x[..n]);
      OneMore(c, x[n], q, Input(x[..n]));
      ElementsAppend(x[..n], x[n]);
      assert x == x[..n] + [x[n]];
      assert Input(x) == Input(x[..n]) + [Symbol(x[n])];
      StepInRange(c, x[n]);
      q := q + [Coeff(c, 0)];
    }
  }

  lemma StartDivided()
    ensures Divided(Input([]), [], Unpacked(1))
  {
    assert Unpacked(1) == [ZERO, ZERO, ZERO, ZERO, ZERO, ONE];
    assert Zeros(5) == [ZERO, ZERO, ZERO, ZERO, ZERO];
    assert Zeros(6) == [ZERO, ZERO, ZERO, ZERO, ZERO, ZERO];
  }

  lemma {:induction false} ElementsAppend(x: Data, v: bv8)
    requires FiveBit(x) && v < 32
    ensures FiveBit(x + [v]) && Elements(x + [v]) == Elements(x) + [Symbol(v)]
  {
    assert forall i | 0 <= i < |x| + 1 :: Elements(x + [v])[i] == (Elements(x) + [Symbol(v)])[i];
  }

  /** A sequence of values is accepted exactly if that remainder is one. */
  lemma AcceptedIsOne(x: Data)
    requires FiveBit(x)
    ensures VerifyChecksum(x) <==> Unpacked(PolyMod(x)) == [ZERO, ZERO, ZERO, ZERO, ZERO, ONE]
  {
    hide PolyMod, Divided, Input;
    var q := PolyModIsRemainder(x);
    UnpackedOne(PolyMod(x));
  }

  lemma UnpackedOne(c: bv32)
    requires c < 0x40000000
    ensures c == 1 <==> Unpacked(c) == [ZERO, ZERO, ZERO, ZERO, ZERO, ONE]
  {
  }
}
