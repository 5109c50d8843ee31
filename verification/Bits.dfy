/** Bitwise and, or of natural numbers, and where they agree with arithmetic. */
module Bits {
  import opened Arith

  /** Is the bit at a position set? */
  predicate Bit(x: nat, i: nat) {
    x / Pow(2, i) % 2 == 1
  }

  function Or(x: nat, y: nat): nat
    decreases x + y
  {
    if x == 0 && y == 0 then 0
    else (if x % 2 == 1 || y % 2 == 1 then 1 else 0) + 2 * Or(x / 2, y / 2)
  }

  function And(x: nat, y: nat): nat
    decreases x + y
  {
    if x == 0 && y == 0 then 0
    else (if x % 2 == 1 && y % 2 == 1 then 1 else 0) + 2 * And(x / 2, y / 2)
  }

  lemma {:induction false} HigherBit(x: nat, i: nat)
    requires i > 0
    ensures Bit(x, i) == Bit(x / 2, i - 1)
  {
    PowNext(2, i - 1);
    DivDiv(x, 2, Pow(2, i - 1));
  }

  lemma {:induction false} LowestBit(x: nat)
    ensures Bit(x, 0) <==> x % 2 == 1
  {
    assert x / 1 == x;
  }

  /** The lowest bit and the rest of both results. */
  lemma {:induction false} Halves(x: nat, y: nat)
    ensures Or(x, y) / 2 == Or(x / 2, y / 2) && (Or(x, y) % 2 == 1 <==> x % 2 == 1 || y % 2 == 1)
    ensures And(x, y) / 2 == And(x / 2, y / 2) && (And(x, y) % 2 == 1 <==> x % 2 == 1 && y % 2 == 1)
  {
  }

  /** Every bit of the results is the disjunction or conjunction of the two bits. */
  lemma {:induction false} BitsOfBoth(x: nat, y: nat, i: nat)
    ensures Bit(Or(x, y), i) <==> Bit(x, i) || Bit(y, i)
    ensures Bit(And(x, y), i) <==> Bit(x, i) && Bit(y, i)
    decreases i
  {
    hide Bit, Or, And;
    Halves(x, y);
    if i == 0 {
      LowestBit(x);
      LowestBit(y);
      LowestBit(Or(x, y));
      LowestBit(And(x, y));
    } else {
      BitsOfBoth(x / 2, y / 2, i - 1);
      HigherBit(x, i);
      HigherBit(y, i);
      HigherBit(Or(x, y), i);
      HigherBit(And(x, y), i);
    }
  }

  lemma {:induction false} OrZero(x: nat)
    ensures Or(0, x) == x
  {
    if x > 0 {
      OrZero(x / 2);
    }
  }

  lemma {:induction false} OrCommutes(x: nat, y: nat)
    ensures Or(x, y) == Or(y, x)
    decreases x + y
  {
    if x > 0 || y > 0 {
      OrCommutes(x / 2, y / 2);
    }
  }

  lemma {:induction false} OrAssociates(x: nat, y: nat, z: nat)
    ensures Or(Or(x, y), z) == Or(x, Or(y, z))
    decreases x + y + z
  {
    if x > 0 || y > 0 || z > 0 {
      OrAssociates(x / 2, y / 2, z / 2);
      Halves(x, y);
      Halves(y, z);
      Halves(Or(x, y), z);
      Halves(x, Or(y, z));
    }
  }

  lemma {:induction false} AndSame(x: nat)
    ensures And(x, x) == x
  {
    if x > 0 {
      AndSame(x / 2);
    }
  }

  /** A number and a multiple of a power of two above it have no bits in common. */
  lemma {:induction false} OrIsPlus(c: nat, y: nat, s: nat)
    requires c < Pow(2, s)
    ensures Or(c, y * Pow(2, s)) == c + y * Pow(2, s)
    decreases s
  {
    hide Or, Pow;
    if s == 0 {
      PowZero(2);
      OrZero(y);
    } else {
      var q := Pow(2, s - 1);
      PowNext(2, s - 1);
      MulAssoc(y, 2, q);
      MulAssoc(2, y, q);
      OrIsPlus(c / 2, y, s - 1);
      DoubleOr(c, y * q);
    }
  }

  lemma {:induction false} DoubleOr(c: nat, z: nat)
    ensures Or(c, 2 * z) == c % 2 + 2 * Or(c / 2, z)
  {
  }

  lemma {:induction false} AndZero(x: nat)
    ensures And(x, 0) == 0
  {
    if x > 0 {
      AndZero(x / 2);
    }
  }

  lemma {:induction false} DoubleAnd(x: nat, z: nat)
    ensures And(x, 2 * z) == 2 * And(x / 2, z)
    ensures And(x, 2 * z + 1) == x % 2 + 2 * And(x / 2, z)
  {
  }

  /** A mask with a single bit tests that bit. */
  lemma {:induction false} AndPower(x: nat, i: nat)
    ensures And(x, Pow(2, i)) != 0 <==> Bit(x, i)
    decreases i
  {
    hide And, Pow, Bit;
    if i == 0 {
      PowZero(2);
      DoubleAnd(x, 0);
      AndZero(x / 2);
      LowestBit(x);
    } else {
      PowNext(2, i - 1);
      DoubleAnd(x, Pow(2, i - 1));
      AndPower(x / 2, i - 1);
      HigherBit(x, i);
    }
  }

  /** A mask of low ones keeps the remainder. */
  lemma {:induction false} AndMask(x: nat, i: nat)
    ensures Pow(2, i) >= 1 && And(x, Pow(2, i) - 1) == x % Pow(2, i)
    decreases i
  {
    hide And, Pow;
    if i == 0 {
      PowZero(2);
      AndZero(x);
    } else {
      PowNext(2, i - 1);
      AndMask(x / 2, i - 1);
      LongerMask(x, Pow(2, i - 1), Pow(2, i));
    }
  }

  lemma {:induction false} LongerMask(x: nat, p: nat, q: nat)
    requires p > 0 && q == 2 * p && And(x / 2, p - 1) == x / 2 % p
    ensures And(x, q - 1) == x % q
  {
    hide And;
    DoubleAnd(x, p - 1);
    HalfRemainder(x, p);
  }

  lemma {:induction false} HalfRemainder(x: nat, p: nat)
    requires p > 0
    ensures x % (2 * p) == x % 2 + 2 * (x / 2 % p)
  {
    DivMod(x, 2);
    DivMod(x / 2, p);
    var q := x / 2 / p;
    assert x == (q * p + x / 2 % p) * 2 + x % 2;
    assert q * p * 2 == q * (2 * p);
    Unique(x, 2 * p, q, x % 2 + 2 * (x / 2 % p));
  }
}
