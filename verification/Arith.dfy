/** Facts about products, quotients and powers that the solver does not find by itself. */
module Arith {
  lemma MulLe(a: int, b: int, c: nat)
    requires a <= b
    ensures a * c <= b * c
  {
  }

  lemma MulStep(m: int, n: int)
    ensures m + m * (n - 1) == m * n
  {
  }

  lemma MulAssoc(a: int, b: int, c: int)
    ensures a * (b * c) == a * b * c
  {
  }

  lemma {:induction false} MulLt(a: int, b: int, c: nat)
    requires a < b && c > 0
    ensures a * c < b * c
  {
    MulLe(a + 1, b, c);
  }

  /** A multiple of d that is closer to zero than d is zero. */
  lemma {:induction false} NoGap(x: int, d: nat)
    requires 0 < x * d + d && x * d < d
    ensures x == 0
  {
    if x >= 1 {
      MulLe(1, x, d);
    } else if x <= -1 {
      MulLe(x, -1, d);
    }
  }

  lemma {:induction false} DivMod(a: nat, d: nat)
    requires d > 0
    ensures a == a / d * d + a % d && 0 <= a % d < d && a / d >= 0
  {
  }

  /** A quotient is determined by its remainder being in range. */
  lemma {:induction false} Unique(a: nat, d: nat, q: int, r: int)
    requires d > 0 && a == q * d + r && 0 <= r < d
    ensures a / d == q && a % d == r
  {
    DivMod(a, d);
    var x := a / d - q;
    assert x * d == a / d * d - q * d;
    NoGap(x, d);
  }

  lemma {:induction false} DivMonotone(a: nat, b: nat, d: nat)
    requires a <= b && d > 0
    ensures a / d <= b / d
  {
    DivMod(a, d);
    DivMod(b, d);
    if a / d > b / d {
      MulLe(b / d + 1, a / d, d);
    }
  }

  lemma {:induction false} DivDiv(x: nat, a: nat, b: nat)
    requires a > 0 && b > 0
    ensures x / a / b == x / (a * b)
  {
    DivMod(x, a);
    DivMod(x / a, b);
    var q, r := x / a / b, x / a % b;
    MulLe(r + 1, b, a);
    assert (q * b + r) * a + x % a == q * (a * b) + (r * a + x % a);
    assert a * b > 0;
    Unique(x, a * b, q, r * a + x % a);
  }

  /******* Powers *******/

  function Pow(b: nat, e: nat): (r: nat)
    ensures b > 0 ==> r > 0
  {
    if e == 0 then 1 else b * Pow(b, e - 1)
  }

  lemma PowZero(b: nat)
    ensures Pow(b, 0) == 1
  {
  }

  lemma PowNext(b: nat, e: nat)
    ensures Pow(b, e + 1) == b * Pow(b, e)
  {
  }

  lemma {:induction false} PowAdd(b: nat, m: nat, n: nat)
    ensures Pow(b, m + n) == Pow(b, m) * Pow(b, n)
  {
    if m > 0 {
      PowAdd(b, m - 1, n);
      assert Pow(b, m + n) == b * Pow(b, m - 1 + n);
      MulAssoc(b, Pow(b, m - 1), Pow(b, n));
    }
  }

  lemma {:induction false} PowPow(b: nat, m: nat, n: nat)
    ensures Pow(Pow(b, m), n) == Pow(b, m * n)
  {
    if n > 0 {
      PowPow(b, m, n - 1);
      PowAdd(b, m, m * (n - 1));
      MulStep(m, n);
    }
  }

  /** Exponents may be swapped. */
  lemma {:induction false} PowSwap(b: nat, m: nat, n: nat)
    ensures Pow(Pow(b, m), n) == Pow(Pow(b, n), m)
  {
    PowPow(b, m, n);
    PowPow(b, n, m);
    assert m * n == n * m;
  }

  lemma {:induction false} PowMonotoneBase(a: nat, b: nat, e: nat)
    requires a <= b
    ensures Pow(a, e) <= Pow(b, e)
  {
    if e > 0 {
      PowMonotoneBase(a, b, e - 1);
      MulLe(a, b, Pow(a, e - 1));
      MulLe(Pow(a, e - 1), Pow(b, e - 1), b);
    }
  }

  lemma {:induction false} PowStrictBase(a: nat, b: nat, e: nat)
    requires a < b && e > 0
    ensures Pow(a, e) < Pow(b, e)
  {
    PowMonotoneBase(a, b, e - 1);
    MulLe(Pow(a, e - 1), Pow(b, e - 1), a);
    MulLt(a, b, Pow(b, e - 1));
  }

  lemma {:induction false} PowMonotoneExp(b: nat, m: nat, n: nat)
    requires b > 0 && m <= n
    ensures Pow(b, m) <= Pow(b, n)
  {
    PowAdd(b, m, n - m);
    MulLe(1, Pow(b, n - m), Pow(b, m));
  }

  /** Taking a root preserves order. */
  lemma {:induction false} RootMonotone(a: nat, b: nat, e: nat)
    requires e > 0 && Pow(a, e) <= Pow(b, e)
    ensures a <= b
  {
    if a > b {
      PowStrictBase(b, a, e);
    }
  }

  lemma {:induction false} BytePower(n: nat)
    ensures Pow(256, n) == Pow(2, 8 * n)
  {
    assert Pow(2, 8) == 256;
    PowPow(2, 8, n);
  }
}
