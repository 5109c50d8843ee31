/** Numbers written as digits, least significant first. */
module Positional {
  import opened Arith

  ghost function Val(b: nat, d: seq<nat>): nat {
    if d == [] then 0 else Val(b, d[..|d| - 1]) + d[|d| - 1] * Pow(b, |d| - 1)
  }

  ghost predicate Digits(b: nat, d: seq<nat>) {
    forall i | 0 <= i < |d| :: d[i] < b
  }

  /** No leading zero: the most significant digit is not zero. */
  ghost predicate Canonical(d: seq<nat>) {
    d == [] || d[|d| - 1] != 0
  }

  lemma ValStep(b: nat, d: seq<nat>, i: nat)
    requires i < |d|
    ensures Val(b, d[..i + 1]) == Val(b, d[..i]) + d[i] * Pow(b, i)
  {
    assert d[..i + 1][..i] == d[..i];
  }

  lemma {:induction false} ValBound(b: nat, d: seq<nat>)
    requires Digits(b, d) && b > 0
    ensures Val(b, d) < Pow(b, |d|)
  {
    if d != [] {
      var n := |d| - 1;
      ValBound(b, d[..n]);
      InPlace(Val(b, d[..n]), d[n], b, Pow(b, n));
      assert Pow(b, |d|) == b * Pow(b, n);
    }
  }

  lemma InPlace(v: nat, x: nat, b: nat, p: nat)
    requires v < p && x < b
    ensures v + x * p < b * p
  {
    MulLe(x + 1, b, p);
  }

  lemma {:induction false} ValCons(b: nat, x: nat, d: seq<nat>)
    ensures Val(b, [x] + d) == x + b * Val(b, d)
  {
    var s := [x] + d;
    if d == [] {
      assert s[..0] == [] && Pow(b, 0) == 1;
    } else {
      var n := |d| - 1;
      ValCons(b, x, d[..n]);
      assert s[..|s| - 1] == [x] + d[..n];
      assert Pow(b, n + 1) == b * Pow(b, n);
      Distribute(b, Val(b, d[..n]), d[n], Pow(b, n));
    }
  }

  lemma Distribute(b: nat, v: nat, x: nat, p: nat)
    ensures b * v + x * (b * p) == b * (v + x * p)
  {
  }

  /** Digits of the same number of places are determined by the value. */
  lemma {:induction false} SamePlaces(b: nat, d: seq<nat>, e: seq<nat>)
    requires b > 0 && Digits(b, d) && Digits(b, e) && |d| == |e| && Val(b, d) == Val(b, e)
    ensures d == e
  {
    if d != [] {
      var n := |d| - 1;
      var p := Pow(b, n);
      ValBound(b, d[..n]);
      ValBound(b, e[..n]);
      Unique(Val(b, d), p, d[n], Val(b, d[..n]));
      Unique(Val(b, e), p, e[n], Val(b, e[..n]));
      SamePlaces(b, d[..n], e[..n]);
      assert d == d[..n] + [d[n]] && e == e[..n] + [e[n]];
    }
  }

  lemma CanonicalBound(b: nat, d: seq<nat>)
    requires b > 0 && Digits(b, d) && Canonical(d) && d != []
    ensures Pow(b, |d| - 1) <= Val(b, d) < Pow(b, |d|)
  {
    ValBound(b, d);
    MulLe(1, d[|d| - 1], Pow(b, |d| - 1));
  }

  /** Without leading zeros the places are determined too. */
  lemma CanonicalUnique(b: nat, d: seq<nat>, e: seq<nat>)
    requires b > 0 && Digits(b, d) && Digits(b, e) && Canonical(d) && Canonical(e) && Val(b, d) == Val(b, e)
    ensures d == e
  {
    if d != [] {
      CanonicalBound(b, d);
    }
    if e != [] {
      CanonicalBound(b, e);
    }
    if |d| < |e| {
      PowMonotoneExp(b, |d|, |e| - 1);
    } else if |e| < |d| {
      PowMonotoneExp(b, |e|, |d| - 1);
    }
    SamePlaces(b, d, e);
  }

  /** The digits of a number, without leading zeros. */
  ghost function ToDigits(b: nat, n: nat): (d: seq<nat>)
    requires b > 1
    ensures Digits(b, d) && Canonical(d)
  {
    if n == 0 then []
    else
      Shrinks(b, n);
      var rest := ToDigits(b, n / b);
      assert n / b == 0 ==> n % b == n;
      assert rest == [] <==> n / b == 0;
      [n % b] + rest
  }

  lemma Shrinks(b: nat, n: nat)
    requires b > 1 && n > 0
    ensures n / b < n && (n / b == 0 ==> n % b == n)
  {
    DivMod(n, b);
    if n / b > 0 {
      MulLe(2, b, n / b);
    }
  }

  lemma {:induction false} ValToDigits(b: nat, n: nat)
    requires b > 1
    ensures Val(b, ToDigits(b, n)) == n
  {
    hide Val;
    if n == 0 {
      ValNothing(b);
    } else {
      Shrinks(b, n);
      var q, r := n / b, n % b;
      DivMod(n, b);
      ValToDigits(b, q);
      ValCons(b, r, ToDigits(b, q));
    }
  }

  lemma ValNothing(b: nat)
    ensures Val(b, []) == 0
  {
  }

  /** Adding zeros at the top changes nothing. */
  lemma {:induction false} ValZeros(b: nat, d: seq<nat>, n: nat)
    requires n <= |d| && forall i | n <= i < |d| :: d[i] == 0
    ensures Val(b, d) == Val(b, d[..n])
    decreases |d|
  {
    if n < |d| {
      var m := |d| - 1;
      ValZeros(b, d[..m], n);
      assert d[..m][..n] == d[..n];
    } else {
      assert d[..n] == d;
    }
  }

  /** One place of a sum with carry: n splits into the digit that stays and the carry that goes on. */
  lemma CarryNext(v: nat, carry: nat, p: nat, t: nat, sum: nat, base: nat)
    requires base > 0 && v + carry * p == sum
    ensures var n := carry + t; v + n % base * p + n / base * (base * p) == sum + t * p
  {
    var n := carry + t;
    DivMod(n, base);
    MulAssoc(n / base, base, p);
    assert (n / base * base + n % base) * p == n / base * base * p + n % base * p;
    assert n * p == carry * p + t * p;
  }
}
