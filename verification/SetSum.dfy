/** Sums of a weight over a finite set. */
module SetSum {
  ghost function Sum<T>(w: T -> int, s: set<T>): int {
    if s == {} then 0
    else
      var x :| x in s;
      Sum(w, s - {x}) + w(x)
  }

  lemma {:induction false} SumRemove<T>(w: T -> int, s: set<T>, x: T)
    requires x in s
    ensures Sum(w, s) == Sum(w, s - {x}) + w(x)
  {
    var y :| y in s && Sum(w, s) == Sum(w, s - {y}) + w(y);
    if y != x {
      SumRemove(w, s - {y}, x);
      SumRemove(w, s - {x}, y);
      assert s - {y} - {x} == s - {x} - {y};
    }
  }

  lemma SumAdd<T>(w: T -> int, s: set<T>, x: T)
    requires x !in s
    ensures Sum(w, s + {x}) == Sum(w, s) + w(x)
  {
    SumRemove(w, s + {x}, x);
    assert s + {x} - {x} == s;
  }

  lemma {:induction false} SumUnion<T>(w: T -> int, a: set<T>, b: set<T>)
    requires a !! b
    ensures Sum(w, a + b) == Sum(w, a) + Sum(w, b)
  {
    if a == {} {
      assert a + b == b;
    } else {
      var x :| x in a;
      SumUnion(w, a - {x}, b);
      SumRemove(w, a, x);
      SumRemove(w, a + b, x);
      assert a + b - {x} == (a - {x}) + b;
    }
  }

  lemma {:induction false} SumNonNegative<T(!new)>(w: T -> int, s: set<T>)
    requires forall t :: w(t) >= 0
    ensures Sum(w, s) >= 0
  {
    if s != {} {
      var x :| x in s;
      SumRemove(w, s, x);
      SumNonNegative(w, s - {x});
    }
  }

  lemma SumSubset<T(!new)>(w: T -> int, a: set<T>, b: set<T>)
    requires a <= b && forall t :: w(t) >= 0
    ensures Sum(w, a) <= Sum(w, b)
  {
    SumUnion(w, a, b - a);
    SumNonNegative(w, b - a);
    assert a + (b - a) == b;
  }

  /** Only the weights of the members matter. */
  lemma {:induction false} SumSame<T>(w: T -> int, v: T -> int, s: set<T>)
    requires forall x | x in s :: w(x) == v(x)
    ensures Sum(w, s) == Sum(v, s)
  {
    if s != {} {
      var x :| x in s;
      SumRemove(w, s, x);
      SumRemove(v, s, x);
      SumSame(w, v, s - {x});
    }
  }
}
