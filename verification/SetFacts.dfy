/** Small facts about finite sets. */
module SetFacts {
  lemma EmptyOrInhabited(s: set<int>)
    ensures s == {} || exists x :: x in s
  {
    if !(exists x :: x in s) {
      assert s == {};
    }
  }

  lemma HasLeast(s: set<int>)
    requires |s| > 0
    ensures exists m :: m in s && forall k | k in s :: m <= k
  {
    EmptyOrInhabited(s);
    var x :| x in s;
    var rest := s - {x};
    assert s == rest + {x};
    if |rest| > 0 {
      HasLeast(rest);
      var m :| m in rest && forall k | k in rest :: m <= k;
      var least := if x < m then x else m;
      assert least in s && forall k | k in s :: least <= k;
    } else {
      assert forall k | k in s :: x <= k;
    }
  }

  ghost function Least(s: set<int>): (m: int)
    requires |s| > 0
    ensures m in s && forall k | k in s :: m <= k
  {
    HasLeast(s);
    var m :| m in s && forall k | k in s :: m <= k;
    m
  }

  lemma {:induction false} SubsetSize<T>(a: set<T>, b: set<T>)
    requires a <= b
    ensures |a| <= |b|
    decreases |b|
  {
    assert b == a + (b - a);
  }

  /** The naturals below n. */
  ghost function Below(n: nat): (s: set<int>)
    ensures forall i :: i in s <==> 0 <= i < n
    ensures |s| == n
  {
    if n == 0 then {} else Below(n - 1) + {n - 1}
  }
}
