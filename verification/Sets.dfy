/** Finite-set facts used in several modules. */
module Sets {

  /** Two sets matched one to one by f and its inverse g have the same size. */
  lemma {:induction false} SameSize<X(!new), Y(!new)>(a: set<X>, b: set<Y>, f: X -> Y, g: Y -> X)
    requires forall x :: x in a ==> f(x) in b && g(f(x)) == x
    requires forall y :: y in b ==> g(y) in a && f(g(y)) == y
    ensures |a| == |b|
  {
    if x :| x in a {
      SameSize(a - {x}, b - {f(x)}, f, g);
    } else {
      assert forall y :: y in b ==> g(y) in a;
      assert b == {};
    }
  }

  predicate Between(lo: int, x: int, hi: int) {
    lo <= x < hi
  }

  ghost function Interval(lo: int, hi: int): set<int> {
    set x: int | lo <= x < hi && Between(lo, x, hi)
  }

  lemma {:induction false} IntervalSize(lo: int, hi: int)
    requires lo <= hi
    ensures |Interval(lo, hi)| == hi - lo
    decreases hi - lo
  {
    if lo < hi {
      IntervalSize(lo, hi - 1);
      assert Interval(lo, hi) == Interval(lo, hi - 1) + {hi - 1};
    } else {
      assert Interval(lo, hi) == {};
    }
  }

  lemma DifferenceSize<T>(a: set<T>, b: set<T>)
    requires b <= a
    ensures |a - b| == |a| - |b|
  {
    assert a == (a - b) + b;
  }

  ghost function Ids(lo: nat, hi: nat): set<nat> {
    set x: nat | lo <= x < hi && Between(lo, x, hi)
  }

  lemma {:induction false} IdsSize(lo: nat, hi: nat)
    requires lo <= hi
    ensures |Ids(lo, hi)| == hi - lo
    decreases hi - lo
  {
    if lo < hi {
      IdsSize(lo, hi - 1);
      assert Ids(lo, hi) == Ids(lo, hi - 1) + {hi - 1};
    } else {
      assert Ids(lo, hi) == {};
    }
  }

  lemma SubsetSize<T>(a: set<T>, b: set<T>)
    requires a <= b
    ensures |a| <= |b|
  {
    DifferenceSize(b, a);
  }

  ghost predicate Distinct<T>(s: seq<T>) {
    forall i, j :: 0 <= i < j < |s| ==> s[i] != s[j]
  }
}
