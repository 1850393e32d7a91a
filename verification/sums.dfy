/** Sums and means of polarity values, and the set tests of the merge pass. */
module Sums {

  /** Left-to-right sum, as Python's built-in `sum`. */
  function Sum(s: seq<real>): real {
    if s == [] then 0.0 else Sum(s[..|s| - 1]) + s[|s| - 1]
  }

  function Mean(s: seq<real>): real
    requires |s| > 0
  {
    Sum(s) / (|s| as real)
  }

  predicate AllEqual<T(==)>(s: seq<T>) {
    forall i :: 0 <= i < |s| ==> s[i] == s[0]
  }

  lemma {:induction false} SumOfConstant(s: seq<real>, v: real)
    requires forall i :: 0 <= i < |s| ==> s[i] == v
    ensures Sum(s) == (|s| as real) * v
  {
    if s != [] {
      SumOfConstant(s[..|s| - 1], v);
    }
  }

  /** The mean of values that all agree is their common value. */
  lemma MeanOfEqual(s: seq<real>)
    requires |s| > 0 && AllEqual(s)
    ensures Mean(s) == s[0]
  {
    SumOfConstant(s, s[0]);
    var n := |s| as real;
    assert Sum(s) / n == (n * s[0]) / n;
  }

  /** The set of a non-empty list has exactly one element iff all its elements are equal. */
  lemma {:induction false} SingletonSet<T>(s: seq<T>)
    requires |s| > 0
    ensures |set x | x in s| == 1 <==> AllEqual(s)
  {
    var d := set x | x in s;
    assert s[0] in d;
    if AllEqual(s) {
      assert d == {s[0]};
    } else {
      var i :| 0 <= i < |s| && s[i] != s[0];
      assert {s[0], s[i]} <= d;
      assert |{s[0], s[i]}| == 2;
      SubsetCard({s[0], s[i]}, d);
    }
  }

  lemma SubsetCard<T>(a: set<T>, b: set<T>)
    requires a <= b
    ensures |a| <= |b|
  {
    assert b == a + (b - a);
  }
}
