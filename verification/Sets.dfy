/** Sequences without repeats, and the sizes of sets. */
module Sets {

  predicate NoRepeats<T(==)>(xs: seq<T>) {
    forall i, j :: 0 <= i < j < |xs| ==> xs[i] != xs[j]
  }

  /** The non-empty texts of a list. */
  function Distinct(xs: seq<string>): set<string> {
    set x | x in xs && x != ""
  }

  lemma SubsetCard<T>(a: set<T>, b: set<T>)
    requires a <= b
    ensures |a| <= |b| && (|a| == |b| ==> a == b)
  {
    assert b == a + (b - a);
  }

  /** A sequence without repeats is as long as the set of its elements. */
  lemma {:induction false} CardOf<T>(xs: seq<T>, s: set<T>)
    requires NoRepeats(xs) && forall x :: x in s <==> x in xs
    ensures |s| == |xs|
  {
    if xs == [] {
      assert s == {};
    } else {
      var n := |xs| - 1;
      assert xs == xs[..n] + [xs[n]];
      CardOf(xs[..n], s - {xs[n]});
    }
  }
}
