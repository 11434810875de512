/** What several modules need of options, sets and multisets. */
module Collections {
  datatype Option<+T> = None | Some(value: T)

  /** Some element, always the same. */
  ghost function OneOf<T>(m: multiset<T>): (x: T)
    requires |m| > 0
    ensures x in m
  {
    var x :| x in m;
    x
  }

  predicate Distinct<T(==)>(s: seq<T>) {
    forall i, j :: 0 <= i < j < |s| ==> s[i] != s[j]
  }

  lemma SubsetSize<T>(a: set<T>, b: set<T>)
    requires a <= b
    ensures |a| <= |b|
  {
    assert |b| == |a| + |b - a| by {
      assert a + (b - a) == b;
    }
  }
}
