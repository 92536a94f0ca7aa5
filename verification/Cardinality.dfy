/** Sizes of finite sets, as the termination measures of the traversals need them. */
module Cardinality {
  lemma SubsetSize<T>(a: set<T>, b: set<T>)
    requires a <= b
    ensures |a| <= |b|
    ensures a != b ==> |a| < |b|
  {
    assert b == a + (b - a);
    if |b - a| == 0 {
      assert b - a == {};
    }
  }

  /** One more member found leaves one fewer to find. */
  lemma OneFewerLeft<T>(all: set<T>, found: set<T>, x: T)
    requires x in all && x !in found
    ensures |all - (found + {x})| < |all - found|
  {
    SubsetSize(all - (found + {x}), all - found);
    assert x in all - found;
  }
}
