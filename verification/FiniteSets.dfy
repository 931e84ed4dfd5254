/** Sizes of finite sets. */
module FiniteSets {

  /** A subset has at most as many elements, and as many only if it is the whole set; the code compares
      sizes only. */
  lemma {:induction false} SubsetCount<T>(a: set<T>, b: set<T>)
    requires a <= b
    ensures |a| <= |b| && (|a| == |b| <==> a == b)
    decreases |a|
  {
    if x :| x in a {
      SubsetCount(a - {x}, b - {x});
      assert a == a - {x} + {x} && b == b - {x} + {x};
    }
  }
}
