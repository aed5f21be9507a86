/** Counting in finite sets. */
module FiniteSets {
  /** A subset is no larger, and a subset of the same size is the whole set. */
  lemma {:induction false} SubsetCount<T>(a: set<T>, b: set<T>)
    requires a <= b
    ensures |a| <= |b|
    ensures |a| == |b| ==> a == b
    decreases |b|
  {
    if a != b {
      var x :| x in b && x !in a;
      SubsetCount(a, b - {x});
    }
  }
}
