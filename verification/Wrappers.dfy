/** What several parts share: an optional value, and a fact about finite sets. */
module Wrappers {

  datatype Option<T> = None | Some(value: T)

  lemma SubsetCard(a: set<nat>, b: set<nat>)
    requires a <= b
    ensures |a| <= |b| && (|a| == |b| <==> a == b)
  {
    var rest := b - a;
    assert b == a + rest;
  }
}
