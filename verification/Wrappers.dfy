/** What modules of all components share. */
module Wrappers {
  datatype Option<+T> = None | Some(value: T)

  lemma Fewer<T>(t: set<T>, s: set<T>)
    requires t < s
    ensures |t| < |s|
  {
    assert s == t + (s - t) && s - t != {};
  }
}
