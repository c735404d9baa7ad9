/** Values that may be absent, and elements of sets. */
module Wrappers {
  datatype Option<+T> = None | Some(value: T)

  /** Any element of a set that has one. */
  lemma PickOne<T>(s: set<T>) returns (x: T)
    requires s != {}
    ensures x in s
  {
    x :| x in s;
  }
}
