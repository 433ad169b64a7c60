/** The optional value used for Python's `None`-or-value results, and the
    duplicate-freedom of a list. */
module Wrappers {

  datatype Option<+T> = None | Some(value: T)

  /** No entry of `s` occurs twice. */
  ghost predicate Distinct<T>(s: seq<T>)
  {
    forall i, j :: 0 <= i < j < |s| ==> s[i] != s[j]
  }
}
