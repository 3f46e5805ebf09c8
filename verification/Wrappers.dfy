/** Small shared vocabulary: absent values, raised errors, and sequences without repeats. */
module Wrappers {
  // A value that may be Python's `None`.
  datatype Option<+T> = None | Some(value: T)

  // A returned value or a raised exception.
  datatype Result<+T, +E> = Ok(value: T) | Err(error: E)

  predicate NoRepeats<T(==)>(s: seq<T>) {
    forall i, j :: 0 <= i < j < |s| ==> s[i] != s[j]
  }
}
