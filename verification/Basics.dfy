/** What every part of the model uses. */
module Basics {
  datatype Option<T> = None | Some(value: T)
  datatype Result<T, E> = Success(value: T) | Failure(error: E)

  type byte = n: nat | n < 256

  ghost predicate Distinct<T(!new)>(s: seq<T>) {
    forall i, j :: 0 <= i < j < |s| ==> s[i] != s[j]
  }
}
