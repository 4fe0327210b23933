/** Option and result types, and one fact about sets, shared by the modules of this model. */
module Wrappers {

  datatype Option<+T> = None | Some(value: T)

  /** The outcome of an operation that returns only an error (Go's `error`). */
  datatype Outcome<+E> = Pass | Fail(error: E)

  /** A value or an error (Go's `(T, error)` pair). */
  datatype Result<+T, +E> = Ok(value: T) | Err(error: E)

  /** A set other than the empty set has a member (lets `:|` pick one from a Go map's keys). */
  lemma HasMember(s: set<int>)
    requires s != {}
    ensures exists x :: x in s
  {
    assert (forall x :: x !in s) ==> s == {};
  }
}
