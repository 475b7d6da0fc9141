/** Failure-carrying values used in place of Go's `(value, ok)` and `(value, error)` returns. */
module Outcomes {

  /** A lookup that may find nothing (`(x, false)` in Go). */
  datatype Option<+T> = None | Some(value: T)

  /** A value or an error (`(x, nil)` / `(nil, err)` in Go). */
  datatype Result<+T, +E> = Success(value: T) | Failure(error: E)

  /** An error return with no value (`nil` / `err` in Go). */
  datatype Outcome<+E> = Pass | Fail(error: E)
}
