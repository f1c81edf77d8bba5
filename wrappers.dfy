/** Failure-compatible result types shared by the other modules. */
module Wrappers {

  /** A value that may be absent (a nil pointer in the source). */
  datatype Maybe<+T> = None | Some(value: T)

  /** The outcome of an operation that returns only an error. */
  datatype Outcome<+E> = Pass | Fail(error: E)
}
