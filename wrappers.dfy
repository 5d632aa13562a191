/** Failure-carrying results shared by the editor model. */
module Wrappers {

  /** A value that may be absent (JavaScript's `null`, `undefined` or a thrown lookup). */
  datatype Option<+T> = None | Some(value: T)

  /** The outcome of an operation that either succeeds or returns an `Error` value. */
  datatype Outcome<+E> = Pass | Fail(error: E)
}
