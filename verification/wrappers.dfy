/** Failure-carrying datatypes shared by the whole model. */
module Wrappers {

  /** A value that may be absent. */
  datatype Option<+T> = None | Some(value: T)

  /** A value or the error that prevented computing it. */
  datatype Result<+T, +E> = Ok(value: T) | Err(error: E)

  /** The absence of an error (Go's `nil`), or the error itself. */
  datatype Outcome<+E> = Pass | Fail(error: E)
}
