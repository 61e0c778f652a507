/** Failure-carrying result types shared by the schema models. */
module Wrappers {

  datatype Option<+T> = None | Some(value: T)

  /** A computed value, or the error the source throws or reports instead. */
  datatype Result<+T, +E> = Ok(value: T) | Err(error: E)

  /** The outcome of an operation that only changes state: it passes or fails with an error. */
  datatype Outcome<+E> = Pass | Fail(error: E)
}
