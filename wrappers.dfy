/** Option and Result: Python's `None` and raised exceptions, made explicit. */
module Wrappers {

  datatype Option<+T> = None | Some(value: T)

  /** A call that either returns a value or raises the error `error`. */
  datatype Result<+R, +E> = Ok(value: R) | Err(error: E)

  /** A call that returns nothing, or raises. */
  datatype Outcome<+E> = Pass | Fail(error: E)
}
