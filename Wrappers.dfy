/** Option and Result, used for the source's None values and raised exceptions. */
module Wrappers {

  datatype Option<+T> = None | Some(value: T)

  datatype Result<+T, +E> = Ok(value: T) | Err(error: E)

  /** A call that either completes or raises `error`. */
  datatype Outcome<+E> = Pass | Fail(error: E)
}
