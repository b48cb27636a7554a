/** Option and Result, the two failure-carrying shapes the model uses. */
module Wrappers {

  /** A value that may be absent: JavaScript's `undefined`/`null` or an SQL row that is not there. */
  datatype Option<+T> = None | Some(value: T)

  /** The outcome of an operation that either returns a value or throws an error. */
  datatype Result<+T, +E> = Ok(value: T) | Err(error: E)
}
