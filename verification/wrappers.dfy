/** Optional values and outcomes, shared by every module of the store model. */
module Wrappers {

  /** An optional value: Python's `None` or a present value. */
  datatype Option<+T> = None | Some(value: T)

  /** The outcome of a command that may be refused. */
  datatype Result<+T, +E> = Ok(value: T) | Err(error: E)
}
