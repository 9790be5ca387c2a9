/** Small wrappers shared by the task modules. */
module Wrappers {

  /** A value that may be missing: Python's `Optional[...]`, with `None` for null. */
  datatype Option<+T> = None | Some(value: T)

  /** The outcome of a store operation: a value, or the domain error it raised. */
  datatype Result<+R, +E> = Success(value: R) | Failure(error: E)
}
