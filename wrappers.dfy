/** Optional values and results with an error message, shared by the other modules. */
module Wrappers {

  /** A value that may be missing: JavaScript's `undefined`/`null` results. */
  datatype Option<+T> = None | Some(value: T)

  /** The outcome of an operation that may throw: a value or the error's message. */
  datatype Result<+T> = Ok(value: T) | Err(message: string)
}
