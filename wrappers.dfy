/** Values that may be absent, as `null`/`undefined` are in JavaScript, and
    computations that may throw. */
module Wrappers {
  datatype Option<T> = None | Some(value: T)

  datatype Result<T> = Success(value: T) | Failure(error: string)
}
