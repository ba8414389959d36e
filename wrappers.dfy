/** Optional values and the error-carrying results the services throw. */
module Wrappers {

  /** A value that JavaScript may leave `undefined`. */
  datatype Option<+T> = None | Some(value: T)

  /** The outcome of an operation that either returns a value or throws an
      `Error` whose `message` is `error`. */
  datatype Result<+T> = Ok(value: T) | Err(error: string)
}
