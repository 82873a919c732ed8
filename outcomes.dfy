/** Optional values and the outcome of an operation that can throw. */
module Outcomes {

  /** A value that may be absent: `undefined` / `null` in the application. */
  datatype Option<+T> = None | Some(value: T)

  /** The outcome of an asynchronous call: resolved with a value, or rejected with an error message. */
  datatype Result<+T> = Ok(value: T) | Err(message: string)
}
