/** Optional values and fallible results, standing in for the source's
    `T | null` / `T | undefined` values and for observables that either emit
    a value or error with a message. */
module Wrappers {

  datatype Option<+T> = None | Some(value: T)

  /** The outcome of an operation that may fail with a human-readable message
      (an RxJS `throwError(() => new Error(message))`). */
  datatype Result<+T> = Ok(value: T) | Err(message: string)
}
