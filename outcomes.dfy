/** Optional values and the two results of an awaited remote call. */
module Outcomes {

  datatype Option<T> = None | Some(value: T)

  /** What an awaited call yields: its value, or the `Error` it rejected
      with, carrying the error's message. */
  datatype Outcome<T> = Success(value: T) | Failure(message: string)
}
