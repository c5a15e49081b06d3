/** Optional values and the outcome of a lookup that can fail. */
module Wrappers {

  /** A value that may be absent (a missing `completedAt`, say). */
  datatype Option<+T> = None | Some(value: T)

  /** The outcome of a service call: its value, or the message of the error it throws. */
  datatype Result<+T> = Ok(value: T) | Err(message: string)
}
