/** Optional values and results with an error message, standing for Java's `null` and exceptions. */
module Wrappers {
  datatype Option<+T> = None | Some(value: T)

  /** `Err` carries the message of the exception the Java code throws. */
  datatype Result<+T> = Ok(value: T) | Err(error: string)
}
