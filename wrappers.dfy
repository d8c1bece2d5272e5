/** Optional values and results with an error, as used throughout the model. */
module Wrappers {

  /** Java's nullable reference / Optional: None stands for null or Optional.empty(). */
  datatype Option<+T> = None | Some(value: T)

  /** A value or the exception that a Java method would have thrown instead. */
  datatype Result<+T, +E> = Ok(value: T) | Err(error: E)
}
