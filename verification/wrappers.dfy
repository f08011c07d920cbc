/** Optional values and explicit failures, used instead of Java's null and exceptions. */
module Wrappers {

  /** A value that may be absent: SQL NULL in a cell, Java null from a getter. */
  datatype Option<+T> = None | Some(value: T)

  /** Either a result or the reason the operation failed. */
  datatype Result<+T, +E> = Ok(value: T) | Err(error: E)
}
