/** Optional values and results with an error, used where the Java code has
    nullable references, `Optional<T>` and exceptions. */
module Wrappers {

  /** A value that may be missing: Java's `null` or an empty `Optional`. */
  datatype Option<+T> = None | Some(value: T)

  /** Either a value or the error the Java code would have thrown. */
  datatype Result<+T, +E> = Success(value: T) | Failure(error: E)
}
