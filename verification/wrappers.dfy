/** Java's `null` results and thrown exceptions, as values. */
module Wrappers {

  /** A possibly-absent value: `None` plays the role of Java's `null`. */
  datatype Option<+T> = None | Some(value: T)

  /** Either a value or the error the Java code would throw. */
  datatype Result<+T, +E> = Ok(value: T) | Err(error: E)
}
