/** Option and Result: Java's `null` and thrown exceptions, made explicit. */
module Wrappers {

  /** A value that may be absent; `None` stands for Java's `null`. */
  datatype Option<+T> = None | Some(value: T)

  /** The outcome of an operation that may abort with an exception. */
  datatype Result<+T, +E> = Ok(value: T) | Err(error: E)
}
