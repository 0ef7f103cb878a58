/** Java's nullable references and thrown exceptions, as values. */
module Wrappers {

  /** A possibly-null reference: `None` stands for Java's `null`. */
  datatype Option<+T> = None | Some(value: T)

  /** Either a returned value or an exception that escaped the call. */
  datatype Result<+T, +E> = Ok(value: T) | Err(error: E)
}
