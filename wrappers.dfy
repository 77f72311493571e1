/** Option, Result and Outcome values used in place of Java's null and exceptions. */
module Wrappers {

  datatype Option<+T> = None | Some(value: T)

  datatype Result<+T, +E> = Ok(value: T) | Err(error: E)

  /** The outcome of a void Java method: it returns normally or throws `error`. */
  datatype Outcome<+E> = Pass | Fail(error: E)
}
