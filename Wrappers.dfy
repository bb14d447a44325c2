/** Option and Result values standing for Java's null references and thrown exceptions. */
module Wrappers {

  /** `None` stands for a Java `null`. */
  datatype Option<+T> = None | Some(value: T)

  /** `Failure` stands for an exception that escapes the modelled method. */
  datatype Result<+T, +E> = Success(value: T) | Failure(error: E)
}
