/** Plain `Option` and `Result` datatypes standing in for C# null references and exceptions. */
module Wrappers {

  /** `None` plays the part of a C# `null` reference. */
  datatype Option<+T> = None | Some(value: T)

  /** `Err` plays the part of a thrown exception, carrying its reason. */
  datatype Result<+T, +E> = Ok(value: T) | Err(error: E)
}
