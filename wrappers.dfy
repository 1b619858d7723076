/** Failure-compatible wrappers shared by the whole model. A C# `null` becomes
    `None`; a thrown exception becomes `Failure` carrying the exception kind. */
module Wrappers {

  datatype Option<+T> = None | Some(value: T)

  datatype Result<+T, +E> = Success(value: T) | Failure(error: E)

  /** String.IsNullOrEmpty. */
  predicate IsNullOrEmpty(s: Option<string>)
  {
    s.None? || s.value == ""
  }
}
