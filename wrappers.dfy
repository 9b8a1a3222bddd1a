/** Failure-carrying datatypes used in place of null references and thrown exceptions. */
module Wrappers {

  /** A value that may be absent; `None` stands for a C# null reference. */
  datatype Option<+T> = None | Some(value: T)

  /** The value a call returns, or the error it throws. */
  datatype Result<+R, +E> = Success(value: R) | Failure(error: E)

  /** Completion of a call that returns nothing of interest, or the error it throws. */
  datatype Outcome<+E> = Pass | Fail(error: E)
}
