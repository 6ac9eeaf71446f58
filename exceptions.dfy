/** The two Java exception kinds the span code throws, and the results that carry them. */
module Exceptions {

  datatype Exception = IllegalArgument | IndexOutOfBounds

  /** A value returned normally, or the exception thrown instead. */
  datatype Result<T> = Ok(value: T) | Err(error: Exception)

  /** A guard that returns nothing when it passes, or the exception it throws. */
  datatype Outcome = Pass | Fail(error: Exception)
}
