/** Outcomes of operations that the Java code ends with `null` or with an exception. */
module Results {

  /** A Java reference that may be `null`. */
  datatype Option<T> = None | Some(value: T)

  /** The exceptions the core throws. `NotFinite` is not a Java exception: it
      marks a division by zero whose double result would be an infinity or NaN,
      values the real-number model does not have. */
  datatype Error =
    | ArithmeticException(message: string)
    | IllegalArgumentException(message: string)
    | NullPointerException
    | NotFinite

  /** A value, or the exception that was thrown instead. */
  datatype Result<T> = Success(value: T) | Failure(error: Error)

  /** A `void` method that either returns normally or throws. */
  datatype Outcome = Pass | Fail(error: Error)
}
