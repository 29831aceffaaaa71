/** Small value types shared by the whole model: optional values (Java's
    nullable references), outcomes of calls that may throw, and Max. */
module Util {

  datatype Option<+T> = None | Some(value: T)

  /** The result of a Java call that either returns a value or throws. */
  datatype Result<+T, +E> = Success(value: T) | Failure(error: E)

  /** The result of a void Java call that may throw. */
  datatype Outcome<+E> = Pass | Fail(error: E)

  function Max(a: int, b: int): int
  {
    if a < b then b else a
  }
}
