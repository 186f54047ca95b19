/** Failure-carrying return types: an optional value (PHP's `?string`), a
    value or an error, and a plain pass/fail for operations that throw. */
module Results {

  datatype Option<+T> = None | Some(value: T)

  datatype Result<+T, +E> = Success(value: T) | Failure(error: E)

  datatype Outcome<+E> = Pass | Fail(error: E)
}
