/** Failure-carrying results: the model's stand-in for the exceptions the
    server and the command line raise. */
module Results {

  /** A value, or the error that was raised instead of producing it. */
  datatype Result<+T, +E> = Ok(value: T) | Err(error: E)

  /** A check that either passes or fails with an error. */
  datatype Outcome<+E> = Pass | Fail(error: E)
}
