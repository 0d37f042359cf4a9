/** Failure-carrying results shared by the ledger and the program model. */
module Results {

  /** An account slot that may be empty. */
  datatype Option<+T> = None | Some(value: T)

  /** The outcome of an operation that either produces a value or fails with an error. */
  datatype Result<+T, +E> = Ok(value: T) | Err(error: E)
}
