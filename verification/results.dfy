/** Failure-carrying datatypes shared by the registration model.

    A Python `ValueError` raised by a stage becomes a `Failure`; a validator
    that returns `None` becomes `Pass`, one that raises becomes `Fail`. */
module Results {

  datatype Option<+T> = None | Some(value: T)

  /** The outcome of a stage: its response envelope, or the error it raised. */
  datatype Result<+T, +E> = Success(value: T) | Failure(error: E)

  /** The outcome of a validator, which returns nothing when the input is valid. */
  datatype Check<+E> = Pass | Fail(error: E)
}
