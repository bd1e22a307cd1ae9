/** Failure-carrying values shared by the stack assembler and the image model. */
module Results {

  /** A value that may be absent (Python's `None`). */
  datatype Option<+T> = None | Some(value: T)

  /** The outcome of an operation that raises on some inputs. */
  datatype Result<+T, +E> = Success(value: T) | Failure(error: E)
}
