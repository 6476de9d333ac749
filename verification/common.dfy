/** Failure-carrying result types shared by the graph modules. */
module Common {

  /** A value that may be absent; `None` plays the part of a NULL node pointer. */
  datatype Option<+T> = None | Some(value: T)

  /** The outcome of an operation that can fail with an error of type `E`. */
  datatype Result<+T, +E> = Ok(value: T) | Err(error: E)
}
