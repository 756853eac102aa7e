/** Failure-carrying result types shared by the zsign model. */
module Results {

  /** A value that may be missing, as returned by the decoders. */
  datatype Option<+T> = None | Some(value: T)

  /** The outcome of an operation that may fail; `Err(message)` stands for the action's code throwing `Error(message)`. */
  datatype Result<+T> = Ok(value: T) | Err(message: string)
}
