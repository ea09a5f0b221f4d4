/** Failure-carrying wrappers used by every handler of the playlist service. */
module Results {

  /** An optional value: `None` stands for JavaScript's `null`/`undefined`. */
  datatype Option<+T> = None | Some(value: T)

  /** The outcome of a handler: a value, or the error the handler answers with. */
  datatype Result<+T, +E> = Ok(value: T) | Err(error: E)
}
