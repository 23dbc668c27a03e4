/** Outcome types shared by the registry's operations. */
module Results {

  /** An optional value: the first matching row, if there is one. */
  datatype Option<+T> = None | Some(value: T)

  /** The outcome of a request handler: a new store, or the client error it raised. */
  datatype Result<+T, +E> = Ok(value: T) | Err(error: E)
}
