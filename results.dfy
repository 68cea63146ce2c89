/** Values for "nothing" and for "a value or the error that stopped it". */
module Results {

  datatype Option<+T> = None | Some(value: T)

  /** An operation's value, or the exception the source would raise instead. */
  datatype Result<+T, +E> = Ok(value: T) | Err(error: E)
}
