/** Result types shared by every component. */
module Common {
  datatype Option<+T> = None | Some(value: T)

  /** A call that either returns a value or raises an exception of the source. */
  datatype Result<+T, +E> = Ok(value: T) | Err(error: E)
}
