/** Optional values and success-or-error results, used where the source
    has optional fields or throws. */
module Results {

  /** A value that may be absent, as an optional field. */
  datatype Option<+T> = None | Some(value: T)

  /** Either a computed value or the kind of error that was raised instead. */
  datatype Result<+T, +E> = Ok(value: T) | Err(error: E)
}
