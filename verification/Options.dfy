/** Values that may be missing. */
module Options {
  datatype Option<+T> = None | Some(value: T)
}

/** Values or the error instead. */
module Results {
  datatype Result<+T, +E> = Ok(value: T) | Err(error: E)
}
