/** Optional values and operation results shared by every module. */
module Common {

  /** A value that may be absent: the source's `undefined` / `null`. */
  datatype Option<+T> = None | Some(value: T)

  /** The outcome of an operation that throws in the source: the thrown error becomes `Err`. */
  datatype Result<+T, +E> = Ok(value: T) | Err(error: E)
}
