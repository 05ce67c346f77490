/** Optional values and fallible results. */
module Options {

  datatype Option<+T> = None | Some(value: T)

  /** Why a table operation throws. */
  datatype Error = LoadFactorTooLow | MaximumHashpowerExceeded | OutOfMemory | InvalidArgument

  datatype Result<+T> = Ok(value: T) | Err(error: Error)
}
