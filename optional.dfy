/** Optional values and results with an error, for register reads that may
    answer nothing and for operations that raise in the original program. */
module Optional {

  datatype Option<+T> = None | Some(value: T)

  datatype Result<+R, +E> = Success(value: R) | Failure(error: E)
}
