/** Optional values and failing calls. */
module Options {
  datatype Option<+T> = None | Some(value: T)

  datatype Result<+T> = Ok(value: T) | DimensionMismatch
}
