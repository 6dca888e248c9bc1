/** Optional values, for results the source reports as null, nullopt or "not enough data". */
module Options {
  datatype Option<+T> = None | Some(value: T)
}
