/** Optional values, for the fields and results the program leaves undefined. */
module Options {
  datatype Option<+T> = None | Some(value: T)
}
