/** Optional values: a JSON key that may be absent, or a field that may be `None`. */
module Options {

  datatype Option<+T> = None | Some(value: T)
}
