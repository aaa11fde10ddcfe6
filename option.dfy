/** Python's Optional values (None or a value). */
module Optional {
  datatype Option<T> = None | Some(value: T)
}
