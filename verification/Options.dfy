/** The optional value that Python writes as None or a value. */
module Options {
  datatype Option<+T> = None | Some(value: T)
}
