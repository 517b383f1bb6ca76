/** The optional value the source expresses with Python's `None`. */
module Options {
  datatype Option<T> = None | Some(value: T)
}
