/** The optional value used where the Python code returns `None` or omits an entry. */
module Options {
  datatype Option<+T> = None | Some(value: T)
}
