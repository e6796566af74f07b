/** The one option type shared by every module: a Python value that may be `None`. */
module Options {
  datatype Option<+T> = None | Some(value: T)
}
