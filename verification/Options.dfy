/** The optional value used by every other module of the project. */
module Options {
  datatype Option<+T> = None | Some(value: T)
}
