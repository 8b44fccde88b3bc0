/** The optional value used for the source's "may raise" paths. */
module Options {
  datatype Option<+T> = None | Some(value: T)
}
