/** The optional value returned by the parsers of this model. */
module Options {

  datatype Option<+T> = None | Some(value: T)
}
