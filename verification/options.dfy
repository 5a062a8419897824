/** The optional value used for lookups and for the error half of a parse. */
module Options {

  datatype Option<+T> = None | Some(value: T)
}
