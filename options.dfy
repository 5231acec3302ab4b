/** The optional value used for absent query parameters, absent ratings and failed lookups. */
module Options {

  datatype Option<+T> = None | Some(value: T)
}
