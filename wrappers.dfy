/** The optional value used wherever the source's parsers may fail. */
module Wrappers {

  datatype Option<+T> = None | Some(value: T)
}
