/** The optional value shared by the parsers and the event model. */
module Wrappers {
  datatype Option<T> = None | Some(value: T)
}
