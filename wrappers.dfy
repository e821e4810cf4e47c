/** The optional value that the handlers return where the source returns `None`. */
module Wrappers {

  datatype Option<+T> = None | Some(value: T)
}
