/** The optional value used where the middleware reads something that may be missing. */
module Wrappers {

  datatype Option<+T> = None | Some(value: T)
}
