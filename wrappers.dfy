/** The optional value used for nullable references and pending timer slots. */
module Wrappers {
  datatype Option<+T> = None | Some(value: T)
}
