/** The optional value used where the source would produce a non-finite float. */
module Wrappers {
  datatype Option<+T> = None | Some(value: T)
}
