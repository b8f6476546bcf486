/** The optional value used for lookups that may find nothing and for
    operations that either succeed or report one error. */
module Wrappers {
  datatype Option<+T> = None | Some(value: T)
}
