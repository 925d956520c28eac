/** The Option datatype used for "no match" and for an unset key name. */
module Wrappers {
  datatype Option<+T> = None | Some(value: T)
}
