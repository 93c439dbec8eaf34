/** The Option datatype: a value that may be absent (`undefined` in the storefront). */
module Wrappers {

  datatype Option<+T> = None | Some(value: T)
}
