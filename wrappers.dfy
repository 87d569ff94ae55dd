/** The Option datatype used for JavaScript's `null` results and for parse failures. */
module Wrappers {

  datatype Option<+T> = None | Some(value: T)
}
