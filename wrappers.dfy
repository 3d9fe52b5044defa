/** Rust's `Option`, used for parse results and for `Error::cause`. */
module Wrappers {
  datatype Option<+T> = None | Some(value: T)
}
