/** An optional value: Python's `None` and Rust's `Option`. */
module Wrappers {
  datatype Option<+T> = None | Some(value: T)
}
