/** Small value types shared by every module of the model. */
module Wrappers {

  /** An optional value: Python's `None`, Rust's `Option`. */
  datatype Option<+T> = None | Some(value: T)
}
