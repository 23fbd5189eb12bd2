/** The optional-value wrapper shared by every module of the model. */
module Wrappers {
  /** Rust's `Option<T>`. */
  datatype Option<+T> = None | Some(value: T)
}
