/** Small shared wrapper types. */
module Wrappers {

  /** An optional value: Rust's `Option`, or a TypeScript value that may be `undefined`. */
  datatype Option<+T> = None | Some(value: T)
}
