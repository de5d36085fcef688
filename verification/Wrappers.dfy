module Wrappers {
  datatype Option<+T> = None | Some(value: T)

  /** A Rust call: it returns a value, returns an error, or unwinds. */
  datatype Outcome<+T> = Ok(value: T) | Err | Panic
}
