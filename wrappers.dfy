/** Rust's `Option`, used for optional AST fields and for the interpreter's result value. */
module Wrappers {

  datatype Option<+T> = None | Some(value: T)
}
