/** Rust's `Option`, as the tracer uses it for "no hit" and for a record without material. */
module Wrappers {

  datatype Option<+T> = None | Some(value: T)
}
