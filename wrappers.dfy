/** Failure-carrying results. A Rust `unwrap` or `panic!` that the model keeps
    becomes a `None`. */
module Wrappers {

  datatype Option<+T> = None | Some(value: T)
}
