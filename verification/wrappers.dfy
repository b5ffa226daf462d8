/** Failure-carrying results. The Rust code signals a broken input by panicking
    (`unwrap`, `expect`, `panic!`, an out-of-range index); the model returns
    `None` or `Failure` instead. */
module Wrappers {

  datatype Option<+T> = None | Some(value: T)

  datatype Result<+T, +E> = Success(value: T) | Failure(error: E)
}
