/** Option and Result, the two failure-carrying values the Rust code uses
    (`Option<T>` and `Result<T, std::io::Error>`). */
module Wrappers {

  datatype Option<+T> = None | Some(value: T)

  datatype Result<+T, +E> = Success(value: T) | Failure(error: E)
}
