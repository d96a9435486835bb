/** Optional values and fallible results, the model's stand-ins for Rust's
    `Option` and `Result`. A panic in the source (`expect`, `unwrap`,
    `panic!`) is modelled as a `Failure` as well: either way no value comes out. */
module Wrappers {

  datatype Option<+T> = None | Some(value: T)

  datatype Result<+R, +E> = Success(value: R) | Failure(error: E)
}
