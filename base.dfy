/** Shared vocabulary: the byte type of the Rust code and the two
    failure-carrying wrappers (`Option`, `Result`) its APIs return. */
module Base {

  /** Rust's `u8`. */
  type u8 = x: int | 0 <= x < 0x100

  datatype Option<+T> = None | Some(value: T)

  datatype Result<+R, +E> = Success(value: R) | Failure(error: E)
}
