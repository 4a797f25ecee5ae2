/** Definitions shared by the whole model: an absent value (a `None` frame
    from a read past the end), a raised error, and the integer minimum. */
module Base {

  datatype Option<+T> = None | Some(value: T)

  datatype Result<+R, +E> = Success(value: R) | Failure(error: E)

  function Min(x: int, y: int): int {
    if x <= y then x else y
  }
}
