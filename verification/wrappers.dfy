/** Failure-carrying values shared by the other modules: `Option` stands for a
    Python value that may be `None`, `Result` for a computation that may raise. */
module Wrappers {

  datatype Option<+T> = None | Some(value: T)

  datatype Result<+T, +E> = Success(value: T) | Failure(error: E)

  /** Smaller of two integers (Python's `min`). */
  function Min(a: int, b: int): int
  {
    if a <= b then a else b
  }
}
