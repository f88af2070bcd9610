/** Small value types shared by the modules of the model. */
module Wrappers {

  /** A value that may be absent, like `std::optional`. */
  datatype Option<+T> = None | Some(value: T)

  function Min(a: int, b: int): int
  {
    if a <= b then a else b
  }

  function Max(a: int, b: int): int
  {
    if a >= b then a else b
  }
}
