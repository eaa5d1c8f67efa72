/** Shared vocabulary: Go's `byte` and a small Option type. */
module Bytes {

  /** Go's `byte` (uint8). Arithmetic on it is done in `int`; wrap-around is written out where the source relies on it. */
  type byte = x: int | 0 <= x < 256

  datatype Option<T> = None | Some(value: T)

  function Min(a: int, b: int): int
  {
    if a <= b then a else b
  }
}
