/** Small shared helpers: an optional value and the integer/real `min`/`max`
    the detector applies when it clamps zoom, pan and crop coordinates. */
module Basics {

  /** A value that may be absent (a frame left uncropped, a band without data). */
  datatype Option<+T> = None | Some(value: T)

  function Min(a: int, b: int): int
  {
    if a <= b then a else b
  }

  function Max(a: int, b: int): int
  {
    if a >= b then a else b
  }

  function RealMin(a: real, b: real): real
  {
    if a <= b then a else b
  }

  function RealMax(a: real, b: real): real
  {
    if a >= b then a else b
  }
}
