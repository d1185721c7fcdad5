/** Small helpers shared by the room-detection model. */
module Util {

  /** A value that may be absent, like an optional keyword argument left as `None`. */
  datatype Option<T> = None | Some(value: T)

  function GetOr<T>(o: Option<T>, default: T): T
  {
    match o
    case Some(v) => v
    case None => default
  }

  /** Python's `min` on two integers. */
  function Min(a: int, b: int): int
  {
    if a <= b then a else b
  }

  /** Python's `max` on two integers. */
  function Max(a: int, b: int): int
  {
    if a >= b then a else b
  }

  /** Python's `abs` on an integer. */
  function Abs(a: int): nat
  {
    if a < 0 then -a else a
  }

  /** Products of positive factors grow with their factors. */
  lemma MulMonotone(a: int, b: int, c: int, d: int)
    requires 0 < a <= c && 0 < b <= d
    ensures 0 < a * b <= c * d
  {
    assert a * b <= c * b;
    assert c * b <= c * d;
  }
}
