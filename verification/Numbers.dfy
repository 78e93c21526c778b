// The lesser, the greater and the size of numbers.

module Numbers {
  function Min(a: int, b: int): int {
    if a <= b then a else b
  }

  function Max(a: int, b: int): int {
    if a >= b then a else b
  }

  function Abs(x: int): nat {
    if x < 0 then -x else x
  }

  function Magnitude(x: real): real {
    if x < 0.0 then -x else x
  }

  /** The least integer that is not below x. */
  function Ceiling(x: real): int {
    -(-x).Floor
  }
}
