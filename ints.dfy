/** The integer minimum and maximum that `slice` and `Math.max` need. */
module Ints {

  function Min(a: int, b: int): int { if a <= b then a else b }

  function Max(a: int, b: int): int { if a >= b then a else b }
}
