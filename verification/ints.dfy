/** Machine-integer behaviour the sources rely on: Rust's `i32`/`i64`
    ranges, two's-complement truncation (`as i32`, wrapping arithmetic in a
    release build) and division that rounds toward zero. Python's `divmod`
    floors instead, which is Dafny's own `/` and `%` for a positive divisor. */
module Ints {

  const MIN_I32: int := -0x8000_0000
  const MAX_I32: int := 0x7fff_ffff
  const MIN_I64: int := -0x8000_0000_0000_0000
  const MAX_I64: int := 0x7fff_ffff_ffff_ffff

  predicate IsI32(x: int) { MIN_I32 <= x <= MAX_I32 }

  predicate IsI64(x: int) { MIN_I64 <= x <= MAX_I64 }

  /** The low 32 bits of `x` read as a signed number (`x as i32`). */
  function WrapI32(x: int): (r: int)
    ensures IsI32(r)
    ensures (x - r) % 0x1_0000_0000 == 0
    ensures IsI32(x) ==> r == x
  {
    var m := x % 0x1_0000_0000;
    if m <= MAX_I32 then m else m - 0x1_0000_0000
  }

  /** Rust's integer `/` for a positive divisor: the quotient rounded toward zero. */
  function TruncDiv(a: int, b: int): (q: int)
    requires b > 0
    ensures a >= 0 ==> 0 <= a - q * b < b
    ensures a < 0 ==> -b < a - q * b <= 0
  {
    if a >= 0 then a / b else -((-a) / b)
  }

  /** Rust's integer `%` for a positive divisor: the remainder takes the sign of `a`. */
  function TruncRem(a: int, b: int): (r: int)
    requires b > 0
    ensures a == TruncDiv(a, b) * b + r
    ensures a >= 0 ==> 0 <= r < b
    ensures a < 0 ==> -b < r <= 0
  {
    a - TruncDiv(a, b) * b
  }

  /** For non-negative operands, truncating and flooring division agree. */
  lemma TruncMatchesFloorWhenNonNegative(a: int, b: int)
    requires a >= 0 && b > 0
    ensures TruncDiv(a, b) == a / b && TruncRem(a, b) == a % b
  {
  }
}
