/** Fixed-width integer types of the Kotlin/JVM platform, and Long subtraction with
    two's-complement wrap-around, which is what `a - b` on two `Long`s computes. */
module KotlinTypes {

  const LONG_MIN: int := -0x8000_0000_0000_0000
  const LONG_MAX: int := 0x7FFF_FFFF_FFFF_FFFF
  const INT_MIN: int := -0x8000_0000
  const INT_MAX: int := 0x7FFF_FFFF
  const TWO_TO_64: int := 0x1_0000_0000_0000_0000

  /** Kotlin `Long` (64-bit signed). */
  type Long = x: int | LONG_MIN <= x <= LONG_MAX

  /** Kotlin `Int` (32-bit signed). */
  type Int = x: int | INT_MIN <= x <= INT_MAX

  /** Kotlin `Short` (16-bit signed), the PCM sample type. */
  newtype Short = x: int | -0x8000 <= x < 0x8000

  /** Reduces a mathematical integer to the `Long` congruent to it modulo 2^64. */
  function Wrap64(x: int): (r: Long)
    ensures (r - x) % TWO_TO_64 == 0
    ensures LONG_MIN <= x <= LONG_MAX ==> r == x
  {
    (x - LONG_MIN) % TWO_TO_64 + LONG_MIN
  }

  /** `a - b` on two Kotlin `Long`s: exact when it fits, otherwise off by exactly 2^64. */
  function Sub(a: Long, b: Long): (r: Long)
    ensures LONG_MIN <= a - b <= LONG_MAX ==> r == a - b
    ensures a - b > LONG_MAX ==> r == a - b - TWO_TO_64
    ensures a - b < LONG_MIN ==> r == a - b + TWO_TO_64
  {
    Wrap64(a - b)
  }
}
