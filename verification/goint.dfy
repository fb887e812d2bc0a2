/** Go's 64-bit signed integers (`int` on 64-bit targets, `int64`,
    `time.Duration`) and their two's-complement wrap-around. */
module GoInt {

  const Modulus64: int := 0x1_0000_0000_0000_0000
  const Min64: int := -0x8000_0000_0000_0000
  const Max64: int := 0x7FFF_FFFF_FFFF_FFFF

  type int64 = x: int | -0x8000_0000_0000_0000 <= x <= 0x7FFF_FFFF_FFFF_FFFF

  /** The value a Go int64 computation yields for the mathematical result `x`. */
  function Wrap64(x: int): (r: int64)
    ensures Min64 <= x <= Max64 ==> r == x
    ensures (x - r) % Modulus64 == 0
  {
    var m := x % Modulus64;
    if m > Max64 then m - Modulus64 else m
  }

  /** A `time.Duration` is a count of nanoseconds. */
  const Second: int := 1_000_000_000
}
