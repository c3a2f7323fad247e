/** Machine-number limits and Rust's numeric casts, written out over
    Dafny's unbounded `int` and `real`. */
module Numbers {

  /** `usize::MAX` on a 64-bit target. */
  const USIZE_MAX: nat := 0xFFFF_FFFF_FFFF_FFFF
  const USIZE_MODULUS: nat := 0x1_0000_0000_0000_0000

  const I32_MAX: int := 0x7FFF_FFFF
  const I32_MIN: int := -0x8000_0000

  /** `f32::MAX`; `f32::MIN` is its negation. */
  const F32_MAX: real := 340282346638528859811704183484516925440.0

  /** Truncation toward zero, the rounding of Rust's `as` from a float to an integer. */
  function Trunc(x: real): (t: int)
    ensures 0.0 <= x ==> t as real <= x < t as real + 1.0
    ensures x < 0.0 ==> t as real - 1.0 < x <= t as real
  {
    if 0.0 <= x then x.Floor else -((-x).Floor)
  }

  /** `f as i32`: truncate, then saturate at the bounds of `i32`. */
  function SaturatingI32(x: real): (n: int)
    ensures I32_MIN <= n <= I32_MAX
    ensures I32_MIN <= Trunc(x) <= I32_MAX ==> n == Trunc(x)
    ensures Trunc(x) < I32_MIN ==> n == I32_MIN
    ensures Trunc(x) > I32_MAX ==> n == I32_MAX
  {
    var t := Trunc(x);
    if t < I32_MIN then I32_MIN else if t > I32_MAX then I32_MAX else t
  }

  /** `f as usize`: truncate, then saturate at 0 and `usize::MAX`. */
  function SaturatingUsize(x: real): (n: nat)
    ensures n <= USIZE_MAX
    ensures 0 <= Trunc(x) <= USIZE_MAX ==> n == Trunc(x)
    ensures Trunc(x) < 0 ==> n == 0
    ensures Trunc(x) > USIZE_MAX ==> n == USIZE_MAX
  {
    var t := Trunc(x);
    if t < 0 then 0 else if t > USIZE_MAX then USIZE_MAX else t
  }

  /** `a * b` on `usize` when overflow wraps (a release build). */
  function WrappingMul(a: nat, b: nat): (p: nat)
    ensures p < USIZE_MODULUS
    ensures a * b <= USIZE_MAX ==> p == a * b
  {
    (a * b) % USIZE_MODULUS
  }
}
