/** C# `int` arithmetic. The reward product in the loader is an unchecked
    32-bit multiplication, so it wraps around instead of failing. */
module Int32 {

  const MinInt32: int := -0x8000_0000
  const MaxInt32: int := 0x7fff_ffff
  const Modulus: int := 0x1_0000_0000

  type int32 = x: int | MinInt32 <= x <= MaxInt32

  /** Two's-complement wrap-around of an unbounded integer into 32 bits. */
  function Wrap(x: int): (r: int32)
    ensures (x - r) % Modulus == 0
    ensures MinInt32 <= x <= MaxInt32 ==> r == x
  {
    var m := x % Modulus;
    if m > MaxInt32 then m - Modulus else m
  }

  /** `a * b` on C# `int` in an unchecked context. */
  function Mul(a: int32, b: int32): (r: int32)
    ensures (a * b - r) % Modulus == 0
    ensures MinInt32 <= a * b <= MaxInt32 ==> r == a * b
  {
    Wrap(a * b)
  }
}
