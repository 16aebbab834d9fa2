/** Fixed-point pixel arithmetic shared by the convolution kernels of skia/ext. */
module PixelArithmetic {

  /** An `unsigned char`. */
  type byte = x: int | 0 <= x < 256

  /** A filter coefficient: a 16-bit fixed-point number with SHIFT_BITS bits of fraction. */
  type Fixed = x: int | -0x8000 <= x < 0x8000

  const SHIFT_BITS := 14
  const ONE := 16384 // 1 << SHIFT_BITS

  function Abs(x: int): int {
    if x < 0 then -x else x
  }

  function Distance(a: int, b: int): int {
    Abs(a - b)
  }

  /** `a >> SHIFT_BITS` on a signed value: division rounding towards minus infinity. */
  function ShiftDown(a: int): int {
    a / ONE
  }

  /** The conversion of a channel sum to a byte; ClampIsNearest says which byte that is. */
  function ClampTo8(a: int): byte {
    if 0 <= a < 256 then a else if a < 0 then 0 else 255
  }

  /** Clamping picks the one byte nearest to `a`. */
  lemma ClampIsNearest(a: int, b: byte)
    ensures Distance(a, ClampTo8(a)) <= Distance(a, b)
    ensures Distance(a, b) == Distance(a, ClampTo8(a)) ==> b == ClampTo8(a)
  {
  }

  function Max(a: int, b: int): int {
    if a < b then b else a
  }

  /** The byte that a fixed-point sum stands for: its whole part, cut to the range of a byte. */
  predicate IsByteOf(sum: int, b: byte) {
    if sum < 0 then b == 0
    else if sum >= 256 * 16384 then b == 255
    else 16384 * b <= sum < 16384 * (b + 1)
  }

  /** Shifting down and clamping gives exactly this byte. */
  lemma ShiftedAndClamped(sum: int)
    ensures IsByteOf(sum, ClampTo8(ShiftDown(sum)))
  {
  }

  /** Reads a byte sequence at any integer position; positions outside hold 0. */
  function At(mem: seq<byte>, i: int): byte {
    if 0 <= i < |mem| then mem[i] else 0
  }

  /** Multiplication by a non-negative factor keeps the order. */
  lemma MulKeepsOrder(a: int, b: int, n: int)
    requires a <= b && n >= 0
    ensures a * n <= b * n
  {
    assert b * n == a * n + (b - a) * n;
  }
}
