/** The SSE2 intrinsics that convolver_SSE2.cc uses, as functions on the lanes of a 128-bit register.
    A register is viewed as sixteen bytes, eight 16-bit words or four 32-bit words, lane 0 first. */
module SSE2 {
  import opened PixelArithmetic

  type int32 = x: int | -0x8000_0000 <= x < 0x8000_0000

  datatype Epi8 = Epi8(b0: byte, b1: byte, b2: byte, b3: byte, b4: byte, b5: byte, b6: byte, b7: byte,
                       b8: byte, b9: byte, b10: byte, b11: byte, b12: byte, b13: byte, b14: byte, b15: byte)

  datatype Epi16 = Epi16(w0: Fixed, w1: Fixed, w2: Fixed, w3: Fixed, w4: Fixed, w5: Fixed, w6: Fixed, w7: Fixed)

  datatype Epi32 = Epi32(d0: int32, d1: int32, d2: int32, d3: int32)

  /** The 16-bit two's complement value congruent to `x`. */
  function Wrap16(x: int): Fixed {
    (x + 0x8000) % 0x1_0000 - 0x8000
  }

  /** The 32-bit two's complement value congruent to `x`. */
  function Wrap32(x: int): int32 {
    (x + 0x8000_0000) % 0x1_0000_0000 - 0x8000_0000
  }

  predicate Fits32(x: int) {
    -0x8000_0000 <= x < 0x8000_0000
  }

  const ZERO32 := Epi32(0, 0, 0, 0)
  const ZERO16 := Epi16(0, 0, 0, 0, 0, 0, 0, 0)

  // ---------------------------------------------------------------- loads and unpacking

  /** _mm_loadu_si128 */
  function LoadU(mem: seq<byte>, at: nat): Epi8
    requires at + 16 <= |mem|
  {
    Epi8(mem[at], mem[at + 1], mem[at + 2], mem[at + 3], mem[at + 4], mem[at + 5], mem[at + 6], mem[at + 7],
         mem[at + 8], mem[at + 9], mem[at + 10], mem[at + 11], mem[at + 12], mem[at + 13], mem[at + 14], mem[at + 15])
  }

  /** _mm_loadl_epi64 on 16-bit words: the upper half becomes zero. */
  function LoadL(values: seq<Fixed>, at: nat): Epi16
    requires at + 4 <= |values|
  {
    Epi16(values[at], values[at + 1], values[at + 2], values[at + 3], 0, 0, 0, 0)
  }

  /** _mm_set1_epi16 */
  function Set1(w: Fixed): Epi16 {
    Epi16(w, w, w, w, w, w, w, w)
  }

  /** _mm_unpacklo_epi8(a, zero): a zero byte as the upper half of each word leaves the byte's value. */
  function UnpackLoBytes(a: Epi8): Epi16 {
    Epi16(a.b0, a.b1, a.b2, a.b3, a.b4, a.b5, a.b6, a.b7)
  }

  /** _mm_unpackhi_epi8(a, zero) */
  function UnpackHiBytes(a: Epi8): Epi16 {
    Epi16(a.b8, a.b9, a.b10, a.b11, a.b12, a.b13, a.b14, a.b15)
  }

  /** _mm_shufflelo_epi16(a, _MM_SHUFFLE(1, 1, 0, 0)) */
  function ShuffleLo1100(a: Epi16): Epi16 {
    a.(w0 := a.w0, w1 := a.w0, w2 := a.w1, w3 := a.w1)
  }

  /** _mm_shufflelo_epi16(a, _MM_SHUFFLE(3, 3, 2, 2)) */
  function ShuffleLo3322(a: Epi16): Epi16 {
    a.(w0 := a.w2, w1 := a.w2, w2 := a.w3, w3 := a.w3)
  }

  /** _mm_unpacklo_epi16 */
  function UnpackLo(a: Epi16, b: Epi16): Epi16 {
    Epi16(a.w0, b.w0, a.w1, b.w1, a.w2, b.w2, a.w3, b.w3)
  }

  /** _mm_unpackhi_epi16 */
  function UnpackHi(a: Epi16, b: Epi16): Epi16 {
    Epi16(a.w4, b.w4, a.w5, b.w5, a.w6, b.w6, a.w7, b.w7)
  }

  /** A 32-bit word from its two halves: the upper one carries the sign. */
  function Join(lo: Fixed, hi: Fixed): int32 {
    hi * 0x1_0000 + lo % 0x1_0000
  }

  /** The same register seen as 32-bit words. */
  function AsEpi32(a: Epi16): Epi32 {
    Epi32(Join(a.w0, a.w1), Join(a.w2, a.w3), Join(a.w4, a.w5), Join(a.w6, a.w7))
  }

  /** _mm_and_si128 with a mask whose words are all ones (-1) or all zeros. */
  function And(a: Epi16, mask: Epi16): Epi16 {
    Epi16(AndWord(a.w0, mask.w0), AndWord(a.w1, mask.w1), AndWord(a.w2, mask.w2), AndWord(a.w3, mask.w3),
          AndWord(a.w4, mask.w4), AndWord(a.w5, mask.w5), AndWord(a.w6, mask.w6), AndWord(a.w7, mask.w7))
  }

  function AndWord(w: Fixed, mask: Fixed): Fixed {
    if mask == -1 then w else 0
  }

  // ---------------------------------------------------------------- arithmetic

  /** _mm_mulhi_epi16: the upper halves of the signed products. */
  function MulHi(a: Epi16, b: Epi16): Epi16 {
    Epi16(HighWord(a.w0, b.w0), HighWord(a.w1, b.w1), HighWord(a.w2, b.w2), HighWord(a.w3, b.w3),
          HighWord(a.w4, b.w4), HighWord(a.w5, b.w5), HighWord(a.w6, b.w6), HighWord(a.w7, b.w7))
  }

  /** _mm_mullo_epi16: the lower halves of the products. */
  function MulLo(a: Epi16, b: Epi16): Epi16 {
    Epi16(Wrap16(a.w0 * b.w0), Wrap16(a.w1 * b.w1), Wrap16(a.w2 * b.w2), Wrap16(a.w3 * b.w3),
          Wrap16(a.w4 * b.w4), Wrap16(a.w5 * b.w5), Wrap16(a.w6 * b.w6), Wrap16(a.w7 * b.w7))
  }

  function HighWord(a: Fixed, b: Fixed): Fixed {
    Wrap16(a * b / 0x1_0000)
  }

  /** _mm_add_epi32 */
  function Add(a: Epi32, b: Epi32): Epi32 {
    Epi32(Wrap32(a.d0 + b.d0), Wrap32(a.d1 + b.d1), Wrap32(a.d2 + b.d2), Wrap32(a.d3 + b.d3))
  }

  /** _mm_srai_epi32 by SHIFT_BITS */
  function ShiftDown32(a: Epi32): Epi32 {
    Epi32(ShiftDown(a.d0), ShiftDown(a.d1), ShiftDown(a.d2), ShiftDown(a.d3))
  }

  // ---------------------------------------------------------------- packing

  function Saturate16(x: int): Fixed {
    if x < -0x8000 then -0x8000 else if x > 0x7fff then 0x7fff else x
  }

  function Saturate8(x: int): byte {
    if x < 0 then 0 else if x > 255 then 255 else x
  }

  /** _mm_packs_epi32 */
  function Packs(a: Epi32, b: Epi32): Epi16 {
    Epi16(Saturate16(a.d0), Saturate16(a.d1), Saturate16(a.d2), Saturate16(a.d3),
          Saturate16(b.d0), Saturate16(b.d1), Saturate16(b.d2), Saturate16(b.d3))
  }

  /** _mm_packus_epi16 */
  function Packus(a: Epi16, b: Epi16): Epi8 {
    Epi8(Saturate8(a.w0), Saturate8(a.w1), Saturate8(a.w2), Saturate8(a.w3),
         Saturate8(a.w4), Saturate8(a.w5), Saturate8(a.w6), Saturate8(a.w7),
         Saturate8(b.w0), Saturate8(b.w1), Saturate8(b.w2), Saturate8(b.w3),
         Saturate8(b.w4), Saturate8(b.w5), Saturate8(b.w6), Saturate8(b.w7))
  }

  // ---------------------------------------------------------------- bytes of 32-bit words

  /** _mm_srli_epi32(a, 8): within each word the bytes move down by one. */
  function ShiftRight8(a: Epi8): Epi8 {
    Epi8(a.b1, a.b2, a.b3, 0, a.b5, a.b6, a.b7, 0, a.b9, a.b10, a.b11, 0, a.b13, a.b14, a.b15, 0)
  }

  /** _mm_srli_epi32(a, 16) */
  function ShiftRight16(a: Epi8): Epi8 {
    Epi8(a.b2, a.b3, 0, 0, a.b6, a.b7, 0, 0, a.b10, a.b11, 0, 0, a.b14, a.b15, 0, 0)
  }

  /** _mm_slli_epi32(a, 24): only the lowest byte of each word is left, as its highest. */
  function ShiftLeft24(a: Epi8): Epi8 {
    Epi8(0, 0, 0, a.b0, 0, 0, 0, a.b4, 0, 0, 0, a.b8, 0, 0, 0, a.b12)
  }

  /** _mm_max_epu8 */
  function MaxBytes(a: Epi8, b: Epi8): Epi8 {
    Epi8(Max(a.b0, b.b0), Max(a.b1, b.b1), Max(a.b2, b.b2), Max(a.b3, b.b3),
         Max(a.b4, b.b4), Max(a.b5, b.b5), Max(a.b6, b.b6), Max(a.b7, b.b7),
         Max(a.b8, b.b8), Max(a.b9, b.b9), Max(a.b10, b.b10), Max(a.b11, b.b11),
         Max(a.b12, b.b12), Max(a.b13, b.b13), Max(a.b14, b.b14), Max(a.b15, b.b15))
  }

  /** _mm_or_si128 with _mm_set1_epi32(0xff000000): the highest byte of each word becomes all ones. */
  function OrOpaque(a: Epi8): Epi8 {
    a.(b3 := 255, b7 := 255, b11 := 255, b15 := 255)
  }

  /** _mm_srli_si128(a, 4) */
  function DropWord(a: Epi8): Epi8 {
    Epi8(a.b4, a.b5, a.b6, a.b7, a.b8, a.b9, a.b10, a.b11, a.b12, a.b13, a.b14, a.b15, 0, 0, 0, 0)
  }

  // ---------------------------------------------------------------- facts about the lanes

  /** The two multiplications and the unpacking rebuild the signed product of a byte and a coefficient. */
  lemma ProductRebuilt(x: byte, c: Fixed)
    ensures Join(Wrap16(x * c), HighWord(x, c)) == x * c
  {
    ProductBounds(x, c);
    HalvesRebuild(x * c);
  }

  lemma HalvesRebuild(p: int)
    requires -0x80_0000 <= p <= 0x80_0000
    ensures Join(Wrap16(p), Wrap16(p / 0x1_0000)) == p
  {
    assert Wrap16(p / 0x1_0000) == p / 0x1_0000;
    assert Wrap16(p) % 0x1_0000 == p % 0x1_0000;
  }

  lemma ProductBounds(x: byte, c: Fixed)
    ensures -0x80_0000 <= x * c <= 0x80_0000
  {
    if c >= 0 {
      assert 0 <= x * c <= 256 * c;
    } else {
      assert 256 * c <= x * c <= 0;
    }
  }

  /** Wrapping early or late makes no difference to a sum. */
  lemma WrapAdd(x: int, y: int)
    ensures Wrap32(Wrap32(x) + y) == Wrap32(x + y)
  {
  }

  lemma WrapTwo(x: int, y: int, z: int, r1: int, r2: int)
    requires r1 == Wrap32(x + y) && r2 == Wrap32(r1 + z)
    ensures r2 == Wrap32(x + (y + z))
  {
    WrapAdd(x + y, z);
  }

  /** Three wrapped additions in a row wrap the whole sum. */
  lemma WrapThree(x: int, y: int, z: int, w: int, r1: int, r2: int, r3: int)
    requires r1 == Wrap32(x + y) && r2 == Wrap32(r1 + z) && r3 == Wrap32(r2 + w)
    ensures r3 == Wrap32(x + (y + z + w))
  {
    WrapAdd(x + y, z);
    WrapAdd(x + y + z, w);
  }

  lemma WrapFits(x: int)
    ensures Fits32(x) <==> Wrap32(x) == x
  {
  }

  /** The signed and the unsigned saturating pack together clamp to a byte. */
  lemma PackClamps(x: int)
    ensures Saturate8(Saturate16(x)) == ClampTo8(x)
  {
  }
}
