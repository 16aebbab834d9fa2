/** The vertical SSE2 kernel of skia/ext/convolver_SSE2.cc, proved to compute the scalar result. */
module ConvolverSSE2Vertical {
  import opened PixelArithmetic
  import opened ConvolutionFilter
  import opened ConvolutionSpec
  import opened SSE2
  import opened ConvolverSSE2

  /** The accumulated lanes are the wrapped sums of the first `n` rows, for the four bytes from `offset` on. */
  ghost predicate ColumnLanes(accum: Epi32, taps: seq<Fixed>, mem: seq<byte>, rows: seq<nat>, offset: int, n: nat)
    requires n <= |taps|
  {
    forall c | 0 <= c < 4 ::
      Lane(accum, c) == Wrap32(PartialResponse(Kernel(0, taps), StoredSamples(mem, rows, offset + c), n))
  }

  lemma ZeroColumnSums(taps: seq<Fixed>, mem: seq<byte>, rows: seq<nat>, offset: int)
    ensures ColumnLanes(ZERO32, taps, mem, rows, offset, 0)
  {
  }

  /** Products `t` of one row's pixel advance the pixel's column sums by one tap. */
  lemma ColumnSumsAdvance(accum: Epi32, t: Epi32, taps: seq<Fixed>, mem: seq<byte>, rows: seq<nat>, offset: int, n: nat)
    requires n < |taps| && n < |rows| && ColumnLanes(accum, taps, mem, rows, offset, n)
    requires forall c | 0 <= c < 4 :: Lane(t, c) == At(mem, rows[n] + offset + c) * taps[n]
    ensures ColumnLanes(Add(accum, t), taps, mem, rows, offset, n + 1)
  {
    var k := Kernel(0, taps);
    forall c | 0 <= c < 4
      ensures Lane(Add(accum, t), c) == Wrap32(PartialResponse(k, StoredSamples(mem, rows, offset + c), n + 1))
    {
      var row := StoredSamples(mem, rows, offset + c);
      OneTapProduct(k, row, n, Lane(t, c), At(mem, rows[n] + offset + c));
      AddToSum(accum, t, 0, PartialResponse(k, row, n), Lane(t, c), c);
    }
  }

  lemma OneTapProduct(k: Kernel, row: int -> int, n: nat, product: int, sample: int)
    requires n < |k.taps| && row(k.offset + n) == sample && product == sample * k.taps[n]
    ensures PartialResponse(k, row, n + 1) == PartialResponse(k, row, n) + product
  {
  }

  /** Four pixels of the row that starts at `at`, each times the one coefficient of that row. */
  lemma RowProducts(mem: seq<byte>, at: nat, w: Fixed, c: int)
    requires at + 16 <= |mem| && 0 <= c < 4
    ensures var lo, hi := UnpackLoBytes(LoadU(mem, at)), UnpackHiBytes(LoadU(mem, at));
      && Lane(FirstProducts(lo, Set1(w)), c) == mem[at + c] * w
      && Lane(SecondProducts(lo, Set1(w)), c) == mem[at + 4 + c] * w
      && Lane(FirstProducts(hi, Set1(w)), c) == mem[at + 8 + c] * w
      && Lane(SecondProducts(hi, Set1(w)), c) == mem[at + 12 + c] * w
  {
    var lo, hi := UnpackLoBytes(LoadU(mem, at)), UnpackHiBytes(LoadU(mem, at));
    FirstProductsAre(lo, Set1(w), c);
    SecondProductsAre(lo, Set1(w), c);
    FirstProductsAre(hi, Set1(w), c);
    SecondProductsAre(hi, Set1(w), c);
  }

  ghost predicate FourColumnSums(a: FourAccums, taps: seq<Fixed>, mem: seq<byte>, rows: seq<nat>, offset: int, n: nat)
    requires n <= |taps|
  {
    && ColumnLanes(a.accum0, taps, mem, rows, offset, n) && ColumnLanes(a.accum1, taps, mem, rows, offset + 4, n)
    && ColumnLanes(a.accum2, taps, mem, rows, offset + 8, n) && ColumnLanes(a.accum3, taps, mem, rows, offset + 12, n)
  }

  /** One row's contribution to four neighbouring pixels. */
  method AddTapRow(a: FourAccums, taps: seq<Fixed>, mem: array<byte>, rows: seq<nat>, offset: nat, filterY: nat) returns (next: FourAccums)
    requires filterY < |taps| && filterY < |rows| && rows[filterY] + offset + 16 <= mem.Length
    requires FourColumnSums(a, taps, mem[..], rows, offset, filterY)
    ensures FourColumnSums(next, taps, mem[..], rows, offset, filterY + 1)
  {
    ghost var bytes := mem[..];
    var at := rows[filterY] + offset;
    var coeff16 := Set1(taps[filterY]);
    var src8 := LoadRegister(mem, at);
    var lo, hi := UnpackLoBytes(src8), UnpackHiBytes(src8);
    var t0, t1, t2, t3 :=
      FirstProducts(lo, coeff16), SecondProducts(lo, coeff16), FirstProducts(hi, coeff16), SecondProducts(hi, coeff16);
    forall c | 0 <= c < 4
      ensures Lane(t0, c) == At(bytes, at + c) * taps[filterY] && Lane(t1, c) == At(bytes, at + 4 + c) * taps[filterY]
      ensures Lane(t2, c) == At(bytes, at + 8 + c) * taps[filterY] && Lane(t3, c) == At(bytes, at + 12 + c) * taps[filterY]
    {
      RowProducts(bytes, at, taps[filterY], c);
    }
    ColumnSumsAdvance(a.accum0, t0, taps, bytes, rows, offset, filterY);
    ColumnSumsAdvance(a.accum1, t1, taps, bytes, rows, offset + 4, filterY);
    ColumnSumsAdvance(a.accum2, t2, taps, bytes, rows, offset + 8, filterY);
    ColumnSumsAdvance(a.accum3, t3, taps, bytes, rows, offset + 12, filterY);
    next := FourAccums(Add(a.accum0, t0), Add(a.accum1, t1), Add(a.accum2, t2), Add(a.accum3, t3));
  }

  /** _mm_loadu_si128 from the row buffer. */
  method LoadRegister(mem: array<byte>, at: nat) returns (r: Epi8)
    requires at + 16 <= mem.Length
    ensures r == LoadU(mem[..], at)
  {
    r := Epi8(mem[at], mem[at + 1], mem[at + 2], mem[at + 3], mem[at + 4], mem[at + 5], mem[at + 6], mem[at + 7],
              mem[at + 8], mem[at + 9], mem[at + 10], mem[at + 11], mem[at + 12], mem[at + 13], mem[at + 14], mem[at + 15]);
  }

  /** The column sums of four neighbouring pixels over all rows of the filter. */
  method AccumulateColumns_SSE2(taps: seq<Fixed>, mem: array<byte>, rows: seq<nat>, offset: nat) returns (a: FourAccums)
    requires RowsInside(mem[..], rows, |taps|, offset + 16)
    ensures FourColumnSums(a, taps, mem[..], rows, offset, |taps|)
  {
    a := FourAccums(ZERO32, ZERO32, ZERO32, ZERO32);
    ZeroColumnSums(taps, mem[..], rows, offset);
    ZeroColumnSums(taps, mem[..], rows, offset + 4);
    ZeroColumnSums(taps, mem[..], rows, offset + 8);
    ZeroColumnSums(taps, mem[..], rows, offset + 12);
    for filterY := 0 to |taps|
      invariant FourColumnSums(a, taps, mem[..], rows, offset, filterY)
    {
      a := AddTapRow(a, taps, mem, rows, offset, filterY);
    }
  }

  /** Shift, pack to words and pack to bytes, four pixels at once. */
  function PackFour(a: FourAccums): Epi8 {
    Packus(Packs(ShiftDown32(a.accum0), ShiftDown32(a.accum1)), Packs(ShiftDown32(a.accum2), ShiftDown32(a.accum3)))
  }

  /** The same for the last pixels of a row, of which there are at most three. */
  function PackRest(a: FourAccums): Epi8 {
    Packus(Packs(ShiftDown32(a.accum0), ShiftDown32(a.accum1)), Packs(ShiftDown32(a.accum2), ZERO32))
  }

  /** Alpha raised to the largest colour of its pixel by two shifts and three maxima, or made opaque. */
  function FinishAlpha(pixels: Epi8, hasAlpha: bool): Epi8 {
    if hasAlpha then
      var b := MaxBytes(ShiftRight8(pixels), pixels);
      var b' := MaxBytes(ShiftRight16(pixels), b);
      MaxBytes(ShiftLeft24(b'), pixels)
    else OrOpaque(pixels)
  }

  /** A pixel with the alpha that the scalar code gives it. */
  ghost function WithAlpha(px: Pixel, hasAlpha: bool): Pixel {
    px.(a := FinalAlpha(hasAlpha, px.b, px.g, px.r, px.a))
  }

  ghost function MaxPixel(a: Pixel, b: Pixel): Pixel {
    Pixel(Max(a.b, b.b), Max(a.g, b.g), Max(a.r, b.r), Max(a.a, b.a))
  }

  lemma MaxPixelOf(a: Epi8, b: Epi8, p: int)
    requires 0 <= p < 4
    ensures PixelOf(MaxBytes(a, b), p) == MaxPixel(PixelOf(a, p), PixelOf(b, p))
  {
  }

  lemma ShiftedPixelOf(a: Epi8, p: int)
    requires 0 <= p < 4
    ensures var px := PixelOf(a, p);
      && PixelOf(ShiftRight8(a), p) == Pixel(px.g, px.r, px.a, 0) && PixelOf(ShiftRight16(a), p) == Pixel(px.r, px.a, 0, 0)
      && PixelOf(ShiftLeft24(a), p) == Pixel(0, 0, 0, px.b) && PixelOf(OrOpaque(a), p) == px.(a := 255)
  {
  }

  /** The shift-and-max trick yields max(alpha, b, g, r) and leaves the colours alone. */
  lemma AlphaTrick(pixels: Epi8, hasAlpha: bool, p: int)
    requires 0 <= p < 4
    ensures PixelOf(FinishAlpha(pixels, hasAlpha), p) == WithAlpha(PixelOf(pixels, p), hasAlpha)
  {
    ShiftedPixelOf(pixels, p);
    if hasAlpha {
      var b := MaxBytes(ShiftRight8(pixels), pixels);
      var b' := MaxBytes(ShiftRight16(pixels), b);
      MaxPixelOf(ShiftRight8(pixels), pixels, p);
      MaxPixelOf(ShiftRight16(pixels), b, p);
      ShiftedPixelOf(b', p);
      MaxPixelOf(ShiftLeft24(b'), pixels, p);
    }
  }

  ghost function AccumOf(a: FourAccums, p: int): Epi32
    requires 0 <= p < 4
  {
    if p == 0 then a.accum0 else if p == 1 then a.accum1 else if p == 2 then a.accum2 else a.accum3
  }

  /** Both packs, on one accumulator's lanes. */
  ghost function PackedLanes(a: Epi32): Pixel {
    Pixel(Saturate8(Saturate16(a.d0)), Saturate8(Saturate16(a.d1)), Saturate8(Saturate16(a.d2)), Saturate8(Saturate16(a.d3)))
  }

  lemma PackedPixelOf(a: Epi32, b: Epi32, c: Epi32, d: Epi32)
    ensures var e := Packus(Packs(a, b), Packs(c, d));
      && PixelOf(e, 0) == PackedLanes(a) && PixelOf(e, 1) == PackedLanes(b)
      && PixelOf(e, 2) == PackedLanes(c) && PixelOf(e, 3) == PackedLanes(d)
  {
  }

  lemma PackedLanesClamp(a: Epi32)
    ensures PackedLanes(ShiftDown32(a)) == ClampPixel(a)
  {
    PackClamps(ShiftDown(a.d0));
    PackClamps(ShiftDown(a.d1));
    PackClamps(ShiftDown(a.d2));
    PackClamps(ShiftDown(a.d3));
  }

  /** Pixel by pixel, both packed registers hold the scalar conversions of the sums. */
  lemma PackFourClamps(a: FourAccums, p: int)
    requires 0 <= p < 4
    ensures PixelOf(PackFour(a), p) == ClampPixel(AccumOf(a, p))
    ensures p < 3 ==> PixelOf(PackRest(a), p) == ClampPixel(AccumOf(a, p))
  {
    PackedLanesClamp(AccumOf(a, p));
    PackedPixelOf(ShiftDown32(a.accum0), ShiftDown32(a.accum1), ShiftDown32(a.accum2), ShiftDown32(a.accum3));
    PackedPixelOf(ShiftDown32(a.accum0), ShiftDown32(a.accum1), ShiftDown32(a.accum2), ZERO32);
  }

  /** The column sums of every computed byte of an output row of `n` bytes fit a 32-bit accumulator. */
  ghost predicate ColumnsFit(mem: seq<byte>, rows: seq<nat>, taps: seq<Fixed>, hasAlpha: bool, n: nat) {
    forall j | 0 <= j < n && Computed(hasAlpha, j) :: Fits32(Response(Kernel(0, taps), StoredSamples(mem, rows, j)))
  }

  lemma FittingColumn(accum: Epi32, taps: seq<Fixed>, mem: seq<byte>, rows: seq<nat>, offset: int, c: int)
    requires ColumnLanes(accum, taps, mem, rows, offset, |taps|) && 0 <= c < 4
    requires Fits32(Response(Kernel(0, taps), StoredSamples(mem, rows, offset + c)))
    ensures ClampTo8(ShiftDown(Lane(accum, c))) == StoredColumnByte(mem, rows, taps, offset + c)
  {
    WrapFits(Response(Kernel(0, taps), StoredSamples(mem, rows, offset + c)));
  }

  lemma FourColumnSumsOf(a: FourAccums, taps: seq<Fixed>, mem: seq<byte>, rows: seq<nat>, x: int, p: int)
    requires 0 <= p < 4 && FourColumnSums(a, taps, mem, rows, 4 * (x - p), |taps|)
    ensures ColumnLanes(AccumOf(a, p), taps, mem, rows, 4 * x, |taps|)
  {
    assert 4 * (x - p) + 4 * p == 4 * x;
    if p == 0 {
    } else if p == 1 {
    } else if p == 2 {
    } else {
    }
  }

  /** A stored pixel converted from fitting column sums, alpha adjusted, is the reference's pixel. */
  lemma PixelFromSums(out: seq<byte>, outStart: nat, mem: seq<byte>, rows: seq<nat>, taps: seq<Fixed>, hasAlpha: bool,
                      x: nat, accum: Epi32)
    requires outStart + 4 * x + 4 <= |out|
    requires ColumnLanes(accum, taps, mem, rows, 4 * x, |taps|) && ColumnsFit(mem, rows, taps, hasAlpha, 4 * x + 4)
    requires PixelAt(out, outStart + 4 * x, WithAlpha(ClampPixel(accum), hasAlpha))
    ensures PixelHolds(out, outStart, mem, rows, taps, hasAlpha, x)
  {
    assert Computed(hasAlpha, 4 * x) && Computed(hasAlpha, 4 * x + 1) && Computed(hasAlpha, 4 * x + 2);
    FittingColumn(accum, taps, mem, rows, 4 * x, 0);
    FittingColumn(accum, taps, mem, rows, 4 * x, 1);
    FittingColumn(accum, taps, mem, rows, 4 * x, 2);
    if hasAlpha {
      assert Computed(hasAlpha, 4 * x + 3);
      FittingColumn(accum, taps, mem, rows, 4 * x, 3);
    }
  }

  /** _mm_storeu_si128 */
  method StoreRegister(out: array<byte>, at: nat, e: Epi8)
    requires at + 16 <= out.Length
    modifies out
    ensures SameOutside(old(out[..]), out[..], at, at + 16)
    ensures PixelAt(out[..], at, PixelOf(e, 0)) && PixelAt(out[..], at + 4, PixelOf(e, 1))
    ensures PixelAt(out[..], at + 8, PixelOf(e, 2)) && PixelAt(out[..], at + 12, PixelOf(e, 3))
  {
    out[at], out[at + 1], out[at + 2], out[at + 3] := e.b0, e.b1, e.b2, e.b3;
    out[at + 4], out[at + 5], out[at + 6], out[at + 7] := e.b4, e.b5, e.b6, e.b7;
    out[at + 8], out[at + 9], out[at + 10], out[at + 11] := e.b8, e.b9, e.b10, e.b11;
    out[at + 12], out[at + 13], out[at + 14], out[at + 15] := e.b12, e.b13, e.b14, e.b15;
  }

  /** Every pixel that `pixels` stands for is finished: converted from its sums, alpha adjusted. */
  ghost predicate Finished(e: Epi8, a: FourAccums, hasAlpha: bool, n: nat)
    requires n <= 4
  {
    forall p | 0 <= p < n :: PixelOf(e, p) == WithAlpha(ClampPixel(AccumOf(a, p)), hasAlpha)
  }

  lemma FinishesAlpha(a: FourAccums, hasAlpha: bool)
    ensures Finished(FinishAlpha(PackFour(a), hasAlpha), a, hasAlpha, 4)
    ensures Finished(FinishAlpha(PackRest(a), hasAlpha), a, hasAlpha, 3)
  {
    forall p | 0 <= p < 4
      ensures PixelOf(FinishAlpha(PackFour(a), hasAlpha), p) == WithAlpha(ClampPixel(AccumOf(a, p)), hasAlpha)
      ensures p < 3 ==> PixelOf(FinishAlpha(PackRest(a), hasAlpha), p) == WithAlpha(ClampPixel(AccumOf(a, p)), hasAlpha)
    {
      PackFourClamps(a, p);
      AlphaTrick(PackFour(a), hasAlpha, p);
      AlphaTrick(PackRest(a), hasAlpha, p);
    }
  }

  /** The finished register for the pixels `outX` to `outX + 3`. */
  method FourPixelsOf(taps: seq<Fixed>, mem: array<byte>, rows: seq<nat>, outX: nat, hasAlpha: bool, whole: bool)
    returns (e: Epi8, a: FourAccums)
    requires RowsInside(mem[..], rows, |taps|, 4 * outX + 16)
    ensures FourColumnSums(a, taps, mem[..], rows, 4 * outX, |taps|)
    ensures Finished(e, a, hasAlpha, if whole then 4 else 3)
  {
    a := AccumulateColumns_SSE2(taps, mem, rows, 4 * outX);
    FinishesAlpha(a, hasAlpha);
    e := FinishAlpha(if whole then PackFour(a) else PackRest(a), hasAlpha);
  }

  /** The main loop's body: pixels `outX` to `outX + 3` of the output row. */
  method ConvolveFourPixels(taps: seq<Fixed>, mem: array<byte>, rows: seq<nat>, outX: nat, out: array<byte>, outStart: nat, hasAlpha: bool)
    requires mem != out && RowsInside(mem[..], rows, |taps|, 4 * outX + 16) && outStart + 4 * outX + 16 <= out.Length
    requires ColumnsFit(mem[..], rows, taps, hasAlpha, 4 * outX + 16)
    requires OutputHolds(out[..], outStart, mem[..], rows, taps, hasAlpha, 4 * outX)
    modifies out
    ensures OutputHolds(out[..], outStart, mem[..], rows, taps, hasAlpha, 4 * outX + 16)
    ensures SameOutside(old(out[..]), out[..], outStart + 4 * outX, outStart + 4 * outX + 16)
  {
    var e, a := FourPixelsOf(taps, mem, rows, outX, hasAlpha, true);
    StoreRegister(out, outStart + 4 * outX, e);
    forall x | outX <= x < outX + 4 ensures PixelHolds(out[..], outStart, mem[..], rows, taps, hasAlpha, x) {
      var p := x - outX;
      assert PixelAt(out[..], outStart + 4 * outX + 4 * p, PixelOf(e, p));
      FourColumnSumsOf(a, taps, mem[..], rows, x, p);
      PixelFromSums(out[..], outStart, mem[..], rows, taps, hasAlpha, x, AccumOf(a, p));
    }
    OutputExtends(old(out[..]), out[..], outStart, mem[..], rows, taps, hasAlpha, outX, 4);
  }

  /** Pixel `q` of `acc` is pixel `q + i` of `done`: `i` words have been shifted out. */
  ghost predicate WordsDropped(acc: Epi8, done: Epi8, i: nat) {
    forall q | 0 <= q && q + i < 4 :: PixelOf(acc, q) == PixelOf(done, q + i)
  }

  lemma DropOneMore(acc: Epi8, done: Epi8, i: nat)
    requires i < 3 && WordsDropped(acc, done, i)
    ensures WordsDropped(DropWord(acc), done, i + 1)
  {
    forall q | 0 <= q && q + i + 1 < 4 ensures PixelOf(DropWord(acc), q) == PixelOf(done, q + i + 1) {
      assert PixelOf(DropWord(acc), q) == PixelOf(acc, q + 1);
    }
  }

  /** The last one to three pixels, stored one at a time. */
  method ConvolveRest(taps: seq<Fixed>, mem: array<byte>, rows: seq<nat>, width: nat, pixelWidth: nat, out: array<byte>, outStart: nat,
                      hasAlpha: bool)
    requires mem != out && RowsInside(mem[..], rows, |taps|, 4 * width + 16) && width < pixelWidth < width + 4
    requires outStart + 4 * pixelWidth <= out.Length && ColumnsFit(mem[..], rows, taps, hasAlpha, 4 * pixelWidth)
    requires OutputHolds(out[..], outStart, mem[..], rows, taps, hasAlpha, 4 * width)
    modifies out
    ensures OutputHolds(out[..], outStart, mem[..], rows, taps, hasAlpha, 4 * pixelWidth)
    ensures SameOutside(old(out[..]), out[..], outStart + 4 * width, outStart + 4 * pixelWidth)
  {
    var acc, a := FourPixelsOf(taps, mem, rows, width, hasAlpha, false);
    ghost var done := acc;
    for outX := width to pixelWidth
      invariant OutputHolds(out[..], outStart, mem[..], rows, taps, hasAlpha, 4 * outX)
      invariant SameOutside(old(out[..]), out[..], outStart + 4 * width, outStart + 4 * pixelWidth)
      invariant WordsDropped(acc, done, outX - width)
    {
      ghost var before, p := out[..], outX - width;
      StorePixel(out, outStart + 4 * outX, acc);
      assert PixelOf(acc, 0) == PixelOf(done, 0 + p);
      FourColumnSumsOf(a, taps, mem[..], rows, outX, p);
      PixelFromSums(out[..], outStart, mem[..], rows, taps, hasAlpha, outX, AccumOf(a, p));
      OutputExtends(before, out[..], outStart, mem[..], rows, taps, hasAlpha, outX, 1);
      DropOneMore(acc, done, p);
      acc := DropWord(acc);
    }
  }

  /** A whole register of pixels lies inside the row, and the rest inside the row rounded up. */
  lemma RegistersInside(pixelWidth: nat, outX: nat)
    requires outX % 4 == 0 && outX < pixelWidth / 4 * 4
    ensures outX + 4 <= pixelWidth / 4 * 4 <= pixelWidth
    ensures pixelWidth / 4 * 4 <= (pixelWidth + 3) / 4 * 4
  {
  }

  /** Four output pixels at a time, then the rest; computes the row that the scalar kernel computes. */
  method ConvolveVertically_SSE2(taps: seq<Fixed>, mem: array<byte>, rows: seq<nat>, pixelWidth: nat,
                                 out: array<byte>, outStart: nat, hasAlpha: bool)
    requires mem != out && RowsInside(mem[..], rows, |taps|, 4 * ((pixelWidth + 3) / 4 * 4))
    requires outStart + 4 * pixelWidth <= out.Length && ColumnsFit(mem[..], rows, taps, hasAlpha, 4 * pixelWidth)
    modifies out
    ensures OutputHolds(out[..], outStart, mem[..], rows, taps, hasAlpha, 4 * pixelWidth)
    ensures SameOutside(old(out[..]), out[..], outStart, outStart + 4 * pixelWidth)
  {
    var width := pixelWidth / 4 * 4;
    var outX := 0;
    while outX < width
      invariant 0 <= outX <= width && outX % 4 == 0
      invariant OutputHolds(out[..], outStart, mem[..], rows, taps, hasAlpha, 4 * outX)
      invariant SameOutside(old(out[..]), out[..], outStart, outStart + 4 * pixelWidth)
    {
      RegistersInside(pixelWidth, outX);
      ConvolveFourPixels(taps, mem, rows, outX, out, outStart, hasAlpha);
      outX := outX + 4;
    }
    if pixelWidth % 4 != 0 {
      ConvolveRest(taps, mem, rows, width, pixelWidth, out, outStart, hasAlpha);
    }
  }
}
