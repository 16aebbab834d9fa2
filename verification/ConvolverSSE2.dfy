/** The SSE2 kernels of skia/ext/convolver_SSE2.cc, proved to compute the scalar results. */
module ConvolverSSE2 {
  import opened PixelArithmetic
  import opened ConvolutionFilter
  import opened ConvolutionSpec
  import opened SSE2

  // ---------------------------------------------------------------- horizontal pass

  /** The first coefficient in the four low lanes, the second in the four high ones. */
  function LowPair(coeff: Epi16): Epi16 {
    var c := ShuffleLo1100(coeff);
    UnpackLo(c, c)
  }

  /** The same for the third and the fourth coefficient. */
  function HighPair(coeff: Epi16): Epi16 {
    var c := ShuffleLo3322(coeff);
    UnpackLo(c, c)
  }

  /** Multiplies two pixels by their coefficients; the products of the first pixel. */
  function FirstProducts(src16: Epi16, coeff16: Epi16): Epi32 {
    AsEpi32(UnpackLo(MulLo(src16, coeff16), MulHi(src16, coeff16)))
  }

  /** The products of the second pixel. */
  function SecondProducts(src16: Epi16, coeff16: Epi16): Epi32 {
    AsEpi32(UnpackHi(MulLo(src16, coeff16), MulHi(src16, coeff16)))
  }

  /** Adds the products of pixels 0, 1 and 2 of four loaded pixels. */
  function ThreePixels(accum: Epi32, src8: Epi8, coeff: Epi16): Epi32 {
    var src16 := UnpackLoBytes(src8);
    var a1 := Add(accum, FirstProducts(src16, LowPair(coeff)));
    var a2 := Add(a1, SecondProducts(src16, LowPair(coeff)));
    Add(a2, FirstProducts(UnpackHiBytes(src8), HighPair(coeff)))
  }

  /** Adds the products of all four loaded pixels. */
  function FourPixels(accum: Epi32, src8: Epi8, coeff: Epi16): Epi32 {
    Add(ThreePixels(accum, src8, coeff), SecondProducts(UnpackHiBytes(src8), HighPair(coeff)))
  }

  /** mask[r]: the first `r` words all ones. */
  function Mask(r: nat): Epi16
    requires 1 <= r <= 3
  {
    if r == 1 then ZERO16.(w0 := -1)
    else if r == 2 then ZERO16.(w0 := -1, w1 := -1)
    else ZERO16.(w0 := -1, w1 := -1, w2 := -1)
  }

  /** The four accumulated channels of a pixel as the bytes that are stored. */
  function PackPixel(accum: Epi32): Epi8 {
    Packus(Packs(ShiftDown32(accum), ZERO32), ZERO16)
  }

  // ---------------------------------------------------------------- the lanes of one channel

  ghost function Lane(a: Epi32, c: int): int32
    requires 0 <= c < 4
  {
    if c == 0 then a.d0 else if c == 1 then a.d1 else if c == 2 then a.d2 else a.d3
  }

  ghost function LowWord(a: Epi16, c: int): Fixed
    requires 0 <= c < 4
  {
    if c == 0 then a.w0 else if c == 1 then a.w1 else if c == 2 then a.w2 else a.w3
  }

  ghost function HighWordOf(a: Epi16, c: int): Fixed
    requires 0 <= c < 4
  {
    if c == 0 then a.w4 else if c == 1 then a.w5 else if c == 2 then a.w6 else a.w7
  }

  lemma FirstProductsAre(src16: Epi16, coeff16: Epi16, c: int)
    requires 0 <= c < 4 && 0 <= LowWord(src16, c) < 256
    ensures Lane(FirstProducts(src16, coeff16), c) == LowWord(src16, c) * LowWord(coeff16, c)
  {
    ProductRebuilt(LowWord(src16, c), LowWord(coeff16, c));
  }

  lemma SecondProductsAre(src16: Epi16, coeff16: Epi16, c: int)
    requires 0 <= c < 4 && 0 <= HighWordOf(src16, c) < 256
    ensures Lane(SecondProducts(src16, coeff16), c) == HighWordOf(src16, c) * HighWordOf(coeff16, c)
  {
    ProductRebuilt(HighWordOf(src16, c), HighWordOf(coeff16, c));
  }

  /** Channel `c` of pixel `p` of a register that holds four pixels. */
  ghost function ByteOf(src8: Epi8, p: int, c: int): byte
    requires 0 <= p < 4 && 0 <= c < 4
  {
    if p == 0 then LowWord(UnpackLoBytes(src8), c) else if p == 1 then HighWordOf(UnpackLoBytes(src8), c)
    else if p == 2 then LowWord(UnpackHiBytes(src8), c) else HighWordOf(UnpackHiBytes(src8), c)
  }

  /** The weighted sum of channel `c` over the first three loaded pixels. */
  ghost function ThreeTerms(src8: Epi8, coeff: Epi16, c: int): int
    requires 0 <= c < 4
  {
    ByteOf(src8, 0, c) * coeff.w0 + ByteOf(src8, 1, c) * coeff.w1 + ByteOf(src8, 2, c) * coeff.w2
  }

  lemma AddLane(a: Epi32, b: Epi32, c: int)
    requires 0 <= c < 4
    ensures Lane(Add(a, b), c) == Wrap32(Lane(a, c) + Lane(b, c))
  {
  }

  lemma AddToSum(a: Epi32, t: Epi32, x: int, y: int, z: int, c: int)
    requires 0 <= c < 4 && Lane(a, c) == Wrap32(x + y) && Lane(t, c) == z
    ensures Lane(Add(a, t), c) == Wrap32(x + (y + z))
  {
    AddLane(a, t, c);
    WrapTwo(x, y, z, Lane(a, c), Lane(Add(a, t), c));
  }

  lemma AddThree(a: Epi32, t0: Epi32, t1: Epi32, t2: Epi32, c: int)
    requires 0 <= c < 4
    ensures Lane(Add(Add(Add(a, t0), t1), t2), c) == Wrap32(Lane(a, c) + (Lane(t0, c) + Lane(t1, c) + Lane(t2, c)))
  {
    var a1 := Add(a, t0);
    var a2 := Add(a1, t1);
    var a3 := Add(a2, t2);
    AddLane(a, t0, c);
    AddLane(a1, t1, c);
    AddLane(a2, t2, c);
    WrapThree(Lane(a, c), Lane(t0, c), Lane(t1, c), Lane(t2, c), Lane(a1, c), Lane(a2, c), Lane(a3, c));
  }

  lemma ThreePixelsAdd(accum: Epi32, src8: Epi8, coeff: Epi16, c: int)
    requires 0 <= c < 4
    ensures Lane(ThreePixels(accum, src8, coeff), c) == Wrap32(Lane(accum, c) + ThreeTerms(src8, coeff, c))
  {
    var lo, hi := UnpackLoBytes(src8), UnpackHiBytes(src8);
    FirstProductsAre(lo, LowPair(coeff), c);
    SecondProductsAre(lo, LowPair(coeff), c);
    FirstProductsAre(hi, HighPair(coeff), c);
    AddThree(accum, FirstProducts(lo, LowPair(coeff)), SecondProducts(lo, LowPair(coeff)), FirstProducts(hi, HighPair(coeff)), c);
  }

  lemma FourPixelsAdd(accum: Epi32, src8: Epi8, coeff: Epi16, c: int)
    requires 0 <= c < 4
    ensures Lane(FourPixels(accum, src8, coeff), c)
         == Wrap32(Lane(accum, c) + (ThreeTerms(src8, coeff, c) + ByteOf(src8, 3, c) * coeff.w3))
  {
    ThreePixelsAdd(accum, src8, coeff, c);
    var last := SecondProducts(UnpackHiBytes(src8), HighPair(coeff));
    SecondProductsAre(UnpackHiBytes(src8), HighPair(coeff), c);
    AddToSum(ThreePixels(accum, src8, coeff), last, Lane(accum, c), ThreeTerms(src8, coeff, c), ByteOf(src8, 3, c) * coeff.w3, c);
  }

  // ---------------------------------------------------------------- lanes against the reference

  /** The accumulated lanes are the wrapped sums of the first `n` taps, channel by channel. */
  ghost predicate Sums(accum: Epi32, k: Kernel, src: seq<byte>, rowStart: int, n: nat)
    requires n <= |k.taps|
  {
    forall c | 0 <= c < 4 :: Lane(accum, c) == Wrap32(PartialResponse(k, RowSamples(src, rowStart + c), n))
  }

  function Min(a: int, b: int): int {
    if a < b then a else b
  }

  /** Tap `i`, with zeros behind the last one. */
  function TapOrZero(taps: seq<Fixed>, i: nat): Fixed {
    if i < |taps| then taps[i] else 0
  }

  /** What tap `i` adds to the sum; taps past the end weigh nothing. */
  ghost function Term(k: Kernel, row: int -> int, i: nat): int {
    row(k.offset + i) * TapOrZero(k.taps, i)
  }

  /** The sum of the first `n` taps, or of all if there are fewer. */
  ghost function SumUpTo(k: Kernel, row: int -> int, n: nat): int {
    PartialResponse(k, row, Min(n, |k.taps|))
  }

  lemma OneMoreTap(k: Kernel, row: int -> int, n: nat)
    ensures SumUpTo(k, row, n + 1) == SumUpTo(k, row, n) + Term(k, row, n)
  {
  }

  lemma AddFour(sum0: int, sum1: int, sum2: int, sum3: int, sum4: int, t0: int, t1: int, t2: int, t3: int)
    requires sum1 == sum0 + t0 && sum2 == sum1 + t1 && sum3 == sum2 + t2 && sum4 == sum3 + t3
    ensures sum4 == sum0 + (t0 + t1 + t2 + t3)
  {
  }

  lemma FourMoreTaps(k: Kernel, row: int -> int, n: nat)
    requires n < |k.taps|
    ensures PartialResponse(k, row, Min(n + 4, |k.taps|))
         == PartialResponse(k, row, n) + (Term(k, row, n) + Term(k, row, n + 1) + Term(k, row, n + 2) + Term(k, row, n + 3))
  {
    OneMoreTap(k, row, n);
    OneMoreTap(k, row, n + 1);
    OneMoreTap(k, row, n + 2);
    OneMoreTap(k, row, n + 3);
    AddFour(SumUpTo(k, row, n), SumUpTo(k, row, n + 1), SumUpTo(k, row, n + 2), SumUpTo(k, row, n + 3), SumUpTo(k, row, n + 4),
            Term(k, row, n), Term(k, row, n + 1), Term(k, row, n + 2), Term(k, row, n + 3));
  }

  /** The register `coeff` holds the taps from `n` on, zeros behind the last one. */
  ghost predicate HoldsTaps(coeff: Epi16, k: Kernel, n: nat) {
    && coeff.w0 == TapOrZero(k.taps, n) && coeff.w1 == TapOrZero(k.taps, n + 1)
    && coeff.w2 == TapOrZero(k.taps, n + 2) && coeff.w3 == TapOrZero(k.taps, n + 3)
  }

  lemma LoadedChannel(src: seq<byte>, at: nat, p: int, c: int)
    requires at + 16 <= |src| && 0 <= p < 4 && 0 <= c < 4
    ensures ByteOf(LoadU(src, at), p, c) == src[at + 4 * p + c]
  {
  }

  lemma LoadedTerms(k: Kernel, src: seq<byte>, rowStart: int, n: nat, coeff: Epi16, at: nat, c: int)
    requires HoldsTaps(coeff, k, n) && 0 <= c < 4 && at == rowStart + 4 * (k.offset + n) && at + 16 <= |src|
    ensures var row, src8 := RowSamples(src, rowStart + c), LoadU(src, at);
      && ThreeTerms(src8, coeff, c) == Term(k, row, n) + Term(k, row, n + 1) + Term(k, row, n + 2)
      && ByteOf(src8, 3, c) * coeff.w3 == Term(k, row, n + 3)
  {
    LoadedChannel(src, at, 0, c);
    LoadedChannel(src, at, 1, c);
    LoadedChannel(src, at, 2, c);
    LoadedChannel(src, at, 3, c);
  }

  lemma GroupTerms(k: Kernel, src: seq<byte>, rowStart: int, n: nat, coeff: Epi16, at: nat, c: int)
    requires n < |k.taps| && HoldsTaps(coeff, k, n) && 0 <= c < 4
    requires at == rowStart + 4 * (k.offset + n) && at + 16 <= |src|
    ensures var row, src8 := RowSamples(src, rowStart + c), LoadU(src, at);
      && PartialResponse(k, row, Min(n + 4, |k.taps|))
         == PartialResponse(k, row, n) + (ThreeTerms(src8, coeff, c) + ByteOf(src8, 3, c) * coeff.w3)
      && (n + 3 >= |k.taps| ==> Response(k, row) == PartialResponse(k, row, n) + ThreeTerms(src8, coeff, c))
  {
    FourMoreTaps(k, RowSamples(src, rowStart + c), n);
    LoadedTerms(k, src, rowStart, n, coeff, at, c);
  }

  lemma FourChannelSum(accum: Epi32, k: Kernel, src: seq<byte>, rowStart: int, n: nat, coeff: Epi16, at: nat, c: int)
    requires n < |k.taps| && HoldsTaps(coeff, k, n) && 0 <= c < 4
    requires Lane(accum, c) == Wrap32(PartialResponse(k, RowSamples(src, rowStart + c), n))
    requires at == rowStart + 4 * (k.offset + n) && at + 16 <= |src|
    ensures Lane(FourPixels(accum, LoadU(src, at), coeff), c)
         == Wrap32(PartialResponse(k, RowSamples(src, rowStart + c), Min(n + 4, |k.taps|)))
  {
    var src8 := LoadU(src, at);
    GroupTerms(k, src, rowStart, n, coeff, at, c);
    FourPixelsAdd(accum, src8, coeff, c);
    SumAdvances(Lane(accum, c), PartialResponse(k, RowSamples(src, rowStart + c), n),
                ThreeTerms(src8, coeff, c) + ByteOf(src8, 3, c) * coeff.w3, Lane(FourPixels(accum, src8, coeff), c));
  }

  lemma ThreeChannelSum(accum: Epi32, k: Kernel, src: seq<byte>, rowStart: int, n: nat, coeff: Epi16, at: nat, c: int)
    requires n < |k.taps| <= n + 3 && HoldsTaps(coeff, k, n) && 0 <= c < 4
    requires Lane(accum, c) == Wrap32(PartialResponse(k, RowSamples(src, rowStart + c), n))
    requires at == rowStart + 4 * (k.offset + n) && at + 16 <= |src|
    ensures Lane(ThreePixels(accum, LoadU(src, at), coeff), c) == Wrap32(Response(k, RowSamples(src, rowStart + c)))
  {
    var src8 := LoadU(src, at);
    GroupTerms(k, src, rowStart, n, coeff, at, c);
    ThreePixelsAdd(accum, src8, coeff, c);
    SumAdvances(Lane(accum, c), PartialResponse(k, RowSamples(src, rowStart + c), n),
                ThreeTerms(src8, coeff, c), Lane(ThreePixels(accum, src8, coeff), c));
  }

  lemma SumAdvances(lane: int, done: int, terms: int, advanced: int)
    requires lane == Wrap32(done) && advanced == Wrap32(lane + terms)
    ensures advanced == Wrap32(done + terms)
  {
    WrapAdd(done, terms);
  }

  /** One loaded group of four pixels advances every channel's sum by four taps. */
  lemma FourPixelsSums(accum: Epi32, k: Kernel, src: seq<byte>, rowStart: int, n: nat, coeff: Epi16, at: nat)
    requires n < |k.taps| && Sums(accum, k, src, rowStart, n) && HoldsTaps(coeff, k, n)
    requires at == rowStart + 4 * (k.offset + n) && at + 16 <= |src|
    ensures Sums(FourPixels(accum, LoadU(src, at), coeff), k, src, rowStart, Min(n + 4, |k.taps|))
  {
    forall c | 0 <= c < 4
      ensures Lane(FourPixels(accum, LoadU(src, at), coeff), c)
           == Wrap32(PartialResponse(k, RowSamples(src, rowStart + c), Min(n + 4, |k.taps|)))
    {
      FourChannelSum(accum, k, src, rowStart, n, coeff, at, c);
    }
  }

  /** When at most three taps are left, the group's last pixel may be skipped. */
  lemma ThreePixelsSums(accum: Epi32, k: Kernel, src: seq<byte>, rowStart: int, n: nat, coeff: Epi16, at: nat)
    requires n < |k.taps| <= n + 3 && Sums(accum, k, src, rowStart, n) && HoldsTaps(coeff, k, n)
    requires at == rowStart + 4 * (k.offset + n) && at + 16 <= |src|
    ensures Sums(ThreePixels(accum, LoadU(src, at), coeff), k, src, rowStart, |k.taps|)
  {
    forall c | 0 <= c < 4
      ensures Lane(ThreePixels(accum, LoadU(src, at), coeff), c) == Wrap32(Response(k, RowSamples(src, rowStart + c)))
    {
      ThreeChannelSum(accum, k, src, rowStart, n, coeff, at, c);
    }
  }

  // ---------------------------------------------------------------- the horizontal kernels

  /** Sixteen-byte loads of the last group of every kernel stay inside `src`. */
  ghost predicate RowInsideSIMD(src: seq<byte>, rowStart: int, kx: seq<Kernel>) {
    forall x | 0 <= x < |kx| && kx[x].taps != [] ::
      0 <= rowStart + 4 * kx[x].offset && rowStart + 4 * (kx[x].offset + (|kx[x].taps| + 3) / 4 * 4) <= |src|
  }

  /** The four coefficients loaded for the group at tap `n`, cut to the kernel's own taps by the mask. */
  lemma LoadedTaps(values: seq<Fixed>, location: nat, k: Kernel, n: nat)
    requires location + |k.taps| <= |values| && k.taps == values[location..location + |k.taps|]
    requires n < |k.taps| && location + n + 4 <= |values|
    ensures n + 4 <= |k.taps| ==> HoldsTaps(LoadL(values, location + n), k, n)
    ensures n + 3 >= |k.taps| ==> HoldsTaps(And(LoadL(values, location + n), Mask(|k.taps| - n)), k, n)
  {
    assert forall i | 0 <= i < |k.taps| :: k.taps[i] == values[location + i];
  }

  /** The taps of kernel `k` lie at `location` of the store, with room for a four-wide load of the last group. */
  ghost predicate StoredAt(k: Kernel, values: seq<Fixed>, location: nat) {
    && location + (|k.taps| + 3) / 4 * 4 <= |values|
    && k.taps == values[location..location + |k.taps|]
  }

  /** Sixteen-byte loads of every group of `k` stay inside `src`. */
  ghost predicate GroupsInside(k: Kernel, src: seq<byte>, base: int) {
    k.taps != [] ==> 0 <= base && base + 4 * ((|k.taps| + 3) / 4 * 4) <= |src|
  }

  /** Adds the whole group of four taps that starts at tap `n`. */
  method AddGroup(accum: Epi32, src: seq<byte>, base: int, values: seq<Fixed>, location: nat, n: nat, ghost k: Kernel)
    returns (next: Epi32)
    requires StoredAt(k, values, location) && GroupsInside(k, src, base) && n % 4 == 0 && n + 4 <= |k.taps|
    requires Sums(accum, k, src, base - 4 * k.offset, n)
    ensures Sums(next, k, src, base - 4 * k.offset, n + 4)
  {
    var coeff := LoadL(values, location + n);
    LoadedTaps(values, location, k, n);
    FourPixelsSums(accum, k, src, base - 4 * k.offset, n, coeff, base + 4 * n);
    next := FourPixels(accum, LoadU(src, base + 4 * n), coeff);
  }

  /** Adds the last `r` taps, the coefficients behind them masked out; the fourth pixel is always absent. */
  method AddRest(accum: Epi32, src: seq<byte>, base: int, values: seq<Fixed>, location: nat, n: nat, r: nat, ghost k: Kernel)
    returns (next: Epi32)
    requires StoredAt(k, values, location) && GroupsInside(k, src, base) && n % 4 == 0 && 1 <= r <= 3 && n + r == |k.taps|
    requires Sums(accum, k, src, base - 4 * k.offset, n)
    ensures Sums(next, k, src, base - 4 * k.offset, |k.taps|)
  {
    var coeff := And(LoadL(values, location + n), Mask(r));
    LoadedTaps(values, location, k, n);
    ThreePixelsSums(accum, k, src, base - 4 * k.offset, n, coeff, base + 4 * n);
    next := ThreePixels(accum, LoadU(src, base + 4 * n), coeff);
  }

  /** The same with the fourth pixel multiplied by its masked coefficient, as the four-row kernel does. */
  method AddRestFour(accum: Epi32, src: seq<byte>, base: int, values: seq<Fixed>, location: nat, n: nat, r: nat, ghost k: Kernel)
    returns (next: Epi32)
    requires StoredAt(k, values, location) && GroupsInside(k, src, base) && n % 4 == 0 && 1 <= r <= 3 && n + r == |k.taps|
    requires Sums(accum, k, src, base - 4 * k.offset, n)
    ensures Sums(next, k, src, base - 4 * k.offset, |k.taps|)
  {
    var coeff := And(LoadL(values, location + n), Mask(r));
    LoadedTaps(values, location, k, n);
    FourPixelsSums(accum, k, src, base - 4 * k.offset, n, coeff, base + 4 * n);
    next := FourPixels(accum, LoadU(src, base + 4 * n), coeff);
  }

  lemma ZeroSums(k: Kernel, src: seq<byte>, rowStart: int)
    ensures Sums(ZERO32, k, src, rowStart, 0)
  {
  }

  /** The channel sums of one output pixel: whole groups of four taps, then the masked rest. */
  method AccumulatePixel_SSE2(src: seq<byte>, base: int, values: seq<Fixed>, location: nat, length: nat, ghost k: Kernel)
    returns (accum: Epi32)
    requires |k.taps| == length && StoredAt(k, values, location) && GroupsInside(k, src, base)
    ensures Sums(accum, k, src, base - 4 * k.offset, length)
  {
    accum := ZERO32;
    ZeroSums(k, src, base - 4 * k.offset);
    for filterX := 0 to length / 4
      invariant Sums(accum, k, src, base - 4 * k.offset, 4 * filterX)
    {
      accum := AddGroup(accum, src, base, values, location, 4 * filterX, k);
    }
    var r := length % 4;
    if r != 0 {
      accum := AddRest(accum, src, base, values, location, length / 4 * 4, r, k);
    }
  }

  /** The sums of every computed channel of every output pixel fit a 32-bit accumulator. */
  ghost predicate RowFits(src: seq<byte>, rowStart: int, kx: seq<Kernel>, hasAlpha: bool) {
    forall x, c | 0 <= x < |kx| && 0 <= c < 4 && Computed(hasAlpha, c) :: Fits32(Response(kx[x], RowSamples(src, rowStart + c)))
  }

  /** The four bytes of a pixel. */
  datatype Pixel = Pixel(b: byte, g: byte, r: byte, a: byte)

  /** Pixel `p` of a register that holds four. */
  ghost function PixelOf(e: Epi8, p: int): Pixel
    requires 0 <= p < 4
  {
    if p == 0 then Pixel(e.b0, e.b1, e.b2, e.b3) else if p == 1 then Pixel(e.b4, e.b5, e.b6, e.b7)
    else if p == 2 then Pixel(e.b8, e.b9, e.b10, e.b11) else Pixel(e.b12, e.b13, e.b14, e.b15)
  }

  /** The scalar conversion of four channel sums to a pixel. */
  ghost function ClampPixel(accum: Epi32): Pixel {
    Pixel(ClampTo8(ShiftDown(accum.d0)), ClampTo8(ShiftDown(accum.d1)), ClampTo8(ShiftDown(accum.d2)), ClampTo8(ShiftDown(accum.d3)))
  }

  /** From byte `at` on, `out` holds the pixel. */
  ghost predicate PixelAt(out: seq<byte>, at: nat, px: Pixel)
    requires at + 4 <= |out|
  {
    out[at] == px.b && out[at + 1] == px.g && out[at + 2] == px.r && out[at + 3] == px.a
  }

  /** Shifting and the two saturating packs convert the sums as the scalar code does. */
  lemma PackPixelClamps(accum: Epi32)
    ensures PixelOf(PackPixel(accum), 0) == ClampPixel(accum)
  {
    PackClamps(ShiftDown(accum.d0));
    PackClamps(ShiftDown(accum.d1));
    PackClamps(ShiftDown(accum.d2));
    PackClamps(ShiftDown(accum.d3));
  }

  /** A stored pixel converted from fitting sums is the reference's pixel in every computed channel. */
  lemma StoredPixel(out: seq<byte>, at: nat, accum: Epi32, src: seq<byte>, rowStart: int, kx: seq<Kernel>, hasAlpha: bool, x: nat)
    requires at + 4 <= |out| && PixelAt(out, at, ClampPixel(accum))
    requires x < |kx| && Sums(accum, kx[x], src, rowStart, |kx[x].taps|) && RowFits(src, rowStart, kx, hasAlpha)
    ensures forall c | 0 <= c < 4 && Computed(hasAlpha, c) ::
      out[at + c] == ClampTo8(ShiftDown(Response(kx[x], RowSamples(src, rowStart + c))))
  {
    forall c | 0 <= c < 4 && Computed(hasAlpha, c)
      ensures out[at + c] == ClampTo8(ShiftDown(Response(kx[x], RowSamples(src, rowStart + c))))
    {
      WrapFits(Response(kx[x], RowSamples(src, rowStart + c)));
      assert Lane(accum, c) == Response(kx[x], RowSamples(src, rowStart + c));
    }
  }

  /** _mm_cvtsi128_si32 and the store through an `int*`: the four lowest bytes. */
  method StorePixel(out: array<byte>, at: nat, e: Epi8)
    requires at + 4 <= out.Length
    modifies out
    ensures SameOutside(old(out[..]), out[..], at, at + 4)
    ensures PixelAt(out[..], at, PixelOf(e, 0))
  {
    out[at], out[at + 1], out[at + 2], out[at + 3] := e.b0, e.b1, e.b2, e.b3;
  }

  /** Packs the channel sums of pixel `x` and stores them. */
  method PackAndStore(out: array<byte>, at: nat, accum: Epi32, ghost src: seq<byte>, ghost rowStart: int, ghost kx: seq<Kernel>,
                      ghost hasAlpha: bool, ghost x: nat)
    requires at + 4 <= out.Length
    requires x < |kx| && Sums(accum, kx[x], src, rowStart, |kx[x].taps|) && RowFits(src, rowStart, kx, hasAlpha)
    modifies out
    ensures SameOutside(old(out[..]), out[..], at, at + 4)
    ensures forall c | 0 <= c < 4 && Computed(hasAlpha, c) ::
      out[..][at + c] == ClampTo8(ShiftDown(Response(kx[x], RowSamples(src, rowStart + c))))
  {
    StorePixel(out, at, PackPixel(accum));
    PackPixelClamps(accum);
    StoredPixel(out[..], at, accum, src, rowStart, kx, hasAlpha, x);
  }

  lemma TapsOfSlice(filter: ConvolutionFilter1D, src: seq<byte>, rowStart: int, outX: nat)
    requires filter.Valid() && filter.PaddedForSIMD() && outX < filter.NumValues()
    requires RowInsideSIMD(src, rowStart, filter.Kernels())
    ensures var k, slice := filter.Kernels()[outX], filter.FilterForValue(outX);
      && |k.taps| == slice.length && k.offset == slice.offset
      && StoredAt(k, filter.filterValues, slice.location) && GroupsInside(k, src, rowStart + 4 * slice.offset)
  {
  }

  method ConvolveHorizontally_SSE2(src: seq<byte>, rowStart: nat, filter: ConvolutionFilter1D, out: array<byte>, outStart: nat,
                                   hasAlpha: bool)
    requires filter.Valid() && filter.PaddedForSIMD()
    requires RowInsideSIMD(src, rowStart, filter.Kernels()) && RowFits(src, rowStart, filter.Kernels(), hasAlpha)
    requires outStart + 4 * filter.NumValues() <= out.Length
    modifies out
    ensures RowHolds(out[..], outStart, src, rowStart, filter.Kernels(), hasAlpha, 4 * filter.NumValues())
    ensures SameOutside(old(out[..]), out[..], outStart, outStart + 4 * filter.NumValues())
  {
    ghost var kx := filter.Kernels();
    var numValues := filter.NumValues();
    for outX := 0 to numValues
      invariant RowHolds(out[..], outStart, src, rowStart, kx, hasAlpha, 4 * outX)
      invariant SameOutside(old(out[..]), out[..], outStart, outStart + 4 * numValues)
    {
      ghost var before := out[..];
      var slice := filter.FilterForValue(outX);
      TapsOfSlice(filter, src, rowStart, outX);
      var accum := AccumulatePixel_SSE2(src, rowStart + 4 * slice.offset, filter.filterValues, slice.location, slice.length, kx[outX]);
      PackAndStore(out, outStart + 4 * outX, accum, src, rowStart, kx, hasAlpha, outX);
      RowHoldsExtends(before, out[..], outStart, src, rowStart, kx, hasAlpha, outX);
    }
  }

  // ---------------------------------------------------------------- four rows at once

  /** The row starts `outs` are `n` bytes apart or more, and inside a memory of `size` bytes. */
  ghost predicate RowsApart(outs: seq<nat>, n: nat, size: nat) {
    && (forall r | 0 <= r < |outs| :: outs[r] + n <= size)
    && (forall r, s | 0 <= r < s < |outs| :: outs[r] + n <= outs[s] || outs[s] + n <= outs[r])
  }

  /** The rows before `t` hold one pixel more than the others, which hold `x` pixels. */
  ghost predicate FourRowsHold(mem: seq<byte>, outs: seq<nat>, src: seq<byte>, starts: seq<int>, kx: seq<Kernel>,
                               hasAlpha: bool, t: nat, x: nat)
    requires |starts| == |outs| && RowsApart(outs, 4 * |kx|, |mem|)
    requires x < |kx| || (x == |kx| && t == 0)
  {
    forall r | 0 <= r < |outs| :: RowHolds(mem, outs[r], src, starts[r], kx, hasAlpha, if r < t then 4 * x + 4 else 4 * x)
  }

  /** Only bytes of the rows `outs` differ. */
  ghost predicate SameOutsideRows(before: seq<byte>, after: seq<byte>, outs: seq<nat>, n: nat) {
    && |before| == |after|
    && forall i | 0 <= i < |before| && (forall r | 0 <= r < |outs| :: !(outs[r] <= i < outs[r] + n)) :: after[i] == before[i]
  }

  lemma RowStored(before: seq<byte>, after: seq<byte>, outs: seq<nat>, src: seq<byte>, starts: seq<int>, kx: seq<Kernel>,
                  hasAlpha: bool, t: nat, x: nat)
    requires |starts| == |outs| && RowsApart(outs, 4 * |kx|, |before|) && t < |outs| && x < |kx|
    requires FourRowsHold(before, outs, src, starts, kx, hasAlpha, t, x)
    requires SameOutside(before, after, outs[t] + 4 * x, outs[t] + 4 * x + 4)
    requires forall c | 0 <= c < 4 && Computed(hasAlpha, c) ::
      after[outs[t] + 4 * x + c] == ClampTo8(ShiftDown(Response(kx[x], RowSamples(src, starts[t] + c))))
    ensures FourRowsHold(after, outs, src, starts, kx, hasAlpha, t + 1, x)
  {
    forall r | 0 <= r < |outs|
      ensures RowHolds(after, outs[r], src, starts[r], kx, hasAlpha, if r < t + 1 then 4 * x + 4 else 4 * x)
    {
      if r == t {
        RowHoldsExtends(before, after, outs[t], src, starts[t], kx, hasAlpha, x);
      } else {
        RowHoldsKept(before, after, outs[r], src, starts[r], kx, hasAlpha, if r < t then 4 * x + 4 else 4 * x);
      }
    }
  }

  lemma RowStoreIsInside(origin: seq<byte>, before: seq<byte>, after: seq<byte>, outs: seq<nat>, n: nat, t: nat, lo: int)
    requires t < |outs| && SameOutsideRows(origin, before, outs, n)
    requires outs[t] <= lo && lo + 4 <= outs[t] + n && SameOutside(before, after, lo, lo + 4)
    ensures SameOutsideRows(origin, after, outs, n)
  {
    forall i | 0 <= i < |origin| && (forall r | 0 <= r < |outs| :: !(outs[r] <= i < outs[r] + n)) ensures after[i] == origin[i] {
      assert !(outs[t] <= i < outs[t] + n);
    }
  }

  /** accum0 to accum3: one register for each of the four rows. */
  datatype FourAccums = FourAccums(accum0: Epi32, accum1: Epi32, accum2: Epi32, accum3: Epi32)

  ghost predicate FourSums(a: FourAccums, k: Kernel, src: seq<byte>, starts: seq<int>, n: nat)
    requires |starts| == 4 && n <= |k.taps|
  {
    && Sums(a.accum0, k, src, starts[0], n) && Sums(a.accum1, k, src, starts[1], n)
    && Sums(a.accum2, k, src, starts[2], n) && Sums(a.accum3, k, src, starts[3], n)
  }

  ghost predicate FourGroupsInside(k: Kernel, src: seq<byte>, starts: seq<int>)
    requires |starts| == 4
  {
    && GroupsInside(k, src, starts[0] + 4 * k.offset) && GroupsInside(k, src, starts[1] + 4 * k.offset)
    && GroupsInside(k, src, starts[2] + 4 * k.offset) && GroupsInside(k, src, starts[3] + 4 * k.offset)
  }

  /** The macro ITERATION for each row, on a whole group of four taps. */
  method AddGroupToFour(a: FourAccums, src: seq<byte>, starts: seq<int>, offset: int, values: seq<Fixed>, location: nat, n: nat,
                        ghost k: Kernel)
    returns (next: FourAccums)
    requires |starts| == 4 && offset == k.offset && StoredAt(k, values, location) && FourGroupsInside(k, src, starts)
    requires n % 4 == 0 && n + 4 <= |k.taps| && FourSums(a, k, src, starts, n)
    ensures FourSums(next, k, src, starts, n + 4)
  {
    var accum0 := AddGroup(a.accum0, src, starts[0] + 4 * offset, values, location, n, k);
    var accum1 := AddGroup(a.accum1, src, starts[1] + 4 * offset, values, location, n, k);
    var accum2 := AddGroup(a.accum2, src, starts[2] + 4 * offset, values, location, n, k);
    var accum3 := AddGroup(a.accum3, src, starts[3] + 4 * offset, values, location, n, k);
    next := FourAccums(accum0, accum1, accum2, accum3);
  }

  /** The macro ITERATION for each row, on the masked rest. */
  method AddRestToFour(a: FourAccums, src: seq<byte>, starts: seq<int>, offset: int, values: seq<Fixed>, location: nat, n: nat,
                       r: nat, ghost k: Kernel)
    returns (next: FourAccums)
    requires |starts| == 4 && offset == k.offset && StoredAt(k, values, location) && FourGroupsInside(k, src, starts)
    requires n % 4 == 0 && 1 <= r <= 3 && n + r == |k.taps| && FourSums(a, k, src, starts, n)
    ensures FourSums(next, k, src, starts, |k.taps|)
  {
    var accum0 := AddRestFour(a.accum0, src, starts[0] + 4 * offset, values, location, n, r, k);
    var accum1 := AddRestFour(a.accum1, src, starts[1] + 4 * offset, values, location, n, r, k);
    var accum2 := AddRestFour(a.accum2, src, starts[2] + 4 * offset, values, location, n, r, k);
    var accum3 := AddRestFour(a.accum3, src, starts[3] + 4 * offset, values, location, n, r, k);
    next := FourAccums(accum0, accum1, accum2, accum3);
  }

  /** The channel sums of output column `outX` in four rows. */
  method AccumulateFour_SSE2(src: seq<byte>, starts: seq<int>, filter: ConvolutionFilter1D, outX: nat) returns (a: FourAccums)
    requires |starts| == 4 && filter.Valid() && filter.PaddedForSIMD() && outX < filter.NumValues()
    requires forall r | 0 <= r < 4 :: RowInsideSIMD(src, starts[r], filter.Kernels())
    ensures var k := filter.Kernels()[outX]; FourSums(a, k, src, starts, |k.taps|)
  {
    var slice := filter.FilterForValue(outX);
    ghost var k := filter.Kernels()[outX];
    TapsOfSlice(filter, src, starts[0], outX);
    TapsOfSlice(filter, src, starts[1], outX);
    TapsOfSlice(filter, src, starts[2], outX);
    TapsOfSlice(filter, src, starts[3], outX);
    a := AccumulateTaps(src, starts, slice.offset, filter.filterValues, slice.location, slice.length, k);
  }

  method AccumulateTaps(src: seq<byte>, starts: seq<int>, offset: int, values: seq<Fixed>, location: nat, length: nat, ghost k: Kernel)
    returns (a: FourAccums)
    requires |starts| == 4 && offset == k.offset && |k.taps| == length
    requires StoredAt(k, values, location) && FourGroupsInside(k, src, starts)
    ensures FourSums(a, k, src, starts, length)
  {
    a := FourAccums(ZERO32, ZERO32, ZERO32, ZERO32);
    ZeroSums(k, src, starts[0]);
    ZeroSums(k, src, starts[1]);
    ZeroSums(k, src, starts[2]);
    ZeroSums(k, src, starts[3]);
    for filterX := 0 to length / 4
      invariant FourSums(a, k, src, starts, 4 * filterX)
    {
      a := AddGroupToFour(a, src, starts, offset, values, location, 4 * filterX, k);
    }
    var r := length % 4;
    if r != 0 {
      a := AddRestToFour(a, src, starts, offset, values, location, length / 4 * 4, r, k);
    }
  }

  /** Stores pixel `outX` of row `t`. */
  method StoreInRow(out: array<byte>, outs: seq<nat>, t: nat, outX: nat, accum: Epi32, ghost origin: seq<byte>,
                    ghost src: seq<byte>, ghost starts: seq<int>, ghost kx: seq<Kernel>, ghost hasAlpha: bool)
    requires |starts| == |outs| && RowsApart(outs, 4 * |kx|, out.Length) && t < |outs| && outX < |kx|
    requires Sums(accum, kx[outX], src, starts[t], |kx[outX].taps|) && RowFits(src, starts[t], kx, hasAlpha)
    requires FourRowsHold(out[..], outs, src, starts, kx, hasAlpha, t, outX) && SameOutsideRows(origin, out[..], outs, 4 * |kx|)
    modifies out
    ensures FourRowsHold(out[..], outs, src, starts, kx, hasAlpha, t + 1, outX) && SameOutsideRows(origin, out[..], outs, 4 * |kx|)
  {
    ghost var before := out[..];
    PackAndStore(out, outs[t] + 4 * outX, accum, src, starts[t], kx, hasAlpha, outX);
    RowStored(before, out[..], outs, src, starts, kx, hasAlpha, t, outX);
    RowStoreIsInside(origin, before, out[..], outs, 4 * |kx|, t, outs[t] + 4 * outX);
  }

  /** Convolves the four source rows that start at `starts` into the four rows of `out` that start at `outs`. */
  method Convolve4RowsHorizontally_SSE2(src: seq<byte>, starts: seq<int>, filter: ConvolutionFilter1D, out: array<byte>, outs: seq<nat>,
                                        ghost hasAlpha: bool)
    requires |starts| == |outs| == 4 && filter.Valid() && filter.PaddedForSIMD()
    requires RowsApart(outs, 4 * filter.NumValues(), out.Length)
    requires forall r | 0 <= r < 4 ::
      RowInsideSIMD(src, starts[r], filter.Kernels()) && RowFits(src, starts[r], filter.Kernels(), hasAlpha)
    modifies out
    ensures FourRowsHold(out[..], outs, src, starts, filter.Kernels(), hasAlpha, 0, filter.NumValues())
    ensures SameOutsideRows(old(out[..]), out[..], outs, 4 * filter.NumValues())
  {
    ghost var kx, origin := filter.Kernels(), out[..];
    var numValues := filter.NumValues();
    for outX := 0 to numValues
      invariant FourRowsHold(out[..], outs, src, starts, kx, hasAlpha, 0, outX)
      invariant SameOutsideRows(origin, out[..], outs, 4 * numValues)
    {
      var a := AccumulateFour_SSE2(src, starts, filter, outX);
      StoreInRow(out, outs, 0, outX, a.accum0, origin, src, starts, kx, hasAlpha);
      StoreInRow(out, outs, 1, outX, a.accum1, origin, src, starts, kx, hasAlpha);
      StoreInRow(out, outs, 2, outX, a.accum2, origin, src, starts, kx, hasAlpha);
      StoreInRow(out, outs, 3, outX, a.accum3, origin, src, starts, kx, hasAlpha);
    }
  }
}
