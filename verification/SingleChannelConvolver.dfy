/** SingleChannelConvolveX1D and SingleChannelConvolveY1D of skia/ext/convolver.cc. */
module SingleChannelConvolver {
  import opened PixelArithmetic
  import opened ConvolutionFilter

  function Clamp(p: int, count: int): int
    requires count > 0
  {
    if p < 0 then 0 else if p >= count then count - 1 else p
  }

  /** The byte of pixel `p` of a line whose pixels are `step` bytes apart from `base` on. */
  function Address(base: int, step: nat, p: int): int
    decreases p
  {
    if p <= 0 then base else Address(base, step, p - 1) + step
  }

  lemma {:induction false} AddressIsProduct(base: int, step: nat, p: nat)
    ensures Address(base, step, p) == base + p * step
  {
    if p > 0 {
      AddressIsProduct(base, step, p - 1);
    }
  }

  lemma {:induction false} AddressGrows(base: int, step: nat, p: int, q: int)
    requires p <= q
    ensures base <= Address(base, step, p) <= Address(base, step, q)
    decreases q
  {
    if p < q && q > 0 {
      AddressGrows(base, step, p, q - 1);
    } else if q > 0 {
      AddressGrows(base, step, p - 1, q - 1);
    }
  }

  /** The samples of a line of `count` pixels, its first and last pixel repeated without end. */
  ghost function ClampedLine(src: seq<byte>, base: int, step: nat, count: int): int -> int
    requires count > 0
  {
    p => At(src, Address(base, step, Clamp(p, count)))
  }

  /** A line of pixels in memory: `count` of them, `step` bytes apart, from byte `base` on. */
  datatype Line = Line(base: int, step: nat, count: int)

  /** A channel sum brought back to a byte. */
  function BringBackTo8(a: int, takeAbsolute: bool): byte {
    var shifted := ShiftDown(a);
    ClampTo8(if takeAbsolute then Abs(shifted) else shifted)
  }

  /** Without the switch, a sum becomes its whole part cut to a byte, so a negative one becomes 0. With it, a sum that is
      not negative becomes the same, and a negative one becomes its magnitude, rounded up and cut. */
  lemma BroughtBack(a: int)
    ensures IsByteOf(a, BringBackTo8(a, false))
    ensures a >= 0 ==> BringBackTo8(a, true) == BringBackTo8(a, false)
    ensures a < 0 ==>
      var b := BringBackTo8(a, true);
      if -a > 255 * 16384 then b == 255 else 16384 * (b - 1) < -a <= 16384 * b
  {
    ShiftedAndClamped(a);
  }

  /** With the switch, opposite sums give bytes that differ by at most one. */
  lemma OppositeSums(a: int)
    ensures -1 <= BringBackTo8(a, true) - BringBackTo8(-a, true) <= 1
  {
  }

  /** The channel sum of clamp-to-edge convolution at pixel `c` of a line: the kernel's middle tap falls on the pixel,
      or beside it by the kernel's offset. */
  ghost function ClampedSum(src: seq<byte>, l: Line, k: Kernel, c: int): int
    requires l.count > 0
  {
    Response(Kernel(c + k.offset - |k.taps| / 2, k.taps), ClampedLine(src, l.base, l.step, l.count))
  }

  ghost function ClampedByte(src: seq<byte>, l: Line, k: Kernel, takeAbsolute: bool, c: int): byte
    requires l.count > 0
  {
    BringBackTo8(ClampedSum(src, l, k, c), takeAbsolute)
  }

  predicate Opposite(a: int, b: int) {
    a + b == 0
  }

  lemma {:induction false} NegatedResponse(k: Kernel, negated: Kernel, row: int -> int, n: nat)
    requires negated.offset == k.offset && |negated.taps| == |k.taps| && n <= |k.taps|
    requires forall i | 0 <= i < |k.taps| :: Opposite(negated.taps[i], k.taps[i])
    ensures PartialResponse(negated, row, n) == -PartialResponse(k, row, n)
  {
    if n > 0 {
      NegatedResponse(k, negated, row, n - 1);
    }
  }

  /** With the switch, a kernel and its negative give the same line, up to one in each byte; without it, of a pixel's two
      bytes one is 0. */
  lemma NegatedKernel(src: seq<byte>, l: Line, k: Kernel, negated: Kernel, c: int)
    requires l.count > 0 && negated.offset == k.offset && |negated.taps| == |k.taps|
    requires forall i | 0 <= i < |k.taps| :: Opposite(negated.taps[i], k.taps[i])
    ensures -1 <= ClampedByte(src, l, k, true, c) - ClampedByte(src, l, negated, true, c) <= 1
    ensures ClampedByte(src, l, k, false, c) == 0 || ClampedByte(src, l, negated, false, c) == 0
  {
    NegatedResponse(Kernel(c + k.offset - |k.taps| / 2, k.taps), Kernel(c + k.offset - |k.taps| / 2, negated.taps),
                    ClampedLine(src, l.base, l.step, l.count), |k.taps|);
    OppositeSums(ClampedSum(src, l, k, c));
    BroughtBack(ClampedSum(src, l, k, c));
    BroughtBack(ClampedSum(src, l, negated, c));
  }

  // ---------------------------------------------------------------- the centre of the stored kernel

  /** Which stored tap the code takes for the middle one. */
  function Centrepoint(filterSize: int, filterOffset: int, filterLength: nat): int {
    if filterSize - filterOffset != 2 * filterOffset then filterSize / 2 - filterOffset else filterLength / 2
  }

  function CentreOf(k: Kernel): int {
    Centrepoint(|k.taps|, Trim(k).offset, |Trim(k).taps|)
  }

  /** The kernel where the code places it: as many pixels to the left as the tap taken lies right of the middle one. */
  function Placed(k: Kernel): Kernel {
    Kernel(k.offset - (CentreOf(k) - (|k.taps| / 2 - Trim(k).offset)), k.taps)
  }

  /** What can be told from the zeros at both ends: unless a third of the kernel's length lies left of the first tap
      stored, or as good as many taps are cut off on both sides, the middle tap is found. */
  predicate FindsMiddle(k: Kernel) {
    var left := k.offset + LeadingZeros(k.taps);
    var lean := k.offset + left - TrailingZeros(k.taps);
    |k.taps| != 3 * left || lean == 0 || (lean == 1 && left % 2 == 0) || (lean == -1 && left % 2 == 1)
  }

  /** A small step to the left or right leaves the half of a number as it is only if it stays in the same pair. */
  lemma SameHalf(n: int, step: int)
    ensures (n + step) / 2 == n / 2 <==> step == 0 || (step == 1 && n % 2 == 0) || (step == -1 && n % 2 == 1)
  {
    assert n == 2 * (n / 2) + n % 2;
    assert n + step == 2 * ((n + step) / 2) + (n + step) % 2;
  }

  /** The code places a kernel where it belongs exactly if this condition on its zeros holds. */
  lemma PlacedExactly(k: Kernel)
    requires LeadingZeros(k.taps) < |k.taps|
    ensures Placed(k) == k <==> FindsMiddle(k)
  {
    var first, end := LeadingZeros(k.taps), |k.taps| - TrailingZeros(k.taps);
    TrimmedTaps(k, first, end);
    CentreFoundExactly(|k.taps|, k.offset, first, TrailingZeros(k.taps));
  }

  /** The same on numbers: the kernel's length, its offset, and how many taps are cut off. */
  lemma CentreFoundExactly(size: int, offset: int, leading: nat, trailing: nat)
    requires leading + trailing < size
    ensures var left := offset + leading; var lean := offset + left - trailing;
      Centrepoint(size, left, size - leading - trailing) == size / 2 - left
      <==> (size != 3 * left || lean == 0 || (lean == 1 && left % 2 == 0) || (lean == -1 && left % 2 == 1))
  {
    var left := offset + leading;
    SameHalf(left, offset + left - trailing);
    if size == 3 * left {
      assert 3 * left / 2 - left == left / 2;
      assert size - leading - trailing == left + (offset + left - trailing);
    }
  }

  /** For a kernel at offset 0, the middle is found unless the leading zeros are a third of its length and the halves
      of leading and trailing zeros, rounded up, differ. */
  lemma FindsMiddleAtZero(k: Kernel)
    requires k.offset == 0
    ensures FindsMiddle(k) <==> |k.taps| != 3 * LeadingZeros(k.taps) || (LeadingZeros(k.taps) + 1) / 2 == (TrailingZeros(k.taps) + 1) / 2
  {
    SameHalf(LeadingZeros(k.taps) + 1, TrailingZeros(k.taps) - LeadingZeros(k.taps));
  }

  /** Tap `i` and tap `|taps| - 1 - i` weigh the same up to sign. */
  ghost predicate Symmetric(taps: seq<Fixed>) {
    forall i | 0 <= i < |taps| :: Abs(taps[i]) == Abs(taps[|taps| - 1 - i])
  }

  lemma SymmetricZeros(taps: seq<Fixed>)
    requires Symmetric(taps) && LeadingZeros(taps) < |taps|
    ensures TrailingZeros(taps) == LeadingZeros(taps)
  {
    var n, m := LeadingZeros(taps), TrailingZeros(taps);
    TrailingLeavesLeading(taps);
    var last := |taps| - 1 - m;
    assert Abs(taps[n]) == Abs(taps[|taps| - 1 - n]);
    assert Abs(taps[last]) == Abs(taps[|taps| - 1 - last]);
  }

  /** The kernel reaches `cp` taps to the left, and to the right no further than that, and at most two taps less. */
  ghost predicate Balanced(length: int, cp: int) {
    0 <= cp && 2 * cp - 1 <= length <= 2 * cp + 1
  }

  /** At column `c`, the loop that computes it reads taps and pixels, and writes a pixel, that exist. */
  predicate ColumnInside(count: int, length: int, cp: int, c: int) {
    c < count
    && (c < cp ==> cp - c <= length && length - (cp - c) <= count)
    && (cp <= c < count - cp ==> c - cp + length <= count)
    && (cp <= c && count - cp <= c ==> count - c + cp - 1 <= length)
  }

  /** The same for all columns that the lead loop, the main loop or the tail loop reaches. */
  ghost predicate StaysInside(count: int, length: int, cp: int) {
    forall c | 0 <= c && (c < cp || c < count - cp || c < count) :: ColumnInside(count, length, cp, c)
  }

  /** A centre left of the line's first or right of its last pixel makes some loop leave the line. */
  lemma CentreInside(count: int, length: int, cp: int)
    requires count >= 1 && StaysInside(count, length, cp)
    ensures 0 <= cp <= count
  {
    assert cp < 0 ==> ColumnInside(count, length, cp, count);
    assert cp > count ==> ColumnInside(count, length, cp, count);
  }

  /** The loops stay inside the line and the kernel exactly when the kernel is balanced. */
  lemma StaysInsideExactly(count: int, length: int, cp: int)
    requires 1 <= length <= count && 2 * cp <= count
    ensures StaysInside(count, length, cp) <==> Balanced(length, cp)
  {
    if !Balanced(length, cp) {
      var overrun := if cp < 0 then count else if length > 2 * cp + 1 then count - cp - 1 else count - cp;
      assert !ColumnInside(count, length, cp, overrun);
    }
  }

  /** Symmetric and antisymmetric kernels of odd length are placed where they belong, and the loops stay inside every
      line that is long enough, unless all taps are zero. */
  lemma SymmetricKernelIsCentred(taps: seq<Fixed>)
    requires Symmetric(taps) && |taps| % 2 == 1 && LeadingZeros(taps) < |taps|
    ensures var k := Kernel(0, taps);
      Placed(k) == k && forall count | count >= |taps| :: StaysInside(count, |Trim(k).taps|, CentreOf(k))
  {
    SymmetricZeros(taps);
    TrailingLeavesLeading(taps);
    var k := Kernel(0, taps);
    forall count | count >= |taps| ensures StaysInside(count, |Trim(k).taps|, CentreOf(k)) {
      StaysInsideExactly(count, |Trim(k).taps|, CentreOf(k));
    }
  }

  // ---------------------------------------------------------------- one line

  /** The line's pixels lie in `src`. */
  ghost predicate LineInside(src: seq<byte>, base: int, step: nat, count: int) {
    count >= 1 && base >= 0 && Address(base, step, count - 1) < |src|
  }

  /** Adds tap `i` at the pixel whose byte is at `at`. */
  method AddTap(src: seq<byte>, ghost base: int, ghost step: nat, ghost count: int, taps: seq<Fixed>, ghost start: int, i: nat, at: int,
                accval: int)
    returns (next: int)
    requires LineInside(src, base, step, count) && i < |taps| && at == Address(base, step, Clamp(start + i, count))
    requires accval == PartialResponse(Kernel(start, taps), ClampedLine(src, base, step, count), i)
    ensures next == PartialResponse(Kernel(start, taps), ClampedLine(src, base, step, count), i + 1)
  {
    AddressGrows(base, step, Clamp(start + i, count), count - 1);
    next := accval + taps[i] * src[at];
  }

  /** Adds the taps from `i` to `end`, which all fall on pixels of the line, the first one at byte `at`. */
  method AddTapsOnLine(src: seq<byte>, ghost base: int, step: nat, ghost count: int, taps: seq<Fixed>, ghost start: int,
                       i: nat, end: nat, at: int, accval: int)
    returns (sum: int, last: int)
    requires LineInside(src, base, step, count) && i <= end <= |taps| && 0 <= start + i && start + end <= count
    requires at == Address(base, step, start + i)
    requires accval == PartialResponse(Kernel(start, taps), ClampedLine(src, base, step, count), i)
    ensures sum == PartialResponse(Kernel(start, taps), ClampedLine(src, base, step, count), end)
    ensures last == Address(base, step, start + end)
  {
    sum, last := accval, at;
    for n := i to end
      invariant last == Address(base, step, start + n)
      invariant sum == PartialResponse(Kernel(start, taps), ClampedLine(src, base, step, count), n)
    {
      sum := AddTap(src, base, step, count, taps, start, n, last, sum);
      last := last + step;
    }
  }

  /** Adds the taps from `i` to `end`, which all weigh the pixel at byte `at`: the first or the last of the line. */
  method AddTapsAtEdge(src: seq<byte>, ghost base: int, ghost step: nat, ghost count: int, taps: seq<Fixed>, ghost start: int,
                       i: nat, end: nat, at: int, ghost edge: int, accval: int)
    returns (sum: int)
    requires LineInside(src, base, step, count) && i <= end <= |taps| && at == Address(base, step, edge)
    requires (edge == 0 && start + end <= 1) || (edge == count - 1 && start + i >= edge)
    requires accval == PartialResponse(Kernel(start, taps), ClampedLine(src, base, step, count), i)
    ensures sum == PartialResponse(Kernel(start, taps), ClampedLine(src, base, step, count), end)
  {
    sum := accval;
    for n := i to end
      invariant sum == PartialResponse(Kernel(start, taps), ClampedLine(src, base, step, count), n)
    {
      assert Clamp(start + n, count) == edge;
      sum := AddTap(src, base, step, count, taps, start, n, at, sum);
    }
  }

  /** The sum for a pixel in the lead part: taps left of the line weigh its first pixel. */
  method AccumulateLead(src: seq<byte>, base: int, step: nat, ghost count: int, taps: seq<Fixed>, cp: int, c: int) returns (accval: int)
    requires LineInside(src, base, step, count) && ColumnInside(count, |taps|, cp, c) && 0 <= c < cp
    ensures accval == Response(Kernel(c - cp, taps), ClampedLine(src, base, step, count))
  {
    accval := AddTapsAtEdge(src, base, step, count, taps, c - cp, 0, cp - c, base, 0, 0);
    var at: int;
    accval, at := AddTapsOnLine(src, base, step, count, taps, c - cp, cp - c, |taps|, base, accval);
  }

  /** The sum for a pixel of the main part: every tap falls on the line. */
  method AccumulateMain(src: seq<byte>, base: int, step: nat, ghost count: int, taps: seq<Fixed>, cp: int, c: int) returns (accval: int)
    requires LineInside(src, base, step, count) && ColumnInside(count, |taps|, cp, c) && 0 <= cp <= c < count - cp
    ensures accval == Response(Kernel(c - cp, taps), ClampedLine(src, base, step, count))
  {
    AddressIsProduct(base, step, c - cp);
    var at: int;
    accval, at := AddTapsOnLine(src, base, step, count, taps, c - cp, 0, |taps|, (c - cp) * step + base, 0);
  }

  /** The sum for a pixel of the tail part: taps right of the line weigh its last pixel. */
  method AccumulateTail(src: seq<byte>, base: int, step: nat, count: int, taps: seq<Fixed>, cp: int, c: int) returns (accval: int)
    requires LineInside(src, base, step, count) && ColumnInside(count, |taps|, cp, c) && 0 <= cp <= c && count - cp <= c
    ensures accval == Response(Kernel(c - cp, taps), ClampedLine(src, base, step, count))
  {
    AddressIsProduct(base, step, c - cp);
    var overlapTaps := count - c + cp;
    var at: int;
    accval, at := AddTapsOnLine(src, base, step, count, taps, c - cp, 0, overlapTaps - 1, (c - cp) * step + base, 0);
    accval := AddTapsAtEdge(src, base, step, count, taps, c - cp, overlapTaps - 1, |taps|, at, count - 1, accval);
  }

  /** The byte for pixel `c` of a line, with stored tap `cp` of the kernel over it. */
  ghost function LineByte(src: seq<byte>, base: int, step: nat, count: int, taps: seq<Fixed>, cp: int, takeAbsolute: bool, c: int): byte
    requires count > 0
  {
    BringBackTo8(Response(Kernel(c - cp, taps), ClampedLine(src, base, step, count)), takeAbsolute)
  }

  /** What one call convolves with. */
  datatype Convolution = Convolution(taps: seq<Fixed>, cp: int, takeAbsolute: bool)

  ghost predicate LineFits(l: Line, size: nat) {
    l.count >= 1 && l.base >= 0 && l.step >= 1 && Address(l.base, l.step, l.count - 1) < size
  }

  /** Pixel `c` of the output line is the convolution of the source line. */
  ghost predicate PixelDone(out: seq<byte>, o: Line, src: seq<byte>, l: Line, t: Convolution, c: nat)
    requires l.count > 0
  {
    var at := Address(o.base, o.step, c);
    0 <= at < |out| && out[at] == LineByte(src, l.base, l.step, l.count, t.taps, t.cp, t.takeAbsolute, c)
  }

  /** Byte `i` belongs to the line. */
  predicate OnLine(l: Line, i: int) {
    exists c | 0 <= c < l.count :: i == Address(l.base, l.step, c)
  }

  /** The first `n` pixels of the output line are done; nothing off the line has changed. */
  ghost predicate LineSoFar(origin: seq<byte>, out: seq<byte>, o: Line, src: seq<byte>, l: Line, t: Convolution, n: nat)
    requires l.count > 0
  {
    && |out| == |origin|
    && (forall c: nat | c < n :: PixelDone(out, o, src, l, t, c))
    && (forall i | 0 <= i < |out| && !OnLine(o, i) :: out[i] == origin[i])
  }

  lemma AddressesDiffer(base: int, step: nat, p: nat, q: nat)
    requires p < q && step >= 1
    ensures Address(base, step, p) < Address(base, step, q)
  {
    AddressGrows(base, step, p, q - 1);
  }

  lemma NextPixelDone(origin: seq<byte>, before: seq<byte>, after: seq<byte>, o: Line, src: seq<byte>, l: Line, t: Convolution, n: nat)
    requires l.count > 0 && n < o.count && o.step >= 1 && LineSoFar(origin, before, o, src, l, t, n)
    requires 0 <= Address(o.base, o.step, n) < |before|
    requires after == before[Address(o.base, o.step, n) := LineByte(src, l.base, l.step, l.count, t.taps, t.cp, t.takeAbsolute, n)]
    ensures LineSoFar(origin, after, o, src, l, t, n + 1)
  {
    forall c: nat | c < n + 1 ensures PixelDone(after, o, src, l, t, c) {
      if c < n {
        assert PixelDone(before, o, src, l, t, c);
        AddressesDiffer(o.base, o.step, c, n);
      }
    }
    assert OnLine(o, Address(o.base, o.step, n));
  }

  /** Brings a channel sum back to a byte and stores it as pixel `c` of the output line. */
  method StoreByte(output: array<byte>, targetByte: int, accval: int, takeAbsolute: bool, ghost origin: seq<byte>, ghost o: Line,
                   ghost src: seq<byte>, ghost l: Line, ghost t: Convolution, ghost c: nat)
    requires l.count > 0 && c < o.count && LineFits(o, output.Length) && takeAbsolute == t.takeAbsolute
    requires targetByte == Address(o.base, o.step, c)
    requires accval == Response(Kernel(c - t.cp, t.taps), ClampedLine(src, l.base, l.step, l.count))
    requires LineSoFar(origin, output[..], o, src, l, t, c)
    modifies output
    ensures LineSoFar(origin, output[..], o, src, l, t, c + 1)
  {
    AddressGrows(o.base, o.step, c, o.count - 1);
    ghost var before := output[..];
    output[targetByte] := BringBackTo8(accval, takeAbsolute);
    assert output[..] == before[targetByte := BringBackTo8(accval, takeAbsolute)];
    NextPixelDone(origin, before, output[..], o, src, l, t, c);
  }

  /** Convolves one line: the lead part, the main part and the tail part. */
  method ConvolveLine(src: seq<byte>, l: Line, t: Convolution, output: array<byte>, o: Line)
    requires LineInside(src, l.base, l.step, l.count) && StaysInside(l.count, |t.taps|, t.cp)
    requires LineFits(o, output.Length) && o.count == l.count
    modifies output
    ensures LineSoFar(old(output[..]), output[..], o, src, l, t, l.count)
  {
    ghost var origin := output[..];
    CentreInside(l.count, |t.taps|, t.cp);
    var c, targetByte := 0, o.base;
    while c < t.cp
      invariant 0 <= c <= t.cp && targetByte == Address(o.base, o.step, c)
      invariant LineSoFar(origin, output[..], o, src, l, t, c)
    {
      var accval := AccumulateLead(src, l.base, l.step, l.count, t.taps, t.cp, c);
      StoreByte(output, targetByte, accval, t.takeAbsolute, origin, o, src, l, t, c);
      c, targetByte := c + 1, targetByte + o.step;
    }
    while c < l.count - t.cp
      invariant t.cp <= c <= l.count && targetByte == Address(o.base, o.step, c)
      invariant LineSoFar(origin, output[..], o, src, l, t, c)
    {
      var accval := AccumulateMain(src, l.base, l.step, l.count, t.taps, t.cp, c);
      StoreByte(output, targetByte, accval, t.takeAbsolute, origin, o, src, l, t, c);
      c, targetByte := c + 1, targetByte + o.step;
    }
    while c < l.count
      invariant t.cp <= c <= l.count && l.count - t.cp <= c && targetByte == Address(o.base, o.step, c)
      invariant LineSoFar(origin, output[..], o, src, l, t, c)
    {
      var accval := AccumulateTail(src, l.base, l.step, l.count, t.taps, t.cp, c);
      StoreByte(output, targetByte, accval, t.takeAbsolute, origin, o, src, l, t, c);
      c, targetByte := c + 1, targetByte + o.step;
    }
  }

  // ---------------------------------------------------------------- from the stored kernel to the given one

  /** Convolving with the stored kernel around the tap taken for its middle is convolving with the kernel where the
      code places it. */
  lemma StoredSumIsClamped(src: seq<byte>, l: Line, k: Kernel, c: int)
    requires l.count > 0
    ensures Response(Kernel(c - CentreOf(k), Trim(k).taps), ClampedLine(src, l.base, l.step, l.count)) == ClampedSum(src, l, Placed(k), c)
  {
    var given := Kernel(c + Placed(k).offset - |k.taps| / 2, k.taps);
    TrimKeepsResponse(given, ClampedLine(src, l.base, l.step, l.count));
    if LeadingZeros(k.taps) < |k.taps| {
      assert Trim(given) == Kernel(c - CentreOf(k), Trim(k).taps);
    } else {
      assert Trim(k).taps == [];
    }
  }

  /** The output line is the clamp-to-edge convolution of the source line with the kernel. */
  ghost predicate ClampedLineDone(out: seq<byte>, o: Line, src: seq<byte>, l: Line, k: Kernel, takeAbsolute: bool)
    requires l.count > 0
  {
    forall c: nat | c < l.count :: ClampedPixelDone(out, o, src, l, k, takeAbsolute, c)
  }

  ghost predicate ClampedPixelDone(out: seq<byte>, o: Line, src: seq<byte>, l: Line, k: Kernel, takeAbsolute: bool, c: nat)
    requires l.count > 0
  {
    var at := Address(o.base, o.step, c);
    0 <= at < |out| && out[at] == ClampedByte(src, l, k, takeAbsolute, c)
  }

  lemma LineSoFarIsClamped(origin: seq<byte>, out: seq<byte>, o: Line, src: seq<byte>, l: Line, t: Convolution, k: Kernel)
    requires l.count > 0 && LineSoFar(origin, out, o, src, l, t, l.count)
    requires t.taps == Trim(k).taps && t.cp == CentreOf(k)
    ensures ClampedLineDone(out, o, src, l, Placed(k), t.takeAbsolute)
  {
    forall c: nat | c < l.count ensures ClampedPixelDone(out, o, src, l, Placed(k), t.takeAbsolute, c) {
      assert PixelDone(out, o, src, l, t, c);
      StoredSumIsClamped(src, l, k, c);
    }
  }

  // ---------------------------------------------------------------- when the sums are right

  /** A row with a single pixel of 1, at `p`. */
  ghost predicate IsImpulse(row: int -> int, p: int) {
    forall i: int :: row(i) == if i == p then 1 else 0
  }

  lemma {:induction false} ImpulseResponse(k: Kernel, row: int -> int, p: int, n: nat)
    requires IsImpulse(row, p) && n <= |k.taps|
    ensures PartialResponse(k, row, n) == if 0 <= p - k.offset < n then k.taps[p - k.offset] else 0
  {
    if n > 0 {
      ImpulseResponse(k, row, p, n - 1);
    }
  }

  /** The line of `count` pixels, one byte each, that is 1 at `p` and 0 elsewhere. */
  function Impulse(count: nat, p: nat): seq<byte> {
    seq(count, i => if i == p then 1 else 0)
  }

  lemma ImpulseLine(count: nat, p: nat)
    requires 0 < p < count - 1
    ensures IsImpulse(ClampedLine(Impulse(count, p), 0, 1, count), p)
  {
    forall i: int ensures ClampedLine(Impulse(count, p), 0, 1, count)(i) == if i == p then 1 else 0 {
      AddressIsProduct(0, 1, Clamp(i, count));
    }
  }

  /** The sums that the loops compute on a line are those of clamp-to-edge convolution, at every column. */
  ghost predicate SumsRight(src: seq<byte>, l: Line, k: Kernel)
    requires l.count > 0
  {
    forall c | 0 <= c < l.count ::
      Response(Kernel(c - CentreOf(k), Trim(k).taps), ClampedLine(src, l.base, l.step, l.count)) == ClampedSum(src, l, k, c)
  }

  /** The same taps at two different offsets weigh some impulse differently: one at the outer end of either. */
  lemma OffsetsDiffer(taps: seq<Fixed>, a: int, b: int, row: int -> int, p: int)
    requires taps != [] && taps[0] != 0 && taps[|taps| - 1] != 0 && a != b
    requires p == (if a < b then a else a + |taps| - 1) && IsImpulse(row, p)
    ensures Response(Kernel(a, taps), row) != Response(Kernel(b, taps), row)
  {
    ImpulseResponse(Kernel(a, taps), row, p, |taps|);
    ImpulseResponse(Kernel(b, taps), row, p, |taps|);
  }

  lemma ImpulseLineFits(length: int, cp: int, count: nat, p: nat)
    requires 1 <= length <= count && Balanced(length, cp) && 2 * cp <= count
    ensures LineInside(Impulse(count, p), 0, 1, count) && StaysInside(count, length, cp)
  {
    AddressIsProduct(0, 1, count - 1);
    StaysInsideExactly(count, length, cp);
  }

  /** A kernel placed beside where it belongs gets the sum of some impulse line wrong. */
  lemma MisplacedIsWrong(k: Kernel) returns (src: seq<byte>, l: Line)
    requires LeadingZeros(k.taps) < |k.taps| && Placed(k) != k && Balanced(|Trim(k).taps|, CentreOf(k))
    ensures l.count >= |k.taps| && LineInside(src, l.base, l.step, l.count) && StaysInside(l.count, |Trim(k).taps|, CentreOf(k))
    ensures !SumsRight(src, l, k)
  {
    var t, cp := Trim(k).taps, CentreOf(k);
    assert t != [] && t[0] != 0 && t[|t| - 1] != 0 by {
      TrimIsTight(k);
    }
    var start := |t| + 1;
    var right := start + k.offset - Placed(k).offset;
    var c := start + cp;
    var p := if start < right then start else start + |t| - 1;
    var count := c + |k.taps| + 2 * |t| + 2;
    src, l := Impulse(count, p), Line(0, 1, count);
    ImpulseLineFits(|t|, cp, count, p);
    ImpulseLine(count, p);
    OffsetsDiffer(t, start, right, ClampedLine(src, 0, 1, count), p);
    RightSum(src, l, k, c, Kernel(right, t));
  }

  /** Clamp-to-edge convolution with the stored taps, where they belong. */
  lemma RightSum(src: seq<byte>, l: Line, k: Kernel, c: int, right: Kernel)
    requires l.count > 0 && LeadingZeros(k.taps) < |k.taps|
    requires right == Kernel(c - CentreOf(k) + k.offset - Placed(k).offset, Trim(k).taps)
    ensures Response(right, ClampedLine(src, l.base, l.step, l.count)) == ClampedSum(src, l, k, c)
  {
    var given := Kernel(c + k.offset - |k.taps| / 2, k.taps);
    TrimKeepsResponse(given, ClampedLine(src, l.base, l.step, l.count));
    assert Trim(given) == right;
  }

  /** With loops that stay inside, the sums are those of clamp-to-edge convolution on every line that is long enough
      exactly if the condition on the kernel's zeros holds. */
  lemma SumsRightExactly(k: Kernel)
    requires LeadingZeros(k.taps) < |k.taps| && Balanced(|Trim(k).taps|, CentreOf(k))
    ensures FindsMiddle(k) <==>
            forall src: seq<byte>, l: Line | l.count >= |k.taps| && LineInside(src, l.base, l.step, l.count)
                                             && StaysInside(l.count, |Trim(k).taps|, CentreOf(k)) :: SumsRight(src, l, k)
  {
    PlacedExactly(k);
    if FindsMiddle(k) {
      forall src: seq<byte>, l: Line | l.count >= |k.taps| ensures SumsRight(src, l, k) {
        forall c | 0 <= c < l.count
          ensures Response(Kernel(c - CentreOf(k), Trim(k).taps), ClampedLine(src, l.base, l.step, l.count)) == ClampedSum(src, l, k, c)
        {
          StoredSumIsClamped(src, l, k, c);
        }
      }
    } else {
      var src, l := MisplacedIsWrong(k);
    }
  }

  /** The kernel 0, 1/2, 1/2 takes the shortcut: at the middle pixel of the line 0, 0, 200 the loops compute 0, which should be 100. */
  lemma OffCentreExample()
    ensures var k, src, l := Kernel(0, [0, 8192, 8192]), [0, 0, 200], Line(0, 1, 3);
      && LineInside(src, l.base, l.step, l.count) && StaysInside(l.count, |Trim(k).taps|, CentreOf(k))
      && LineByte(src, l.base, l.step, l.count, Trim(k).taps, CentreOf(k), false, 1) == 0
      && ClampedByte(src, l, k, false, 1) == 100
  {
    var k: Kernel, src: seq<byte>, l := Kernel(0, [0, 8192, 8192]), [0, 0, 200], Line(0, 1, 3);
    ExampleIsTrimmed(k);
    var row := ClampedLine(src, 0, 1, 3);
    assert row(0) == 0 && row(1) == 0 && row(2) == 200;
    ThreeTaps(k, row);
    TwoTaps(Kernel(0, [8192, 8192]), row);
  }

  lemma ExampleIsTrimmed(k: Kernel)
    requires k == Kernel(0, [0, 8192, 8192])
    ensures Trim(k) == Kernel(1, [8192, 8192]) && CentreOf(k) == 1
  {
    assert LeadingZeros(k.taps) == 1 && TrailingZeros(k.taps) == 0;
  }

  lemma TwoTaps(k: Kernel, row: int -> int)
    requires |k.taps| == 2
    ensures Response(k, row) == k.taps[0] * row(k.offset) + k.taps[1] * row(k.offset + 1)
  {
    assert PartialResponse(k, row, 1) == k.taps[0] * row(k.offset);
  }

  lemma ThreeTaps(k: Kernel, row: int -> int)
    requires |k.taps| == 3
    ensures Response(k, row) == k.taps[0] * row(k.offset) + k.taps[1] * row(k.offset + 1) + k.taps[2] * row(k.offset + 2)
  {
    assert PartialResponse(k, row, 1) == k.taps[0] * row(k.offset);
    assert PartialResponse(k, row, 2) == PartialResponse(k, row, 1) + k.taps[1] * row(k.offset + 1);
  }

  // ---------------------------------------------------------------- whole images

  /** One channel of an interleaved image: pixel (r, c) is at byte r * stride + c * channels + index. */
  datatype Channel = Channel(stride: nat, channels: nat, index: nat)
  {
    function Row(r: nat, width: int): Line {
      Line(Address(index, stride, r), channels, width)
    }

    function Column(c: nat, height: int): Line {
      Line(Address(index, channels, c), stride, height)
    }

    /** The image's pixels lie in memory of `size` bytes, and its rows do not overlap. */
    ghost predicate Fits(width: int, height: int, size: nat) {
      && width >= 1 && height >= 1 && index < channels
      && Address(0, channels, width) <= stride
      && Address(0, stride, height - 1) + Address(0, channels, width) <= size
    }
  }

  lemma {:induction false} AddressShift(base: int, step: nat, p: int)
    ensures Address(base, step, p) == base + Address(0, step, p)
    decreases p
  {
    if p > 0 {
      AddressShift(base, step, p - 1);
    }
  }

  /** The byte of pixel (r, c), whichever way the image is walked. */
  lemma PixelByte(ch: Channel, r: nat, c: nat)
    ensures Address(Address(ch.index, ch.stride, r), ch.channels, c)
         == ch.index + Address(0, ch.stride, r) + Address(0, ch.channels, c)
         == Address(Address(ch.index, ch.channels, c), ch.stride, r)
  {
    AddressShift(ch.index, ch.stride, r);
    AddressShift(ch.index, ch.channels, c);
    AddressShift(Address(ch.index, ch.stride, r), ch.channels, c);
    AddressShift(Address(ch.index, ch.channels, c), ch.stride, r);
  }

  /** Pixels in different rows have different bytes. */
  lemma RowBytesApart(ch: Channel, width: int, height: int, size: nat, r: nat, r': nat, c: nat, c': nat)
    requires ch.Fits(width, height, size) && r < r' && c < width && c' < width
    ensures Address(Address(ch.index, ch.stride, r), ch.channels, c) < Address(Address(ch.index, ch.stride, r'), ch.channels, c')
  {
    PixelByte(ch, r, c);
    PixelByte(ch, r', c');
    AddressGrows(0, ch.stride, r + 1, r');
    AddressGrows(0, ch.channels, c + 1, width);
    AddressGrows(0, ch.channels, 0, c');
  }

  lemma PixelInside(ch: Channel, width: int, height: int, size: nat, r: nat, c: nat)
    requires ch.Fits(width, height, size) && r < height && c < width
    ensures 0 <= Address(Address(ch.index, ch.stride, r), ch.channels, c) < size
  {
    PixelByte(ch, r, c);
    AddressGrows(0, ch.stride, r, height - 1);
    AddressGrows(0, ch.channels, c + 1, width);
  }

  lemma LinesFit(ch: Channel, width: int, height: int, size: nat, r: nat, c: nat)
    requires ch.Fits(width, height, size) && r < height && c < width
    ensures LineFits(ch.Row(r, width), size)
    ensures ch.stride >= 1 && LineFits(ch.Column(c, height), size)
  {
    PixelInside(ch, width, height, size, r, width - 1);
    PixelInside(ch, width, height, size, height - 1, c);
    PixelByte(ch, height - 1, c);
    AddressGrows(ch.index, ch.stride, 0, r);
    AddressGrows(ch.index, ch.channels, 0, c);
    AddressGrows(0, ch.channels, 1, width);
  }

  /** Line `n` of an image walked row by row, or column by column. */
  function LineOf(ch: Channel, byRows: bool, n: nat, width: int, height: int): Line {
    if byRows then ch.Row(n, width) else ch.Column(n, height)
  }

  /** Different lines of an image share no byte. */
  lemma LinesApart(ch: Channel, byRows: bool, width: int, height: int, size: nat, m: nat, n: nat, p: nat, q: nat)
    requires ch.Fits(width, height, size) && m < n
    requires var lines, pixels := if byRows then height else width, if byRows then width else height;
      n < lines && p < pixels && q < pixels
    ensures var a, b := LineOf(ch, byRows, m, width, height), LineOf(ch, byRows, n, width, height);
      Address(a.base, a.step, p) != Address(b.base, b.step, q)
  {
    if byRows {
      RowBytesApart(ch, width, height, size, m, n, p, q);
    } else {
      PixelByte(ch, p, m);
      PixelByte(ch, q, n);
      if p < q {
        RowBytesApart(ch, width, height, size, p, q, m, n);
      } else if q < p {
        RowBytesApart(ch, width, height, size, q, p, n, m);
      } else {
        AddressesDiffer(Address(ch.index, ch.stride, p), ch.channels, m, n);
      }
    }
  }

  /** A source image and channel, and the kernel it is convolved with. */
  datatype Source = Source(src: seq<byte>, ch: Channel, kernel: Kernel, takeAbsolute: bool, width: int, height: int)

  /** Line `n` of the output image is done. */
  ghost predicate LineDone(out: seq<byte>, o: Channel, s: Source, byRows: bool, n: nat)
    requires s.width > 0 && s.height > 0
  {
    ClampedLineDone(out, LineOf(o, byRows, n, s.width, s.height), s.src, LineOf(s.ch, byRows, n, s.width, s.height),
                    Placed(s.kernel), s.takeAbsolute)
  }

  /** The first `n` lines of the output image are done; nothing off them has changed. */
  ghost predicate ImageSoFar(origin: seq<byte>, out: seq<byte>, o: Channel, s: Source, byRows: bool, n: nat)
    requires s.width > 0 && s.height > 0
  {
    && |out| == |origin|
    && (forall m: nat | m < n :: LineDone(out, o, s, byRows, m))
    && (forall i | 0 <= i < |out| && (forall m: nat | m < n :: !OnLine(LineOf(o, byRows, m, s.width, s.height), i)) :: out[i] == origin[i])
  }

  lemma KeptLine(before: seq<byte>, after: seq<byte>, o: Channel, s: Source, byRows: bool, m: nat, n: nat)
    requires s.width > 0 && s.height > 0 && o.Fits(s.width, s.height, |before|) && |after| == |before|
    requires m < n < (if byRows then s.height else s.width) && LineDone(before, o, s, byRows, m)
    requires forall i | 0 <= i < |before| && !OnLine(LineOf(o, byRows, n, s.width, s.height), i) :: after[i] == before[i]
    ensures LineDone(after, o, s, byRows, m)
  {
    var a, b, l := LineOf(o, byRows, m, s.width, s.height), LineOf(o, byRows, n, s.width, s.height), LineOf(s.ch, byRows, m, s.width, s.height);
    forall c: nat | c < l.count ensures ClampedPixelDone(after, a, s.src, l, Placed(s.kernel), s.takeAbsolute, c) {
      assert ClampedPixelDone(before, a, s.src, l, Placed(s.kernel), s.takeAbsolute, c);
      forall q | 0 <= q < b.count ensures Address(a.base, a.step, c) != Address(b.base, b.step, q) {
        LinesApart(o, byRows, s.width, s.height, |before|, m, n, c, q);
      }
    }
  }

  lemma NextLine(origin: seq<byte>, before: seq<byte>, after: seq<byte>, o: Channel, s: Source, byRows: bool, n: nat)
    requires s.width > 0 && s.height > 0 && o.Fits(s.width, s.height, |before|) && |after| == |before|
    requires n < (if byRows then s.height else s.width) && ImageSoFar(origin, before, o, s, byRows, n)
    requires forall i | 0 <= i < |before| && !OnLine(LineOf(o, byRows, n, s.width, s.height), i) :: after[i] == before[i]
    requires LineDone(after, o, s, byRows, n)
    ensures ImageSoFar(origin, after, o, s, byRows, n + 1)
  {
    forall m: nat | m < n + 1 ensures LineDone(after, o, s, byRows, m) {
      if m < n {
        KeptLine(before, after, o, s, byRows, m, n);
      }
    }
    forall i | 0 <= i < |after| && (forall m: nat | m < n + 1 :: !OnLine(LineOf(o, byRows, m, s.width, s.height), i))
      ensures after[i] == origin[i]
    {
      assert !OnLine(LineOf(o, byRows, n, s.width, s.height), i);
      assert before[i] == origin[i];
    }
  }

  /** Convolves line `n` of the source into line `n` of the output. */
  method ConvolveImageLine(s: Source, t: Convolution, output: array<byte>, o: Channel, byRows: bool, n: nat, ghost origin: seq<byte>)
    requires s.width > 0 && s.height > 0 && n < (if byRows then s.height else s.width)
    requires s.ch.Fits(s.width, s.height, |s.src|) && o.Fits(s.width, s.height, output.Length)
    requires t == Convolution(Trim(s.kernel).taps, CentreOf(s.kernel), s.takeAbsolute)
    requires StaysInside(if byRows then s.width else s.height, |t.taps|, t.cp)
    requires ImageSoFar(origin, output[..], o, s, byRows, n)
    modifies output
    ensures ImageSoFar(origin, output[..], o, s, byRows, n + 1)
  {
    ghost var before := output[..];
    LinesFit(s.ch, s.width, s.height, |s.src|, if byRows then n else 0, if byRows then 0 else n);
    LinesFit(o, s.width, s.height, output.Length, if byRows then n else 0, if byRows then 0 else n);
    var from, to := LineOf(s.ch, byRows, n, s.width, s.height), LineOf(o, byRows, n, s.width, s.height);
    ConvolveLine(s.src, from, t, output, to);
    LineSoFarIsClamped(before, output[..], to, s.src, from, t, s.kernel);
    NextLine(origin, before, output[..], o, s, byRows, n);
  }

  /** The first kernel of the filter object, presumed to be the only one, is the given one. */
  ghost predicate HoldsKernel(filter: ConvolutionFilter1D, k: Kernel)
    reads filter
  {
    filter.Valid() && filter.NumValues() > 0 && filter.Kernels()[0] == Trim(k) && filter.filters[0].length == |k.taps|
  }

  /** Nothing is done for a kernel without taps, or one longer than the lines; otherwise both images hold their pixels,
      and the loops stay inside lines and kernel. */
  ghost predicate ChannelsFit(s: Source, o: Channel, size: nat, byRows: bool) {
    var count := if byRows then s.width else s.height;
    && s.width >= 0 && s.height >= 0 && |s.kernel.taps| >= 1
    && (Trim(s.kernel).taps != [] && |s.kernel.taps| <= count && s.width > 0 && s.height > 0 ==>
          && s.ch.Fits(s.width, s.height, |s.src|) && o.Fits(s.width, s.height, size)
          && StaysInside(count, |Trim(s.kernel).taps|, CentreOf(s.kernel)))
  }

  ghost predicate Done(origin: seq<byte>, out: seq<byte>, o: Channel, s: Source, byRows: bool, done: bool) {
    if done && s.width > 0 && s.height > 0 then ImageSoFar(origin, out, o, s, byRows, if byRows then s.height else s.width)
    else out == origin
  }

  /** Convolves every row of one channel with the filter's single kernel, where the code places it, edges repeated. */
  method SingleChannelConvolveX1D(s: Source, filter: ConvolutionFilter1D, output: array<byte>, o: Channel) returns (done: bool)
    requires HoldsKernel(filter, s.kernel) && ChannelsFit(s, o, output.Length, true)
    modifies output
    ensures done <==> Trim(s.kernel).taps != [] && |s.kernel.taps| <= s.width
    ensures Done(old(output[..]), output[..], o, s, true, done)
  {
    ghost var origin := output[..];
    var f := filter.FilterForValue(0);
    var filterSize := filter.filters[0].length;
    if f.length == 0 || s.width < filterSize {
      return false;
    }
    var taps := filter.filterValues[f.location..f.location + f.length];
    var t := Convolution(taps, Centrepoint(filterSize, f.offset, f.length), s.takeAbsolute);
    for r := 0 to s.height
      invariant s.height > 0 ==> ImageSoFar(origin, output[..], o, s, true, r)
      invariant s.height == 0 ==> output[..] == origin
    {
      ConvolveImageLine(s, t, output, o, true, r, origin);
    }
    return true;
  }

  /** Convolves every column of one channel with the filter's single kernel, where the code places it, edges repeated. */
  method SingleChannelConvolveY1D(s: Source, filter: ConvolutionFilter1D, output: array<byte>, o: Channel) returns (done: bool)
    requires HoldsKernel(filter, s.kernel) && ChannelsFit(s, o, output.Length, false)
    modifies output
    ensures done <==> Trim(s.kernel).taps != [] && |s.kernel.taps| <= s.height
    ensures Done(old(output[..]), output[..], o, s, false, done)
  {
    ghost var origin := output[..];
    var f := filter.FilterForValue(0);
    var filterSize := filter.filters[0].length;
    if f.length == 0 || s.height < filterSize {
      return false;
    }
    var taps := filter.filterValues[f.location..f.location + f.length];
    var t := Convolution(taps, Centrepoint(filterSize, f.offset, f.length), s.takeAbsolute);
    for c := 0 to s.width
      invariant s.width > 0 ==> ImageSoFar(origin, output[..], o, s, false, c)
      invariant s.width == 0 ==> output[..] == origin
    {
      ConvolveImageLine(s, t, output, o, false, c, origin);
    }
    return true;
  }

  /** Pixel (r, c) of the channel in `mem`. */
  ghost function ChannelPixel(mem: seq<byte>, ch: Channel, r: nat, c: nat): byte {
    At(mem, Address(Address(ch.index, ch.stride, r), ch.channels, c))
  }

  /** `b` is the transposed image of `a`. */
  ghost predicate Transposed(a: seq<byte>, ach: Channel, b: seq<byte>, bch: Channel, width: int, height: int) {
    forall r: nat, c: nat | r < height && c < width :: ChannelPixel(a, ach, r, c) == ChannelPixel(b, bch, c, r)
  }

  /** The column convolution of an image is the transposed row convolution of the transposed image. */
  lemma ColumnsAreTransposedRows(s: Source, out: seq<byte>, o: Channel, s': Source, out': seq<byte>, o': Channel)
    requires s.width > 0 && s.height > 0 && s'.width == s.height && s'.height == s.width
    requires s.kernel == s'.kernel && s.takeAbsolute == s'.takeAbsolute && Transposed(s.src, s.ch, s'.src, s'.ch, s.width, s.height)
    requires forall c: nat | c < s.width :: LineDone(out, o, s, false, c)
    requires forall r: nat | r < s'.height :: LineDone(out', o', s', true, r)
    ensures Transposed(out, o, out', o', s.width, s.height)
  {
    forall r: nat, c: nat | r < s.height && c < s.width ensures ChannelPixel(out, o, r, c) == ChannelPixel(out', o', c, r) {
      TransposedPixel(s, out, o, s', out', o', r, c);
    }
  }

  lemma TransposedPixel(s: Source, out: seq<byte>, o: Channel, s': Source, out': seq<byte>, o': Channel, r: nat, c: nat)
    requires s.width > 0 && s.height > 0 && s'.width == s.height && s'.height == s.width && r < s.height && c < s.width
    requires s.kernel == s'.kernel && s.takeAbsolute == s'.takeAbsolute && Transposed(s.src, s.ch, s'.src, s'.ch, s.width, s.height)
    requires LineDone(out, o, s, false, c) && LineDone(out', o', s', true, c)
    ensures ChannelPixel(out, o, r, c) == ChannelPixel(out', o', c, r)
  {
    var l, l' := s.ch.Column(c, s.height), s'.ch.Row(c, s'.width);
    assert ClampedPixelDone(out, o.Column(c, s.height), s.src, l, Placed(s.kernel), s.takeAbsolute, r);
    assert ClampedPixelDone(out', o'.Row(c, s'.width), s'.src, l', Placed(s.kernel), s.takeAbsolute, r);
    PixelByte(o, r, c);
    var k := Kernel(r + Placed(s.kernel).offset - |s.kernel.taps| / 2, s.kernel.taps);
    var line, line' := ClampedLine(s.src, l.base, l.step, l.count), ClampedLine(s'.src, l'.base, l'.step, l'.count);
    forall p ensures line(p) == line'(p) {
      var q := Clamp(p, s.height);
      assert ChannelPixel(s.src, s.ch, q, c) == ChannelPixel(s'.src, s'.ch, c, q);
      PixelByte(s.ch, q, c);
    }
    SameLineSameResponse(k, line, line', |k.taps|);
  }

  lemma {:induction false} SameLineSameResponse(k: Kernel, line: int -> int, line': int -> int, n: nat)
    requires n <= |k.taps| && forall p :: line(p) == line'(p)
    ensures PartialResponse(k, line, n) == PartialResponse(k, line', n)
  {
    if n > 0 {
      SameLineSameResponse(k, line, line', n - 1);
    }
  }
}
