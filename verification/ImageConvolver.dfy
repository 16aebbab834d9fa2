/** BGRAConvolve2D of skia/ext/convolver.cc: the streaming driver, proved to compute the two-pass reference. */
module ImageConvolver {
  import opened PixelArithmetic
  import opened ConvolutionFilter
  import opened ConvolutionSpec
  import opened CircularBuffer
  import opened SSE2
  import opened Convolver
  import opened ConvolverSSE2
  import opened ConvolverSSE2Vertical

  /** The source pixels and the horizontal kernels. */
  datatype Image = Image(src: seq<byte>, stride: nat, hasAlpha: bool, kx: seq<Kernel>)

  /** Which SIMD kernels a platform has, and how many pixels behind a row the horizontal ones may read. */
  datatype ConvolveProcs = ConvolveProcs(extraHorizontalReads: nat, vertically: bool, fourRows: bool, horizontally: bool)

  const NO_SIMD := ConvolveProcs(0, false, false, false)

  // ---------------------------------------------------------------- rows in the buffer

  ghost predicate Layout(mem: seq<byte>, numRows: nat, width: nat, img: Image) {
    numRows >= 1 && |mem| == numRows * width && 4 * |img.kx| <= width
  }

  /** The buffer's slot for row `y` holds that row, horizontally convolved. */
  ghost predicate RowReady(mem: seq<byte>, numRows: nat, width: nat, first: int, img: Image, y: int)
    requires Layout(mem, numRows, width, img)
  {
    RowHolds(mem, Slot(numRows, width, y - first), img.src, y * img.stride, img.kx, img.hasAlpha, 4 * |img.kx|)
  }

  /** Every row convolved so far that is at most a buffer's length old is still there. */
  ghost predicate RowsReady(mem: seq<byte>, numRows: nat, width: nat, first: int, img: Image, next: int)
    requires Layout(mem, numRows, width, img)
  {
    forall y | first <= y < next && next - numRows <= y :: RowReady(mem, numRows, width, first, img, y)
  }

  /** Adding row `next` overwrites only the row that is a whole turn older. */
  lemma OneRowAdded(before: seq<byte>, after: seq<byte>, numRows: nat, width: nat, first: int, img: Image, next: int)
    requires Layout(before, numRows, width, img) && RowsReady(before, numRows, width, first, img, next)
    requires var slot := Slot(numRows, width, next - first); SameOutside(before, after, slot, slot + 4 * |img.kx|)
    requires RowReady(after, numRows, width, first, img, next)
    ensures RowsReady(after, numRows, width, first, img, next + 1)
  {
    forall y | first <= y < next + 1 && next + 1 - numRows <= y ensures RowReady(after, numRows, width, first, img, y) {
      if y < next {
        assert RowReady(before, numRows, width, first, img, y);
        SlotsApart(numRows, width, y - first, next - first);
        RowHoldsKept(before, after, Slot(numRows, width, y - first), img.src, y * img.stride, img.kx, img.hasAlpha, 4 * |img.kx|);
      }
    }
  }

  /** The slots of the next four rows. */
  ghost function FourSlots(numRows: nat, width: nat, k: int): seq<nat>
    requires numRows >= 1
  {
    [Slot(numRows, width, k), Slot(numRows, width, k + 1), Slot(numRows, width, k + 2), Slot(numRows, width, k + 3)]
  }

  ghost function FourStarts(img: Image, next: int): seq<int> {
    [next * img.stride, (next + 1) * img.stride, (next + 2) * img.stride, (next + 3) * img.stride]
  }

  lemma FourSlotsApart(numRows: nat, width: nat, k: int, n: nat)
    requires numRows >= 4 && n <= width
    ensures RowsApart(FourSlots(numRows, width, k), n, numRows * width)
  {
    var outs := FourSlots(numRows, width, k);
    forall r, s | 0 <= r < s < 4 ensures outs[r] + n <= outs[s] || outs[s] + n <= outs[r] {
      SlotsApart(numRows, width, k + r, k + s);
    }
  }

  /** The row `y` survives a batch of four rows, when it is young enough. */
  lemma KeptByBatch(before: seq<byte>, after: seq<byte>, numRows: nat, width: nat, first: int, img: Image, next: int, y: int)
    requires Layout(before, numRows, width, img) && numRows >= 4
    requires y < next && next + 4 - numRows <= y && RowReady(before, numRows, width, first, img, y)
    requires SameOutsideRows(before, after, FourSlots(numRows, width, next - first), 4 * |img.kx|)
    ensures RowReady(after, numRows, width, first, img, y)
  {
    var outs, slot := FourSlots(numRows, width, next - first), Slot(numRows, width, y - first);
    forall r | 0 <= r < 4 ensures outs[r] + 4 * |img.kx| <= slot || slot + 4 * |img.kx| <= outs[r] {
      SlotsApart(numRows, width, y - first, next - first + r);
    }
    RowHoldsKept(before, after, slot, img.src, y * img.stride, img.kx, img.hasAlpha, 4 * |img.kx|);
  }

  lemma FourRowsAdded(before: seq<byte>, after: seq<byte>, numRows: nat, width: nat, first: int, img: Image, next: int)
    requires Layout(before, numRows, width, img) && numRows >= 4 && RowsReady(before, numRows, width, first, img, next)
    requires SameOutsideRows(before, after, FourSlots(numRows, width, next - first), 4 * |img.kx|)
    requires RowsApart(FourSlots(numRows, width, next - first), 4 * |img.kx|, |after|)
    requires FourRowsHold(after, FourSlots(numRows, width, next - first), img.src, FourStarts(img, next), img.kx, img.hasAlpha, 0, |img.kx|)
    ensures RowsReady(after, numRows, width, first, img, next + 4)
  {
    forall y | first <= y < next + 4 && next + 4 - numRows <= y ensures RowReady(after, numRows, width, first, img, y) {
      if y < next {
        KeptByBatch(before, after, numRows, width, first, img, next, y);
      } else {
        var outs, starts, r := FourSlots(numRows, width, next - first), FourStarts(img, next), y - next;
        assert RowHolds(after, outs[r], img.src, starts[r], img.kx, img.hasAlpha, 4 * |img.kx|);
      }
    }
  }

  // ---------------------------------------------------------------- from stored rows to the reference

  /** The sample that tap `i` weighs. */
  ghost function SampleAt(k: Kernel, row: int -> int, i: int): int {
    row(k.offset + i)
  }

  lemma {:induction false} SameSamplesSameResponse(k: Kernel, row: int -> int, k': Kernel, row': int -> int, n: nat)
    requires n <= |k.taps| && k.taps == k'.taps
    requires forall i | 0 <= i < n :: SampleAt(k, row, i) == SampleAt(k', row', i)
    ensures PartialResponse(k, row, n) == PartialResponse(k', row', n)
  {
    if n > 0 {
      assert SampleAt(k, row, n - 1) == SampleAt(k', row', n - 1);
      SameSamplesSameResponse(k, row, k', row', n - 1);
    }
  }

  /** `rows[i]` is the address of the convolved row that tap `i` of the vertical kernel weighs. */
  ghost predicate WindowStored(mem: seq<byte>, rows: seq<nat>, img: Image, k: Kernel) {
    && RowsInside(mem, rows, |k.taps|, 4 * |img.kx|)
    && forall i | 0 <= i < |k.taps| :: RowHolds(mem, rows[i], img.src, (k.offset + i) * img.stride, img.kx, img.hasAlpha, 4 * |img.kx|)
  }

  /** The stored rows give the vertical kernel the same sum as the reference's intermediate image. */
  lemma StoredResponse(mem: seq<byte>, rows: seq<nat>, img: Image, k: Kernel, j: int)
    requires WindowStored(mem, rows, img, k) && 0 <= j < 4 * |img.kx| && Computed(img.hasAlpha, j)
    ensures Response(Kernel(0, k.taps), StoredSamples(mem, rows, j)) == Response(k, ColumnSamples(img.src, img.stride, img.kx, j))
  {
    var stored, column := StoredSamples(mem, rows, j), ColumnSamples(img.src, img.stride, img.kx, j);
    forall i | 0 <= i < |k.taps| ensures SampleAt(Kernel(0, k.taps), stored, i) == SampleAt(k, column, i) {
      assert RowHolds(mem, rows[i], img.src, (k.offset + i) * img.stride, img.kx, img.hasAlpha, 4 * |img.kx|);
      assert mem[rows[i] + j] == RowByte(img.src, (k.offset + i) * img.stride, img.kx, j);
    }
    SameSamplesSameResponse(Kernel(0, k.taps), stored, k, column, |k.taps|);
  }

  ghost function ReferenceByte(img: Image, k: Kernel, j: int): byte
    requires 0 <= j < 4 * |img.kx|
  {
    NaiveByte(img.src, img.stride, img.hasAlpha, img.kx, k, j)
  }

  /** From byte `start` on, `out` holds the reference's output row for the vertical kernel `k`. */
  ghost predicate ReferenceRow(out: seq<byte>, start: nat, img: Image, k: Kernel) {
    start + 4 * |img.kx| <= |out| && forall j | 0 <= j < 4 * |img.kx| :: out[start + j] == ReferenceByte(img, k, j)
  }

  lemma StoredColumnIsReference(mem: seq<byte>, rows: seq<nat>, img: Image, k: Kernel, j: int)
    requires WindowStored(mem, rows, img, k) && 0 <= j < 4 * |img.kx| && Computed(img.hasAlpha, j)
    ensures StoredColumnByte(mem, rows, k.taps, j) == ColumnByte(img.src, img.stride, img.kx, k, j)
  {
    StoredResponse(mem, rows, img, k, j);
  }

  lemma StoredAlphaIsReference(mem: seq<byte>, rows: seq<nat>, img: Image, k: Kernel, x: int)
    requires WindowStored(mem, rows, img, k) && 0 <= x < |img.kx| && img.hasAlpha
    ensures StoredByte(mem, rows, k.taps, img.hasAlpha, 4 * x + 3) == ReferenceByte(img, k, 4 * x + 3)
  {
    StoredAlpha(mem, rows, k.taps, img.hasAlpha, x);
    NaiveAlpha(img.src, img.stride, img.hasAlpha, img.kx, k, x);
    StoredColumnIsReference(mem, rows, img, k, 4 * x);
    StoredColumnIsReference(mem, rows, img, k, 4 * x + 1);
    StoredColumnIsReference(mem, rows, img, k, 4 * x + 2);
    StoredColumnIsReference(mem, rows, img, k, 4 * x + 3);
  }

  lemma StoredColorIsReference(mem: seq<byte>, rows: seq<nat>, img: Image, k: Kernel, j: int)
    requires WindowStored(mem, rows, img, k) && 0 <= j < 4 * |img.kx| && (j % 4 != 3 || !img.hasAlpha)
    ensures StoredByte(mem, rows, k.taps, img.hasAlpha, j) == ReferenceByte(img, k, j)
  {
    if j % 4 != 3 {
      StoredColumnIsReference(mem, rows, img, k, j);
    }
  }

  lemma StoredByteIsReference(mem: seq<byte>, rows: seq<nat>, img: Image, k: Kernel, j: int)
    requires WindowStored(mem, rows, img, k) && 0 <= j < 4 * |img.kx|
    ensures StoredByte(mem, rows, k.taps, img.hasAlpha, j) == ReferenceByte(img, k, j)
  {
    if j % 4 != 3 || !img.hasAlpha {
      StoredColorIsReference(mem, rows, img, k, j);
    } else {
      var x := j / 4;
      assert j == 4 * x + 3;
      StoredAlphaIsReference(mem, rows, img, k, x);
    }
  }

  lemma OutputIsReference(out: seq<byte>, start: nat, mem: seq<byte>, rows: seq<nat>, img: Image, k: Kernel)
    requires start + 4 * |img.kx| <= |out| && WindowStored(mem, rows, img, k)
    requires OutputHolds(out, start, mem, rows, k.taps, img.hasAlpha, 4 * |img.kx|)
    ensures ReferenceRow(out, start, img, k)
  {
    forall j | 0 <= j < 4 * |img.kx| ensures out[start + j] == ReferenceByte(img, k, j) {
      StoredByteIsReference(mem, rows, img, k, j);
      assert out[start + j] == StoredByte(mem, rows, k.taps, img.hasAlpha, j);
    }
  }

  /** The vertical sums of every computed output byte fit a 32-bit accumulator. */
  ghost predicate ColumnsFitReference(img: Image, k: Kernel) {
    forall j | 0 <= j < 4 * |img.kx| && Computed(img.hasAlpha, j) :: Fits32(Response(k, ColumnSamples(img.src, img.stride, img.kx, j)))
  }

  lemma StoredColumnsFit(mem: seq<byte>, rows: seq<nat>, img: Image, k: Kernel)
    requires WindowStored(mem, rows, img, k) && ColumnsFitReference(img, k)
    ensures ColumnsFit(mem, rows, k.taps, img.hasAlpha, 4 * |img.kx|)
  {
    forall j | 0 <= j < 4 * |img.kx| && Computed(img.hasAlpha, j)
      ensures Fits32(Response(Kernel(0, k.taps), StoredSamples(mem, rows, j)))
    {
      StoredResponse(mem, rows, img, k, j);
    }
  }

  // ---------------------------------------------------------------- which rows SIMD may touch

  /** The number of pixels of a row that some kernel reaches: the extent of the last, largest one. */
  ghost predicate Extent(kx: seq<Kernel>, w: int) {
    && |kx| > 0 && w == kx[|kx| - 1].offset + |kx[|kx| - 1].taps|
    && forall x | 0 <= x < |kx| && kx[x].taps != [] :: 0 <= kx[x].offset && kx[x].offset + |kx[x].taps| <= w
  }

  /** Keeping back 1 + extra / w rows leaves at least `extra` pixels behind any earlier row. */
  lemma AvoidedRowsLeaveRoom(w: nat, extra: nat, stride: nat, y: nat, last: nat)
    requires w >= 1 && 4 * w <= stride && y < last - (1 + extra / w)
    ensures y * stride + 4 * (w + extra) <= (last - 1) * stride + 4 * w
  {
    var behind := last - 1 - y;
    MulKeepsOrder(extra / w + 1, behind, stride);
    MulKeepsOrder(4 * w, stride, extra / w + 1);
    assert (extra / w + 1) * (4 * w) == 4 * (extra / w * w + w);
    assert extra < extra / w * w + w;
    assert (last - 1) * stride == y * stride + behind * stride;
  }

  /** A row that is not kept back can be read sixteen bytes at a time. */
  lemma SimdRowInside(img: Image, w: int, extra: nat, y: nat, last: nat)
    requires Extent(img.kx, w) && w >= 1 && 4 * w <= img.stride && extra >= 3
    requires (last - 1) * img.stride + 4 * w <= |img.src| && y < last - (1 + extra / w)
    ensures RowInsideSIMD(img.src, y * img.stride, img.kx)
  {
    AvoidedRowsLeaveRoom(w, extra, img.stride, y, last);
    MulKeepsOrder(0, y, img.stride);
  }

  // ---------------------------------------------------------------- one step of the horizontal pass

  /** The buffer holds every row before `next` that is at most a buffer's length old. */
  ghost predicate BufferReady(rb: CircularRowBuffer, img: Image, next: int)
    reads rb, rb.buffer
  {
    && rb.Valid() && rb.nextRowCoordinate == next && 4 * |img.kx| <= rb.rowByteWidth
    && RowsReady(rb.buffer[..], rb.numRows, rb.rowByteWidth, rb.firstInputRow, img, next)
  }

  /** Every pixel of row `y` that a kernel reaches lies in the source. */
  ghost predicate RowReachable(img: Image, y: int) {
    RowInside(img.src, y * img.stride, img.kx)
  }

  ghost predicate RowSumsFit(img: Image, y: int) {
    RowFits(img.src, y * img.stride, img.kx, img.hasAlpha)
  }

  /** Row `y` may be convolved four taps at a time, and its sums fit. */
  ghost predicate SimdSafe(img: Image, y: int) {
    RowInsideSIMD(img.src, y * img.stride, img.kx) && RowSumsFit(img, y)
  }

  /** Convolves source row `y` into the next row of the buffer. */
  method AddRow(src: seq<byte>, stride: nat, hasAlpha: bool, filterX: ConvolutionFilter1D, rowBuffer: CircularRowBuffer,
                y: nat, simd: bool, ghost img: Image)
    requires filterX.Valid() && img == Image(src, stride, hasAlpha, filterX.Kernels()) && BufferReady(rowBuffer, img, y)
    requires if simd then filterX.PaddedForSIMD() && SimdSafe(img, y) else RowReachable(img, y)
    modifies rowBuffer, rowBuffer.buffer
    ensures BufferReady(rowBuffer, img, y + 1)
  {
    MulKeepsOrder(0, y, stride);
    ghost var before := rowBuffer.buffer[..];
    var row := rowBuffer.AdvanceRow();
    if simd {
      ConvolveHorizontally_SSE2(src, y * stride, filterX, rowBuffer.buffer, row, hasAlpha);
    } else {
      ConvolveHorizontally(src, y * stride, filterX, hasAlpha, rowBuffer.buffer, row);
    }
    OneRowAdded(before, rowBuffer.buffer[..], rowBuffer.numRows, rowBuffer.rowByteWidth, rowBuffer.firstInputRow, img, y);
  }

  /** Advances the buffer by four rows. */
  method AdvanceFourRows(rowBuffer: CircularRowBuffer) returns (outs: seq<nat>)
    requires rowBuffer.Valid()
    modifies rowBuffer
    ensures rowBuffer.Valid() && rowBuffer.nextRowCoordinate == old(rowBuffer.nextRowCoordinate) + 4
    ensures outs == FourSlots(rowBuffer.numRows, rowBuffer.rowByteWidth, old(rowBuffer.nextRowCoordinate) - rowBuffer.firstInputRow)
  {
    var row0 := rowBuffer.AdvanceRow();
    var row1 := rowBuffer.AdvanceRow();
    var row2 := rowBuffer.AdvanceRow();
    var row3 := rowBuffer.AdvanceRow();
    outs := [row0, row1, row2, row3];
  }

  /** The rows `y` to `y + 3` may be convolved by the four-row kernel. */
  ghost predicate FourSafe(img: Image, y: int) {
    forall r | 0 <= r < 4 :: RowInsideSIMD(img.src, FourStarts(img, y)[r], img.kx) && RowFits(img.src, FourStarts(img, y)[r], img.kx, img.hasAlpha)
  }

  lemma FourSafeRows(img: Image, y: int)
    requires SimdSafe(img, y) && SimdSafe(img, y + 1) && SimdSafe(img, y + 2) && SimdSafe(img, y + 3)
    ensures FourSafe(img, y)
  {
  }

  /** Convolves the source rows `y` to `y + 3` into the next four rows of the buffer. */
  method AddFourRows(src: seq<byte>, stride: nat, hasAlpha: bool, filterX: ConvolutionFilter1D, rowBuffer: CircularRowBuffer,
                     y: nat, ghost img: Image)
    requires filterX.Valid() && filterX.PaddedForSIMD() && img == Image(src, stride, hasAlpha, filterX.Kernels())
    requires BufferReady(rowBuffer, img, y) && rowBuffer.numRows >= 4 && FourSafe(img, y)
    modifies rowBuffer, rowBuffer.buffer
    ensures BufferReady(rowBuffer, img, y + 4)
  {
    ghost var before := rowBuffer.buffer[..];
    ghost var first, width := rowBuffer.firstInputRow, rowBuffer.rowByteWidth;
    var starts := [y * stride, (y + 1) * stride, (y + 2) * stride, (y + 3) * stride];
    assert starts == FourStarts(img, y);
    var outs := AdvanceFourRows(rowBuffer);
    FourSlotsApart(rowBuffer.numRows, width, y - first, 4 * |img.kx|);
    Convolve4RowsHorizontally_SSE2(src, starts, filterX, rowBuffer.buffer, outs, hasAlpha);
    FourRowsAdded(before, rowBuffer.buffer[..], rowBuffer.numRows, width, first, img, y);
  }

  /** Rows from `first` on may be read by the scalar kernel before `last`, by the SIMD kernels before `last - avoid`. */
  ghost predicate RowsReadable(img: Image, first: int, last: int, avoid: int, anySimd: bool) {
    && (forall y | first <= y < last :: RowReachable(img, y))
    && (anySimd ==> forall y | first <= y < last - avoid :: SimdSafe(img, y))
  }

  /** Generates rows until the window that ends before `end` is complete: four at a time while that is safe,
      then one at a time. */
  method GenerateRows(src: seq<byte>, stride: nat, hasAlpha: bool, filterX: ConvolutionFilter1D, rowBuffer: CircularRowBuffer,
                      simd: ConvolveProcs, end: int, last: int, avoidSimdRows: int, nextXRow: nat, ghost img: Image)
    returns (next: nat)
    requires filterX.Valid() && img == Image(src, stride, hasAlpha, filterX.Kernels()) && BufferReady(rowBuffer, img, nextXRow)
    requires end <= last && (simd.fourRows ==> rowBuffer.numRows >= 4)
    requires simd.fourRows || simd.horizontally ==> filterX.PaddedForSIMD()
    requires avoidSimdRows >= 1 && RowsReadable(img, nextXRow, last, avoidSimdRows, simd.fourRows || simd.horizontally)
    modifies rowBuffer, rowBuffer.buffer
    ensures BufferReady(rowBuffer, img, next)
    ensures if end <= nextXRow then next == nextXRow else end <= next <= last && next <= end + if simd.fourRows then 3 else 0
  {
    next := nextXRow;
    while next < end
      invariant BufferReady(rowBuffer, img, next) && nextXRow <= next
      invariant end <= nextXRow ==> next == nextXRow
      invariant nextXRow < end ==> next <= last && next <= end + if simd.fourRows then 3 else 0
      decreases end - next
    {
      if simd.fourRows && next + 3 < last - avoidSimdRows {
        FourSafeRows(img, next);
        AddFourRows(src, stride, hasAlpha, filterX, rowBuffer, next, img);
        next := next + 4;
      } else {
        AddRow(src, stride, hasAlpha, filterX, rowBuffer, next, simd.horizontally && next < last - avoidSimdRows, img);
        next := next + 1;
      }
    }
  }

  // ---------------------------------------------------------------- one output row

  /** The unrolled addresses, from the window's first row on, are those of the window's rows. */
  lemma WindowIsStored(rb: CircularRowBuffer, addresses: seq<nat>, img: Image, k: Kernel, next: int)
    requires BufferReady(rb, img, next) && |addresses| == rb.numRows
    requires forall i | 0 <= i < rb.numRows :: addresses[i] == rb.AddressOf(next - rb.numRows + i)
    requires rb.firstInputRow <= k.offset && next - rb.numRows <= k.offset && k.offset + |k.taps| <= next
    ensures WindowStored(rb.buffer[..], addresses[k.offset - (next - rb.numRows)..], img, k)
    ensures RowsInside(rb.buffer[..], addresses[k.offset - (next - rb.numRows)..], |k.taps|, rb.rowByteWidth)
  {
    var mem, rows := rb.buffer[..], addresses[k.offset - (next - rb.numRows)..];
    forall i | 0 <= i < |k.taps|
      ensures rows[i] + rb.rowByteWidth <= rb.buffer.Length
      ensures RowHolds(mem, rows[i], img.src, (k.offset + i) * img.stride, img.kx, img.hasAlpha, 4 * |img.kx|)
    {
      assert rows[i] == rb.AddressOf(k.offset + i);
      assert RowReady(mem, rb.numRows, rb.rowByteWidth, rb.firstInputRow, img, k.offset + i);
    }
  }

  /** The bytes of a row rounded up to whole registers of four pixels. */
  function PaddedWidth(pixels: nat): nat {
    4 * ((pixels + 3) / 4 * 4)
  }

  /** The row buffer's width is a multiple of sixteen pixels, so whole registers fit into its rows. */
  lemma RegistersFit(pixels: nat, bufferWidth: nat)
    requires bufferWidth == (pixels + 15) / 16 * 16
    ensures PaddedWidth(pixels) <= bufferWidth * 4
  {
    var registers, blocks := (pixels + 3) / 4, (pixels + 15) / 16;
    RoundedUp(pixels, registers, blocks);
    assert PaddedWidth(pixels) == 4 * (registers * 4);
  }

  lemma RoundedUp(n: nat, fours: nat, sixteens: nat)
    requires fours == (n + 3) / 4 && sixteens == (n + 15) / 16
    ensures n <= 16 * sixteens && fours <= 4 * sixteens
  {
    assert n + 3 == 4 * fours + (n + 3) % 4;
    assert n + 15 == 16 * sixteens + (n + 15) % 16;
  }

  /** Runs the vertical kernel `k` over its window of buffered rows. */
  method ConvolveWindow(taps: seq<Fixed>, offset: int, rowBuffer: CircularRowBuffer, pixelWidth: nat, output: array<byte>, outStart: nat,
                        hasAlpha: bool, simd: bool, next: int, ghost img: Image, ghost k: Kernel)
    requires k == Kernel(offset, taps) && pixelWidth == |img.kx| && hasAlpha == img.hasAlpha
    requires BufferReady(rowBuffer, img, next) && output != rowBuffer.buffer && outStart + 4 * pixelWidth <= output.Length
    requires rowBuffer.firstInputRow <= offset && next - rowBuffer.numRows <= offset && offset + |taps| <= next
    requires simd ==> ColumnsFitReference(img, k) && PaddedWidth(pixelWidth) <= rowBuffer.rowByteWidth
    modifies output
    ensures ReferenceRow(output[..], outStart, img, k)
    ensures SameOutside(old(output[..]), output[..], outStart, outStart + 4 * pixelWidth)
  {
    var addresses, first := rowBuffer.GetRowAddresses();
    var rows := addresses[offset - first..];
    WindowIsStored(rowBuffer, addresses, img, k, next);
    if simd {
      StoredColumnsFit(rowBuffer.buffer[..], rows, img, k);
      ConvolveVertically_SSE2(taps, rowBuffer.buffer, rows, pixelWidth, output, outStart, hasAlpha);
    } else {
      ConvolveVertically(taps, rowBuffer.buffer, rows, pixelWidth, output, outStart, hasAlpha);
    }
    OutputIsReference(output[..], outStart, rowBuffer.buffer[..], rows, img, k);
  }

  // ---------------------------------------------------------------- the whole image

  function End(k: Kernel): int {
    k.offset + |k.taps|
  }

  /** Going down the output, no vertical window starts above the first or ends above an earlier one. */
  ghost predicate WindowsAdvance(ky: seq<Kernel>) {
    && (forall y | 0 <= y < |ky| :: ky[0].offset <= ky[y].offset)
    && (forall y, z | 0 <= y < z < |ky| :: End(ky[y]) <= End(ky[z]))
  }

  /** Every pixel that the kernels reach lies in the source. */
  ghost predicate SourceCovers(img: Image, ky: seq<Kernel>)
    requires |ky| > 0
  {
    0 <= ky[0].offset && forall y | ky[0].offset <= y < End(ky[|ky| - 1]) :: RowReachable(img, y)
  }

  /** Rows hold all `w` pixels that the last horizontal kernel reaches, no other reaches further, and the
      `last` rows lie in the source. */
  ghost predicate SimdLayout(img: Image, w: int, last: int) {
    Extent(img.kx, w) && 4 * w <= img.stride && (last - 1) * img.stride + 4 * w <= |img.src|
  }

  /** What the SIMD kernels need besides: the layout above, and sums that fit 32 bits. */
  ghost predicate SimdCovers(img: Image, ky: seq<Kernel>, w: int)
    requires |ky| > 0
  {
    && SimdLayout(img, w, End(ky[|ky| - 1]))
    && (forall y | ky[0].offset <= y < End(ky[|ky| - 1]) :: RowSumsFit(img, y))
    && (forall y | 0 <= y < |ky| :: ColumnsFitReference(img, ky[y]))
  }

  lemma SimdRowIsSafe(img: Image, w: int, extra: nat, avoid: int, y: nat, last: nat)
    requires w >= 1 && extra >= 3 && avoid == 1 + extra / w && y < last - avoid
    requires SimdLayout(img, w, last) && RowSumsFit(img, y)
    ensures SimdSafe(img, y)
  {
    SimdRowInside(img, w, extra, y, last);
  }

  lemma RowsAreReadable(img: Image, ky: seq<Kernel>, w: int, extra: nat, avoid: int, anySimd: bool)
    requires |ky| > 0 && SourceCovers(img, ky) && w >= 1 && avoid == 1 + extra / w
    requires anySimd ==> SimdCovers(img, ky, w) && extra >= 3
    ensures avoid >= 1 && RowsReadable(img, ky[0].offset, End(ky[|ky| - 1]), avoid, anySimd)
  {
    if anySimd {
      forall y | ky[0].offset <= y < End(ky[|ky| - 1]) - avoid ensures SimdSafe(img, y) {
        SimdRowIsSafe(img, w, extra, avoid, y, End(ky[|ky| - 1]));
      }
    }
  }

  /** Byte `i` belongs to the pixels of output row `y`. */
  predicate InOutputRow(i: int, y: nat, stride: nat, width: nat) {
    y * stride <= i < y * stride + width
  }

  /** Output row `y` is the reference's. */
  ghost predicate OutputRowIs(out: seq<byte>, y: nat, outputStride: nat, img: Image, k: Kernel) {
    0 <= y * outputStride && ReferenceRow(out, y * outputStride, img, k)
  }

  /** The first `n` output rows are the reference's; no byte outside them has changed. */
  ghost predicate OutputSoFar(origin: seq<byte>, out: seq<byte>, outputStride: nat, img: Image, ky: seq<Kernel>, n: nat)
    requires n <= |ky|
  {
    && |out| == |origin|
    && (forall y: nat | y < n :: OutputRowIs(out, y, outputStride, img, ky[y]))
    && (forall i | 0 <= i < |out| && (forall y: nat | y < n :: !InOutputRow(i, y, outputStride, 4 * |img.kx|)) :: out[i] == origin[i])
  }

  lemma KeptOutputRow(before: seq<byte>, after: seq<byte>, y: nat, n: nat, outputStride: nat, img: Image, k: Kernel)
    requires y < n && 4 * |img.kx| <= outputStride && OutputRowIs(before, y, outputStride, img, k)
    requires SameOutside(before, after, n * outputStride, n * outputStride + 4 * |img.kx|)
    ensures OutputRowIs(after, y, outputStride, img, k)
  {
    var start := y * outputStride;
    MulKeepsOrder(y + 1, n, outputStride);
    forall j | 0 <= j < 4 * |img.kx| ensures after[start + j] == ReferenceByte(img, k, j) {
      assert before[start + j] == ReferenceByte(img, k, j);
    }
  }

  lemma NextOutputRow(origin: seq<byte>, before: seq<byte>, after: seq<byte>, outputStride: nat, img: Image, ky: seq<Kernel>, n: nat)
    requires n < |ky| && 4 * |img.kx| <= outputStride && OutputSoFar(origin, before, outputStride, img, ky, n)
    requires OutputRowIs(after, n, outputStride, img, ky[n])
    requires SameOutside(before, after, n * outputStride, n * outputStride + 4 * |img.kx|)
    ensures OutputSoFar(origin, after, outputStride, img, ky, n + 1)
  {
    forall y: nat | y < n + 1 ensures OutputRowIs(after, y, outputStride, img, ky[y]) {
      if y < n {
        KeptOutputRow(before, after, y, n, outputStride, img, ky[y]);
      }
    }
    forall i | 0 <= i < |after| && (forall y: nat | y < n + 1 :: !InOutputRow(i, y, outputStride, 4 * |img.kx|))
      ensures after[i] == origin[i]
    {
      assert !InOutputRow(i, n, outputStride, 4 * |img.kx|);
      assert before[i] == origin[i];
    }
  }

  /** Everything that BGRAConvolve2D relies on. */
  ghost predicate Convolvable(img: Image, ky: seq<Kernel>, procs: ConvolveProcs, outputStride: nat, outputLength: nat) {
    && |img.kx| > 0 && |ky| > 0 && WindowsAdvance(ky)
    && End(img.kx[|img.kx| - 1]) >= 1 && SourceCovers(img, ky)
    && (procs != NO_SIMD ==> procs.extraHorizontalReads >= 3 && SimdCovers(img, ky, End(img.kx[|img.kx| - 1])))
    && 4 * |img.kx| <= outputStride && (|ky| - 1) * outputStride + 4 * |img.kx| <= outputLength
  }

  /** After output row `outY - 1`, the next source row is the one behind its window, or up to three further
      when rows are generated four at a time. */
  ghost predicate NextRowIs(next: int, ky: seq<Kernel>, outY: nat, fourRows: bool)
    requires |ky| > 0 && outY <= |ky|
  {
    && ky[0].offset <= next
    && (outY == 0 ==> next == ky[0].offset)
    && (outY > 0 ==> End(ky[outY - 1]) <= next <= End(ky[outY - 1]) + if fourRows then 3 else 0)
  }

  /** The window of output row `outY` ends no earlier than the one before it, and within the last. */
  ghost predicate WindowFollows(ky: seq<Kernel>, outY: nat)
    requires outY < |ky|
  {
    && ky[0].offset <= ky[outY].offset && End(ky[outY]) <= End(ky[|ky| - 1])
    && (outY > 0 ==> End(ky[outY - 1]) <= End(ky[outY]))
  }

  /** The rows generated for output row `outY` hold its whole window. */
  lemma WindowIsBuffered(ky: seq<Kernel>, outY: nat, before: int, next: int, fourRows: bool, longest: nat)
    requires outY < |ky| && WindowFollows(ky, outY) && |ky[outY].taps| <= longest && NextRowIs(before, ky, outY, fourRows)
    requires if End(ky[outY]) <= before then next == before
             else End(ky[outY]) <= next <= End(ky[outY]) + if fourRows then 3 else 0
    ensures NextRowIs(next, ky, outY + 1, fourRows)
    ensures End(ky[outY]) <= next && next - (longest + if fourRows then 4 else 0) <= ky[outY].offset && ky[0].offset <= ky[outY].offset
  {
  }

  lemma OutputRowFits(outY: nat, rows: nat, outputStride: nat, width: nat, length: nat)
    requires outY < rows && (rows - 1) * outputStride + width <= length
    ensures 0 <= outY * outputStride && outY * outputStride + width <= length
  {
    MulKeepsOrder(outY, rows - 1, outputStride);
    MulKeepsOrder(0, outY, outputStride);
  }

  /** One round of the main loop: rows for the window of output row `outY`, then the row itself. */
  method ConvolveOutputRow(src: seq<byte>, stride: nat, hasAlpha: bool, filterX: ConvolutionFilter1D, offset: int, taps: seq<Fixed>,
                           outStart: nat, output: array<byte>, simd: ConvolveProcs, rowBuffer: CircularRowBuffer,
                           last: int, avoidSimdRows: int, nextXRow: nat, ghost outY: nat, ghost longest: nat, ghost img: Image,
                           ghost ky: seq<Kernel>)
    returns (next: nat)
    requires filterX.Valid() && img == Image(src, stride, hasAlpha, filterX.Kernels())
    requires outY < |ky| && WindowFollows(ky, outY) && last == End(ky[|ky| - 1])
    requires ky[outY] == Kernel(offset, taps) && |taps| <= longest
    requires simd != NO_SIMD ==> filterX.PaddedForSIMD() && ColumnsFitReference(img, ky[outY])
    requires avoidSimdRows >= 1 && RowsReadable(img, ky[0].offset, last, avoidSimdRows, simd.fourRows || simd.horizontally)
    requires BufferReady(rowBuffer, img, nextXRow) && NextRowIs(nextXRow, ky, outY, simd.fourRows)
    requires output != rowBuffer.buffer && rowBuffer.firstInputRow == ky[0].offset
    requires rowBuffer.numRows == longest + (if simd.fourRows then 4 else 0)
    requires PaddedWidth(|img.kx|) <= rowBuffer.rowByteWidth && outStart + 4 * |img.kx| <= output.Length
    modifies rowBuffer, rowBuffer.buffer, output
    ensures BufferReady(rowBuffer, img, next) && NextRowIs(next, ky, outY + 1, simd.fourRows)
    ensures ReferenceRow(output[..], outStart, img, ky[outY])
    ensures SameOutside(old(output[..]), output[..], outStart, outStart + 4 * |img.kx|)
  {
    next := GenerateRows(src, stride, hasAlpha, filterX, rowBuffer, simd, offset + |taps|, last, avoidSimdRows, nextXRow, img);
    WindowIsBuffered(ky, outY, nextXRow, next, simd.fourRows, longest);
    ConvolveWindow(taps, offset, rowBuffer, filterX.NumValues(), output, outStart, hasAlpha, simd.vertically, next, img, ky[outY]);
  }

  /** The main loop: every output row in turn. */
  method ConvolveRows(src: seq<byte>, stride: nat, hasAlpha: bool, filterX: ConvolutionFilter1D, filterY: ConvolutionFilter1D,
                      outputStride: nat, output: array<byte>, simd: ConvolveProcs, rowBuffer: CircularRowBuffer,
                      last: int, avoidSimdRows: int, firstRow: nat, ghost img: Image, ghost ky: seq<Kernel>)
    requires filterX.Valid() && filterY.Valid() && img == Image(src, stride, hasAlpha, filterX.Kernels()) && ky == filterY.Kernels()
    requires |ky| > 0 && WindowsAdvance(ky) && last == End(ky[|ky| - 1]) && firstRow == ky[0].offset
    requires simd != NO_SIMD ==> filterX.PaddedForSIMD() && forall y | 0 <= y < |ky| :: ColumnsFitReference(img, ky[y])
    requires avoidSimdRows >= 1 && RowsReadable(img, firstRow, last, avoidSimdRows, simd.fourRows || simd.horizontally)
    requires BufferReady(rowBuffer, img, firstRow) && output != rowBuffer.buffer && rowBuffer.firstInputRow == firstRow
    requires rowBuffer.numRows == filterY.maxFilter + (if simd.fourRows then 4 else 0)
    requires PaddedWidth(|img.kx|) <= rowBuffer.rowByteWidth
    requires 4 * |img.kx| <= outputStride && (|ky| - 1) * outputStride + 4 * |img.kx| <= output.Length
    modifies rowBuffer, rowBuffer.buffer, output
    ensures OutputSoFar(old(output[..]), output[..], outputStride, img, ky, |ky|)
  {
    var nextXRow := firstRow;
    for outY := 0 to filterY.NumValues()
      invariant BufferReady(rowBuffer, img, nextXRow) && NextRowIs(nextXRow, ky, outY, simd.fourRows)
      invariant OutputSoFar(old(output[..]), output[..], outputStride, img, ky, outY)
    {
      ghost var before := output[..];
      OutputRowFits(outY, |ky|, outputStride, 4 * |img.kx|, output.Length);
      var slice := filterY.FilterForValue(outY);
      var taps := filterY.filterValues[slice.location..slice.location + slice.length];
      nextXRow := ConvolveOutputRow(src, stride, hasAlpha, filterX, slice.offset, taps, outY * outputStride, output, simd, rowBuffer,
                                    last, avoidSimdRows, nextXRow, outY, filterY.maxFilter, img, ky);
      NextOutputRow(old(output[..]), before, output[..], outputStride, img, ky, outY);
    }
  }

  /** An empty row buffer, as wide as the output rounded up to sixteen pixels and as long as the longest vertical kernel. */
  method MakeRowBuffer(pixels: nat, maxFilter: nat, fourRows: bool, firstRow: nat, ghost img: Image) returns (rowBuffer: CircularRowBuffer)
    requires maxFilter >= 1 && pixels == |img.kx|
    ensures fresh(rowBuffer) && fresh(rowBuffer.buffer) && BufferReady(rowBuffer, img, firstRow)
    ensures rowBuffer.firstInputRow == firstRow && rowBuffer.numRows == maxFilter + (if fourRows then 4 else 0)
    ensures PaddedWidth(pixels) <= rowBuffer.rowByteWidth
  {
    var rowBufferWidth := (pixels + 15) / 16 * 16;
    RegistersFit(pixels, rowBufferWidth);
    RoundedUp(pixels, (pixels + 3) / 4, (pixels + 15) / 16);
    rowBuffer := new CircularRowBuffer(rowBufferWidth, maxFilter + (if fourRows then 4 else 0), firstRow);
  }

  /** Where the last kernel of a filter ends. */
  method EndOfLast(filter: ConvolutionFilter1D) returns (end: int)
    requires filter.Valid() && filter.NumValues() > 0
    ensures end == End(filter.Kernels()[filter.NumValues() - 1])
  {
    var last := filter.FilterForValue(filter.NumValues() - 1);
    end := last.offset + last.length;
  }

  /** Convolves a BGRA image with `filterX` along its rows and `filterY` down its columns. Every output byte is
      the two-pass reference's, whichever SIMD kernels the platform has and however they are interleaved. */
  method BGRAConvolve2D(src: seq<byte>, stride: nat, hasAlpha: bool, filterX: ConvolutionFilter1D, filterY: ConvolutionFilter1D,
                        outputStride: nat, output: array<byte>, useSimdIfPossible: bool, platform: ConvolveProcs)
    requires filterX.Valid() && filterY.Valid() && filterY.maxFilter >= 1 && (useSimdIfPossible ==> filterX.PaddedForSIMD())
    requires Convolvable(Image(src, stride, hasAlpha, filterX.Kernels()), filterY.Kernels(),
                         if useSimdIfPossible then platform else NO_SIMD, outputStride, output.Length)
    modifies output
    ensures OutputSoFar(old(output[..]), output[..], outputStride, Image(src, stride, hasAlpha, filterX.Kernels()), filterY.Kernels(),
                        filterY.NumValues())
  {
    ghost var img, ky := Image(src, stride, hasAlpha, filterX.Kernels()), filterY.Kernels();
    var simd := if useSimdIfPossible then platform else NO_SIMD;
    var slice := filterY.FilterForValue(0);
    var rowBuffer := MakeRowBuffer(filterX.NumValues(), filterY.maxFilter, simd.fourRows, slice.offset, img);
    var endX := EndOfLast(filterX);
    var avoidSimdRows := 1 + simd.extraHorizontalReads / endX;
    var endY := EndOfLast(filterY);
    RowsAreReadable(img, ky, endX, simd.extraHorizontalReads, avoidSimdRows, simd.fourRows || simd.horizontally);
    ConvolveRows(src, stride, hasAlpha, filterX, filterY, outputStride, output, simd, rowBuffer, endY, avoidSimdRows,
                 slice.offset, img, ky);
  }

  /** Trimming the filters changes no byte of the reference image: the output is that of the kernels as they were given. */
  lemma TrimmedFiltersConvolveAlike(img: Image, k: Kernel, j: int)
    requires 0 <= j < 4 * |img.kx|
    ensures ReferenceByte(img.(kx := TrimAll(img.kx)), Trim(k), j) == ReferenceByte(img, k, j)
  {
    forall i | 0 <= i < 4 * |img.kx|
      ensures ColumnByte(img.src, img.stride, TrimAll(img.kx), Trim(k), i) == ColumnByte(img.src, img.stride, img.kx, k, i)
    {
      TrimmedColumn(img, k, i);
    }
  }

  lemma TrimmedColumn(img: Image, k: Kernel, j: int)
    requires 0 <= j < 4 * |img.kx|
    ensures ColumnByte(img.src, img.stride, TrimAll(img.kx), Trim(k), j) == ColumnByte(img.src, img.stride, img.kx, k, j)
  {
    var trimmed := ColumnSamples(img.src, img.stride, TrimAll(img.kx), j);
    var column := ColumnSamples(img.src, img.stride, img.kx, j);
    forall i | 0 <= i < |Trim(k).taps| ensures SampleAt(Trim(k), trimmed, i) == SampleAt(Trim(k), column, i) {
      var y := Trim(k).offset + i;
      TrimKeepsResponse(img.kx[j / 4], RowSamples(img.src, y * img.stride + j % 4));
    }
    SameSamplesSameResponse(Trim(k), trimmed, Trim(k), column, |Trim(k).taps|);
    TrimKeepsResponse(k, column);
  }
}
