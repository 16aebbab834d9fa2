/** The scalar kernels and the streaming driver of skia/ext/convolver.cc. */
module Convolver {
  import opened PixelArithmetic
  import opened ConvolutionFilter
  import opened ConvolutionSpec

  /** The four channel sums of one output pixel; alpha is summed only when the image has alpha. */
  method AccumulatePixel(src: seq<byte>, rowStart: nat, filter: ConvolutionFilter1D, outX: nat, hasAlpha: bool)
    returns (b: int, g: int, r: int, a: int)
    requires filter.Valid() && outX < filter.NumValues() && RowInside(src, rowStart, filter.Kernels())
    ensures PixelSums(filter.Kernels()[outX], src, rowStart, hasAlpha, b, g, r, a)
  {
    ghost var k := filter.Kernels()[outX];
    var slice := filter.FilterForValue(outX);
    var base := rowStart + 4 * slice.offset;
    b, g, r, a := 0, 0, 0, 0;
    for filterX := 0 to slice.length
      invariant b == PartialResponse(k, RowSamples(src, rowStart), filterX)
      invariant g == PartialResponse(k, RowSamples(src, rowStart + 1), filterX)
      invariant r == PartialResponse(k, RowSamples(src, rowStart + 2), filterX)
      invariant hasAlpha ==> a == PartialResponse(k, RowSamples(src, rowStart + 3), filterX)
    {
      var curFilter := filter.filterValues[slice.location + filterX];
      assert curFilter == k.taps[filterX];
      b := b + curFilter * src[base + filterX * 4];
      g := g + curFilter * src[base + filterX * 4 + 1];
      r := r + curFilter * src[base + filterX * 4 + 2];
      if hasAlpha {
        a := a + curFilter * src[base + filterX * 4 + 3];
      }
    }
  }

  method ConvolveHorizontally(src: seq<byte>, rowStart: nat, filter: ConvolutionFilter1D, hasAlpha: bool,
                              out: array<byte>, outStart: nat)
    requires filter.Valid() && RowInside(src, rowStart, filter.Kernels())
    requires outStart + 4 * filter.NumValues() <= out.Length
    modifies out
    ensures RowHolds(out[..], outStart, src, rowStart, filter.Kernels(), hasAlpha, 4 * filter.NumValues())
    ensures SameOutside(old(out[..]), out[..], outStart, outStart + 4 * filter.NumValues())
  {
    ghost var kx := filter.Kernels();
    var numValues := filter.NumValues();
    for outX := 0 to numValues
      invariant RowHolds(out[..], outStart, src, rowStart, kx, hasAlpha, 4 * outX)
      invariant SameOutside(old(out[..]), out[..], outStart, outStart + 4 * numValues)
    {
      ghost var before := out[..];
      var b, g, r, a := AccumulatePixel(src, rowStart, filter, outX, hasAlpha);
      ghost var sumB, sumG, sumR := b, g, r;
      b, g, r := ShiftDown(b), ShiftDown(g), ShiftDown(r);
      out[outStart + outX * 4] := ClampTo8(b);
      out[outStart + outX * 4 + 1] := ClampTo8(g);
      out[outStart + outX * 4 + 2] := ClampTo8(r);
      if hasAlpha {
        out[outStart + outX * 4 + 3] := ClampTo8(ShiftDown(a));
      }
      SumsExtendRow(before, out[..], outStart, src, rowStart, kx, hasAlpha, outX, sumB, sumG, sumR, a);
    }
  }

  /** The four sums of one output pixel, down one column of the stored rows. */
  method AccumulateColumn(taps: seq<Fixed>, mem: array<byte>, rows: seq<nat>, byteOffset: nat, hasAlpha: bool)
    returns (b: int, g: int, r: int, a: int)
    requires RowsInside(mem[..], rows, |taps|, byteOffset + 4)
    ensures ColumnSums(taps, mem[..], rows, byteOffset, hasAlpha, b, g, r, a)
  {
    ghost var k := Kernel(0, taps);
    b, g, r, a := 0, 0, 0, 0;
    for filterY := 0 to |taps|
      invariant b == PartialResponse(k, StoredSamples(mem[..], rows, byteOffset), filterY)
      invariant g == PartialResponse(k, StoredSamples(mem[..], rows, byteOffset + 1), filterY)
      invariant r == PartialResponse(k, StoredSamples(mem[..], rows, byteOffset + 2), filterY)
      invariant hasAlpha ==> a == PartialResponse(k, StoredSamples(mem[..], rows, byteOffset + 3), filterY)
    {
      var curFilter := taps[filterY];
      var at := rows[filterY] + byteOffset;
      b := b + curFilter * mem[at];
      g := g + curFilter * mem[at + 1];
      r := r + curFilter * mem[at + 2];
      if hasAlpha {
        a := a + curFilter * mem[at + 3];
      }
    }
  }

  /** Clamps and stores the four channels of an output pixel; alpha is raised to the largest colour, or full. */
  method StoreOutputPixel(out: array<byte>, at: nat, hasAlpha: bool, b: int, g: int, r: int, a: int)
    requires at + 4 <= out.Length
    modifies out
    ensures out[at] == ClampTo8(b) && out[at + 1] == ClampTo8(g) && out[at + 2] == ClampTo8(r)
    ensures out[at + 3] == FinalAlpha(hasAlpha, ClampTo8(b), ClampTo8(g), ClampTo8(r), ClampTo8(a))
    ensures SameOutside(old(out[..]), out[..], at, at + 4)
  {
    out[at] := ClampTo8(b);
    out[at + 1] := ClampTo8(g);
    out[at + 2] := ClampTo8(r);
    if hasAlpha {
      var alpha := ClampTo8(a);
      var maxColorChannel := Max(out[at], Max(out[at + 1], out[at + 2]));
      out[at + 3] := if alpha < maxColorChannel then maxColorChannel else alpha;
    } else {
      out[at + 3] := 0xff;
    }
  }

  method ConvolveVertically(taps: seq<Fixed>, mem: array<byte>, rows: seq<nat>, pixelWidth: nat,
                            out: array<byte>, outStart: nat, hasAlpha: bool)
    requires mem != out && RowsInside(mem[..], rows, |taps|, 4 * pixelWidth)
    requires outStart + 4 * pixelWidth <= out.Length
    modifies out
    ensures OutputHolds(out[..], outStart, mem[..], rows, taps, hasAlpha, 4 * pixelWidth)
    ensures SameOutside(old(out[..]), out[..], outStart, outStart + 4 * pixelWidth)
  {
    for outX := 0 to pixelWidth
      invariant OutputHolds(out[..], outStart, mem[..], rows, taps, hasAlpha, 4 * outX)
      invariant SameOutside(old(out[..]), out[..], outStart, outStart + 4 * pixelWidth)
    {
      ghost var before := out[..];
      var byteOffset := outX * 4;
      var at := outStart + byteOffset;
      var b, g, r, a := AccumulateColumn(taps, mem, rows, byteOffset, hasAlpha);
      ghost var sumB, sumG, sumR, sumA := b, g, r, a;
      b, g, r, a := ShiftDown(b), ShiftDown(g), ShiftDown(r), ShiftDown(a);
      StoreOutputPixel(out, at, hasAlpha, b, g, r, a);
      SumsMakePixel(out[..], outStart, mem[..], rows, taps, hasAlpha, outX, sumB, sumG, sumR, sumA);
      OutputExtends(before, out[..], outStart, mem[..], rows, taps, hasAlpha, outX, 1);
    }
  }
}
