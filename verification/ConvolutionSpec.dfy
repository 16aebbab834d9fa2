/** The reference: plain two-pass separable convolution of a BGRA image, with no buffer and no schedule. */
module ConvolutionSpec {
  import opened PixelArithmetic
  import opened ConvolutionFilter

  /** The samples of one channel along a row of 4-byte pixels; `start` is the channel's byte in pixel 0. */
  ghost function RowSamples(src: seq<byte>, start: int): int -> int {
    p => At(src, start + 4 * p)
  }

  /** Byte `j` of the horizontally convolved row whose source pixels start at byte `rowStart`. */
  ghost function RowByte(src: seq<byte>, rowStart: int, kx: seq<Kernel>, j: int): byte
    requires 0 <= j < 4 * |kx|
  {
    ClampTo8(ShiftDown(Response(kx[j / 4], RowSamples(src, rowStart + j % 4))))
  }

  /** The samples down byte column `j` of the horizontally convolved image. */
  ghost function ColumnSamples(src: seq<byte>, stride: nat, kx: seq<Kernel>, j: int): int -> int
    requires 0 <= j < 4 * |kx|
  {
    y => RowByte(src, y * stride, kx, j)
  }

  ghost function ColumnByte(src: seq<byte>, stride: nat, kx: seq<Kernel>, k: Kernel, j: int): byte
    requires 0 <= j < 4 * |kx|
  {
    ClampTo8(ShiftDown(Response(k, ColumnSamples(src, stride, kx, j))))
  }

  /** The alpha byte of an output pixel: opaque, or at least as large as each colour of its pixel. */
  function FinalAlpha(hasAlpha: bool, b: byte, g: byte, r: byte, a: byte): byte {
    if hasAlpha then Max(a, Max(b, Max(g, r))) else 255
  }

  /** Byte `j` of the output row that the vertical kernel `k` produces. */
  ghost function NaiveByte(src: seq<byte>, stride: nat, hasAlpha: bool, kx: seq<Kernel>, k: Kernel, j: int): byte
    requires 0 <= j < 4 * |kx|
  {
    if j % 4 != 3 then ColumnByte(src, stride, kx, k, j)
    else FinalAlpha(hasAlpha, ColumnByte(src, stride, kx, k, j - 3), ColumnByte(src, stride, kx, k, j - 2),
                    ColumnByte(src, stride, kx, k, j - 1), ColumnByte(src, stride, kx, k, j))
  }

  /** A byte of the reference's rows is the whole part of the fixed-point dot product of its kernel with its channel. */
  lemma RowByteIsWholePart(src: seq<byte>, rowStart: int, kx: seq<Kernel>, j: int)
    requires 0 <= j < 4 * |kx|
    ensures IsByteOf(Response(kx[j / 4], RowSamples(src, rowStart + j % 4)), RowByte(src, rowStart, kx, j))
  {
    ShiftedAndClamped(Response(kx[j / 4], RowSamples(src, rowStart + j % 4)));
  }

  /** And so is a byte of its output before the alpha correction, down the column of such bytes. */
  lemma ColumnByteIsWholePart(src: seq<byte>, stride: nat, kx: seq<Kernel>, k: Kernel, j: int)
    requires 0 <= j < 4 * |kx|
    ensures IsByteOf(Response(k, ColumnSamples(src, stride, kx, j)), ColumnByte(src, stride, kx, k, j))
    ensures forall y :: ColumnSamples(src, stride, kx, j)(y) == RowByte(src, y * stride, kx, j)
  {
    ShiftedAndClamped(Response(k, ColumnSamples(src, stride, kx, j)));
  }

  /** The output: colours as they are, and alpha the largest of the pixel's four bytes, or 255. */
  lemma NaiveByteIs(src: seq<byte>, stride: nat, hasAlpha: bool, kx: seq<Kernel>, k: Kernel, j: int)
    requires 0 <= j < 4 * |kx|
    ensures j % 4 != 3 ==> NaiveByte(src, stride, hasAlpha, kx, k, j) == ColumnByte(src, stride, kx, k, j)
    ensures j % 4 == 3 && !hasAlpha ==> NaiveByte(src, stride, hasAlpha, kx, k, j) == 255
    ensures j % 4 == 3 && hasAlpha ==>
      IsLargest(NaiveByte(src, stride, hasAlpha, kx, k, j), ColumnByte(src, stride, kx, k, j - 3), ColumnByte(src, stride, kx, k, j - 2),
                ColumnByte(src, stride, kx, k, j - 1), ColumnByte(src, stride, kx, k, j))
  {
  }

  predicate IsLargest(m: byte, b: byte, g: byte, r: byte, a: byte) {
    m >= b && m >= g && m >= r && m >= a && (m == b || m == g || m == r || m == a)
  }

  lemma NaiveAlpha(src: seq<byte>, stride: nat, hasAlpha: bool, kx: seq<Kernel>, k: Kernel, x: nat)
    requires x < |kx|
    ensures NaiveByte(src, stride, hasAlpha, kx, k, 4 * x + 3)
            == FinalAlpha(hasAlpha, ColumnByte(src, stride, kx, k, 4 * x), ColumnByte(src, stride, kx, k, 4 * x + 1),
                          ColumnByte(src, stride, kx, k, 4 * x + 2), ColumnByte(src, stride, kx, k, 4 * x + 3))
  {
    assert (4 * x + 3) % 4 == 3;
  }

  // ---------------------------------------------------------------- rows in memory

  /** Every tap of every kernel falls on a byte of `src`, for the row starting at `rowStart`. */
  ghost predicate RowInside(src: seq<byte>, rowStart: int, kx: seq<Kernel>) {
    forall x | 0 <= x < |kx| && kx[x].taps != [] ::
      0 <= rowStart + 4 * kx[x].offset && rowStart + 4 * (kx[x].offset + |kx[x].taps|) <= |src|
  }

  /** Does the horizontal pass compute byte `j` of a row? For opaque images it may leave alpha bytes alone. */
  predicate Computed(hasAlpha: bool, j: int) {
    hasAlpha || j % 4 != 3
  }

  /** From byte `start` on, `mem` holds the first `n` bytes of a horizontally convolved row. */
  ghost predicate RowHolds(mem: seq<byte>, start: nat, src: seq<byte>, rowStart: int, kx: seq<Kernel>, hasAlpha: bool, n: nat)
    requires start + n <= |mem| && n <= 4 * |kx|
  {
    forall j | 0 <= j < n && Computed(hasAlpha, j) :: mem[start + j] == RowByte(src, rowStart, kx, j)
  }

  /** `after` differs from `before` in the bytes `lo..hi` only. */
  ghost predicate SameOutside(before: seq<byte>, after: seq<byte>, lo: int, hi: int) {
    |before| == |after| && forall i | 0 <= i < |before| && !(lo <= i < hi) :: after[i] == before[i]
  }

  /** Storing one more pixel extends a partly written row. */
  lemma RowHoldsExtends(before: seq<byte>, after: seq<byte>, start: nat, src: seq<byte>, rowStart: int, kx: seq<Kernel>,
                        hasAlpha: bool, x: nat)
    requires x < |kx| && start + 4 * |kx| <= |before|
    requires RowHolds(before, start, src, rowStart, kx, hasAlpha, 4 * x)
    requires SameOutside(before, after, start + 4 * x, start + 4 * x + 4)
    requires forall c | 0 <= c < 4 && Computed(hasAlpha, c) ::
      after[start + 4 * x + c] == ClampTo8(ShiftDown(Response(kx[x], RowSamples(src, rowStart + c))))
    ensures RowHolds(after, start, src, rowStart, kx, hasAlpha, 4 * x + 4)
  {
    forall j | 0 <= j < 4 * x + 4 && Computed(hasAlpha, j) ensures after[start + j] == RowByte(src, rowStart, kx, j) {
      if j < 4 * x {
        assert after[start + j] == before[start + j];
      } else {
        var c := j - 4 * x;
        assert j / 4 == x && j % 4 == c;
        assert Computed(hasAlpha, c);
      }
    }
  }

  /** The channel sums of one pixel of a row; without alpha the fourth is not needed. */
  ghost predicate PixelSums(k: Kernel, src: seq<byte>, rowStart: int, hasAlpha: bool, b: int, g: int, r: int, a: int) {
    && b == Response(k, RowSamples(src, rowStart)) && g == Response(k, RowSamples(src, rowStart + 1))
    && r == Response(k, RowSamples(src, rowStart + 2)) && (hasAlpha ==> a == Response(k, RowSamples(src, rowStart + 3)))
  }

  /** Storing the shifted and clamped sums of the next pixel extends a partly written row. */
  lemma SumsExtendRow(before: seq<byte>, after: seq<byte>, start: nat, src: seq<byte>, rowStart: int, kx: seq<Kernel>,
                      hasAlpha: bool, x: nat, b: int, g: int, r: int, a: int)
    requires x < |kx| && start + 4 * |kx| <= |before| && PixelSums(kx[x], src, rowStart, hasAlpha, b, g, r, a)
    requires RowHolds(before, start, src, rowStart, kx, hasAlpha, 4 * x)
    requires SameOutside(before, after, start + 4 * x, start + 4 * x + 4)
    requires after[start + 4 * x] == ClampTo8(ShiftDown(b)) && after[start + 4 * x + 1] == ClampTo8(ShiftDown(g))
    requires after[start + 4 * x + 2] == ClampTo8(ShiftDown(r)) && (hasAlpha ==> after[start + 4 * x + 3] == ClampTo8(ShiftDown(a)))
    ensures RowHolds(after, start, src, rowStart, kx, hasAlpha, 4 * x + 4)
  {
    RowHoldsExtends(before, after, start, src, rowStart, kx, hasAlpha, x);
  }

  /** A row survives writes elsewhere. */
  lemma RowHoldsKept(before: seq<byte>, after: seq<byte>, start: nat, src: seq<byte>, rowStart: int,
                     kx: seq<Kernel>, hasAlpha: bool, n: nat)
    requires start + n <= |before| == |after| && n <= 4 * |kx|
    requires RowHolds(before, start, src, rowStart, kx, hasAlpha, n)
    requires forall i | start <= i < start + n :: after[i] == before[i]
    ensures RowHolds(after, start, src, rowStart, kx, hasAlpha, n)
  {
    forall j | 0 <= j < n && Computed(hasAlpha, j) ensures after[start + j] == RowByte(src, rowStart, kx, j) {
      assert after[start + j] == before[start + j];
    }
  }

  // ---------------------------------------------------------------- columns in memory

  /** The samples down byte column `j` of rows that start at the given addresses of `mem`. */
  ghost function StoredSamples(mem: seq<byte>, rows: seq<nat>, j: int): int -> int {
    y => if 0 <= y < |rows| then At(mem, rows[y] + j) else 0
  }

  ghost function StoredColumnByte(mem: seq<byte>, rows: seq<nat>, taps: seq<Fixed>, j: int): byte {
    ClampTo8(ShiftDown(Response(Kernel(0, taps), StoredSamples(mem, rows, j))))
  }

  /** Byte `j` of the output row computed from the stored rows. */
  ghost function StoredByte(mem: seq<byte>, rows: seq<nat>, taps: seq<Fixed>, hasAlpha: bool, j: int): byte {
    if j % 4 != 3 then StoredColumnByte(mem, rows, taps, j)
    else FinalAlpha(hasAlpha, StoredColumnByte(mem, rows, taps, j - 3), StoredColumnByte(mem, rows, taps, j - 2),
                    StoredColumnByte(mem, rows, taps, j - 1), StoredColumnByte(mem, rows, taps, j))
  }

  lemma StoredAlpha(mem: seq<byte>, rows: seq<nat>, taps: seq<Fixed>, hasAlpha: bool, x: nat)
    ensures StoredByte(mem, rows, taps, hasAlpha, 4 * x + 3)
            == FinalAlpha(hasAlpha, StoredColumnByte(mem, rows, taps, 4 * x), StoredColumnByte(mem, rows, taps, 4 * x + 1),
                          StoredColumnByte(mem, rows, taps, 4 * x + 2), StoredColumnByte(mem, rows, taps, 4 * x + 3))
  {
    assert (4 * x + 3) % 4 == 3;
  }

  /** From byte `start` on, `out` holds the first `n` bytes of the output row computed from the stored rows. */
  ghost predicate OutputHolds(out: seq<byte>, start: nat, mem: seq<byte>, rows: seq<nat>, taps: seq<Fixed>, hasAlpha: bool, n: nat)
    requires start + n <= |out|
  {
    forall j | 0 <= j < n :: out[start + j] == StoredByte(mem, rows, taps, hasAlpha, j)
  }

  /** Each of the first `count` rows has `n` bytes inside `mem`. */
  ghost predicate RowsInside(mem: seq<byte>, rows: seq<nat>, count: nat, n: nat) {
    count <= |rows| && forall y | 0 <= y < count :: rows[y] + n <= |mem|
  }

  /** Pixel `x` of the output row that starts at `start` is the one computed from the stored rows. */
  ghost predicate PixelHolds(out: seq<byte>, start: nat, mem: seq<byte>, rows: seq<nat>, taps: seq<Fixed>, hasAlpha: bool, x: nat)
    requires start + 4 * x + 4 <= |out|
  {
    var b, g, r, a := StoredColumnByte(mem, rows, taps, 4 * x), StoredColumnByte(mem, rows, taps, 4 * x + 1),
        StoredColumnByte(mem, rows, taps, 4 * x + 2), StoredColumnByte(mem, rows, taps, 4 * x + 3);
    && out[start + 4 * x] == b && out[start + 4 * x + 1] == g && out[start + 4 * x + 2] == r
    && out[start + 4 * x + 3] == FinalAlpha(hasAlpha, b, g, r, a)
  }

  /** The channel sums of one output pixel, down one column of the stored rows. */
  ghost predicate ColumnSums(taps: seq<Fixed>, mem: seq<byte>, rows: seq<nat>, j: int, hasAlpha: bool, b: int, g: int, r: int, a: int) {
    var k := Kernel(0, taps);
    && b == Response(k, StoredSamples(mem, rows, j)) && g == Response(k, StoredSamples(mem, rows, j + 1))
    && r == Response(k, StoredSamples(mem, rows, j + 2)) && (hasAlpha ==> a == Response(k, StoredSamples(mem, rows, j + 3)))
  }

  /** The shifted and clamped sums, with alpha raised to the largest colour, are the pixel. */
  lemma SumsMakePixel(out: seq<byte>, start: nat, mem: seq<byte>, rows: seq<nat>, taps: seq<Fixed>, hasAlpha: bool, x: nat,
                      b: int, g: int, r: int, a: int)
    requires start + 4 * x + 4 <= |out| && ColumnSums(taps, mem, rows, 4 * x, hasAlpha, b, g, r, a)
    requires out[start + 4 * x] == ClampTo8(ShiftDown(b)) && out[start + 4 * x + 1] == ClampTo8(ShiftDown(g))
    requires out[start + 4 * x + 2] == ClampTo8(ShiftDown(r))
    requires out[start + 4 * x + 3] == FinalAlpha(hasAlpha, out[start + 4 * x], out[start + 4 * x + 1], out[start + 4 * x + 2],
                                                  ClampTo8(ShiftDown(a)))
    ensures PixelHolds(out, start, mem, rows, taps, hasAlpha, x)
  {
  }

  /** Storing `m` more pixels extends a partly written output row. */
  lemma OutputExtends(before: seq<byte>, after: seq<byte>, start: nat, mem: seq<byte>, rows: seq<nat>, taps: seq<Fixed>,
                      hasAlpha: bool, x: nat, m: nat)
    requires start + 4 * (x + m) <= |before|
    requires OutputHolds(before, start, mem, rows, taps, hasAlpha, 4 * x)
    requires SameOutside(before, after, start + 4 * x, start + 4 * (x + m))
    requires forall p | x <= p < x + m :: PixelHolds(after, start, mem, rows, taps, hasAlpha, p)
    ensures OutputHolds(after, start, mem, rows, taps, hasAlpha, 4 * (x + m))
  {
    forall j | 0 <= j < 4 * (x + m) ensures after[start + j] == StoredByte(mem, rows, taps, hasAlpha, j) {
      if j < 4 * x {
        assert after[start + j] == before[start + j];
      } else {
        assert PixelHolds(after, start, mem, rows, taps, hasAlpha, j / 4);
      }
    }
  }
}
