/** The circular buffer of horizontally convolved rows in skia/ext/convolver.cc. */
module CircularBuffer {
  import opened PixelArithmetic

  /** Where the `k`-th row ever added to a buffer of `numRows` rows of `width` bytes is kept. */
  function Slot(numRows: nat, width: nat, k: int): (address: nat)
    requires numRows >= 1
    ensures address + width <= numRows * width
  {
    SlotBounds(numRows, width, k % numRows);
    k % numRows * width
  }

  lemma SlotBounds(numRows: nat, width: nat, i: nat)
    requires i < numRows
    ensures 0 <= i * width && i * width + width <= numRows * width
  {
    MulKeepsOrder(i + 1, numRows, width);
    MulKeepsOrder(0, i, width);
  }

  /** Rows less than a full turn apart never share a byte. */
  lemma SlotsApart(numRows: nat, width: nat, k: int, m: int)
    requires numRows >= 1 && k < m < k + numRows
    ensures Slot(numRows, width, k) + width <= Slot(numRows, width, m) || Slot(numRows, width, m) + width <= Slot(numRows, width, k)
  {
    var i, j := k % numRows, m % numRows;
    DifferentRemainders(numRows, k, m);
    if i < j {
      SlotBounds(j, width, i);
    } else {
      SlotBounds(i, width, j);
    }
  }

  lemma DifferentRemainders(n: nat, k: int, m: int)
    requires n >= 1 && k < m < k + n
    ensures k % n != m % n
  {
    if k % n == m % n {
      var d := m / n - k / n;
      assert m - k == d * n;
      if d >= 1 {
        MulKeepsOrder(1, d, n);
      } else {
        MulKeepsOrder(d, 0, n);
      }
    }
  }

  lemma NextRemainder(n: nat, k: int)
    requires n >= 1
    ensures (k + 1) % n == if k % n + 1 == n then 0 else k % n + 1
  {
    var q, r := k / n, k % n;
    assert k == q * n + r;
    if r + 1 == n {
      assert k + 1 == (q + 1) * n + 0;
      UniqueRemainder(n, k + 1, q + 1, 0);
    } else {
      UniqueRemainder(n, k + 1, q, r + 1);
    }
  }

  lemma UniqueRemainder(n: nat, x: int, q: int, r: nat)
    requires r < n && x == q * n + r
    ensures x % n == r
  {
    var d := q - x / n;
    assert d * n == x % n - r;
    if d >= 1 {
      MulKeepsOrder(1, d, n);
    } else if d <= -1 {
      MulKeepsOrder(d, -1, n);
    }
  }

  class CircularRowBuffer {
    const buffer: array<byte>
    const rowByteWidth: nat
    const numRows: nat
    var nextRow: nat
    var nextRowCoordinate: int
    ghost const firstInputRow: int

    ghost predicate Valid()
      reads this
    {
      && numRows >= 1 && buffer.Length == numRows * rowByteWidth
      && nextRow == (nextRowCoordinate - firstInputRow) % numRows
      && firstInputRow <= nextRowCoordinate
    }

    /** The address of the row with coordinate `y`, while the buffer still has it. */
    ghost function AddressOf(y: int): (address: nat)
      reads this
      requires Valid()
      ensures address + rowByteWidth <= buffer.Length
    {
      Slot(numRows, rowByteWidth, y - firstInputRow)
    }

    constructor (destRowPixelWidth: nat, maxYFilterSize: nat, firstInputRow: int)
      requires maxYFilterSize >= 1
      ensures Valid() && fresh(buffer)
      ensures rowByteWidth == destRowPixelWidth * 4 && numRows == maxYFilterSize
      ensures nextRowCoordinate == this.firstInputRow == firstInputRow
    {
      rowByteWidth := destRowPixelWidth * 4;
      numRows := maxYFilterSize;
      nextRow := 0;
      nextRowCoordinate := firstInputRow;
      this.firstInputRow := firstInputRow;
      SlotBounds(maxYFilterSize, destRowPixelWidth * 4, 0);
      buffer := new byte[maxYFilterSize * (destRowPixelWidth * 4)];
    }

    /** Hands out the next row, which takes the coordinate after the newest one. */
    method AdvanceRow() returns (row: nat)
      requires Valid()
      modifies this
      ensures Valid() && nextRowCoordinate == old(nextRowCoordinate) + 1
      ensures row == AddressOf(old(nextRowCoordinate))
    {
      row := nextRow * rowByteWidth;
      assert row == AddressOf(nextRowCoordinate);
      NextRemainder(numRows, nextRowCoordinate - firstInputRow);
      nextRowCoordinate := nextRowCoordinate + 1;
      nextRow := nextRow + 1;
      if nextRow == numRows {
        nextRow := 0;
      }
    }

    /** The unrolled buffer: the addresses of all its rows in coordinate order, from `firstRowIndex` on. */
    method GetRowAddresses() returns (rowAddresses: seq<nat>, firstRowIndex: int)
      requires Valid()
      ensures firstRowIndex == nextRowCoordinate - numRows && |rowAddresses| == numRows
      ensures forall i | 0 <= i < numRows :: rowAddresses[i] == AddressOf(firstRowIndex + i)
    {
      firstRowIndex := nextRowCoordinate - numRows;
      ghost var k := firstRowIndex - firstInputRow;
      var curRow := nextRow;
      rowAddresses := [];
      SameRemainder(numRows, k);
      for i := 0 to numRows
        invariant curRow == (k + i) % numRows
        invariant |rowAddresses| == i
        invariant forall m | 0 <= m < i :: rowAddresses[m] == AddressOf(firstRowIndex + m)
      {
        assert AddressOf(firstRowIndex + i) == curRow * rowByteWidth;
        rowAddresses := rowAddresses + [curRow * rowByteWidth];
        NextRemainder(numRows, k + i);
        curRow := curRow + 1;
        if curRow == numRows {
          curRow := 0;
        }
      }
    }
  }

  lemma SameRemainder(n: nat, k: int)
    requires n >= 1
    ensures (k + n) % n == k % n
  {
    assert k + n == (k / n + 1) * n + k % n;
    UniqueRemainder(n, k + n, k / n + 1, k % n);
  }
}
