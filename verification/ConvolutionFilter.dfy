/** The filter object of skia/ext/convolver.h: many one-dimensional kernels in one flat store. */
module ConvolutionFilter {
  import opened PixelArithmetic

  const SIMD_PADDING := 8

  /** One output position's kernel: `taps[i]` weighs the sample at `offset + i`. */
  datatype Kernel = Kernel(offset: int, taps: seq<Fixed>)

  datatype FilterInstance = FilterInstance(dataLocation: nat, offset: int, trimmedLength: nat, length: nat)

  /** What `FilterForValue` hands out: where the taps start in the flat store, and how many there are. */
  datatype FilterSlice = FilterSlice(location: nat, offset: int, length: nat)

  // ---------------------------------------------------------------- meaning of a kernel

  /** The weighted sum of a kernel's first `n` taps over an unbounded row of samples. */
  ghost function PartialResponse(k: Kernel, row: int -> int, n: nat): int
    requires n <= |k.taps|
  {
    if n == 0 then 0 else PartialResponse(k, row, n - 1) + k.taps[n - 1] * row(k.offset + n - 1)
  }

  /** What a kernel computes from a row: the weighted sum of all its taps. */
  ghost function Response(k: Kernel, row: int -> int): int {
    PartialResponse(k, row, |k.taps|)
  }

  function LeadingZeros(taps: seq<Fixed>): (n: nat)
    ensures n <= |taps|
    ensures forall i | 0 <= i < n :: taps[i] == 0
    ensures n < |taps| ==> taps[n] != 0
  {
    if taps == [] || taps[0] != 0 then 0 else 1 + LeadingZeros(taps[1..])
  }

  function TrailingZeros(taps: seq<Fixed>): (n: nat)
    ensures n <= |taps|
    ensures forall i | |taps| - n <= i < |taps| :: taps[i] == 0
    ensures n < |taps| ==> taps[|taps| - 1 - n] != 0
  {
    if taps == [] || taps[|taps| - 1] != 0 then 0 else 1 + TrailingZeros(taps[..|taps| - 1])
  }

  /** The kernel stored for `k`: zeros cut off at both ends; a kernel of zeros keeps its offset and no taps. */
  function Trim(k: Kernel): Kernel {
    var first := LeadingZeros(k.taps);
    if first == |k.taps| then Kernel(k.offset, [])
    else
      var last := |k.taps| - 1 - TrailingZeros(k.taps);
      TrailingLeavesLeading(k.taps);
      Kernel(k.offset + first, k.taps[first..last + 1])
  }

  function TrimAll(ks: seq<Kernel>): (trimmed: seq<Kernel>)
    ensures |trimmed| == |ks|
  {
    seq(|ks|, i requires 0 <= i < |ks| => Trim(ks[i]))
  }

  lemma TrailingLeavesLeading(taps: seq<Fixed>)
    requires LeadingZeros(taps) < |taps|
    ensures LeadingZeros(taps) <= |taps| - 1 - TrailingZeros(taps)
  {
    var n := LeadingZeros(taps);
    assert taps[n] != 0;
  }

  /** Zero taps between `n` and `m` add nothing. */
  lemma {:induction false} ZeroTapsAddNothing(k: Kernel, row: int -> int, n: nat, m: nat)
    requires n <= m <= |k.taps|
    requires forall i | n <= i < m :: k.taps[i] == 0
    ensures PartialResponse(k, row, m) == PartialResponse(k, row, n)
  {
    if n < m {
      ZeroTapsAddNothing(k, row, n, m - 1);
    }
  }

  /** A kernel cut to its taps from `first` on, at the shifted offset, repeats the sums of the whole one. */
  lemma {:induction false} CutFront(k: Kernel, cut: Kernel, first: nat, row: int -> int, n: nat)
    requires first + n <= |k.taps| && n <= |cut.taps|
    requires cut.offset == k.offset + first
    requires forall i | 0 <= i < n :: cut.taps[i] == k.taps[first + i]
    ensures PartialResponse(k, row, first + n) == PartialResponse(k, row, first) + PartialResponse(cut, row, n)
  {
    if n > 0 {
      CutFront(k, cut, first, row, n - 1);
    }
  }

  /** What a trimmed kernel has of the whole one. */
  lemma TrimmedTaps(k: Kernel, first: nat, end: nat)
    requires first == LeadingZeros(k.taps) < |k.taps| && end == |k.taps| - TrailingZeros(k.taps)
    ensures first < end <= |k.taps| && Trim(k) == Kernel(k.offset + first, k.taps[first..end])
    ensures forall i | end <= i < |k.taps| :: k.taps[i] == 0
  {
    TrailingLeavesLeading(k.taps);
  }

  /** Cutting off zeros at both ends keeps the sum. */
  lemma CutKeepsResponse(k: Kernel, cut: Kernel, first: nat, end: nat, row: int -> int)
    requires first <= end <= |k.taps| && cut == Kernel(k.offset + first, k.taps[first..end])
    requires (forall i | 0 <= i < first :: k.taps[i] == 0) && forall i | end <= i < |k.taps| :: k.taps[i] == 0
    ensures Response(cut, row) == Response(k, row)
  {
    ZeroTapsAddNothing(k, row, 0, first);
    CutFront(k, cut, first, row, end - first);
    ZeroTapsAddNothing(k, row, end, |k.taps|);
  }

  /** Trimming never changes what a kernel computes, whatever row it is applied to. */
  lemma TrimKeepsResponse(k: Kernel, row: int -> int)
    ensures Response(Trim(k), row) == Response(k, row)
  {
    var first := LeadingZeros(k.taps);
    if first < |k.taps| {
      var end := |k.taps| - TrailingZeros(k.taps);
      TrimmedTaps(k, first, end);
      CutKeepsResponse(k, Trim(k), first, end, row);
    } else {
      ZeroTapsAddNothing(k, row, 0, first);
    }
  }

  /** No shorter run of taps would do: a trimmed kernel starts and ends with a non-zero tap. */
  lemma TrimIsTight(k: Kernel)
    ensures var t := Trim(k).taps; t == [] || (t[0] != 0 && t[|t| - 1] != 0)
    ensures Trim(k).taps == [] <==> forall i | 0 <= i < |k.taps| :: k.taps[i] == 0
    ensures Trim(Trim(k)) == Trim(k)
  {
    var first := LeadingZeros(k.taps);
    if first < |k.taps| {
      TrailingLeavesLeading(k.taps);
      var t := Trim(k).taps;
      assert t[0] != 0 && t[|t| - 1] != 0;
      assert LeadingZeros(t) == 0 && TrailingZeros(t) == 0;
      assert t[0..|t|] == t;
    }
  }

  // ---------------------------------------------------------------- the flat store

  ghost predicate SlicesInside(filters: seq<FilterInstance>, values: seq<Fixed>) {
    forall i | 0 <= i < |filters| :: filters[i].dataLocation + filters[i].trimmedLength <= |values|
  }

  /** Later filters lie behind earlier ones, so no two slices share a tap. */
  ghost predicate SlicesOrdered(filters: seq<FilterInstance>) {
    forall i, j | 0 <= i < j < |filters| ::
      filters[i].dataLocation + filters[i].trimmedLength <= filters[j].dataLocation
  }

  /** The slices follow one another without a gap and fill the store. */
  ghost predicate SlicesContiguous(filters: seq<FilterInstance>, values: seq<Fixed>) {
    && (filters == [] ==> values == [])
    && (filters != [] ==> filters[0].dataLocation == 0)
    && (forall i | 0 < i < |filters| ::
         filters[i].dataLocation == filters[i - 1].dataLocation + filters[i - 1].trimmedLength)
    && (filters != [] ==>
         filters[|filters| - 1].dataLocation + filters[|filters| - 1].trimmedLength == |values|)
  }

  ghost function KernelAt(f: FilterInstance, values: seq<Fixed>): Kernel
    requires f.dataLocation + f.trimmedLength <= |values|
  {
    Kernel(f.offset, values[f.dataLocation..f.dataLocation + f.trimmedLength])
  }

  ghost function KernelsOf(filters: seq<FilterInstance>, values: seq<Fixed>): (ks: seq<Kernel>)
    requires SlicesInside(filters, values)
  {
    seq(|filters|, i requires 0 <= i < |filters| => KernelAt(filters[i], values))
  }

  /** `n` is the greatest number of taps in any kernel, 0 when there is no kernel. */
  ghost predicate IsLongest(n: nat, ks: seq<Kernel>) {
    && (forall i | 0 <= i < |ks| :: |ks[i].taps| <= n)
    && (n == 0 || exists i | 0 <= i < |ks| :: |ks[i].taps| == n)
  }

  function Zeros(n: nat): (z: seq<Fixed>)
    ensures |z| == n
    ensures forall i | 0 <= i < n :: z[i] == 0
  {
    if n == 0 then [] else Zeros(n - 1) + [0]
  }

  lemma KernelsSurviveAppend(filters: seq<FilterInstance>, values: seq<Fixed>, more: seq<Fixed>)
    requires SlicesInside(filters, values)
    ensures SlicesInside(filters, values + more)
    ensures KernelsOf(filters, values + more) == KernelsOf(filters, values)
  {
    forall i | 0 <= i < |filters|
      ensures KernelAt(filters[i], values + more) == KernelAt(filters[i], values)
    {
      var f := filters[i];
      assert (values + more)[f.dataLocation..f.dataLocation + f.trimmedLength]
          == values[f.dataLocation..f.dataLocation + f.trimmedLength];
    }
  }

  ghost predicate WellFormed(filters: seq<FilterInstance>, values: seq<Fixed>, maxFilter: nat) {
    && SlicesInside(filters, values)
    && SlicesOrdered(filters)
    && IsLongest(maxFilter, KernelsOf(filters, values))
  }

  lemma LongestOfAppend(n: nat, ks: seq<Kernel>, k: Kernel)
    requires IsLongest(n, ks)
    ensures IsLongest(Max(n, |k.taps|), ks + [k])
  {
    var all := ks + [k];
    assert all[|ks|] == k;
    if n > 0 {
      var i :| 0 <= i < |ks| && |ks[i].taps| == n;
      assert all[i] == ks[i];
    }
  }

  /** Storing one more kernel at the end leaves the earlier ones as they were. */
  lemma AppendedKernel(filters: seq<FilterInstance>, values: seq<Fixed>, maxFilter: nat, instance: FilterInstance, k: Kernel)
    requires WellFormed(filters, values, maxFilter)
    requires instance.dataLocation == |values| && instance.trimmedLength == |k.taps| && instance.offset == k.offset
    ensures WellFormed(filters + [instance], values + k.taps, Max(maxFilter, |k.taps|))
    ensures KernelsOf(filters + [instance], values + k.taps) == KernelsOf(filters, values) + [k]
    ensures SlicesContiguous(filters, values) ==> SlicesContiguous(filters + [instance], values + k.taps)
  {
    KernelsSurviveAppend(filters, values, k.taps);
    assert (values + k.taps)[|values|..|values| + |k.taps|] == k.taps;
    LongestOfAppend(maxFilter, KernelsOf(filters, values), k);
    var after := KernelsOf(filters + [instance], values + k.taps);
    var before := KernelsOf(filters, values + k.taps);
    forall i | 0 <= i < |filters| ensures after[i] == before[i] {
      assert (filters + [instance])[i] == filters[i];
    }
    assert after == before + [k];
  }

  class ConvolutionFilter1D {
    var filters: seq<FilterInstance>
    var filterValues: seq<Fixed>
    var maxFilter: nat

    ghost predicate Valid()
      reads this
    {
      WellFormed(filters, filterValues, maxFilter)
    }

    /** The kernels this object stands for, in the order they were added. */
    ghost function Kernels(): (ks: seq<Kernel>)
      reads this
      requires Valid()
      ensures |ks| == |filters|
    {
      KernelsOf(filters, filterValues)
    }

    /** Four coefficients can be loaded at once from anywhere inside a slice. */
    ghost predicate PaddedForSIMD()
      reads this
    {
      forall i | 0 <= i < |filters| ::
        filters[i].dataLocation + (filters[i].trimmedLength + 3) / 4 * 4 <= |filterValues|
    }

    constructor ()
      ensures Valid() && Kernels() == [] && SlicesContiguous(filters, filterValues)
    {
      filters, filterValues, maxFilter := [], [], 0;
    }

    function NumValues(): nat
      reads this
    {
      |filters|
    }

    /** The two scans of `AddFilter`: the first non-zero tap and, when there is one, the last. */
    static method NonZeroRange(taps: seq<Fixed>) returns (firstNonZero: nat, lastNonZero: int)
      ensures firstNonZero == LeadingZeros(taps)
      ensures firstNonZero < |taps| ==> firstNonZero <= lastNonZero == |taps| - 1 - TrailingZeros(taps)
    {
      firstNonZero, lastNonZero := 0, |taps| - 1;
      while firstNonZero < |taps| && taps[firstNonZero] == 0
        invariant 0 <= firstNonZero <= LeadingZeros(taps)
      {
        firstNonZero := firstNonZero + 1;
      }
      if firstNonZero < |taps| {
        TrailingLeavesLeading(taps);
        while lastNonZero >= 0 && taps[lastNonZero] == 0
          invariant |taps| - 1 - TrailingZeros(taps) <= lastNonZero < |taps|
        {
          lastNonZero := lastNonZero - 1;
        }
      }
    }

    /** The copy loop of `AddFilter`: appends the taps from `first` to `last` to the flat store. */
    method CopyTaps(taps: seq<Fixed>, first: nat, last: int)
      requires first <= last < |taps|
      modifies `filterValues
      ensures filterValues == old(filterValues) + taps[first..last + 1]
    {
      var i := first;
      while i <= last
        invariant first <= i <= last + 1
        invariant filterValues == old(filterValues) + taps[first..i]
      {
        assert taps[first..i + 1] == taps[first..i] + [taps[i]];
        filterValues := filterValues + [taps[i]];
        i := i + 1;
      }
    }

    /** Cuts the zeros off both ends of the given taps and appends the rest to the flat store. */
    method AddFilter(offset: int, taps: seq<Fixed>)
      requires Valid() && |taps| > 0
      modifies this
      ensures Valid()
      ensures Kernels() == old(Kernels()) + [Trim(Kernel(offset, taps))]
      ensures filters[|old(filters)|].length == |taps|
      ensures old(SlicesContiguous(filters, filterValues)) ==> SlicesContiguous(filters, filterValues)
    {
      var filterOffset, filterLength := offset, |taps|;
      var firstNonZero, lastNonZero := NonZeroRange(taps);
      if firstNonZero < |taps| {
        filterOffset := offset + firstNonZero;
        filterLength := lastNonZero + 1 - firstNonZero;
        CopyTaps(taps, firstNonZero, lastNonZero);
      } else {
        filterLength := 0;
      }
      var instance := FilterInstance(|filterValues| - filterLength, filterOffset, filterLength, |taps|);
      ghost var k := Trim(Kernel(offset, taps));
      assert filterValues == old(filterValues) + k.taps;
      AppendedKernel(filters, old(filterValues), maxFilter, instance, k);
      filters := filters + [instance];
      maxFilter := if maxFilter < filterLength then filterLength else maxFilter;
    }

    /** Where the kernel for output position `value` lies in the flat store. */
    function FilterForValue(value: nat): (slice: FilterSlice)
      reads this
      requires Valid() && value < NumValues()
      ensures slice.location + slice.length <= |filterValues|
      ensures Kernels()[value] == Kernel(slice.offset, filterValues[slice.location..slice.location + slice.length])
      ensures slice.length <= maxFilter
    {
      var f := filters[value];
      assert |Kernels()[value].taps| == f.trimmedLength;
      FilterSlice(f.dataLocation, f.offset, f.trimmedLength)
    }

    /** Appends the dummy coefficients that make four-wide loads of the last slice safe. */
    method PaddingForSIMD()
      requires Valid()
      modifies `filterValues
      ensures Valid() && Kernels() == old(Kernels())
      ensures filterValues == old(filterValues) + Zeros(SIMD_PADDING)
      ensures PaddedForSIMD()
    {
      var i := 0;
      while i < SIMD_PADDING
        invariant 0 <= i <= SIMD_PADDING
        invariant filterValues == old(filterValues) + Zeros(i)
      {
        filterValues := filterValues + [0];
        i := i + 1;
        assert filterValues == old(filterValues) + Zeros(i);
      }
      KernelsSurviveAppend(filters, old(filterValues), Zeros(SIMD_PADDING));
    }
  }
}
