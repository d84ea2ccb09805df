/** Column-width allocation for the dashboard's tables (src/canvas.rs).

    A table is given a total width in terminal cells, one desired width per
    column (the column's ratio times the total, already truncated to an integer)
    and one threshold per column (the least width at which the column is still
    legible). One left-to-right pass hands out widths, dropping every column
    from the first one that does not fit; whatever is left over is then spread
    over the vector. */
module CanvasWidths {

  /** No column threshold is ever smaller than this. */
  const ForceMinThreshold: nat := 5

  const CpuLegendHeader: seq<string> := ["CPU", "Use%"]
  const DiskHeaders: seq<string> := ["Disk", "Mount", "Used", "Free", "Total", "R/s", "W/s"]
  const TempHeaders: seq<string> := ["Sensor", "Temp"]
  const NonWindowsNetworkHeaders: seq<string> := ["RX", "TX", "Total RX", "Total TX"]
  const WindowsNetworkHeaders: seq<string> := ["RX", "TX"]

  /** The threshold of each column: its header's length, but never below
      ForceMinThreshold. */
  function HeaderLens(headers: seq<string>): (lens: seq<nat>)
    ensures |lens| == |headers|
    ensures forall i :: 0 <= i < |lens| ==> ForceMinThreshold <= lens[i] && |headers[i]| <= lens[i]
    ensures forall i :: 0 <= i < |lens| ==> lens[i] == ForceMinThreshold || lens[i] == |headers[i]|
  {
    seq(|headers|, i requires 0 <= i < |headers| =>
      if |headers[i]| < ForceMinThreshold then ForceMinThreshold else |headers[i]|)
  }

  /** The thresholds every table of the dashboard is laid out with. */
  lemma HeaderLensOfTables()
    ensures HeaderLens(CpuLegendHeader) == [5, 5]
    ensures HeaderLens(DiskHeaders) == [5, 5, 5, 5, 5, 5, 5]
    ensures HeaderLens(TempHeaders) == [6, 5]
    ensures HeaderLens(NonWindowsNetworkHeaders) == [5, 5, 8, 8]
    ensures HeaderLens(WindowsNetworkHeaders) == [5, 5]
  {
  }

  // ---------------------------------------------------------------------------
  // Sums of widths

  function Sum(s: seq<int>): int
  {
    if s == [] then 0 else s[0] + Sum(s[1..])
  }

  function Zeros(n: nat): (z: seq<int>)
    ensures |z| == n && forall k :: 0 <= k < n ==> z[k] == 0
  {
    seq(n, _ => 0)
  }

  lemma {:induction false} SumConcat(a: seq<int>, b: seq<int>)
    ensures Sum(a + b) == Sum(a) + Sum(b)
  {
    if a == [] {
      assert a + b == b;
    } else {
      assert (a + b)[1..] == a[1..] + b;
      SumConcat(a[1..], b);
    }
  }

  lemma {:induction false} SumOfZeros(s: seq<int>)
    requires forall k :: 0 <= k < |s| ==> s[k] == 0
    ensures Sum(s) == 0
  {
    if s != [] {
      SumOfZeros(s[1..]);
    }
  }

  /** In a sequence of non-negative numbers no element exceeds the sum. */
  lemma {:induction false} ElementAtMostSum(s: seq<int>, k: nat)
    requires k < |s|
    requires forall j :: 0 <= j < |s| ==> 0 <= s[j]
    ensures s[k] <= Sum(s)
  {
    NonNegativeSum(s[1..]);
    if k > 0 {
      ElementAtMostSum(s[1..], k - 1);
    }
  }

  lemma {:induction false} NonNegativeSum(s: seq<int>)
    requires forall j :: 0 <= j < |s| ==> 0 <= s[j]
    ensures 0 <= Sum(s)
  {
    if s != [] {
      NonNegativeSum(s[1..]);
    }
  }

  /** Adding `q` to every element and one more to the first `r` adds
      |a| * q + r to the sum. */
  lemma {:induction false} SumShifted(a: seq<int>, b: seq<int>, q: int, r: nat)
    requires |a| == |b| && r <= |a|
    requires forall k :: 0 <= k < |a| ==> b[k] == a[k] + q + (if k < r then 1 else 0)
    ensures Sum(b) == Sum(a) + |a| * q + r
  {
    if a != [] {
      var r' := if r > 0 then r - 1 else 0;
      SumShifted(a[1..], b[1..], q, r');
      assert (|a| - 1) * q + q == |a| * q;
    }
  }

  lemma {:induction false} AtMostMultiple(x: nat, y: nat)
    requires 1 <= y
    ensures x <= x * y
  {
    if y > 1 {
      AtMostMultiple(x, y - 1);
      assert x * y == x * (y - 1) + x;
    }
  }

  /** An even share of `a` among `b` holders is at most `a`. */
  lemma ShareAtMostWhole(a: int, b: int)
    requires 0 <= a && 0 < b
    ensures 0 <= a / b <= a
  {
    var q := a / b;
    assert q * b + a % b == a;
    AtMostMultiple(q, b);
  }

  // ---------------------------------------------------------------------------
  // The allocation, as functions

  /** What the allocation does for one column: the width it assigns and the
      width that is still free afterwards. */
  datatype Fit = Fit(width: int, remaining: int)

  function FitColumn(desired: int, threshold: nat, remaining: int): (f: Fit)
    ensures f.width == 0 || threshold <= f.width
    ensures f.width + f.remaining == remaining
    ensures 0 <= remaining ==> 0 <= f.width && 0 <= f.remaining
    ensures 0 < threshold ==> (f.width == 0 <==> remaining < threshold)
  {
    if desired < threshold then
      if remaining < threshold then Fit(0, remaining) else Fit(threshold, remaining - threshold)
    else if remaining < desired then
      if remaining < threshold then Fit(0, remaining) else Fit(remaining, 0)
    else
      Fit(desired, remaining - desired)
  }

  /** Result of the main pass over the columns from `i` onwards: their widths,
      how many of them were allocated before the first 0, and the width left. */
  datatype Pass = Pass(widths: seq<int>, count: nat, remaining: int)

  function MainPass(desired: seq<int>, thresholds: seq<nat>, i: nat, remaining: int): Pass
    requires |desired| == |thresholds| && i <= |desired|
    decreases |desired| - i
  {
    if i == |desired| then Pass([], 0, remaining)
    else
      var f := FitColumn(desired[i], thresholds[i], remaining);
      if f.width == 0 then Pass(Zeros(|desired| - i), 0, remaining)
      else
        var rest := MainPass(desired, thresholds, i + 1, f.remaining);
        Pass([f.width] + rest.widths, rest.count + 1, rest.remaining)
  }

  /** Spreads `remaining` over all the widths, `remaining / count` each and one
      more for each of the first `remaining % count`; nothing when every column
      was allocated. */
  function Redistribute(widths: seq<int>, remaining: int, count: nat): (r: seq<int>)
    requires 0 <= remaining && count <= |widths|
    requires count < |widths| ==> 0 < count
    ensures |r| == |widths|
  {
    if count == |widths| then
      widths
    else
      seq(|widths|, k requires 0 <= k < |widths| =>
        widths[k] + remaining / count + (if k < remaining % count then 1 else 0))
  }

  /** What the source demands of its callers: equal lengths, at least one
      column, no u16 underflow in `total_width - (num_widths - 1)` and no
      division by zero in the redistribution (see NoColumnFits). */
  predicate WidthsRequest(totalWidth: int, desired: seq<int>, thresholds: seq<nat>)
  {
    && |desired| == |thresholds|
    && 0 < |desired| < 0x1_0000
    && 0 <= totalWidth < 0x1_0000
    && |desired| - 1 <= totalWidth
    && (forall i :: 0 <= i < |thresholds| ==> thresholds[i] < 0x8000_0000)
    && FitColumn(desired[0], thresholds[0], Usable(totalWidth, |desired|)).width != 0
  }

  /** Width left once one separator cell per gap is reserved. */
  function Usable(totalWidth: int, columns: nat): int
  {
    totalWidth - (columns - 1)
  }

  function IntrinsicWidths(totalWidth: int, desired: seq<int>, thresholds: seq<nat>): (seq<int>, nat)
    requires WidthsRequest(totalWidth, desired, thresholds)
  {
    var p := MainPass(desired, thresholds, 0, Usable(totalWidth, |desired|));
    MainPassStops(desired, thresholds, 0, Usable(totalWidth, |desired|));
    MainPassShape(desired, thresholds, 0, Usable(totalWidth, |desired|));
    (Redistribute(p.widths, p.remaining, p.count), p.count)
  }

  // ---------------------------------------------------------------------------
  // Properties of the main pass

  /** One width per column, the count at most the number of columns, and every
      width either 0 or at least its column's threshold. */
  lemma {:induction false} MainPassShape(desired: seq<int>, thresholds: seq<nat>, i: nat, remaining: int)
    requires |desired| == |thresholds| && i <= |desired| && 0 <= remaining
    ensures var p := MainPass(desired, thresholds, i, remaining);
      && |p.widths| == |desired| - i
      && p.count <= |desired| - i
      && 0 <= p.remaining
      && forall k :: 0 <= k < |p.widths| ==> 0 <= p.widths[k] && (p.widths[k] == 0 || thresholds[i + k] <= p.widths[k])
    decreases |desired| - i
  {
    if i < |desired| {
      var f := FitColumn(desired[i], thresholds[i], remaining);
      if f.width != 0 {
        MainPassShape(desired, thresholds, i + 1, f.remaining);
      }
    }
  }

  /** The pass stops at the first 0: the counted widths are the non-zero
      ones, everything after them is 0, and the column it stopped at did not
      fit because its threshold exceeded the width left. */
  lemma {:induction false} MainPassStops(desired: seq<int>, thresholds: seq<nat>, i: nat, remaining: int)
    requires |desired| == |thresholds| && i <= |desired| && 0 <= remaining
    ensures var p := MainPass(desired, thresholds, i, remaining);
      && |p.widths| == |desired| - i
      && p.count <= |desired| - i
      && (forall k :: 0 <= k < p.count ==> p.widths[k] != 0)
      && (forall k :: p.count <= k < |p.widths| ==> p.widths[k] == 0)
      && (p.count < |desired| - i && 0 < thresholds[i + p.count] ==> p.remaining < thresholds[i + p.count])
    decreases |desired| - i
  {
    if i < |desired| {
      var f := FitColumn(desired[i], thresholds[i], remaining);
      if f.width != 0 {
        MainPassStops(desired, thresholds, i + 1, f.remaining);
      }
    }
  }

  /** The assigned widths and the width left add up to the width the pass
      started with. */
  lemma {:induction false} MainPassConserves(desired: seq<int>, thresholds: seq<nat>, i: nat, remaining: int)
    requires |desired| == |thresholds| && i <= |desired|
    ensures var p := MainPass(desired, thresholds, i, remaining);
      Sum(p.widths) + p.remaining == remaining
    decreases |desired| - i
  {
    if i < |desired| {
      var f := FitColumn(desired[i], thresholds[i], remaining);
      if f.width == 0 {
        SumOfZeros(Zeros(|desired| - i));
      } else {
        MainPassConserves(desired, thresholds, i + 1, f.remaining);
        var rest := MainPass(desired, thresholds, i + 1, f.remaining);
        assert ([f.width] + rest.widths)[1..] == rest.widths;
      }
    }
  }

  /** No column is allocated at all exactly when the first threshold exceeds
      the usable width; this is the case the source would divide by zero in. */
  lemma NoColumnFits(totalWidth: int, desired: seq<int>, thresholds: seq<nat>)
    requires |desired| == |thresholds| && 0 < |desired| && 0 <= Usable(totalWidth, |desired|)
    requires 0 < thresholds[0]
    ensures MainPass(desired, thresholds, 0, Usable(totalWidth, |desired|)).count == 0
        <==> Usable(totalWidth, |desired|) < thresholds[0]
  {
    var f := FitColumn(desired[0], thresholds[0], Usable(totalWidth, |desired|));
  }

  // ---------------------------------------------------------------------------
  // Properties of the whole allocation

  /** What a finished main pass guarantees: one non-negative width per column,
      at least one column allocated, zeros after the counted ones, and the
      widths plus the width left equal to the usable width. */
  predicate PassDone(p: Pass, n: nat, usable: int)
  {
    && |p.widths| == n && 0 < p.count <= n && 0 <= p.remaining
    && (forall k :: 0 <= k < n ==> 0 <= p.widths[k])
    && (forall k :: p.count <= k < n ==> p.widths[k] == 0)
    && Sum(p.widths) + p.remaining == usable
  }

  lemma MainPassDone(totalWidth: int, desired: seq<int>, thresholds: seq<nat>)
    requires WidthsRequest(totalWidth, desired, thresholds)
    ensures PassDone(MainPass(desired, thresholds, 0, Usable(totalWidth, |desired|)), |desired|, Usable(totalWidth, |desired|))
  {
    var usable := Usable(totalWidth, |desired|);
    MainPassShape(desired, thresholds, 0, usable);
    MainPassStops(desired, thresholds, 0, usable);
    MainPassConserves(desired, thresholds, 0, usable);
  }

  /** After a pass that dropped a column, the redistribution makes the drawn
      widths add up to the usable width exactly. */
  lemma RedistributeFills(p: Pass, n: nat, usable: int)
    requires PassDone(p, n, usable) && p.count < n
    ensures Sum(Redistribute(p.widths, p.remaining, p.count)[..p.count]) == usable
  {
    var widths := Redistribute(p.widths, p.remaining, p.count);
    assert p.widths == p.widths[..p.count] + p.widths[p.count..];
    SumConcat(p.widths[..p.count], p.widths[p.count..]);
    SumOfZeros(p.widths[p.count..]);
    SumShifted(p.widths[..p.count], widths[..p.count], p.remaining / p.count, p.remaining % p.count);
  }

  /** No width, drawn or dropped, exceeds the usable width. */
  lemma RedistributeBounded(p: Pass, n: nat, usable: int)
    requires PassDone(p, n, usable)
    ensures forall k :: 0 <= k < n ==> 0 <= Redistribute(p.widths, p.remaining, p.count)[k] <= usable
  {
    var widths := Redistribute(p.widths, p.remaining, p.count);
    NonNegativeSum(p.widths);
    if p.count == n {
      forall k | 0 <= k < n
        ensures 0 <= widths[k] <= usable
      {
        ElementAtMostSum(p.widths, k);
      }
    } else {
      var q := p.remaining / p.count;
      ShareAtMostWhole(p.remaining, p.count);
      RedistributeFills(p, n, usable);
      assert forall j :: 0 <= j < p.count ==> widths[..p.count][j] == widths[j] >= 0;
      forall k | 0 <= k < n
        ensures 0 <= widths[k] <= usable
      {
        if k < p.count {
          ElementAtMostSum(widths[..p.count], k);
        } else {
          assert widths[k] == q;
        }
      }
    }
  }

  /** The allocation returns one width per column and a count at most the
      number of columns; every drawn column (before the count) is at least its
      threshold; every width fits in the usable width, so the u16 additions of
      the redistribution cannot overflow. */
  lemma IntrinsicWidthsShape(totalWidth: int, desired: seq<int>, thresholds: seq<nat>)
    requires WidthsRequest(totalWidth, desired, thresholds)
    ensures |IntrinsicWidths(totalWidth, desired, thresholds).0| == |desired|
    ensures 0 < IntrinsicWidths(totalWidth, desired, thresholds).1 <= |desired|
    ensures var (widths, count) := IntrinsicWidths(totalWidth, desired, thresholds);
      forall k :: 0 <= k < count ==> thresholds[k] <= widths[k]
    ensures var widths := IntrinsicWidths(totalWidth, desired, thresholds).0;
      forall k :: 0 <= k < |widths| ==> 0 <= widths[k] <= Usable(totalWidth, |desired|)
  {
    var usable := Usable(totalWidth, |desired|);
    var p := MainPass(desired, thresholds, 0, usable);
    MainPassDone(totalWidth, desired, thresholds);
    MainPassShape(desired, thresholds, 0, usable);
    MainPassStops(desired, thresholds, 0, usable);
    RedistributeBounded(p, |desired|, usable);
    var widths := Redistribute(p.widths, p.remaining, p.count);
    if p.count < |desired| {
      ShareAtMostWhole(p.remaining, p.count);
    }
    assert forall k :: 0 <= k < p.count ==> thresholds[k] <= p.widths[k] <= widths[k];
  }

  /** When some column was dropped, the drawn columns fill the usable width
      exactly; otherwise the widths are those of the main pass, which never
      exceed the usable width. */
  lemma IntrinsicWidthsFill(totalWidth: int, desired: seq<int>, thresholds: seq<nat>)
    requires WidthsRequest(totalWidth, desired, thresholds)
    ensures var (widths, count) := IntrinsicWidths(totalWidth, desired, thresholds);
      && |widths| == |desired| && count <= |desired|
      && (count < |desired| ==> Sum(widths[..count]) == Usable(totalWidth, |desired|))
      && (count == |desired| ==> widths == MainPass(desired, thresholds, 0, Usable(totalWidth, |desired|)).widths
                                 && Sum(widths) <= Usable(totalWidth, |desired|))
  {
    var usable := Usable(totalWidth, |desired|);
    var p := MainPass(desired, thresholds, 0, usable);
    MainPassDone(totalWidth, desired, thresholds);
    if p.count < |desired| {
      RedistributeFills(p, |desired|, usable);
    }
  }

  /** Redistribution, when it happens, adds the same share to every entry,
      dropped ones included, and one extra cell to each of the first
      `remaining % count` entries. */
  lemma IntrinsicWidthsRedistribute(totalWidth: int, desired: seq<int>, thresholds: seq<nat>)
    requires WidthsRequest(totalWidth, desired, thresholds)
    ensures var p := MainPass(desired, thresholds, 0, Usable(totalWidth, |desired|));
      var (widths, count) := IntrinsicWidths(totalWidth, desired, thresholds);
      && |widths| == |p.widths|
      && count == p.count
      && (count == |desired| ==> widths == p.widths)
      && (count < |desired| ==> forall k :: 0 <= k < |widths| ==>
            widths[k] - p.widths[k] == p.remaining / count + (if k < p.remaining % count then 1 else 0))
  {
    MainPassDone(totalWidth, desired, thresholds);
  }

  /** Width 20, ratios [0.5, 0.5] (desired widths 10 and 10) and thresholds
      [5, 5] give widths [10, 9], both drawn. */
  lemma HalfAndHalfExample()
    ensures WidthsRequest(20, [10, 10], [5, 5])
    ensures IntrinsicWidths(20, [10, 10], [5, 5]) == ([10, 9], 2)
  {
    assert MainPass([10, 10], [5, 5], 2, 0) == Pass([], 0, 0);
    assert MainPass([10, 10], [5, 5], 1, 9) == Pass([9], 1, 0);
    assert MainPass([10, 10], [5, 5], 0, 19) == Pass([10, 9], 2, 0);
  }

  /** The disk table at width 20 (desired widths from its ratios
      [0.2, 0.15, 0.13, 0.13, 0.13, 0.13, 0.13]): two columns are drawn, the
      third does not reach its threshold, and the 4 cells left over go 2 and 2
      to every entry, dropped ones included. */
  lemma NarrowDiskTableExample()
    ensures WidthsRequest(20, [4, 3, 2, 2, 2, 2, 2], [5, 5, 5, 5, 5, 5, 5])
    ensures IntrinsicWidths(20, [4, 3, 2, 2, 2, 2, 2], [5, 5, 5, 5, 5, 5, 5]) == ([7, 7, 2, 2, 2, 2, 2], 2)
  {
    var d, t := [4, 3, 2, 2, 2, 2, 2], [5, 5, 5, 5, 5, 5, 5];
    assert MainPass(d, t, 2, 4) == Pass([0, 0, 0, 0, 0], 0, 4);
    assert MainPass(d, t, 1, 9) == Pass([5, 0, 0, 0, 0, 0], 1, 4);
    assert MainPass(d, t, 0, 14) == Pass([5, 5, 0, 0, 0, 0, 0], 2, 4);
    assert Redistribute([5, 5, 0, 0, 0, 0, 0], 4, 2) == [7, 7, 2, 2, 2, 2, 2];
  }

  // ---------------------------------------------------------------------------
  // The allocation as the source runs it

  /** get_variable_intrinsic_widths: the main pass, then, when some column
      was dropped, the redistribution. */
  method GetVariableIntrinsicWidths(totalWidth: int, desired: seq<int>, thresholds: seq<nat>)
    returns (resultingWidths: seq<int>, lastIndex: nat)
    requires WidthsRequest(totalWidth, desired, thresholds)
    ensures (resultingWidths, lastIndex) == IntrinsicWidths(totalWidth, desired, thresholds)
  {
    var numWidths := |desired|;
    var remainingWidth := totalWidth - (numWidths - 1);
    resultingWidths, lastIndex, remainingWidth := AllocateColumns(desired, thresholds, remainingWidth);
    MainPassShape(desired, thresholds, 0, totalWidth - (numWidths - 1));
    if lastIndex < numWidths {
      resultingWidths := SpreadRemainingWidth(resultingWidths, remainingWidth, lastIndex);
    }
  }

  /** The main loop of get_variable_intrinsic_widths: it fills a vector of
      zeros column by column and breaks out at the first column that gets 0. */
  method AllocateColumns(desired: seq<int>, thresholds: seq<nat>, usable: int)
    returns (resultingWidths: seq<int>, lastIndex: nat, remainingWidth: int)
    requires |desired| == |thresholds| && 0 <= usable
    ensures Pass(resultingWidths, lastIndex, remainingWidth) == MainPass(desired, thresholds, 0, usable)
  {
    var numWidths := |desired|;
    resultingWidths := Zeros(numWidths);
    lastIndex := 0;
    remainingWidth := usable;
    ghost var whole := MainPass(desired, thresholds, 0, usable);

    var itx := 0;
    while itx < numWidths
      invariant 0 <= itx <= numWidths && lastIndex == itx
      invariant |resultingWidths| == numWidths
      invariant forall k :: itx <= k < numWidths ==> resultingWidths[k] == 0
      invariant whole.widths == resultingWidths[..itx] + MainPass(desired, thresholds, itx, remainingWidth).widths
      invariant whole.count == itx + MainPass(desired, thresholds, itx, remainingWidth).count
      invariant whole.remaining == MainPass(desired, thresholds, itx, remainingWidth).remaining
    {
      ghost var remainingBefore := remainingWidth;
      ghost var done := resultingWidths[..itx];
      // the `if` expression assigned to resulting_widths[itx], which also
      // takes the allocated width off remaining_width
      var fit := FitColumn(desired[itx], thresholds[itx], remainingWidth);
      var width := fit.width;
      remainingWidth := fit.remaining;
      resultingWidths := resultingWidths[itx := width];

      if width == 0 {
        assert MainPass(desired, thresholds, itx, remainingBefore) == Pass(Zeros(numWidths - itx), 0, remainingBefore);
        assert resultingWidths == done + Zeros(numWidths - itx);
        break;
      } else {
        ghost var rest := MainPass(desired, thresholds, itx + 1, remainingWidth);
        assert MainPass(desired, thresholds, itx, remainingBefore) == Pass([width] + rest.widths, rest.count + 1, rest.remaining);
        assert resultingWidths[..itx + 1] == done + [width];
        assert done + ([width] + rest.widths) == resultingWidths[..itx + 1] + rest.widths;
        lastIndex := lastIndex + 1;
      }
      itx := itx + 1;
    }
  }

  /** The redistribution loop of get_variable_intrinsic_widths: every entry,
      dropped ones included, gains `remaining / count`, and one more cell is
      handed out per entry from the front while the remainder lasts. */
  method SpreadRemainingWidth(widths: seq<int>, remaining: int, count: nat) returns (spread: seq<int>)
    requires 0 <= remaining && 0 < count < |widths|
    ensures spread == Redistribute(widths, remaining, count)
  {
    spread := widths;
    var forAllWidths := remaining / count;
    var remainder := remaining % count;
    ghost var extra := remainder;
    for k := 0 to |widths|
      invariant |spread| == |widths|
      invariant forall j :: 0 <= j < k ==> spread[j] == widths[j] + forAllWidths + (if j < extra then 1 else 0)
      invariant forall j :: k <= j < |widths| ==> spread[j] == widths[j]
      invariant remainder == if k < extra then extra - k else 0
    {
      spread := spread[k := spread[k] + forAllWidths];
      if remainder > 0 {
        spread := spread[k := spread[k] + 1];
        remainder := remainder - 1;
      }
    }
  }
}
