/**
 * Column geometry: how many columns fit a container, how the container width is
 * split into integer column widths, and where each column starts.
 *
 * Pixels are integers. Division by a positive column count is Dafny's `/`, which
 * for a positive divisor is the floor that `Math.floor(a / n)` computes.
 */
module Geometry {
  import opened Common
  import Parsing

  function Sum(s: seq<int>): int {
    if |s| == 0 then 0 else Sum(s[..|s| - 1]) + s[|s| - 1]
  }

  /** Replacing one element changes the sum by the difference. */
  lemma {:induction false} SumUpdate(s: seq<int>, i: nat, v: int)
    requires i < |s|
    ensures Sum(s[i := v]) == Sum(s) - s[i] + v
  {
    var t := s[i := v];
    if i < |s| - 1 {
      assert t[..|t| - 1] == s[..|s| - 1][i := v];
      SumUpdate(s[..|s| - 1], i, v);
    } else {
      assert t[..|t| - 1] == s[..|s| - 1];
    }
  }

  /** `a / n` is the largest `q` with `q * n <= a`. */
  lemma FloorDiv(a: int, n: int)
    requires n > 0
    ensures n * (a / n) <= a < n * (a / n) + n
  {
  }

  lemma DivAtLeast(a: int, n: int, k: int)
    requires n > 0 && a >= n * k
    ensures a / n >= k
  {
    var q := a / n;
    FloorDiv(a, n);
    assert n * k < n * (q + 1);
    MulCancel(n, k, q + 1);
  }

  lemma MulCancel(n: int, x: int, y: int)
    requires n > 0 && n * x < n * y
    ensures x < y
  {
    assert n * (y - x) > 0;
  }

  /**
   * Width-derived column count: `Math.max(1, floor((W + gap) / (minColumnWidth + gap)))`.
   * It is the largest count of columns at least `minColumnWidth` wide that fit,
   * gaps included, and never less than one.
   */
  function FittingColumns(width: int, gap: int, minColumnWidth: int): (n: int)
    requires minColumnWidth + gap > 0
    ensures n >= 1
    ensures n > 1 ==> n * minColumnWidth + (n - 1) * gap <= width
    ensures minColumnWidth <= width ==> n * minColumnWidth + (n - 1) * gap <= width
    ensures width < (n + 1) * minColumnWidth + n * gap
  {
    var possible := (width + gap) / (minColumnWidth + gap);
    var n := if possible < 1 then 1 else possible;
    FittingBounds(width, gap, minColumnWidth, possible, n);
    n
  }

  lemma FittingBounds(width: int, gap: int, minColumnWidth: int, possible: int, n: int)
    requires minColumnWidth + gap > 0
    requires possible == (width + gap) / (minColumnWidth + gap)
    requires n == if possible < 1 then 1 else possible
    ensures n > 1 ==> n * minColumnWidth + (n - 1) * gap <= width
    ensures minColumnWidth <= width ==> n * minColumnWidth + (n - 1) * gap <= width
    ensures width < (n + 1) * minColumnWidth + n * gap
  {
    var d := minColumnWidth + gap;
    FloorDiv(width + gap, d);
    assert n * minColumnWidth + (n - 1) * gap == n * d - gap;
    assert (n + 1) * minColumnWidth + n * gap == (n + 1) * d - gap;
    if possible < 1 {
      assert d * possible <= 0;
      assert width + gap < d;
    } else {
      assert d * possible == possible * d;
    }
  }

  /**
   * `calculateColumns`: a zero container width leaves the count alone; an explicit
   * `columns` attribute wins; otherwise the width-derived count.
   */
  function CalculateColumns(current: int, width: nat, gap: int, minColumnWidth: int, columnsAttr: Option<string>): (n: int)
    requires minColumnWidth + gap > 0
    ensures width == 0 ==> n == current
    ensures width > 0 && columnsAttr.Some? ==> n == Parsing.ParseColumns(columnsAttr)
    ensures width > 0 && columnsAttr.None? ==>
              && n >= 1
              && (n > 1 ==> n * minColumnWidth + (n - 1) * gap <= width)
              && width < (n + 1) * minColumnWidth + n * gap
  {
    if width == 0 then current
    else if columnsAttr.Some? then Parsing.ParseColumns(columnsAttr)
    else FittingColumns(width, gap, minColumnWidth)
  }

  /**
   * `calculateColumnWidths`: the container width minus the gaps, divided by the
   * column count (floor), the remainder handed out one unit each to the leftmost
   * columns.
   */
  function ColumnWidths(width: int, n: int, gap: int): (ws: seq<int>)
    requires n >= 1
    ensures |ws| == n
    ensures Sum(ws) + (n - 1) * gap == width
    ensures forall i, j :: 0 <= i <= j < n ==> ws[j] <= ws[i] <= ws[j] + 1
  {
    var available := width - gap * (n - 1);
    var base := available / n;
    var remainder := available - base * n;
    FloorDiv(available, n);
    var ws := Shares(base, remainder, n);
    WidthsShape(ws, base, remainder);
    assert Sum(ws) + (n - 1) * gap == width by {
      assert Sum(ws) == n * base + remainder;
      assert gap * (n - 1) == (n - 1) * gap;
    }
    ws
  }

  /** `n` columns of width `base`, the first `remainder` of them one wider (the `push` loop). */
  function Shares(base: int, remainder: int, n: nat): (ws: seq<int>)
    ensures |ws| == n
    ensures forall i :: 0 <= i < n ==> ws[i] == base + (if i < remainder then 1 else 0)
  {
    if n == 0 then [] else Shares(base, remainder, n - 1) + [base + (if n - 1 < remainder then 1 else 0)]
  }

  /** Floor share plus one for the first `remainder` columns: the sum, and widths that never grow. */
  lemma WidthsShape(ws: seq<int>, base: int, remainder: int)
    requires 0 <= remainder < |ws|
    requires forall i :: 0 <= i < |ws| ==> ws[i] == base + (if i < remainder then 1 else 0)
    ensures Sum(ws) == |ws| * base + remainder
    ensures forall i, j :: 0 <= i <= j < |ws| ==> ws[j] <= ws[i] <= ws[j] + 1
  {
    WidthsPrefixSum(ws, base, remainder, |ws|);
    assert ws[..|ws|] == ws;
  }

  lemma {:induction false} WidthsPrefixSum(ws: seq<int>, base: int, remainder: int, k: nat)
    requires k <= |ws|
    requires 0 <= remainder
    requires forall i :: 0 <= i < |ws| ==> ws[i] == base + (if i < remainder then 1 else 0)
    ensures Sum(ws[..k]) == k * base + (if k < remainder then k else remainder)
  {
    if k > 0 {
      WidthsPrefixSum(ws, base, remainder, k - 1);
      assert ws[..k][..k - 1] == ws[..k - 1];
    }
  }

  /** Every width is at least the floor share and at most one more. */
  lemma WidthsNearShare(width: int, n: int, gap: int, i: int)
    requires n >= 1 && 0 <= i < n
    ensures var available := width - gap * (n - 1);
            var share := available / n;
            var remainder := available - share * n;
            && 0 <= remainder < n
            && ColumnWidths(width, n, gap)[i] == share + (if i < remainder then 1 else 0)
            && share <= ColumnWidths(width, n, gap)[i] <= share + 1
  {
    var available := width - gap * (n - 1);
    var share := available / n;
    var remainder := available - share * n;
    assert 0 <= remainder < n by {
      FloorDiv(available, n);
      assert share * n == n * share;
    }
    assert ColumnWidths(width, n, gap) == Shares(share, remainder, n);
  }

  /**
   * When the width-derived count is not clamped (one column of `minColumnWidth`
   * fits), every column is at least `minColumnWidth` wide.
   */
  lemma WidthsRespectMinimum(width: int, gap: int, minColumnWidth: int, i: int)
    requires minColumnWidth + gap > 0
    requires minColumnWidth <= width
    requires 0 <= i < FittingColumns(width, gap, minColumnWidth)
    ensures ColumnWidths(width, FittingColumns(width, gap, minColumnWidth), gap)[i] >= minColumnWidth
  {
    var n := FittingColumns(width, gap, minColumnWidth);
    var available := width - gap * (n - 1);
    assert available >= n * minColumnWidth;
    DivAtLeast(available, n, minColumnWidth);
    WidthsNearShare(width, n, gap, i);
  }

  /** `left` of column `c`: the loop `left += columnWidths[i] + columnGap` for `i < c`. */
  function LeftOf(ws: seq<int>, gap: int, c: nat): int
    requires c <= |ws|
  {
    if c == 0 then 0 else LeftOf(ws, gap, c - 1) + ws[c - 1] + gap
  }

  /** The loop's result is the preceding widths plus one gap per preceding column. */
  lemma {:induction false} LeftOfClosedForm(ws: seq<int>, gap: int, c: nat)
    requires c <= |ws|
    ensures LeftOf(ws, gap, c) == Sum(ws[..c]) + c * gap
  {
    if c > 0 {
      LeftOfClosedForm(ws, gap, c - 1);
      assert ws[..c][..c - 1] == ws[..c - 1];
    }
  }

  /**
   * A column of the split lies inside the container, and the last column ends
   * exactly at its right edge. Needs `W + gap >= 0`, which holds for any
   * non-negative gap.
   */
  lemma ColumnWithinContainer(width: int, n: int, gap: int, c: nat)
    requires n >= 1 && c < n
    requires width + gap >= 0
    ensures var ws := ColumnWidths(width, n, gap);
            LeftOf(ws, gap, c) + ws[c] <= width
    ensures c == n - 1 ==> LeftOf(ColumnWidths(width, n, gap), gap, c) + ColumnWidths(width, n, gap)[c] == width
  {
    LastColumnEnds(width, n, gap);
    var floor := WidthsAtLeastShare(width, n, gap);
    EdgesWithin(ColumnWidths(width, n, gap), gap, width, floor, c);
  }

  /** When the last column ends at `width` and no width is below `-gap`, no column ends past it. */
  lemma EdgesWithin(ws: seq<int>, gap: int, width: int, floor: int, c: nat)
    requires c < |ws|
    requires LeftOf(ws, gap, |ws| - 1) + ws[|ws| - 1] == width
    requires floor + gap >= 0
    requires forall i :: 0 <= i < |ws| ==> ws[i] >= floor
    ensures LeftOf(ws, gap, c) + ws[c] <= width
  {
    RightEdgesGrow(ws, gap, c, |ws| - 1, floor);
  }

  lemma LastColumnEnds(width: int, n: int, gap: int)
    requires n >= 1
    ensures var ws := ColumnWidths(width, n, gap);
            LeftOf(ws, gap, n - 1) + ws[n - 1] == width
  {
    var ws := ColumnWidths(width, n, gap);
    LeftOfClosedForm(ws, gap, n - 1);
    assert ws[..n - 1] + [ws[n - 1]] == ws;
  }

  /** Every width is at least a share `floor` that the gap cannot make negative. */
  lemma WidthsAtLeastShare(width: int, n: int, gap: int) returns (floor: int)
    requires n >= 1 && width + gap >= 0
    ensures floor + gap >= 0
    ensures forall i :: 0 <= i < n ==> ColumnWidths(width, n, gap)[i] >= floor
  {
    var available := width - gap * (n - 1);
    floor := available / n;
    assert available - n * (-gap) == width + gap;
    DivAtLeast(available, n, -gap);
    forall i | 0 <= i < n
      ensures ColumnWidths(width, n, gap)[i] >= floor
    {
      WidthsNearShare(width, n, gap, i);
    }
  }

  lemma {:induction false} RightEdgesGrow(ws: seq<int>, gap: int, c: nat, d: nat, floor: int)
    requires c <= d < |ws|
    requires floor + gap >= 0
    requires forall i :: 0 <= i < |ws| ==> ws[i] >= floor
    ensures LeftOf(ws, gap, c) + ws[c] <= LeftOf(ws, gap, d) + ws[d]
  {
    if c < d {
      RightEdgesGrow(ws, gap, c, d - 1, floor);
      assert LeftOf(ws, gap, d) == LeftOf(ws, gap, d - 1) + ws[d - 1] + gap;
    }
  }
}
