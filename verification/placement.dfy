/**
 * Placement of one item and of a run of items: the shortest column (lowest index
 * on ties) takes the item at its current height, and grows by the item's height
 * (or a provisional estimate while images are loading) plus the row gap.
 */
module Placement {
  import opened Common
  import Geometry

  /**
   * What the browser reports about an item when it is placed: `offsetHeight`
   * after the width is applied, and whether each of its `<img>` elements is
   * `complete`.
   */
  datatype Measure = Measure(height: nat, images: seq<bool>)

  predicate HasUnloadedImages(m: Measure) {
    exists i :: 0 <= i < |m.images| && !m.images[i]
  }

  /** Provisional height of an item whose images are still loading and which renders 0 high. */
  const FallbackEstimate: int := 200

  /** Position data the engine writes onto an item (style and `data-*` attributes). */
  datatype Meta = Meta(column: nat, top: int, left: int, width: int)

  /** A pending height correction: `{item, columnIndex, itemTop, estimatedHeight}`. */
  datatype Task = Task(item: ItemId, column: nat, itemTop: int, estimate: int)

  /** Column heights, the engine's item list and the position data of every placed element. */
  datatype Board = Board(columns: seq<int>, items: seq<ItemId>, meta: map<ItemId, Meta>)

  function Zeros(n: nat): (z: seq<int>)
    ensures |z| == n
    ensures forall i :: 0 <= i < n ==> z[i] == 0
  {
    seq(n, _ => 0)
  }

  /** `Math.min(...columns)`. */
  function Min(s: seq<int>): (m: int)
    requires |s| > 0
    ensures m in s
    ensures forall i :: 0 <= i < |s| ==> m <= s[i]
  {
    if |s| == 1 then s[0]
    else
      var m := Min(s[..|s| - 1]);
      assert m in s[..|s| - 1];
      if s[|s| - 1] < m then s[|s| - 1] else m
  }

  /** `columns.indexOf(v)`: the first position holding `v`. */
  function IndexOf(s: seq<int>, v: int): (k: nat)
    requires v in s
    ensures k < |s| && s[k] == v
    ensures forall i :: 0 <= i < k ==> s[i] != v
  {
    if s[0] == v then 0 else 1 + IndexOf(s[1..], v)
  }

  /**
   * `columns.indexOf(Math.min(...columns))`: a column of least height, and the
   * lowest-numbered one among equals.
   */
  function ShortestColumn(cols: seq<int>): (c: nat)
    requires |cols| > 0
    ensures c < |cols|
    ensures forall i :: 0 <= i < |cols| ==> cols[c] <= cols[i]
    ensures forall i :: 0 <= i < c ==> cols[c] < cols[i]
  {
    IndexOf(cols, Min(cols))
  }

  /** Column heights after placing one item, its position data, the task it queues, and whether a column grew. */
  datatype Placed = Placed(columns: seq<int>, meta: Meta, task: Option<Task>, grew: bool)

  /** How much the chosen column grows when an item is placed. */
  function Growth(m: Measure, rowGap: int): int {
    if HasUnloadedImages(m) then (if m.height > 0 then m.height else FallbackEstimate) + rowGap
    else if m.height > 0 then m.height + rowGap
    else 0
  }

  /**
   * `layoutItem`: place item `id` with measurement `m` into the shortest column,
   * given the column widths of the current split.
   */
  function LayoutItem(cols: seq<int>, widths: seq<int>, gap: int, rowGap: int, id: ItemId, m: Measure): (r: Placed)
    requires 1 <= |cols| <= |widths|
    ensures r.meta.column < |cols|
    ensures forall i :: 0 <= i < |cols| ==> cols[r.meta.column] <= cols[i]
    ensures forall i :: 0 <= i < r.meta.column ==> cols[r.meta.column] < cols[i]
    ensures r.meta.top == cols[r.meta.column]
    ensures r.meta.width == widths[r.meta.column]
    ensures r.meta.left == Geometry.Sum(widths[..r.meta.column]) + r.meta.column * gap
    ensures |r.columns| == |cols|
    ensures forall j :: 0 <= j < |cols| && j != r.meta.column ==> r.columns[j] == cols[j]
    ensures HasUnloadedImages(m) ==>
              var estimate := if m.height > 0 then m.height else FallbackEstimate;
              && r.columns[r.meta.column] == cols[r.meta.column] + estimate + rowGap
              && r.task == Some(Task(id, r.meta.column, cols[r.meta.column], estimate))
    ensures !HasUnloadedImages(m) ==> r.task.None?
    ensures !HasUnloadedImages(m) && m.height > 0 ==> r.columns[r.meta.column] == cols[r.meta.column] + m.height + rowGap
    ensures !HasUnloadedImages(m) && m.height == 0 ==> r.columns == cols
    ensures r.grew <==> (HasUnloadedImages(m) || m.height > 0)
  {
    var c := ShortestColumn(cols);
    var top := cols[c];
    var left := Geometry.LeftOf(widths, gap, c);
    Geometry.LeftOfClosedForm(widths, gap, c);
    var meta := Meta(c, top, left, widths[c]);
    if HasUnloadedImages(m) then
      var estimate := if m.height > 0 then m.height else FallbackEstimate;
      Placed(cols[c := top + estimate + rowGap], meta, Some(Task(id, c, top, estimate)), true)
    else if m.height > 0 then
      Placed(cols[c := top + m.height + rowGap], meta, None, true)
    else
      Placed(cols, meta, None, false)
  }

  /** An item without any `<img>` never queues a correction. */
  lemma NoImagesNoTask(cols: seq<int>, widths: seq<int>, gap: int, rowGap: int, id: ItemId, m: Measure)
    requires 1 <= |cols| <= |widths|
    requires |m.images| == 0
    ensures LayoutItem(cols, widths, gap, rowGap, id, m).task.None?
  {
  }

  /** Column heights after a run of placements, position data per placed item, queued tasks, whether a column grew. */
  datatype Run = Run(columns: seq<int>, placed: map<ItemId, Meta>, tasks: seq<Task>, grew: bool)

  /** Place `ids` one after the other, in order (the `forEach` over items). */
  function LayoutSeq(cols: seq<int>, widths: seq<int>, gap: int, rowGap: int, ids: seq<ItemId>, measure: ItemId -> Measure): (r: Run)
    requires 1 <= |cols| <= |widths|
    ensures |r.columns| == |cols|
    ensures forall id :: id in r.placed <==> id in ids
    ensures forall id :: id in r.placed ==> r.placed[id].column < |cols|
    ensures forall t :: t in r.tasks ==> t.item in ids && t.column < |cols|
    ensures rowGap >= 0 ==> forall j :: 0 <= j < |cols| ==> cols[j] <= r.columns[j]
    decreases |ids|
  {
    if |ids| == 0 then Run(cols, map[], [], false)
    else
      var prev := LayoutSeq(cols, widths, gap, rowGap, ids[..|ids| - 1], measure);
      var id := ids[|ids| - 1];
      var p := LayoutItem(prev.columns, widths, gap, rowGap, id, measure(id));
      assert forall x :: x in ids <==> x in ids[..|ids| - 1] || x == id;
      Run(p.columns, prev.placed[id := p.meta],
          prev.tasks + (if p.task.Some? then [p.task.value] else []),
          prev.grew || p.grew)
  }

  /** With distinct ids, an item's position data is the one written when it was placed. */
  lemma {:induction false} PlacedWhenReached(cols: seq<int>, widths: seq<int>, gap: int, rowGap: int,
                                             ids: seq<ItemId>, measure: ItemId -> Measure, i: nat)
    requires 1 <= |cols| <= |widths|
    requires Distinct(ids) && i < |ids|
    ensures LayoutSeq(cols, widths, gap, rowGap, ids, measure).placed[ids[i]]
         == LayoutSeq(cols, widths, gap, rowGap, ids[..i + 1], measure).placed[ids[i]]
    decreases |ids|
  {
    if i < |ids| - 1 {
      var front := ids[..|ids| - 1];
      assert front[..i + 1] == ids[..i + 1];
      assert front[i] == ids[i];
      PlacedWhenReached(cols, widths, gap, rowGap, front, measure, i);
    } else {
      assert ids[..i + 1] == ids;
    }
  }

  /** Column heights after placing one item: the shortest column grows by `Growth`. */
  function Grow(cols: seq<int>, m: Measure, rowGap: int): (hs: seq<int>)
    requires |cols| > 0
    ensures |hs| == |cols|
  {
    var c := ShortestColumn(cols);
    cols[c := cols[c] + Growth(m, rowGap)]
  }

  /** Column heights after a run, ignoring positions and tasks. */
  function Heights(cols: seq<int>, rowGap: int, ids: seq<ItemId>, measure: ItemId -> Measure): (hs: seq<int>)
    requires |cols| > 0
    ensures |hs| == |cols|
  {
    if |ids| == 0 then cols
    else Grow(Heights(cols, rowGap, ids[..|ids| - 1], measure), measure(ids[|ids| - 1]), rowGap)
  }

  /** The last placement of a run, spelled out. */
  lemma LayoutSeqLast(cols: seq<int>, widths: seq<int>, gap: int, rowGap: int, ids: seq<ItemId>, measure: ItemId -> Measure)
    requires 1 <= |cols| <= |widths| && |ids| > 0
    ensures var prev := LayoutSeq(cols, widths, gap, rowGap, ids[..|ids| - 1], measure);
            var p := LayoutItem(prev.columns, widths, gap, rowGap, ids[|ids| - 1], measure(ids[|ids| - 1]));
            var run := LayoutSeq(cols, widths, gap, rowGap, ids, measure);
            run.columns == p.columns && run.placed[ids[|ids| - 1]] == p.meta
  {
  }

  /** Placing one item grows exactly its column, by `Growth`. */
  lemma LayoutItemGrows(cols: seq<int>, widths: seq<int>, gap: int, rowGap: int, id: ItemId, m: Measure)
    requires 1 <= |cols| <= |widths|
    ensures LayoutItem(cols, widths, gap, rowGap, id, m).columns == Grow(cols, m, rowGap)
  {
  }

  /** The column heights of a layout run are those of `Heights`, placement by placement. */
  lemma {:induction false} LayoutSeqHeights(cols: seq<int>, widths: seq<int>, gap: int, rowGap: int,
                                            ids: seq<ItemId>, measure: ItemId -> Measure)
    requires 1 <= |cols| <= |widths|
    ensures LayoutSeq(cols, widths, gap, rowGap, ids, measure).columns == Heights(cols, rowGap, ids, measure)
    decreases |ids|
  {
    if |ids| > 0 {
      var front := ids[..|ids| - 1];
      var last := ids[|ids| - 1];
      LayoutSeqHeights(cols, widths, gap, rowGap, front, measure);
      var prev := LayoutSeq(cols, widths, gap, rowGap, front, measure);
      LayoutSeqLast(cols, widths, gap, rowGap, ids, measure);
      LayoutItemGrows(prev.columns, widths, gap, rowGap, last, measure(last));
    }
  }

  /** The columns together grow by the sum of the items' `Growth`. */
  function TotalGrowth(rowGap: int, ids: seq<ItemId>, measure: ItemId -> Measure): int {
    if |ids| == 0 then 0
    else TotalGrowth(rowGap, ids[..|ids| - 1], measure) + Growth(measure(ids[|ids| - 1]), rowGap)
  }

  /** Column heights are conserved: the total after a run is the total before plus every item's growth. */
  lemma {:induction false} HeightsTotal(cols: seq<int>, rowGap: int, ids: seq<ItemId>, measure: ItemId -> Measure)
    requires |cols| > 0
    ensures Geometry.Sum(Heights(cols, rowGap, ids, measure)) == Geometry.Sum(cols) + TotalGrowth(rowGap, ids, measure)
    decreases |ids|
  {
    if |ids| > 0 {
      var prev := Heights(cols, rowGap, ids[..|ids| - 1], measure);
      HeightsTotal(cols, rowGap, ids[..|ids| - 1], measure);
      var c := ShortestColumn(prev);
      Geometry.SumUpdate(prev, c, prev[c] + Growth(measure(ids[|ids| - 1]), rowGap));
    }
  }

  /** Column heights after `q * n + r` equal items: `q` rounds done, the first `r` columns one ahead. */
  function RoundRobinHeights(n: nat, q: nat, r: nat, unit: int): (hs: seq<int>)
    ensures |hs| == n
  {
    seq(n, j => (q + (if j < r then 1 else 0)) * unit)
  }

  /** In the round-robin heights the next item goes to column `r`. */
  lemma ShortestOfRoundRobin(n: nat, q: nat, r: nat, unit: int)
    requires r < n && unit > 0
    ensures ShortestColumn(RoundRobinHeights(n, q, r, unit)) == r
  {
    var cols := RoundRobinHeights(n, q, r, unit);
    var c := ShortestColumn(cols);
    assert (q + 1) * unit == q * unit + unit;
    assert cols[r] == q * unit;
    assert forall j :: 0 <= j < r ==> cols[j] == q * unit + unit;
    assert forall j :: r <= j < n ==> cols[j] == q * unit;
  }

  /** One more item of growth `unit` after `q` rounds and `r` columns lands in column `r`. */
  lemma RoundRobinStep(n: nat, q: nat, r: nat, unit: int, m: Measure, rowGap: int)
    requires r < n && unit > 0 && Growth(m, rowGap) == unit
    ensures r + 1 < n ==> Grow(RoundRobinHeights(n, q, r, unit), m, rowGap) == RoundRobinHeights(n, q, r + 1, unit)
    ensures r + 1 == n ==> Grow(RoundRobinHeights(n, q, r, unit), m, rowGap) == RoundRobinHeights(n, q + 1, 0, unit)
  {
    ShortestOfRoundRobin(n, q, r, unit);
    assert (q + 1) * unit == q * unit + unit;
  }

  /** Same-height, image-free items: each grows its column by the height plus the row gap. */
  predicate UniformLoaded(ids: seq<ItemId>, measure: ItemId -> Measure, h: nat) {
    forall i :: 0 <= i < |ids| ==> measure(ids[i]).height == h && !HasUnloadedImages(measure(ids[i]))
  }

  /**
   * Items of equal positive height and no images are dealt round-robin: after
   * `k = q * n + r` of them the heights are `RoundRobinHeights`.
   */
  lemma {:induction false} RoundRobinState(n: nat, rowGap: int, ids: seq<ItemId>, measure: ItemId -> Measure,
                                           h: nat, k: nat, q: nat, r: nat)
    requires n >= 1 && h > 0 && h + rowGap > 0
    requires UniformLoaded(ids, measure, h)
    requires r < n && k == q * n + r && k <= |ids|
    ensures Heights(Zeros(n), rowGap, ids[..k], measure) == RoundRobinHeights(n, q, r, h + rowGap)
    decreases k
  {
    if k > 0 {
      var q', r' := if r > 0 then q else q - 1, if r > 0 then r - 1 else n - 1;
      assert k - 1 == q' * n + r' by {
        assert (q - 1) * n == q * n - n;
      }
      RoundRobinState(n, rowGap, ids, measure, h, k - 1, q', r');
      assert ids[..k][..k - 1] == ids[..k - 1];
      assert ids[..k][k - 1] == ids[k - 1];
      RoundRobinStep(n, q', r', h + rowGap, measure(ids[k - 1]), rowGap);
    } else {
      assert q == 0 && r == 0 by {
        assert q * n >= 0;
      }
      assert RoundRobinHeights(n, q, r, h + rowGap) == Zeros(n);
    }
  }

  /** Item number `i` of a run of equal, positive-height, image-free items lands in column `i % n`. */
  lemma RoundRobin(n: nat, widths: seq<int>, gap: int, rowGap: int,
                   ids: seq<ItemId>, measure: ItemId -> Measure, h: nat, i: nat)
    requires 1 <= n <= |widths|
    requires h > 0 && h + rowGap > 0
    requires UniformLoaded(ids, measure, h)
    requires Distinct(ids) && i < |ids|
    ensures LayoutSeq(Zeros(n), widths, gap, rowGap, ids, measure).placed[ids[i]].column == i % n
  {
    var q, r := i / n, i % n;
    assert q * n + r == i;
    RoundRobinState(n, rowGap, ids, measure, h, i, q, r);
    PlacedWhenReached(Zeros(n), widths, gap, rowGap, ids, measure, i);
    PositionOfPrefix(Zeros(n), widths, gap, rowGap, ids, measure, i);
    ShortestOfRoundRobin(n, q, r, h + rowGap);
  }

  /** Where the `i`-th of `ids` goes: `layoutItem` on the heights the items before it left. */
  function PositionAt(cols: seq<int>, widths: seq<int>, gap: int, rowGap: int,
                      ids: seq<ItemId>, measure: ItemId -> Measure, i: nat): Meta
    requires 1 <= |cols| <= |widths| && i < |ids|
  {
    LayoutItem(Heights(cols, rowGap, ids[..i], measure), widths, gap, rowGap, ids[i], measure(ids[i])).meta
  }

  /**
   * A run of distinct items places each one where `layoutItem` puts it on the
   * column heights that the items before it produced.
   */
  lemma LayoutSeqPositions(cols: seq<int>, widths: seq<int>, gap: int, rowGap: int,
                           ids: seq<ItemId>, measure: ItemId -> Measure)
    requires 1 <= |cols| <= |widths|
    requires Distinct(ids)
    ensures forall i :: 0 <= i < |ids| ==>
              LayoutSeq(cols, widths, gap, rowGap, ids, measure).placed[ids[i]]
                == PositionAt(cols, widths, gap, rowGap, ids, measure, i)
  {
    forall i | 0 <= i < |ids|
      ensures LayoutSeq(cols, widths, gap, rowGap, ids, measure).placed[ids[i]]
                == PositionAt(cols, widths, gap, rowGap, ids, measure, i)
    {
      PlacedWhenReached(cols, widths, gap, rowGap, ids, measure, i);
      PositionOfPrefix(cols, widths, gap, rowGap, ids, measure, i);
    }
  }

  lemma PositionOfPrefix(cols: seq<int>, widths: seq<int>, gap: int, rowGap: int,
                         ids: seq<ItemId>, measure: ItemId -> Measure, i: nat)
    requires 1 <= |cols| <= |widths| && i < |ids|
    ensures LayoutSeq(cols, widths, gap, rowGap, ids[..i + 1], measure).placed[ids[i]]
              == PositionAt(cols, widths, gap, rowGap, ids, measure, i)
  {
    var prefix := ids[..i + 1];
    assert prefix[..i] == ids[..i] && prefix[i] == ids[i];
    LayoutSeqLast(cols, widths, gap, rowGap, prefix, measure);
    LayoutSeqHeights(cols, widths, gap, rowGap, ids[..i], measure);
  }
}
