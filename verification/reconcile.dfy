/**
 * Height reconciliation: once an item's images have settled, the difference
 * between its real height and the estimate it was placed with is added to its
 * column, and every later item of that column is moved down by it. Pending
 * corrections are drained in one frame, column by column in ascending order,
 * each column's corrections in ascending order of the recorded top.
 */
module Reconcile {
  import opened Common
  import opened Placement

  /**
   * The board as the engine keeps it: its items are distinct elements, each
   * carries position data, and each sits in an existing column.
   */
  predicate WellFormed(b: Board) {
    && Distinct(b.items)
    && forall i :: 0 <= i < |b.items| ==> b.items[i] in b.meta && b.meta[b.items[i]].column < |b.columns|
  }

  /** Every task names an existing column. */
  predicate TasksFit(q: seq<Task>, columnCount: nat) {
    forall i :: 0 <= i < |q| ==> q[i].column < columnCount
  }

  /**
   * `adjustItemsAfter`'s test for one item: it is not the changed item, it is in
   * the same column, and its recorded top is strictly below the changed item's.
   */
  predicate Below(meta: map<ItemId, Meta>, id: ItemId, changed: ItemId, changedTop: int, column: nat)
    requires id in meta
  {
    id != changed && meta[id].column == column && meta[id].top > changedTop
  }

  /** One item moved down (or up) by `diff`: position and recorded top together. */
  function Moved(m: Meta, diff: int): Meta {
    m.(top := m.top + diff)
  }

  /** The `forEach` over the engine's items that moves the items below the changed one. */
  function ShiftAfter(meta: map<ItemId, Meta>, items: seq<ItemId>, changed: ItemId, changedTop: int,
                      diff: int, column: nat): (m: map<ItemId, Meta>)
    requires Distinct(items)
    requires forall i :: 0 <= i < |items| ==> items[i] in meta
    ensures m.Keys == meta.Keys
    ensures forall id :: id in meta ==>
              m[id] == if id in items && Below(meta, id, changed, changedTop, column) then Moved(meta[id], diff) else meta[id]
    decreases |items|
  {
    if |items| == 0 then meta
    else
      var front := items[..|items| - 1];
      var id := items[|items| - 1];
      assert Distinct(front);
      assert id !in front;
      assert forall x :: x in items <==> x in front || x == id;
      var m := ShiftAfter(meta, front, changed, changedTop, diff, column);
      if Below(m, id, changed, changedTop, column) then m[id := Moved(m[id], diff)] else m
  }

  /** Recorded top of the changed item (`dataset.itemTop || '0'`). */
  function RecordedTop(meta: map<ItemId, Meta>, id: ItemId): int {
    if id in meta then meta[id].top else 0
  }

  /**
   * `adjustItemsAfter`: move by `diff` exactly the engine's items in the
   * correction's column whose recorded top is strictly greater than the
   * changed item's current recorded top. Column heights are not touched here.
   */
  function AdjustItemsAfter(b: Board, changed: ItemId, diff: int, column: nat): (r: Board)
    requires WellFormed(b)
    ensures r.columns == b.columns && r.items == b.items && r.meta.Keys == b.meta.Keys
    ensures WellFormed(r)
    ensures forall id :: id in b.meta && id in b.items && Below(b.meta, id, changed, RecordedTop(b.meta, changed), column) ==>
              r.meta[id] == Moved(b.meta[id], diff)
    ensures forall id :: id in b.meta && !(id in b.items && Below(b.meta, id, changed, RecordedTop(b.meta, changed), column)) ==>
              r.meta[id] == b.meta[id]
  {
    var m := ShiftAfter(b.meta, b.items, changed, RecordedTop(b.meta, changed), diff, column);
    Board(b.columns, b.items, m)
  }

  /** What `adjustItemsAfter` never touches: the changed item, other columns, items at or above it, detached elements. */
  lemma AdjustLeavesOthers(b: Board, changed: ItemId, diff: int, column: nat, id: ItemId)
    requires WellFormed(b) && id in b.meta
    requires || id == changed
             || b.meta[id].column != column
             || b.meta[id].top <= RecordedTop(b.meta, changed)
             || id !in b.items
    ensures AdjustItemsAfter(b, changed, diff, column).meta[id] == b.meta[id]
  {
  }

  /** A shifted item keeps its column, `left` and width. */
  lemma AdjustKeepsColumns(b: Board, changed: ItemId, diff: int, column: nat, id: ItemId)
    requires WellFormed(b) && id in b.meta
    ensures var m := AdjustItemsAfter(b, changed, diff, column).meta[id];
            m.column == b.meta[id].column && m.left == b.meta[id].left && m.width == b.meta[id].width
  {
  }

  /** `actualHeight - estimatedHeight` when it exceeds 1 in magnitude, otherwise nothing. */
  function AppliedDiff(t: Task, heights: ItemId -> nat): int {
    var diff := heights(t.item) - t.estimate;
    if Abs(diff) > 1 then diff else 0
  }

  /**
   * One correction of the flush: the item's real height is `heights(t.item)`;
   * a difference above 1 in magnitude grows the task's column and moves the
   * items below, a smaller one changes nothing.
   */
  function ApplyTask(b: Board, t: Task, heights: ItemId -> nat): (r: Board)
    requires WellFormed(b) && t.column < |b.columns|
    ensures WellFormed(r)
    ensures r.columns == b.columns[t.column := b.columns[t.column] + AppliedDiff(t, heights)]
    ensures r.items == b.items && r.meta.Keys == b.meta.Keys
    ensures Abs(heights(t.item) - t.estimate) <= 1 ==> r == b
    ensures Abs(heights(t.item) - t.estimate) > 1 ==> r.meta == AdjustItemsAfter(b, t.item, heights(t.item) - t.estimate, t.column).meta
  {
    var diff := heights(t.item) - t.estimate;
    if Abs(diff) > 1 then
      AdjustItemsAfter(b.(columns := b.columns[t.column := b.columns[t.column] + diff]), t.item, diff, t.column)
    else b
  }

  /** The net change tasks make to column `j`, whatever their order: the sum of their applied differences. */
  function ColumnDelta(ts: seq<Task>, j: nat, heights: ItemId -> nat): int {
    if |ts| == 0 then 0
    else (if ts[0].column == j then AppliedDiff(ts[0], heights) else 0) + ColumnDelta(ts[1..], j, heights)
  }

  /** Elements that are not among the board's items keep their position data. */
  predicate KeepsDetached(b: Board, r: Board) {
    forall id :: id in b.meta && id !in b.items ==> id in r.meta && r.meta[id] == b.meta[id]
  }

  /** `colAdjustments.forEach`: the tasks applied one after the other. */
  function ApplyAll(b: Board, ts: seq<Task>, heights: ItemId -> nat): (r: Board)
    requires WellFormed(b) && TasksFit(ts, |b.columns|)
    ensures WellFormed(r)
    ensures r.items == b.items && r.meta.Keys == b.meta.Keys && |r.columns| == |b.columns|
    ensures KeepsDetached(b, r)
    decreases |ts|
  {
    if |ts| == 0 then b
    else ApplyAll(ApplyTask(b, ts[0], heights), ts[1..], heights)
  }

  /** Applying tasks one after the other adds to each column the sum of its tasks' applied differences. */
  lemma {:induction false} ApplyAllColumns(b: Board, ts: seq<Task>, heights: ItemId -> nat)
    requires WellFormed(b) && TasksFit(ts, |b.columns|)
    ensures var r := ApplyAll(b, ts, heights);
            forall j :: 0 <= j < |b.columns| ==> r.columns[j] == b.columns[j] + ColumnDelta(ts, j, heights)
    decreases |ts|
  {
    if |ts| > 0 {
      var next := ApplyTask(b, ts[0], heights);
      ApplyAllColumns(next, ts[1..], heights);
    }
  }

  /** Applying tasks moves items only vertically and leaves detached elements alone. */
  lemma {:induction false} ApplyAllKeepsPlacement(b: Board, ts: seq<Task>, heights: ItemId -> nat)
    requires WellFormed(b) && TasksFit(ts, |b.columns|)
    ensures var r := ApplyAll(b, ts, heights);
            forall id :: id in b.meta ==>
              && r.meta[id].column == b.meta[id].column
              && r.meta[id].left == b.meta[id].left
              && r.meta[id].width == b.meta[id].width
    decreases |ts|
  {
    if |ts| > 0 {
      var next := ApplyTask(b, ts[0], heights);
      ApplyAllKeepsPlacement(next, ts[1..], heights);
    }
  }

  predicate SortedByTop(s: seq<Task>) {
    forall i, j :: 0 <= i < j < |s| ==> s[i].itemTop <= s[j].itemTop
  }

  /** Insert `t` before the first task that is not recorded higher; ties keep `t` first. */
  function Insert(t: Task, s: seq<Task>): (r: seq<Task>)
    ensures |r| == |s| + 1
  {
    if |s| == 0 || t.itemTop <= s[0].itemTop then [t] + s
    else [s[0]] + Insert(t, s[1..])
  }

  lemma {:induction false} InsertSorted(t: Task, s: seq<Task>)
    requires SortedByTop(s)
    ensures SortedByTop(Insert(t, s))
    ensures Insert(t, s)[0] == t || (|s| > 0 && Insert(t, s)[0] == s[0])
  {
    if |s| > 0 && t.itemTop > s[0].itemTop {
      var rest := Insert(t, s[1..]);
      InsertSorted(t, s[1..]);
      assert s[0].itemTop <= rest[0].itemTop;
    }
  }

  lemma {:induction false} InsertPerm(t: Task, s: seq<Task>)
    ensures multiset(Insert(t, s)) == multiset(s) + multiset{t}
  {
    if |s| > 0 && t.itemTop > s[0].itemTop {
      InsertPerm(t, s[1..]);
      assert s == [s[0]] + s[1..];
    }
  }

  /** `sort((a, b) => a.itemTop - b.itemTop)`: a stable sort by recorded top. */
  function SortByTop(s: seq<Task>): (r: seq<Task>)
    ensures |r| == |s|
  {
    if |s| == 0 then []
    else Insert(s[0], SortByTop(s[1..]))
  }

  /** The sort orders by recorded top and keeps exactly the tasks it was given. */
  lemma {:induction false} SortByTopSpec(s: seq<Task>)
    ensures SortedByTop(SortByTop(s))
    ensures multiset(SortByTop(s)) == multiset(s)
  {
    if |s| > 0 {
      SortByTopSpec(s[1..]);
      InsertSorted(s[0], SortByTop(s[1..]));
      InsertPerm(s[0], SortByTop(s[1..]));
      assert s == [s[0]] + s[1..];
    }
  }

  /** The tasks of column `c`, in queue order (`columnGroups[c]`). */
  function Filter(q: seq<Task>, c: nat): (g: seq<Task>)
    ensures |g| <= |q|
  {
    if |q| == 0 then []
    else (if q[0].column == c then [q[0]] else []) + Filter(q[1..], c)
  }

  /** A task of column `c`'s group, sorted or not, is a queued task of column `c`. */
  lemma GroupMember(q: seq<Task>, c: nat, t: Task)
    requires t in SortByTop(Filter(q, c))
    ensures t.column == c && t in q
  {
    SortByTopSpec(Filter(q, c));
    assert t in multiset(Filter(q, c));
    FilterCount(q, c, t);
  }

  /** Every task of group `k` belongs to column `k`. */
  predicate Grouped(gs: seq<seq<Task>>) {
    forall k, i :: 0 <= k < |gs| && 0 <= i < |gs[k]| ==> gs[k][i].column == k
  }

  lemma GroupsOwnColumn(q: seq<Task>, n: nat)
    ensures forall c, i :: 0 <= c < n && 0 <= i < |SortByTop(Filter(q, c))| ==> SortByTop(Filter(q, c))[i].column == c
  {
    forall c, i | 0 <= c < n && 0 <= i < |SortByTop(Filter(q, c))|
      ensures SortByTop(Filter(q, c))[i].column == c
    {
      GroupMember(q, c, SortByTop(Filter(q, c))[i]);
    }
  }

  /**
   * `columnGroups` with every group sorted, in the order the drain visits
   * them (`Object.keys` of integer keys is ascending): group `c` holds the
   * tasks of column `c`; a column without tasks gets an empty group.
   */
  function Groups(q: seq<Task>, n: nat): (gs: seq<seq<Task>>)
    ensures |gs| == n
    ensures Grouped(gs)
  {
    GroupsOwnColumn(q, n);
    seq(n, c requires 0 <= c < n => SortByTop(Filter(q, c)))
  }

  /** Apply the groups `c`, `c + 1`, ... one after the other. */
  function FlushFrom(b: Board, gs: seq<seq<Task>>, c: nat, heights: ItemId -> nat): (r: Board)
    requires WellFormed(b) && Grouped(gs) && |gs| == |b.columns| && c <= |gs|
    ensures WellFormed(r)
    ensures r.items == b.items && r.meta.Keys == b.meta.Keys && |r.columns| == |b.columns|
    ensures KeepsDetached(b, r)
    decreases |gs| - c
  {
    if c == |gs| then b
    else FlushFrom(ApplyAll(b, gs[c], heights), gs, c + 1, heights)
  }

  /** The drain of `processBatchAdjustments`: all queued corrections, column by column. */
  function Flush(b: Board, q: seq<Task>, heights: ItemId -> nat): (r: Board)
    requires WellFormed(b) && TasksFit(q, |b.columns|)
    ensures WellFormed(r)
    ensures r.items == b.items && r.meta.Keys == b.meta.Keys && |r.columns| == |b.columns|
    ensures KeepsDetached(b, r)
  {
    FlushFrom(b, Groups(q, |b.columns|), 0, heights)
  }

  /** Tasks that all belong to column `c` do not touch any other column. */
  lemma {:induction false} DeltaElsewhere(ts: seq<Task>, c: nat, j: nat, heights: ItemId -> nat)
    requires forall i :: 0 <= i < |ts| ==> ts[i].column == c
    requires j != c
    ensures ColumnDelta(ts, j, heights) == 0
  {
    if |ts| > 0 {
      DeltaElsewhere(ts[1..], c, j, heights);
    }
  }

  lemma {:induction false} FlushFromColumns(b: Board, gs: seq<seq<Task>>, c: nat, heights: ItemId -> nat)
    requires WellFormed(b) && Grouped(gs) && |gs| == |b.columns| && c <= |gs|
    ensures var r := FlushFrom(b, gs, c, heights);
            forall j :: 0 <= j < |b.columns| ==> r.columns[j] == b.columns[j] + (if j >= c then ColumnDelta(gs[j], j, heights) else 0)
    decreases |gs| - c
  {
    if c < |gs| {
      var next := ApplyAll(b, gs[c], heights);
      assert forall j :: 0 <= j < |b.columns| ==> next.columns[j] == b.columns[j] + (if j == c then ColumnDelta(gs[c], j, heights) else 0) by {
        ApplyAllColumns(b, gs[c], heights);
        forall j | 0 <= j < |b.columns| && j != c
          ensures ColumnDelta(gs[c], j, heights) == 0
        {
          DeltaElsewhere(gs[c], c, j, heights);
        }
      }
      FlushFromColumns(next, gs, c + 1, heights);
    }
  }

  /**
   * A flush changes every column's height by exactly the sum of the applied
   * differences of its queued tasks: the net change is order-free.
   */
  lemma FlushEffect(b: Board, q: seq<Task>, heights: ItemId -> nat)
    requires WellFormed(b) && TasksFit(q, |b.columns|)
    ensures var r := Flush(b, q, heights);
            forall j :: 0 <= j < |b.columns| ==> r.columns[j] == b.columns[j] + ColumnDelta(q, j, heights)
  {
    var gs := Groups(q, |b.columns|);
    FlushFromColumns(b, gs, 0, heights);
    forall j | 0 <= j < |b.columns|
      ensures ColumnDelta(gs[j], j, heights) == ColumnDelta(q, j, heights)
    {
      GroupDelta(q, j, heights);
    }
  }

  lemma {:induction false} DeltaOfFilter(q: seq<Task>, c: nat, j: nat, heights: ItemId -> nat)
    ensures ColumnDelta(Filter(q, c), j, heights) == if j == c then ColumnDelta(q, j, heights) else 0
  {
    if |q| > 0 {
      DeltaOfFilter(q[1..], c, j, heights);
      var head := if q[0].column == c then [q[0]] else [];
      DeltaOfConcat(head, Filter(q[1..], c), j, heights);
    }
  }

  lemma {:induction false} DeltaOfConcat(a: seq<Task>, b: seq<Task>, j: nat, heights: ItemId -> nat)
    ensures ColumnDelta(a + b, j, heights) == ColumnDelta(a, j, heights) + ColumnDelta(b, j, heights)
  {
    if |a| > 0 {
      assert (a + b)[1..] == a[1..] + b;
      DeltaOfConcat(a[1..], b, j, heights);
    } else {
      assert a + b == b;
    }
  }

  lemma {:induction false} DeltaOfInsert(t: Task, s: seq<Task>, j: nat, heights: ItemId -> nat)
    ensures ColumnDelta(Insert(t, s), j, heights) == ColumnDelta([t], j, heights) + ColumnDelta(s, j, heights)
  {
    if |s| > 0 && t.itemTop > s[0].itemTop {
      DeltaOfInsert(t, s[1..], j, heights);
      assert ([s[0]] + Insert(t, s[1..]))[1..] == Insert(t, s[1..]);
    } else {
      assert ([t] + s)[1..] == s;
    }
  }

  /** Sorting a group does not change its net effect on any column. */
  lemma {:induction false} DeltaOfSort(s: seq<Task>, j: nat, heights: ItemId -> nat)
    ensures ColumnDelta(SortByTop(s), j, heights) == ColumnDelta(s, j, heights)
  {
    if |s| > 0 {
      DeltaOfSort(s[1..], j, heights);
      DeltaOfInsert(s[0], SortByTop(s[1..]), j, heights);
    }
  }

  lemma GroupDelta(q: seq<Task>, c: nat, heights: ItemId -> nat)
    ensures forall j: nat :: ColumnDelta(SortByTop(Filter(q, c)), j, heights) == if j == c then ColumnDelta(q, j, heights) else 0
  {
    forall j: nat
      ensures ColumnDelta(SortByTop(Filter(q, c)), j, heights) == if j == c then ColumnDelta(q, j, heights) else 0
    {
      DeltaOfSort(Filter(q, c), j, heights);
      DeltaOfFilter(q, c, j, heights);
    }
  }

  /** Within one column no two tasks share a recorded top unless they are the same task. */
  predicate UniqueKeys(q: seq<Task>) {
    forall x, y :: x in q && y in q && x.column == y.column && x.itemTop == y.itemTop ==> x == y
  }

  predicate TopsUnique(s: seq<Task>) {
    forall x, y :: x in s && y in s && x.itemTop == y.itemTop ==> x == y
  }

  lemma HeadIsLowest(s: seq<Task>, x: Task)
    requires SortedByTop(s) && x in s
    ensures s[0].itemTop <= x.itemTop
  {
    var k :| 0 <= k < |s| && s[k] == x;
    if k > 0 {
      assert s[0].itemTop <= s[k].itemTop;
    }
  }

  lemma TailMultiset(s: seq<Task>)
    requires |s| > 0
    ensures multiset(s[1..]) == multiset(s) - multiset{s[0]}
  {
    assert s == [s[0]] + s[1..];
  }

  /** Two sorted sequences with the same tasks and no tied tops are the same sequence. */
  lemma {:induction false} SortedUnique(s1: seq<Task>, s2: seq<Task>)
    requires SortedByTop(s1) && SortedByTop(s2) && TopsUnique(s1)
    requires multiset(s1) == multiset(s2)
    ensures s1 == s2
    decreases |s1|
  {
    assert |s1| == |multiset(s1)| == |s2|;
    if |s1| > 0 {
      var a, b := s1[0], s2[0];
      assert a == b by {
        assert a in multiset(s2) && b in multiset(s1);
        HeadIsLowest(s2, a);
        HeadIsLowest(s1, b);
      }
      assert multiset(s1[1..]) == multiset(s2[1..]) by {
        TailMultiset(s1);
        TailMultiset(s2);
      }
      SortedUnique(s1[1..], s2[1..]);
      assert s1 == [a] + s1[1..] && s2 == [b] + s2[1..];
    }
  }

  lemma {:induction false} FilterCount(q: seq<Task>, c: nat, t: Task)
    ensures multiset(Filter(q, c))[t] == if t.column == c then multiset(q)[t] else 0
  {
    if |q| > 0 {
      FilterCount(q[1..], c, t);
      assert q == [q[0]] + q[1..];
    }
  }

  /** Column `c`'s sorted group depends only on which tasks are queued, not on their order. */
  lemma GroupsAgree(q1: seq<Task>, q2: seq<Task>, c: nat)
    requires multiset(q1) == multiset(q2) && UniqueKeys(q1)
    ensures SortByTop(Filter(q1, c)) == SortByTop(Filter(q2, c))
  {
    var f1, f2 := Filter(q1, c), Filter(q2, c);
    forall t
      ensures multiset(f1)[t] == multiset(f2)[t]
    {
      FilterCount(q1, c, t);
      FilterCount(q2, c, t);
    }
    assert multiset(f1) == multiset(f2);
    var g1, g2 := SortByTop(f1), SortByTop(f2);
    SortByTopSpec(f1);
    SortByTopSpec(f2);
    assert TopsUnique(g1) by {
      forall x, y | x in g1 && y in g1 && x.itemTop == y.itemTop
        ensures x == y
      {
        GroupMember(q1, c, x);
        GroupMember(q1, c, y);
      }
    }
    SortedUnique(g1, g2);
  }

  /**
   * The flush does not depend on the order in which corrections were queued,
   * as long as no two of them share a column and a recorded top.
   */
  lemma FlushOrderIndependent(b: Board, q1: seq<Task>, q2: seq<Task>, heights: ItemId -> nat)
    requires WellFormed(b) && TasksFit(q1, |b.columns|)
    requires multiset(q1) == multiset(q2) && UniqueKeys(q1)
    ensures TasksFit(q2, |b.columns|)
    ensures Flush(b, q1, heights) == Flush(b, q2, heights)
  {
    forall i | 0 <= i < |q2|
      ensures q2[i].column < |b.columns|
    {
      assert q2[i] in multiset(q1);
    }
    var n := |b.columns|;
    forall c | 0 <= c < n
      ensures Groups(q1, n)[c] == Groups(q2, n)[c]
    {
      GroupsAgree(q1, q2, c);
    }
    assert Groups(q1, n) == Groups(q2, n);
  }

  /** Every queued item measures within 1 of its estimate. */
  predicate AllSmall(ts: seq<Task>, heights: ItemId -> nat) {
    forall i :: 0 <= i < |ts| ==> Abs(heights(ts[i].item) - ts[i].estimate) <= 1
  }

  lemma {:induction false} ApplyAllSmall(b: Board, ts: seq<Task>, heights: ItemId -> nat)
    requires WellFormed(b) && TasksFit(ts, |b.columns|) && AllSmall(ts, heights)
    ensures ApplyAll(b, ts, heights) == b
    decreases |ts|
  {
    if |ts| > 0 {
      ApplyAllSmall(b, ts[1..], heights);
    }
  }

  lemma {:induction false} FlushFromSmall(b: Board, gs: seq<seq<Task>>, c: nat, heights: ItemId -> nat)
    requires WellFormed(b) && Grouped(gs) && |gs| == |b.columns| && c <= |gs|
    requires forall k :: 0 <= k < |gs| ==> AllSmall(gs[k], heights)
    ensures FlushFrom(b, gs, c, heights) == b
    decreases |gs| - c
  {
    if c < |gs| {
      ApplyAllSmall(b, gs[c], heights);
      FlushFromSmall(b, gs, c + 1, heights);
    }
  }

  /** Corrections of at most one pixel change nothing at all. */
  lemma FlushSmall(b: Board, q: seq<Task>, heights: ItemId -> nat)
    requires WellFormed(b) && TasksFit(q, |b.columns|) && AllSmall(q, heights)
    ensures Flush(b, q, heights) == b
  {
    var gs: seq<seq<Task>> := Groups(q, |b.columns|);
    forall k, i | 0 <= k < |gs| && 0 <= i < |gs[k]|
      ensures Abs(heights(gs[k][i].item) - gs[k][i].estimate) <= 1
    {
      GroupMember(q, k, gs[k][i]);
    }
    FlushFromSmall(b, gs, 0, heights);
  }

  /**
   * One column, two items with pending corrections. Item 1 (estimated 200,
   * really 300) sits above item 2 (estimated 150, really 100). Whatever the
   * queue order, item 1's correction comes first: it moves item 2 down by 100,
   * then item 2's own correction shrinks the column by 50.
   */
  function ExampleBoard(): Board {
    Board([450], [1, 2], map[1 := Meta(0, 0, 0, 100), 2 := Meta(0, 250, 0, 100)])
  }

  function ExampleHeights(id: ItemId): nat {
    if id == 1 then 300 else 100
  }

  lemma ExampleGroups()
    ensures Groups([Task(2, 0, 250, 150), Task(1, 0, 0, 200)], 1) == [[Task(1, 0, 0, 200), Task(2, 0, 250, 150)]]
    ensures Groups([Task(1, 0, 0, 200), Task(2, 0, 250, 150)], 1) == [[Task(1, 0, 0, 200), Task(2, 0, 250, 150)]]
  {
    var a, c := Task(1, 0, 0, 200), Task(2, 0, 250, 150);
    assert Filter([c, a], 0) == [c, a];
    assert Filter([a, c], 0) == [a, c];
    assert SortByTop([c, a]) == Insert(c, [a]) == [a, c];
    assert SortByTop([a, c]) == Insert(a, [c]) == [a, c];
  }

  lemma ExampleWellFormed()
    ensures WellFormed(ExampleBoard())
    ensures WellFormed(Board([550], [1, 2], map[1 := Meta(0, 0, 0, 100), 2 := Meta(0, 350, 0, 100)]))
  {
  }

  lemma ExampleFirst()
    ensures WellFormed(ExampleBoard())
    ensures ApplyTask(ExampleBoard(), Task(1, 0, 0, 200), ExampleHeights)
         == Board([550], [1, 2], map[1 := Meta(0, 0, 0, 100), 2 := Meta(0, 350, 0, 100)])
  {
    ExampleWellFormed();
  }

  lemma ExampleSecond()
    ensures WellFormed(Board([550], [1, 2], map[1 := Meta(0, 0, 0, 100), 2 := Meta(0, 350, 0, 100)]))
    ensures ApplyTask(Board([550], [1, 2], map[1 := Meta(0, 0, 0, 100), 2 := Meta(0, 350, 0, 100)]), Task(2, 0, 250, 150), ExampleHeights)
         == Board([500], [1, 2], map[1 := Meta(0, 0, 0, 100), 2 := Meta(0, 350, 0, 100)])
  {
    ExampleWellFormed();
  }

  lemma ExampleSteps()
    ensures WellFormed(ExampleBoard())
    ensures ApplyAll(ExampleBoard(), [Task(1, 0, 0, 200), Task(2, 0, 250, 150)], ExampleHeights)
         == Board([500], [1, 2], map[1 := Meta(0, 0, 0, 100), 2 := Meta(0, 350, 0, 100)])
  {
    var a, c := Task(1, 0, 0, 200), Task(2, 0, 250, 150);
    ExampleFirst();
    ExampleSecond();
    var mid := Board([550], [1, 2], map[1 := Meta(0, 0, 0, 100), 2 := Meta(0, 350, 0, 100)]);
    assert [a, c][1..] == [c];
    assert ApplyAll(ExampleBoard(), [a, c], ExampleHeights) == ApplyAll(mid, [c], ExampleHeights);
  }

  lemma ExampleDrain()
    ensures FlushFrom(ExampleBoard(), [[Task(1, 0, 0, 200), Task(2, 0, 250, 150)]], 0, ExampleHeights)
         == Board([500], [1, 2], map[1 := Meta(0, 0, 0, 100), 2 := Meta(0, 350, 0, 100)])
  {
    var gs := [[Task(1, 0, 0, 200), Task(2, 0, 250, 150)]];
    ExampleSteps();
    assert Grouped(gs);
    var last := ApplyAll(ExampleBoard(), gs[0], ExampleHeights);
    assert FlushFrom(ExampleBoard(), gs, 0, ExampleHeights) == FlushFrom(last, gs, 1, ExampleHeights);
  }

  lemma FlushExample()
    ensures var a, c := Task(1, 0, 0, 200), Task(2, 0, 250, 150);
            && Flush(ExampleBoard(), [c, a], ExampleHeights)
               == Board([500], [1, 2], map[1 := Meta(0, 0, 0, 100), 2 := Meta(0, 350, 0, 100)])
            && Flush(ExampleBoard(), [a, c], ExampleHeights) == Flush(ExampleBoard(), [c, a], ExampleHeights)
  {
    ExampleGroups();
    ExampleDrain();
  }

  /** `Math.max(...columns, 0)`: the container height published after a change. */
  function MaxOr0(cols: seq<int>): (h: int)
    ensures h >= 0
    ensures forall i :: 0 <= i < |cols| ==> cols[i] <= h
    ensures h == 0 || h in cols
  {
    if |cols| == 0 then 0
    else
      var m := MaxOr0(cols[..|cols| - 1]);
      assert m != 0 ==> m in cols[..|cols| - 1];
      if cols[|cols| - 1] > m then cols[|cols| - 1] else m
  }
}
