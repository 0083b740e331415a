/**
 * The whole component as one immutable state and one transition function per
 * event. Each DOM callback, timer and animation frame of the component becomes
 * an event whose browser measurements are parameters: the content width `w`,
 * `measure` (an item's `offsetHeight` and the completion of its images at
 * placement), `heights` (`offsetHeight` once images have settled), `visible`
 * (the loading trigger is near the viewport) and `callbackFound`.
 */
module Engine {
  import opened Common
  import Parsing
  import Geometry
  import opened Placement
  import opened Reconcile
  import Loading

  /** The four observed attributes. */
  datatype Attr = RowGap | ColumnGap | MinColumnWidth | Columns

  /** Gaps, minimum column width and the raw `columns` attribute (absent is `None`). */
  datatype Config = Config(rowGap: int, columnGap: int, minColumnWidth: int, columnsAttr: Option<string>)

  datatype State = State(
    cfg: Config,
    columnCount: int,
    board: Board,                // column heights, `this.items`, every element's position data
    lastContentWidth: int,
    awaiting: seq<Task>,         // corrections whose images have not settled yet
    queue: seq<Task>,            // `adjustQueue`
    flushScheduled: bool,        // `isProcessingAdjustments`
    heightPending: bool,         // the 16 ms container-height update is armed
    containerHeight: int,        // the published `style.height`
    load: Loading.LoadState)

  /**
   * The configurations the arithmetic is defined for: the width-derived column
   * count divides by `minColumnWidth + columnGap`, and an explicit `columns`
   * value must give at least one column.
   */
  predicate SaneConfig(c: Config) {
    && c.minColumnWidth + c.columnGap > 0
    && (c.columnsAttr.Some? ==> Parsing.ParseColumns(c.columnsAttr) >= 1)
  }

  /** Every correction, waiting or queued, belongs to an element with position data. */
  predicate TasksKnown(ts: seq<Task>, meta: map<ItemId, Meta>) {
    forall i :: 0 <= i < |ts| ==> ts[i].item in meta
  }

  /** What holds in every reachable state. */
  predicate Inv(s: State) {
    && s.columnCount >= 1
    && SaneConfig(s.cfg)
    && WellFormed(s.board)
    && (|s.board.items| > 0 ==> |s.board.columns| >= 1)
    && TasksKnown(s.awaiting, s.board.meta)
    && TasksKnown(s.queue, s.board.meta)
    && (s.flushScheduled <==> |s.queue| > 0)
    && Loading.Valid(s.load)
  }

  /** The field initialisers: gaps 10, minimum width 200, three columns, nothing laid out. */
  function Initial(): (s: State)
    ensures Inv(s)
    ensures s.columnCount == Parsing.DefaultColumns && s.cfg.rowGap == Parsing.DefaultSize && s.cfg.columnGap == Parsing.DefaultSize
    ensures s.cfg.minColumnWidth == 200 && s.cfg.columnsAttr.None?
    ensures |s.board.items| == 0 && |s.board.columns| == 0 && s.containerHeight == 0
    ensures s.load == Loading.Initial() && |s.queue| == 0 && !s.flushScheduled
  {
    State(Config(10, 10, 200, None), 3, Board([], [], map[]), 0, [], [], false, false, 0, Loading.Initial())
  }

  /** The column count `calculateColumns` settles on for content width `w`. */
  function ColumnsFor(s: State, w: nat): (n: int)
    requires Inv(s)
    ensures n >= 1
    ensures w == 0 ==> n == s.columnCount
  {
    Geometry.CalculateColumns(s.columnCount, w, s.cfg.columnGap, s.cfg.minColumnWidth, s.cfg.columnsAttr)
  }

  /**
   * `b` shows `ids` laid out on `n` zeroed columns of content width `w`: the
   * heights are those of growing the shortest column item by item, and every
   * item sits where `layoutItem` puts it on the heights the earlier items left.
   */
  predicate FreshLayout(b: Board, cfg: Config, n: int, w: nat, ids: seq<ItemId>, measure: ItemId -> Measure)
    requires n >= 1
  {
    var widths := Geometry.ColumnWidths(w, n, cfg.columnGap);
    && b.columns == Heights(Zeros(n), cfg.rowGap, ids, measure)
    && forall i :: 0 <= i < |ids| ==>
         ids[i] in b.meta && b.meta[ids[i]] == PositionAt(Zeros(n), widths, cfg.columnGap, cfg.rowGap, ids, measure, i)
  }

  /**
   * Place `ids` in order on the current column heights with the given widths;
   * their position data is recorded, their corrections wait for their images
   * and any growth arms the container-height update.
   */
  function Place(s: State, ids: seq<ItemId>, widths: seq<int>, measure: ItemId -> Measure): (r: State)
    requires 1 <= |s.board.columns| <= |widths|
    ensures var run := LayoutSeq(s.board.columns, widths, s.cfg.columnGap, s.cfg.rowGap, ids, measure);
            && r.board == Board(run.columns, s.board.items, s.board.meta + run.placed)
            && r.awaiting == s.awaiting + run.tasks
            && r.heightPending == (s.heightPending || run.grew)
            && r == s.(board := r.board, awaiting := r.awaiting, heightPending := r.heightPending)
  {
    var run := LayoutSeq(s.board.columns, widths, s.cfg.columnGap, s.cfg.rowGap, ids, measure);
    s.(board := Board(run.columns, s.board.items, s.board.meta + run.placed),
       awaiting := s.awaiting + run.tasks,
       heightPending := s.heightPending || run.grew)
  }

  /** The attribute set as it would be after `name` changes to `v`. */
  function Configure(c: Config, name: Attr, v: Option<string>): Config {
    match name
    case RowGap => c.(rowGap := Parsing.ParseSizeValue(v))
    case ColumnGap => c.(columnGap := Parsing.ParseSizeValue(v))
    case MinColumnWidth => c.(minColumnWidth := Parsing.ParseSizeValue(v))
    case Columns => c.(columnsAttr := v)
  }

  datatype Changed = Changed(state: State, relayoutRequested: bool)

  /**
   * `attributeChangedCallback`: an unchanged value is ignored. Otherwise the
   * new value is parsed into the configuration, the column count is
   * recomputed for `min-column-width` (with content width `w`) and set from
   * `columns`, and a relayout is requested for the next frame when items
   * are shown.
   */
  function AttributeChanged(s: State, name: Attr, oldValue: Option<string>, newValue: Option<string>, w: nat): (r: Changed)
    requires Inv(s)
    requires oldValue != newValue ==> SaneConfig(Configure(s.cfg, name, newValue))
    ensures Inv(r.state)
    ensures oldValue == newValue ==> r == Changed(s, false)
    ensures r.relayoutRequested <==> oldValue != newValue && |s.board.items| > 0
    ensures oldValue != newValue ==> r.state.cfg == Configure(s.cfg, name, newValue)
    ensures oldValue != newValue && name == Columns ==> r.state.columnCount == Parsing.ParseColumns(newValue)
    ensures oldValue != newValue && name == MinColumnWidth ==>
              var c := r.state.cfg;
              r.state.columnCount == Geometry.CalculateColumns(s.columnCount, w, c.columnGap, c.minColumnWidth, c.columnsAttr)
    ensures name == RowGap || name == ColumnGap ==> r.state.columnCount == s.columnCount
    ensures r.state.board == s.board && r.state.queue == s.queue && r.state.load == s.load
  {
    if oldValue == newValue then Changed(s, false)
    else
      var cfg := Configure(s.cfg, name, newValue);
      var count := match name
        case MinColumnWidth => Geometry.CalculateColumns(s.columnCount, w, cfg.columnGap, cfg.minColumnWidth, cfg.columnsAttr)
        case Columns => Parsing.ParseColumns(newValue)
        case _ => s.columnCount;
      Changed(s.(cfg := cfg, columnCount := count), |s.board.items| > 0)
  }

  /**
   * `relayout`: nothing without content width or items; otherwise the column
   * count is recomputed, the columns restart from zero and every item is
   * placed again in its original order.
   */
  function Relayout(s: State, w: nat, measure: ItemId -> Measure): (r: State)
    requires Inv(s)
    ensures Inv(r)
    ensures w == 0 || |s.board.items| == 0 ==> r == s
    ensures w > 0 && |s.board.items| > 0 ==>
              && r.lastContentWidth == w
              && r.columnCount == ColumnsFor(s, w)
              && r.board.items == s.board.items
              && |r.board.columns| == r.columnCount
              && FreshLayout(r.board, s.cfg, r.columnCount, w, s.board.items, measure)
              && KeepsDetached(s.board, r.board)
              && r.queue == s.queue && r.load == s.load && r.cfg == s.cfg
  {
    if w == 0 || |s.board.items| == 0 then s
    else
      var n := ColumnsFor(s, w);
      var widths := Geometry.ColumnWidths(w, n, s.cfg.columnGap);
      var zeroed := s.(lastContentWidth := w, columnCount := n, board := s.board.(columns := Zeros(n)));
      PlaceKeepsInv(zeroed, s.board.items, widths, measure);
      PlacePositions(zeroed, s.board.items, widths, measure);
      Place(zeroed, s.board.items, widths, measure)
  }

  /**
   * Placing distinct items grows the columns as `Heights` does and records
   * each item where `layoutItem` puts it at its turn.
   */
  lemma PlacePositions(s: State, ids: seq<ItemId>, widths: seq<int>, measure: ItemId -> Measure)
    requires 1 <= |s.board.columns| <= |widths| && Distinct(ids)
    ensures var r := Place(s, ids, widths, measure);
            && r.board.columns == Heights(s.board.columns, s.cfg.rowGap, ids, measure)
            && forall i :: 0 <= i < |ids| ==>
                 ids[i] in r.board.meta
                 && r.board.meta[ids[i]] == PositionAt(s.board.columns, widths, s.cfg.columnGap, s.cfg.rowGap, ids, measure, i)
  {
    var run := LayoutSeq(s.board.columns, widths, s.cfg.columnGap, s.cfg.rowGap, ids, measure);
    var r := Place(s, ids, widths, measure);
    assert r.board.columns == run.columns && r.board.meta == s.board.meta + run.placed;
    LayoutSeqHeights(s.board.columns, widths, s.cfg.columnGap, s.cfg.rowGap, ids, measure);
    LayoutSeqPositions(s.board.columns, widths, s.cfg.columnGap, s.cfg.rowGap, ids, measure);
    forall i | 0 <= i < |ids|
      ensures ids[i] in r.board.meta
      ensures r.board.meta[ids[i]] == PositionAt(s.board.columns, widths, s.cfg.columnGap, s.cfg.rowGap, ids, measure, i)
    {
      assert ids[i] in run.placed;
    }
  }

  lemma DistinctSuffix(s: seq<ItemId>, k: nat)
    requires Distinct(s) && k <= |s|
    ensures Distinct(s[k..])
  {
    forall i, j | 0 <= i < j < |s| - k
      ensures s[k..][i] != s[k..][j]
    {
      assert s[k..][i] == s[k + i] && s[k..][j] == s[k + j];
    }
  }

  /** Placing items that are the board's items (or extend them) keeps the invariant. */
  lemma PlaceKeepsInv(s: State, ids: seq<ItemId>, widths: seq<int>, measure: ItemId -> Measure)
    requires s.columnCount >= 1 && SaneConfig(s.cfg) && Loading.Valid(s.load)
    requires 1 <= |s.board.columns| <= |widths|
    requires Distinct(s.board.items) && |s.board.items| > 0
    requires forall i :: 0 <= i < |s.board.items| ==>
               s.board.items[i] in ids || (s.board.items[i] in s.board.meta && s.board.meta[s.board.items[i]].column < |s.board.columns|)
    requires TasksKnown(s.awaiting, s.board.meta) && TasksKnown(s.queue, s.board.meta)
    requires s.flushScheduled <==> |s.queue| > 0
    ensures Inv(Place(s, ids, widths, measure))
  {
    var r := Place(s, ids, widths, measure);
    var run := LayoutSeq(s.board.columns, widths, s.cfg.columnGap, s.cfg.rowGap, ids, measure);
    forall i | 0 <= i < |r.awaiting|
      ensures r.awaiting[i].item in r.board.meta
    {
      if i >= |s.awaiting| {
        assert r.awaiting[i] in run.tasks;
      }
    }
  }

  /**
   * The first batch (`onItemsChange` with no items yet, after two frames):
   * with content width, the column count is recomputed and all new items are
   * placed on zeroed columns; without it nothing happens.
   */
  function FirstBatch(s: State, newItems: seq<ItemId>, w: nat, measure: ItemId -> Measure): (r: State)
    requires Inv(s) && |s.board.items| == 0 && |newItems| > 0 && Distinct(newItems)
    ensures Inv(r)
    ensures w == 0 ==> r == s
    ensures w > 0 ==>
              && r.columnCount == ColumnsFor(s, w)
              && r.board.items == newItems
              && FreshLayout(r.board, s.cfg, r.columnCount, w, newItems, measure)
              && r.cfg == s.cfg && r.queue == s.queue && r.load == s.load
  {
    if w == 0 then s
    else
      var n := ColumnsFor(s, w);
      var widths := Geometry.ColumnWidths(w, n, s.cfg.columnGap);
      var zeroed := s.(columnCount := n, board := Board(Zeros(n), newItems, s.board.meta));
      PlaceKeepsInv(zeroed, newItems, widths, measure);
      PlacePositions(zeroed, newItems, widths, measure);
      Place(zeroed, newItems, widths, measure)
  }

  /**
   * An incremental batch: the items past the old count are placed in order on
   * the current columns, with widths for the current count, and then recorded.
   */
  function AppendBatch(s: State, newItems: seq<ItemId>, w: nat, measure: ItemId -> Measure): (r: State)
    requires Inv(s) && 0 < |s.board.items| < |newItems| && Distinct(newItems)
    requires newItems[..|s.board.items|] == s.board.items
    requires |s.board.columns| <= s.columnCount
    requires w > 0
    ensures Inv(r)
    ensures r.board.items == newItems && r.columnCount == s.columnCount
    ensures |r.board.columns| == |s.board.columns|
    ensures r.queue == s.queue && r.load == s.load && r.cfg == s.cfg
  {
    var count := |s.board.items|;
    var widths := Geometry.ColumnWidths(w, s.columnCount, s.cfg.columnGap);
    var grown := s.(board := s.board.(items := newItems));
    assert forall i :: 0 <= i < count ==> newItems[i] == s.board.items[i];
    PlaceKeepsInv(grown, newItems[count..], widths, measure);
    Place(grown, newItems[count..], widths, measure)
  }

  /**
   * An incremental batch leaves the items already shown where they are and
   * grows the columns exactly as placing the new items one by one on the
   * current heights does; the heights together grow by the new items' growth.
   */
  lemma AppendBatchEffect(s: State, newItems: seq<ItemId>, w: nat, measure: ItemId -> Measure)
    requires Inv(s) && 0 < |s.board.items| < |newItems| && Distinct(newItems)
    requires newItems[..|s.board.items|] == s.board.items
    requires |s.board.columns| <= s.columnCount
    requires w > 0
    ensures var r := AppendBatch(s, newItems, w, measure);
            var added := newItems[|s.board.items|..];
            && r.board.items == newItems
            && (forall id :: id in s.board.items ==> r.board.meta[id] == s.board.meta[id])
            && r.board.columns == Heights(s.board.columns, s.cfg.rowGap, added, measure)
            && Geometry.Sum(r.board.columns) == Geometry.Sum(s.board.columns) + TotalGrowth(s.cfg.rowGap, added, measure)
            && forall i :: 0 <= i < |added| ==>
                 r.board.meta[added[i]] == PositionAt(s.board.columns, Geometry.ColumnWidths(w, s.columnCount, s.cfg.columnGap),
                                                      s.cfg.columnGap, s.cfg.rowGap, added, measure, i)
  {
    var count := |s.board.items|;
    var added := newItems[count..];
    var widths := Geometry.ColumnWidths(w, s.columnCount, s.cfg.columnGap);
    DistinctSuffix(newItems, count);
    var grown := s.(board := s.board.(items := newItems));
    PlacePositions(grown, added, widths, measure);
    HeightsTotal(s.board.columns, s.cfg.rowGap, added, measure);
    forall id | id in s.board.items
      ensures id !in added
    {
      var i :| 0 <= i < count && s.board.items[i] == id;
      assert newItems[i] == id;
    }
  }

  /**
   * `onItemsChange` with the slot's current `waterfall-item` children: the
   * first batch, an incremental batch (abandoned, items unrecorded, without
   * content width), or nothing for a list that did not grow.
   */
  function OnItemsChange(s: State, newItems: seq<ItemId>, w: nat, measure: ItemId -> Measure): (r: State)
    requires Inv(s) && Distinct(newItems)
    requires 0 < |s.board.items| < |newItems| ==> newItems[..|s.board.items|] == s.board.items
    requires 0 < |s.board.items| < |newItems| ==> |s.board.columns| <= s.columnCount
    ensures Inv(r)
    ensures |newItems| <= |s.board.items| ==> r == s
    ensures w == 0 ==> r == s
    ensures |s.board.items| < |newItems| && w > 0 ==> r.board.items == newItems
    ensures |s.board.items| == 0 && |newItems| > 0 && w > 0 ==>
              && r.columnCount == ColumnsFor(s, w)
              && FreshLayout(r.board, s.cfg, r.columnCount, w, newItems, measure)
    ensures 0 < |s.board.items| < |newItems| && w > 0 ==>
              && r.columnCount == s.columnCount
              && r.board.columns == Heights(s.board.columns, s.cfg.rowGap, newItems[|s.board.items|..], measure)
              && forall id :: id in s.board.items ==> r.board.meta[id] == s.board.meta[id]
  {
    if |s.board.items| == 0 && |newItems| > 0 then FirstBatch(s, newItems, w, measure)
    else if |newItems| > |s.board.items| then
      if w == 0 then s
      else
        AppendBatchEffect(s, newItems, w, measure);
        AppendBatch(s, newItems, w, measure)
    else s
  }

  /**
   * The debounced resize handler: the column count is recomputed; only a
   * changed count or a width change of more than one pixel records the new
   * width and lays everything out again.
   */
  function Resize(s: State, w: nat, measure: ItemId -> Measure): (r: State)
    requires Inv(s)
    ensures Inv(r)
    ensures r.columnCount == ColumnsFor(s, w)
    ensures ColumnsFor(s, w) == s.columnCount && Abs(s.lastContentWidth - w) <= 1 ==> r == s
    ensures ColumnsFor(s, w) != s.columnCount || Abs(s.lastContentWidth - w) > 1 ==>
              && r.lastContentWidth == w
              && (w > 0 && |s.board.items| > 0 ==> FreshLayout(r.board, s.cfg, r.columnCount, w, s.board.items, measure))
              && (w == 0 || |s.board.items| == 0 ==> r.board == s.board)
  {
    var n := ColumnsFor(s, w);
    var counted := s.(columnCount := n);
    if s.columnCount != n || Abs(s.lastContentWidth - w) > 1 then
      Relayout(counted.(lastContentWidth := w), w, measure)
    else counted
  }

  /**
   * The images of the `k`-th waiting item settled (`Promise.all` resolved):
   * its correction joins the queue and a flush is requested, unless one is
   * already scheduled.
   */
  function ImagesSettled(s: State, k: nat): (r: State)
    requires Inv(s) && k < |s.awaiting|
    ensures Inv(r)
    ensures r.queue == s.queue + [s.awaiting[k]]
    ensures r.awaiting == s.awaiting[..k] + s.awaiting[k + 1..]
    ensures r.flushScheduled
    ensures r.board == s.board && r.containerHeight == s.containerHeight
  {
    s.(awaiting := s.awaiting[..k] + s.awaiting[k + 1..], queue := s.queue + [s.awaiting[k]], flushScheduled := true)
  }

  /**
   * The animation frame of `processBatchAdjustments`: the queue is drained and
   * applied column by column, the container height is published when there
   * was anything to apply, and the flag is released. Nothing can have been
   * queued during the synchronous frame, so no further flush follows.
   */
  function Frame(s: State, heights: ItemId -> nat): (r: State)
    requires Inv(s) && TasksFit(s.queue, |s.board.columns|)
    ensures Inv(r)
    ensures r.queue == [] && !r.flushScheduled
    ensures !s.flushScheduled ==> r == s
    ensures r.board.items == s.board.items && |r.board.columns| == |s.board.columns|
    ensures |s.queue| > 0 ==> r.containerHeight == MaxOr0(r.board.columns)
    ensures |s.queue| == 0 ==> r.containerHeight == s.containerHeight
  {
    if !s.flushScheduled then s
    else
      var b := Flush(s.board, s.queue, heights);
      s.(board := b, queue := [], flushScheduled := false, containerHeight := MaxOr0(b.columns))
  }

  /** The 16 ms debounced `updateContainerHeight`. */
  function HeightTimer(s: State): (r: State)
    requires Inv(s)
    ensures Inv(r) && !r.heightPending
    ensures s.heightPending ==> r.containerHeight >= 0 && forall j :: 0 <= j < |r.board.columns| ==> r.board.columns[j] <= r.containerHeight
    ensures s.heightPending ==> r.containerHeight == MaxOr0(s.board.columns)
    ensures s.heightPending ==> r == s.(heightPending := false, containerHeight := r.containerHeight)
    ensures !s.heightPending ==> r == s
    ensures r.board == s.board
  {
    if s.heightPending then s.(heightPending := false, containerHeight := MaxOr0(s.board.columns)) else s
  }

  /**
   * `clear`: no items, zeroed columns for the current count, a container of
   * height zero, idle with more expected (the loading part re-arms the
   * observer). Detached elements keep their position data.
   */
  function Clear(s: State): (r: State)
    requires Inv(s)
    ensures Inv(r)
    ensures r.board.items == [] && r.board.columns == Zeros(s.columnCount) && r.containerHeight == 0
    ensures !r.load.loading && r.load.hasMore
    ensures r.board.meta == s.board.meta && r.queue == s.queue && r.awaiting == s.awaiting
  {
    s.(board := Board(Zeros(s.columnCount), [], s.board.meta), containerHeight := 0, load := Loading.Clear(s.load))
  }

  /** `connectedCallback`. */
  function Connect(s: State): (r: State)
    requires Inv(s)
    ensures Inv(r) && r.load == Loading.Connect(s.load) && r.board == s.board
    ensures r == s.(load := r.load)
  {
    s.(load := Loading.Connect(s.load))
  }

  datatype Reaction = Reaction(state: State, request: Option<Loading.Request>)

  /** The observer saw the trigger; a request reports the number of items shown. */
  function Intersect(s: State, visible: bool, callbackFound: bool): (r: Reaction)
    requires Inv(s)
    ensures Inv(r.state) && r.state.board == s.board
    ensures r.request.Some? ==> r.request.value.currentCount == |s.board.items|
    ensures s.load.loading ==> r.request.None?
    ensures r.state == s.(load := r.state.load)
    ensures var st := Loading.Intersect(s.load, visible, |s.board.items|, callbackFound);
              r.state.load == st.state && r.request == st.request
  {
    var st := Loading.Intersect(s.load, visible, |s.board.items|, callbackFound);
    Reaction(s.(load := st.state), st.request)
  }

  /** The oldest armed 100 ms recheck fires. */
  function FireCheck(s: State, visible: bool, callbackFound: bool): (r: Reaction)
    requires Inv(s)
    ensures Inv(r.state) && r.state.board == s.board
    ensures r.request.Some? ==> r.request.value.currentCount == |s.board.items|
    ensures s.load.loading ==> r.request.None?
    ensures |s.load.checks| > 0 ==> r.state.load.checks == s.load.checks[1..]
    ensures r.state == s.(load := r.state.load)
    ensures var st := Loading.FireCheck(s.load, visible, |s.board.items|, callbackFound);
              r.state.load == st.state && r.request == st.request
  {
    var st := Loading.FireCheck(s.load, visible, |s.board.items|, callbackFound);
    Reaction(s.(load := st.state), st.request)
  }

  /** The collaborator's `finishLoading(more)`. */
  function FinishLoading(s: State, more: bool): (r: State)
    requires Inv(s)
    ensures Inv(r) && r.board == s.board
    ensures !r.load.loading && r.load.hasMore == more
    ensures r == s.(load := r.load) && r.load == Loading.FinishLoading(s.load, more)
  {
    s.(load := Loading.FinishLoading(s.load, more))
  }

  // ---------------------------------------------------------------------
  // Properties across events
  // ---------------------------------------------------------------------

  /**
   * Relayout is idempotent: laying out again with the same width and the same
   * measurements gives the same columns, positions and column count.
   */
  lemma RelayoutIdempotent(s: State, w: nat, measure: ItemId -> Measure)
    requires Inv(s)
    ensures var once := Relayout(s, w, measure);
            var twice := Relayout(once, w, measure);
            twice.board == once.board && twice.columnCount == once.columnCount
  {
    var once := Relayout(s, w, measure);
    if w > 0 && |s.board.items| > 0 {
      var n := ColumnsFor(s, w);
      assert ColumnsFor(once, w) == n;
      var widths := Geometry.ColumnWidths(w, n, s.cfg.columnGap);
      var run := LayoutSeq(Zeros(n), widths, s.cfg.columnGap, s.cfg.rowGap, s.board.items, measure);
      MergeTwice(s.board.meta, run.placed);
    }
  }

  lemma MergeTwice(m: map<ItemId, Meta>, p: map<ItemId, Meta>)
    ensures (m + p) + p == m + p
  {
  }

  /** A relayout places the items exactly as a first batch of the same items would. */
  lemma RelayoutIsFirstBatch(s: State, w: nat, measure: ItemId -> Measure)
    requires Inv(s) && |s.board.items| > 0 && w > 0
    ensures var empty := s.(board := s.board.(items := []));
            && Inv(empty)
            && Relayout(s, w, measure).board == FirstBatch(empty, s.board.items, w, measure).board
            && Relayout(s, w, measure).awaiting == FirstBatch(empty, s.board.items, w, measure).awaiting
  {
  }

  /** A resize that changes the column count or the width by more than a pixel lays out again at the new width. */
  lemma ResizeRelayouts(s: State, w: nat, measure: ItemId -> Measure)
    requires Inv(s) && w > 0 && |s.board.items| > 0
    requires ColumnsFor(s, w) != s.columnCount || Abs(s.lastContentWidth - w) > 1
    ensures var r := Resize(s, w, measure);
            && r.lastContentWidth == w
            && r.columnCount == ColumnsFor(s, w)
            && r.board == Relayout(s, w, measure).board
  {
    var n := ColumnsFor(s, w);
    var counted := s.(columnCount := n, lastContentWidth := w);
    assert ColumnsFor(counted, w) == n;
  }

  /** A flush request while one is scheduled is ignored: the scheduled frame takes the new correction too. */
  lemma FlushRequestWhileScheduled(s: State, k: nat, heights: ItemId -> nat)
    requires Inv(s) && k < |s.awaiting| && s.flushScheduled
    requires TasksFit(s.queue + [s.awaiting[k]], |s.board.columns|)
    ensures var r := ImagesSettled(s, k);
            Frame(r, heights).board == Flush(s.board, s.queue + [s.awaiting[k]], heights)
  {
  }

  /** A frame changes each column by the net applied difference of its queued corrections. */
  lemma FrameColumns(s: State, heights: ItemId -> nat)
    requires Inv(s) && TasksFit(s.queue, |s.board.columns|)
    ensures var r := Frame(s, heights);
            forall j :: 0 <= j < |s.board.columns| ==>
              r.board.columns[j] == s.board.columns[j] + ColumnDelta(s.queue, j, heights)
  {
    if s.flushScheduled {
      FlushEffect(s.board, s.queue, heights);
    }
  }

  /** The order in which images settled does not matter to the frame that applies their corrections. */
  lemma FrameOrderFree(s: State, q: seq<Task>, heights: ItemId -> nat)
    requires Inv(s) && TasksFit(s.queue, |s.board.columns|)
    requires multiset(q) == multiset(s.queue) && UniqueKeys(s.queue)
    ensures Inv(s.(queue := q)) && TasksFit(q, |s.board.columns|)
    ensures Frame(s.(queue := q), heights) == Frame(s, heights)
  {
    FlushOrderIndependent(s.board, s.queue, q, heights);
    assert |q| == |s.queue| by {
      assert |multiset(q)| == |multiset(s.queue)|;
    }
    forall i | 0 <= i < |q|
      ensures q[i].item in s.board.meta
    {
      assert q[i] in multiset(s.queue);
    }
  }
}
