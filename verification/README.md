# Waterfall-flow layout engine in Dafny

This project models the layout and load-orchestration engine of the
`<waterfall-flow>` web component and proves properties about it. The component
puts its `waterfall-item` children into columns of equal width, always adding
to the currently shortest column. It corrects the positions once an item's
images have loaded, and it asks its host page for more items when a sentinel
below the columns comes into view.

Without the DOM, the engine is integer geometry over sequences plus a small
flag-based state machine. The model is written that way. Its modules follow
the parts of the component:

| module | file | models |
|---|---|---|
| `Common` | `common.dfy` | `Option`, item identities, `Abs`, distinctness |
| `Parsing` | `parsing.dfy` | `parseSizeValue` and the `columns` attribute parse: `parseInt` (leading white space, sign, `0x` hexadecimal or decimal digits) and `parseFloat` restricted to integers (leading white space, sign, decimal digits) |
| `ParsingExamples` | `parsing_examples.dfy` | concrete attribute values and what the component reads from them |
| `Geometry` | `geometry.dfy` | `calculateColumns`, `calculateColumnWidths`, the `left` offset of a column |
| `Placement` | `placement.dfy` | `layoutItem` (shortest column, position data, growth, queued correction) and placing a run of items in order |
| `Reconcile` | `reconcile.dfy` | `adjustItemsAfter`, one correction of `processBatchAdjustments`, the per-column stable sort and the whole drain, `updateContainerHeight` |
| `Loading` | `loading.dfy` | `_handleLoadMore`, `finishLoading`, the observer guard, the 100 ms rechecks and the loading part of `clear` |
| `Engine` | `engine.dfy` | the whole component state and one transition per callback, timer or frame: attributes, `relayout`, `onItemsChange`, resize, settled images, the flush frame, the height timer, `clear` and the load events |

The browser's measurements are parameters of the transitions:

- the content width `w` (`clientWidth`);
- `measure`, an item's `offsetHeight` and the completion of its images when it is placed;
- `heights`, an item's `offsetHeight` once its images have settled;
- `visible`, whether the loading trigger is within 200 px of the viewport;
- `callbackFound`, whether the `onLoadMore` attribute names a function on `window`.

Elements are identified by `ItemId`. The position data an element carries in
its `style` and `dataset` (column, top, left, width) is a `Meta` record in one
map that covers every element ever placed. Detached elements keep their
entries, as detached DOM nodes keep their datasets.

`src/components/WaterfallFlow.ts` is the canonical copy. `waterfallFlow.js` is
a standalone build of the same engine and is modelled by the same members. Its
only behavioural differences are these two:

- It parses `columns` as `parseInt(newValue) || 3` in the attribute callback.
  `Parsing.ColumnsParsersAgree` shows this agrees with the TS spelling on
  every value.
- Its `adjustItemsAfter` has no `|| '0'` fallback. That fallback matters only
  for an element without a recorded top, and every queued correction belongs
  to a placed element (`Engine.Inv`).

## Model

| member | source | states |
|---|---|---|
| Parsing.ParseSizeValue | src/utils/helpers.ts:43-47 | a missing value, or one in which `parseFloat` finds no number (the empty string included), gives 10; otherwise the result is exactly the number `parseFloat` reads, 0 included |
| Parsing.SizeValueOfNumber | src/utils/helpers.ts:43-47 | a rendered integer followed by a unit (`"20px"`, `"0"`, `"-5"`), after any leading white space, is read back as that integer, sign kept and 0 not replaced by the default |
| Parsing.SizeValueWithoutNumber | src/utils/helpers.ts:45-46 | a string with no numeric prefix (NaN) falls back to 10 |
| ParsingExamples.SizeValueExamples | src/utils/helpers.ts:43-46 | null, `""`, `"px"` give 10; `"20px"` and `" 20px"` give 20, `"0"` gives 0, `"0x4"` gives 0 (no hexadecimal in `parseFloat`), `"-5"` gives -5 |
| Parsing.ParseShowRoundTrip | src/utils/helpers.ts:45 | the prefix parser reads back any rendered integer followed by a unit |
| Parsing.ParseIntShowRoundTrip | src/components/WaterfallFlow.ts:85 | `parseInt` reads back any rendered integer followed by a unit, unless a `0` is followed by an `x` (the hexadecimal marker) |
| Parsing.TrimSpaces | src/components/WaterfallFlow.ts:85 | leading JavaScript white space changes neither what `parseInt` nor what `parseFloat` reads |
| Parsing.ParseColumns | src/components/WaterfallFlow.ts:85 | `parseInt(v \|\| '3') \|\| 3` is never 0; it is the number `parseInt` reads (white space skipped, `0x` read as hexadecimal) when that is not 0, and 3 for a missing attribute, NaN or 0 |
| Parsing.ColumnsOfNumber | src/components/WaterfallFlow.ts:85 | a rendered count other than 0, after any white space and before any unit, is taken as is; `"0"` gives 3 |
| ParsingExamples.ColumnsExamples | src/components/WaterfallFlow.ts:85 | `"0x4"` gives 4, `"0X1f"` 31, `" 4"` 4, `"4px"` 4; `"0x"` and `"abc"` give 3 |
| Parsing.ColumnsParsersAgree | waterfallFlow.js:119 | the standalone build's `parseInt(newValue) \|\| 3` equals the TS parse for every attribute value, including a removed attribute |
| Geometry.FittingColumns | src/components/WaterfallFlow.ts:189-193 | the width-derived count is at least 1; when above 1 the columns at minimum width plus gaps fit in the width, and one more column would not |
| Geometry.CalculateColumns | src/components/WaterfallFlow.ts:181-194 | zero width keeps the count; an explicit `columns` attribute wins; otherwise the width-derived count |
| Geometry.ColumnWidths | src/components/WaterfallFlow.ts:208-220 | exactly n widths whose sum plus (n-1) gaps is the width; widths never increase left to right and differ by at most 1 |
| Geometry.WidthsNearShare | src/components/WaterfallFlow.ts:208-220 | each width is the floor share, plus 1 exactly for the first `remainder` columns, with `0 <= remainder < n` |
| Geometry.WidthsRespectMinimum | src/components/WaterfallFlow.ts:189-193 | with a width-derived count and the width at least the minimum, every column is at least `minColumnWidth` wide |
| Geometry.LeftOfClosedForm | src/components/WaterfallFlow.ts:230-234 | the `left` loop gives the sum of the preceding widths plus one gap per preceding column |
| Geometry.ColumnWithinContainer | src/components/WaterfallFlow.ts:227-238 | every column ends within the container width, and the last one ends exactly at it |
| Placement.ShortestColumn | src/components/WaterfallFlow.ts:224-225 | the chosen column has the least height, and every column before it is strictly taller |
| Placement.LayoutItem | src/components/WaterfallFlow.ts:223-273 | the item goes to the lowest-index shortest column, at that column's height, with its width and offset; only that column grows, by estimate or height plus `rowGap` as the images and height say; exactly the items with unloaded images queue a correction |
| Placement.NoImagesNoTask | src/components/WaterfallFlow.ts:282 | an item without images never queues a correction |
| Placement.LayoutSeq | src/components/WaterfallFlow.ts:387-391 | placing items in order records position data for exactly those items, all in existing columns, and never lowers a column when `rowGap` is not negative |
| Placement.PlacedWhenReached | src/components/WaterfallFlow.ts:387-391 | an item's position is decided when it is reached; later items do not change it |
| Placement.LayoutSeqHeights | src/components/WaterfallFlow.ts:223-273 | the columns after a run are those of growing the shortest column item by item |
| Placement.HeightsTotal | src/components/WaterfallFlow.ts:257-272 | the columns together grow by exactly the sum of the items' growths |
| Placement.RoundRobinState | src/components/WaterfallFlow.ts:224-225 | after q·n+r equal loaded items whose height plus `rowGap` is positive, the first r columns are one row ahead of the others |
| Placement.RoundRobin | src/components/WaterfallFlow.ts:224-225 | equal loaded items of positive height are placed round-robin: item i goes to column i mod n |
| Placement.LayoutSeqPositions | src/components/WaterfallFlow.ts:387-391 | for distinct items, the i-th item's recorded position is the one `layoutItem` gives it on the column heights left by the items before it |
| Reconcile.ShiftAfter | src/components/WaterfallFlow.ts:357-368 | the loop over the items moves exactly those that are not the changed item, share its column and lie strictly below it |
| Reconcile.AdjustItemsAfter | src/components/WaterfallFlow.ts:350-369 | items in the correction's column strictly below the changed item's current recorded top move by the difference, top and position together; all other elements and all column heights are unchanged |
| Reconcile.AdjustLeavesOthers | src/components/WaterfallFlow.ts:357-368 | the changed item, other columns, items at or above it and detached elements are untouched |
| Reconcile.AdjustKeepsColumns | src/components/WaterfallFlow.ts:363-365 | a shifted item keeps its column, `left` and width |
| Reconcile.ApplyTask | src/components/WaterfallFlow.ts:327-335 | a correction of at most 1 in magnitude changes nothing; a larger one adds the difference to its column and shifts the items below |
| Reconcile.ApplyAllColumns | src/components/WaterfallFlow.ts:327-335 | corrections applied one after another add to each column the sum of its applied differences |
| Reconcile.ApplyAllKeepsPlacement | src/components/WaterfallFlow.ts:350-369 | corrections move items only vertically |
| Reconcile.SortByTopSpec | src/components/WaterfallFlow.ts:325 | the per-column sort orders by recorded top and keeps exactly the given corrections |
| Reconcile.GroupMember | src/components/WaterfallFlow.ts:314-321 | a column's group holds only queued corrections of that column |
| Reconcile.Flush | src/components/WaterfallFlow.ts:304-348 | the drain keeps the board well formed, the item list and the set of elements, and leaves detached elements alone |
| Reconcile.FlushEffect | src/components/WaterfallFlow.ts:313-336 | a flush changes every column by exactly the net applied difference of its queued corrections |
| Reconcile.GroupDelta | src/components/WaterfallFlow.ts:314-325 | grouping and sorting do not change any column's net applied difference |
| Reconcile.SortedUnique | src/components/WaterfallFlow.ts:325 | two sorted sequences with the same corrections and no tied tops are equal |
| Reconcile.GroupsAgree | src/components/WaterfallFlow.ts:314-325 | a column's sorted group does not depend on the queue order when tops within a column are distinct |
| Reconcile.FlushOrderIndependent | src/components/WaterfallFlow.ts:313-336 | the result of a flush does not depend on the order in which corrections were queued |
| Reconcile.FlushSmall | src/components/WaterfallFlow.ts:331 | a flush whose corrections are all within 1 pixel changes nothing |
| Reconcile.FlushExample | src/components/WaterfallFlow.ts:321-336 | one column, two corrections queued in either order: the upper item's grows the column by 100 and moves the lower item from 250 to 350, then the lower item's shrinks the column by 50 |
| Reconcile.MaxOr0 | src/components/WaterfallFlow.ts:371-377 | the published height is at least 0 and every column's height, and is 0 or one of the columns |
| Loading.Initial | src/components/WaterfallFlow.ts:24-25 | not loading, more expected, no observer and no recheck armed |
| Loading.Connect | src/components/WaterfallFlow.ts:126-158 | a fresh observer watches the trigger and the initial 100 ms recheck is armed after any pending ones; the flags are unchanged |
| Loading.FinishLoading | src/components/WaterfallFlow.ts:453-475 | in any state: not loading, `hasMore` as given; the end of the feed stops the observer, otherwise a recheck is armed |
| Loading.HandleLoadMore | src/components/WaterfallFlow.ts:410-437 | a no-op while loading or after the end; otherwise a request with the current count, outstanding when a callback is bound, closed as the end of the feed when none is |
| Loading.Intersect | src/components/WaterfallFlow.ts:133-139 | the observer asks for a page exactly when it observes, the trigger intersects, no request is outstanding and more is expected |
| Loading.FireCheck | src/components/WaterfallFlow.ts:464-473 | the oldest recheck is consumed and asks for a page exactly when visible, idle, more expected and (for the initial one) no items are shown |
| Loading.Clear | src/components/WaterfallFlow.ts:522-540 | idle with more expected; an existing observer watches again and a recheck is armed |
| Loading.AtMostOneRequest | src/components/WaterfallFlow.ts:410-411 | between two `finishLoading` calls and without `clear`, at most one request is emitted, whatever the intersections and rechecks |
| Loading.EndIsTerminal | src/components/WaterfallFlow.ts:453-462 | after the end of the feed no request is emitted until `finishLoading` or `clear` |
| Loading.RunKeepsValid | src/components/WaterfallFlow.ts:410-475 | every sequence of load events keeps "loading implies more expected" |
| Engine.Initial | src/components/WaterfallFlow.ts:17-33 | three columns, gaps 10, minimum width 200, no `columns` attribute, nothing laid out, height 0, an empty queue and the initial load state |
| Engine.AttributeChanged | src/components/WaterfallFlow.ts:57-91 | an unchanged value is a no-op; otherwise the value is parsed into the configuration; `columns` sets the count to its parse, `min-column-width` recomputes it with `calculateColumns` at the current content width, the gaps keep it; a relayout is requested exactly when items are shown |
| Engine.Relayout | src/components/WaterfallFlow.ts:379-392 | a no-op without width or items; otherwise the width is recorded, the count recomputed, and every item placed again in order from zeroed columns: the columns are the heights of that run and each item's position is the one `layoutItem` gives it at its turn; detached elements keep their data |
| Engine.RelayoutIdempotent | src/components/WaterfallFlow.ts:379-392 | two relayouts with unchanged width and measurements give the same columns and positions as one |
| Engine.RelayoutIsFirstBatch | src/components/WaterfallFlow.ts:487-500 | a relayout places the items exactly as a first batch of the same items would |
| Engine.FirstBatch | src/components/WaterfallFlow.ts:487-498 | without a width nothing changes; with one, the new list is recorded, the count is recomputed and every item placed in order from zeroed columns, positions and heights as in a relayout; configuration, queue and load state are unchanged |
| Engine.AppendBatch | src/components/WaterfallFlow.ts:500-514 | the new list is recorded with the count, the number of columns, the configuration, the queue and the load state unchanged |
| Engine.OnItemsChange | src/components/WaterfallFlow.ts:477-515 | a list that does not grow and a zero width change nothing; a first batch lays every item out from zeroed columns; a later batch keeps the count and the shown items' positions and grows the columns by the added items in order |
| Engine.AppendBatchEffect | src/components/WaterfallFlow.ts:500-514 | an incremental batch leaves the shown items in place and places only the new ones, in order, on the current heights |
| Engine.Resize | src/components/WaterfallFlow.ts:394-408 | the count becomes the one `calculateColumns` gives at the new width; with neither the count nor the width changed by more than 1 pixel nothing changes; otherwise the width is recorded and, with items shown, every item is laid out again from zeroed columns |
| Engine.ResizeRelayouts | src/components/WaterfallFlow.ts:394-408 | otherwise the new width is recorded and the board is that of a relayout |
| Engine.ImagesSettled | src/components/WaterfallFlow.ts:294-301 | a settled item's correction joins the queue and a flush is scheduled |
| Engine.FlushRequestWhileScheduled | src/components/WaterfallFlow.ts:305-307 | a flush request while one is scheduled adds nothing but the correction: the scheduled frame applies it with the rest |
| Engine.Frame | src/components/WaterfallFlow.ts:304-348 | the frame drains the queue and releases the flag, and publishes the maximum column height whenever the queue was not empty, even if no correction exceeded 1 pixel |
| Engine.FrameColumns | src/components/WaterfallFlow.ts:313-336 | a frame changes each column by the net applied difference of the queued corrections |
| Engine.FrameOrderFree | src/components/WaterfallFlow.ts:313-336 | when no two queued corrections share a column and a recorded top, the order in which images settled does not matter to the frame |
| Engine.HeightTimer | src/components/WaterfallFlow.ts:371-377 | an armed update publishes exactly `Math.max(...columns, 0)` and changes nothing else; an unarmed one is a no-op |
| Engine.Clear | src/components/WaterfallFlow.ts:517-541 | no items, zeroed columns for the current count, height 0, idle with more expected |
| Engine.Connect | src/components/WaterfallFlow.ts:93-97 | connecting changes only the load state, as `Loading.Connect` does |
| Engine.Intersect | src/components/WaterfallFlow.ts:126-139 | only the load state changes, exactly as `Loading.Intersect` with the number of items shown decides, and its request is emitted; a request reports the number of items shown, and none is emitted while one is outstanding |
| Engine.FireCheck | src/components/WaterfallFlow.ts:147-157 | only the load state changes, exactly as `Loading.FireCheck` with the number of items shown decides, and its request is emitted; the oldest recheck is consumed, a request reports the number of items shown, and none is emitted while one is outstanding |
| Engine.FinishLoading | src/components/WaterfallFlow.ts:453-475 | the collaborator's answer ends the request and sets `hasMore`; only the load state changes, as `Loading.FinishLoading` does: the end of the feed stops the observer, otherwise a recheck is armed |

## Left out

- Shadow DOM, styles and the loading indicator (`render`, `showLoading`,
  `hideLoading`, the style assignments in `layoutItem`) are presentation only.
- Timers and frames are explicit events. This covers the 150 ms resize
  debounce, the 16 ms container-height debounce, the 100 ms rechecks, the two
  frames before a first batch, the flush frame and the 5 s image timeout. A
  first batch is one `OnItemsChange` at the width measured in the second
  frame. A second `slotchange` before those frames is not modelled.
- `disconnectedCallback` is left out. It races with pending frames and timers.
- The `load-more` event dispatch and the window callback are emitted requests.
  A listener that calls `finishLoading` synchronously inside the dispatch is
  not modelled.
- Parsing.ParseFloat: pixels are integers, so `parseFloat` reads leading
  white space, a sign and decimal digits only; fractions, exponents and
  `Infinity` are not modelled. The model stops at the first character that
  is not a digit: `"1.5px"` and `"1e3"` give 1 where the component gives 1.5
  and 1000, and `".5"` and `"Infinity"` give the default 10 where the
  component gives 0.5 and `Infinity`. Above 2^53 the component's numbers
  round to the nearest double, while the model's integers stay exact.
- Engine.AttributeChanged: requires the new configuration to satisfy
  `SaneConfig`, which excludes some configurations the component accepts.
  A `minColumnWidth + columnGap` of exactly 0 divides by zero. With
  `clientWidth + columnGap` positive the count is `Infinity`, and with it
  zero the count is `NaN`; `new Array(columnCount)` then throws. With it
  negative the quotient is `-Infinity` and `Math.max(1, -Infinity)` gives
  one column without throwing. A negative
  sum divides by a negative number, which usually yields one column; the
  component handles that, but the model does not. A `columns` value below 0
  makes `new Array` throw, and `0` is replaced by 3. A column count of 2^32
  or more also makes `new Array` throw; the model's integers are unbounded,
  so it lays out that many columns instead.
- Engine.Frame: requires every queued correction to name an existing
  column; a correction for a column that no longer exists is not modelled.
  The component would write `NaN` heights after a relayout to fewer columns.
  Corrections queued before a relayout are otherwise kept and applied to
  their old column, as the component does.
- Engine.AppendBatch: requires the current column heights to fit the
  current count (`|columns| <= columnCount`), because otherwise
  `columnWidths[c]` is undefined for the extra columns.
  It also requires the new list to extend the old one. The component lays
  out `newItems[old..]` whatever came before, so a reordered or replaced
  prefix is not modelled. The items are distinct, as DOM children are.
- Engine.OnItemsChange: a list that grows is modelled under the same two
  restrictions as `Engine.AppendBatch`: the old list is a prefix of the new
  one, and the column heights fit the current count.
- `_handleLoadMore` and `finishLoading` keep no minimum interval between
  requests, no guard against a page that adds no items and no viewport-fill
  multiplier, so the model has none of these either.
- `adjustQueue` is a `Set` of distinct task objects, not a map keyed by item.
  A relayout can therefore queue a second correction for an item that already
  has one, and both stay queued; the model keeps both.
- The second flush that `processBatchAdjustments` schedules when the queue is
  not empty is not modelled. The frame runs synchronously right after clearing
  the queue, so nothing can be queued meanwhile. The branch cannot fire, and
  `Engine.Frame` leaves an empty queue and no scheduled flush.
- Reconcile.SortByTop: the contract states order and permutation but not
  stability. Stability only matters for tied tops, which the order-independence
  result excludes.
- Reconcile.FlushOrderIndependent: proved only when no two queued corrections
  share a column and a recorded top. With ties the stable sort keeps queue
  order.
- Geometry.ColumnWithinContainer: proved for `width + columnGap >= 0`. Below
  that, the gaps are so negative that the available width exceeds the
  container, and the columns overflow it, in the component as in the model.
- Placement.RoundRobin: stated for `height + rowGap > 0`, so that each item
  really raises its column. With a `row-gap` of at most minus the height,
  no column ever rises above the others and every item goes to column 0.
- Placement.RoundRobinState: stated for `height + rowGap > 0`, for the same
  reason.
- Engine.FrameOrderFree: proved only when no two queued corrections share a
  column and a recorded top, as for `Reconcile.FlushOrderIndependent`.
- The 16 ms container-height debounce is one `Engine.HeightTimer` event that
  publishes the current maximum. Re-arming it within 16 ms is collapsed into
  that one event.
