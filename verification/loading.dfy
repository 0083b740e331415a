/**
 * The infinite-scroll state machine of the waterfall component: the
 * `loading` / `hasMore` flags, the intersection observer's guard, the 100 ms
 * visibility rechecks and the `load-more` requests they emit.
 *
 * Browser sensing is an input: `visible` stands for "the loading trigger is
 * within 200 px below the viewport", `itemCount` for `this.items.length`,
 * `callbackFound` for "the `onLoadMore` attribute names a function on
 * `window`". Timers are explicit: every armed recheck waits in `checks`, in
 * the order it was armed, until a `Fire` event takes it.
 */
module Loading {
  import opened Common

  /**
   * A pending recheck. The one armed on connection asks for a page only
   * while no items are shown; the ones armed by `finishLoading(true)` and
   * `clear` ask whenever the trigger is visible.
   */
  datatype Check = InitialCheck | SettleCheck

  datatype LoadState = LoadState(
    loading: bool,          // a request is outstanding
    hasMore: bool,          // the collaborator has not reported the end
    callbackBound: bool,    // `loadMoreCallback` was set once and stays set
    hasObserver: bool,      // `this.observer` exists (created on connection)
    observing: bool,        // the observer watches the trigger
    checks: seq<Check>)     // armed rechecks, oldest first

  /** A `load-more` request: the item count it reports, and whether the window callback was called. */
  datatype Request = Request(currentCount: nat, viaCallback: bool)

  datatype Step = Step(state: LoadState, request: Option<Request>)

  /** A request can be outstanding only while more pages are expected; only an existing observer can watch. */
  predicate Valid(s: LoadState) {
    && (s.loading ==> s.hasMore)
    && (s.observing ==> s.hasObserver)
  }

  /** The field initialisers: idle, more expected, nothing bound or observed. */
  function Initial(): (s: LoadState)
    ensures Valid(s) && !s.loading && s.hasMore && |s.checks| == 0
    ensures !s.callbackBound && !s.hasObserver && !s.observing
  {
    LoadState(false, true, false, false, false, [])
  }

  /** `connectedCallback`: a fresh observer watches the trigger and the initial recheck is armed. */
  function Connect(s: LoadState): (r: LoadState)
    ensures Valid(s) ==> Valid(r)
    ensures r.hasObserver && r.observing
    ensures r.checks == s.checks + [InitialCheck]
    ensures r.loading == s.loading && r.hasMore == s.hasMore
  {
    s.(hasObserver := true, observing := true, checks := s.checks + [InitialCheck])
  }

  /**
   * `finishLoading(hasMore)`, callable in any state: the request is over and
   * `hasMore` is whatever the collaborator says. The end of the feed stops
   * the observer; otherwise a recheck is armed.
   */
  function FinishLoading(s: LoadState, more: bool): (r: LoadState)
    ensures !r.loading && r.hasMore == more
    ensures Valid(s) ==> Valid(r)
    ensures more ==> r.checks == s.checks + [SettleCheck] && r.observing == s.observing
    ensures !more ==> r.checks == s.checks && !r.observing
    ensures r.callbackBound == s.callbackBound && r.hasObserver == s.hasObserver
  {
    if more then s.(loading := false, hasMore := true, checks := s.checks + [SettleCheck])
    else s.(loading := false, hasMore := false, observing := false)
  }

  /**
   * `_handleLoadMore`: ignored while a request is outstanding or after the
   * end; otherwise it marks a request outstanding and emits it with the
   * current item count. Without any callback the request is closed at once
   * as the end of the feed.
   */
  function HandleLoadMore(s: LoadState, itemCount: nat, callbackFound: bool): (r: Step)
    ensures s.loading || !s.hasMore ==> r == Step(s, None)
    ensures !s.loading && s.hasMore ==>
              r.request == Some(Request(itemCount, s.callbackBound || callbackFound))
    ensures !s.loading && s.hasMore && (s.callbackBound || callbackFound) ==>
              r.state.loading && r.state.hasMore && r.state.callbackBound && r.state.checks == s.checks
    ensures !s.loading && s.hasMore && !(s.callbackBound || callbackFound) ==>
              !r.state.loading && !r.state.hasMore && !r.state.observing && r.state.checks == s.checks
    ensures Valid(s) ==> Valid(r.state)
  {
    if s.loading || !s.hasMore then Step(s, None)
    else
      var bound := s.callbackBound || callbackFound;
      var started := s.(loading := true, callbackBound := bound);
      if bound then Step(started, Some(Request(itemCount, true)))
      else Step(FinishLoading(started, false), Some(Request(itemCount, false)))
  }

  /** The observer callback: an intersecting trigger asks for a page when idle and more is expected. */
  function Intersect(s: LoadState, visible: bool, itemCount: nat, callbackFound: bool): (r: Step)
    ensures !(s.observing && visible) ==> r == Step(s, None)
    ensures r.request.Some? <==> s.observing && visible && !s.loading && s.hasMore
    ensures Valid(s) ==> Valid(r.state)
  {
    if s.observing && visible && !s.loading && s.hasMore then HandleLoadMore(s, itemCount, callbackFound)
    else Step(s, None)
  }

  /** Whether the recheck `c` asks for a page. */
  predicate CheckWants(c: Check, visible: bool, itemCount: nat) {
    visible && (c == SettleCheck || itemCount == 0)
  }

  /**
   * The oldest armed recheck fires: it is consumed, and it asks for a page if
   * the trigger is visible, no request is outstanding and more is expected
   * (the initial one only while there are no items). With nothing armed,
   * nothing fires.
   */
  function FireCheck(s: LoadState, visible: bool, itemCount: nat, callbackFound: bool): (r: Step)
    ensures |s.checks| == 0 ==> r == Step(s, None)
    ensures |s.checks| > 0 ==>
              (r.request.Some? <==> CheckWants(s.checks[0], visible, itemCount) && !s.loading && s.hasMore)
    ensures |s.checks| > 0 ==> r.state.checks == s.checks[1..]
    ensures Valid(s) ==> Valid(r.state)
  {
    if |s.checks| == 0 then Step(s, None)
    else
      var rest := s.(checks := s.checks[1..]);
      if CheckWants(s.checks[0], visible, itemCount) && !rest.loading && rest.hasMore then
        HandleLoadMore(rest, itemCount, callbackFound)
      else Step(rest, None)
  }

  /**
   * The loading part of `clear`: idle with more expected; an existing
   * observer is re-attached and a recheck armed.
   */
  function Clear(s: LoadState): (r: LoadState)
    ensures !r.loading && r.hasMore
    ensures Valid(s) ==> Valid(r)
    ensures s.hasObserver ==> r.observing && r.checks == s.checks + [SettleCheck]
    ensures !s.hasObserver ==> r == s.(loading := false, hasMore := true)
  {
    if s.hasObserver then s.(loading := false, hasMore := true, observing := true, checks := s.checks + [SettleCheck])
    else s.(loading := false, hasMore := true)
  }

  /** The events that drive the machine. */
  datatype LoadEvent =
    | Connected
    | Intersection(visible: bool, itemCount: nat, callbackFound: bool)
    | Fire(visible: bool, itemCount: nat, callbackFound: bool)
    | Finish(more: bool)
    | Cleared

  function StepOf(s: LoadState, e: LoadEvent): (r: Step)
    ensures Valid(s) ==> Valid(r.state)
  {
    match e
    case Connected => Step(Connect(s), None)
    case Intersection(v, n, f) => Intersect(s, v, n, f)
    case Fire(v, n, f) => FireCheck(s, v, n, f)
    case Finish(more) => Step(FinishLoading(s, more), None)
    case Cleared => Step(Clear(s), None)
  }

  /** The requests a sequence of events emits, and the final state. */
  datatype Trace = Trace(state: LoadState, requests: seq<Request>)

  function RunEvents(s: LoadState, es: seq<LoadEvent>): (t: Trace)
    decreases |es|
  {
    if |es| == 0 then Trace(s, [])
    else
      var st := StepOf(s, es[0]);
      var rest := RunEvents(st.state, es[1..]);
      var first := if st.request.Some? then [st.request.value] else [];
      Trace(rest.state, first + rest.requests)
  }

  /** Only the collaborator's answer or a `clear` can re-open the flow. */
  predicate Reopens(e: LoadEvent) {
    e.Finish? || e.Cleared?
  }

  predicate NoReopen(es: seq<LoadEvent>) {
    forall i :: 0 <= i < |es| ==> !Reopens(es[i])
  }

  /** While a request is outstanding or after the end, no event without a reopening emits anything. */
  lemma {:induction false} BlockedStaysSilent(s: LoadState, es: seq<LoadEvent>)
    requires s.loading || !s.hasMore
    requires NoReopen(es)
    ensures RunEvents(s, es).requests == []
    ensures RunEvents(s, es).state.loading == s.loading && RunEvents(s, es).state.hasMore == s.hasMore
    decreases |es|
  {
    if |es| > 0 {
      var st := StepOf(s, es[0]);
      assert !Reopens(es[0]);
      assert st.request == None && st.state.loading == s.loading && st.state.hasMore == s.hasMore;
      assert NoReopen(es[1..]) by {
        forall i | 0 <= i < |es[1..]|
          ensures !Reopens(es[1..][i])
        {
          assert es[1..][i] == es[i + 1];
        }
      }
      BlockedStaysSilent(st.state, es[1..]);
    }
  }

  /**
   * Single outstanding request: between two answers of the collaborator (and
   * without a `clear`) the component emits at most one `load-more` request,
   * however often the trigger intersects or a recheck fires.
   */
  lemma {:induction false} AtMostOneRequest(s: LoadState, es: seq<LoadEvent>)
    requires NoReopen(es)
    ensures |RunEvents(s, es).requests| <= 1
    decreases |es|
  {
    if |es| > 0 {
      var st := StepOf(s, es[0]);
      assert !Reopens(es[0]);
      assert NoReopen(es[1..]) by {
        forall i | 0 <= i < |es[1..]|
          ensures !Reopens(es[1..][i])
        {
          assert es[1..][i] == es[i + 1];
        }
      }
      if st.request.Some? {
        assert st.state.loading || !st.state.hasMore;
        BlockedStaysSilent(st.state, es[1..]);
      } else {
        AtMostOneRequest(st.state, es[1..]);
      }
    }
  }

  /** The end of the feed is terminal until `clear` or a late `finishLoading(true)`. */
  lemma EndIsTerminal(s: LoadState, es: seq<LoadEvent>)
    requires !s.hasMore && NoReopen(es)
    ensures RunEvents(s, es).requests == [] && !RunEvents(s, es).state.hasMore
  {
    BlockedStaysSilent(s, es);
  }

  /** Every event keeps the flags consistent. */
  lemma {:induction false} RunKeepsValid(s: LoadState, es: seq<LoadEvent>)
    requires Valid(s)
    ensures Valid(RunEvents(s, es).state)
    decreases |es|
  {
    if |es| > 0 {
      RunKeepsValid(StepOf(s, es[0]).state, es[1..]);
    }
  }
}
