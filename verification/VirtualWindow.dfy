/** Which sessions of a scrolled table are mounted (`apps/desktop/src/virtualWindow.ts`), against
    the table with all of them.

    Heights are whole pixels; a scroll offset and a viewport are exact reals. */
module VirtualWindow {

  datatype Session = Session(id: string, recordings: nat)

  /** How tall a row is taken to be. */
  const ROW := 40

  function EstimatedHeight(session: Session, showsRecordings: bool): nat {
    (1 + if showsRecordings then session.recordings else 0) * ROW
  }

  /** The whole height of some sessions, one under another. */
  function HeightOf(sessions: seq<Session>, showsRecordings: bool): nat {
    if sessions == [] then 0
    else HeightOf(sessions[..|sessions| - 1], showsRecordings) + EstimatedHeight(sessions[|sessions| - 1], showsRecordings)
  }

  /** Where each session starts, and where the last one ends. */
  function CumulativeOf(sessions: seq<Session>, showsRecordings: bool): seq<nat> {
    seq(|sessions| + 1, i requires 0 <= i <= |sessions| => HeightOf(sessions[..i], showsRecordings))
  }

  lemma {:induction false} HeightsJoin(above: seq<Session>, below: seq<Session>, showsRecordings: bool)
    ensures HeightOf(above + below, showsRecordings) == HeightOf(above, showsRecordings) + HeightOf(below, showsRecordings)
  {
    if below == [] {
      assert above + below == above;
    } else {
      assert (above + below)[..|above + below| - 1] == above + below[..|below| - 1];
      HeightsJoin(above, below[..|below| - 1], showsRecordings);
    }
  }

  lemma OneSessionMore(sessions: seq<Session>, showsRecordings: bool, i: nat)
    requires i < |sessions|
    ensures HeightOf(sessions[..i + 1], showsRecordings)
         == HeightOf(sessions[..i], showsRecordings) + EstimatedHeight(sessions[i], showsRecordings)
  {
    assert sessions[..i + 1][..i] == sessions[..i];
  }

  method CumulativeHeights(sessions: seq<Session>, showsRecordings: bool) returns (heights: seq<nat>)
    ensures heights == CumulativeOf(sessions, showsRecordings)
  {
    heights := [0];
    var total := 0;
    for i := 0 to |sessions|
      invariant total == HeightOf(sessions[..i], showsRecordings)
      invariant |heights| == i + 1
      invariant forall k :: 0 <= k <= i ==> heights[k] == HeightOf(sessions[..k], showsRecordings)
    {
      OneSessionMore(sessions, showsRecordings, i);
      total := total + EstimatedHeight(sessions[i], showsRecordings);
      heights := heights + [total];
    }
  }

  /** Offsets that start at zero and leave room for a row at least between one session and the next. */
  predicate Table(cumulative: seq<nat>) {
    && |cumulative| >= 1
    && cumulative[0] == 0
    && forall i, j :: 0 <= i <= j < |cumulative| ==> cumulative[j] - cumulative[i] >= ROW * (j - i)
  }

  lemma {:induction false} TallEnough(sessions: seq<Session>, showsRecordings: bool)
    ensures HeightOf(sessions, showsRecordings) >= ROW * |sessions|
  {
    if sessions != [] {
      TallEnough(sessions[..|sessions| - 1], showsRecordings);
      ARowAtLeast(sessions[|sessions| - 1], showsRecordings);
    }
  }

  lemma ARowAtLeast(session: Session, showsRecordings: bool)
    ensures EstimatedHeight(session, showsRecordings) >= ROW
  {
  }

  lemma HeightBetween(sessions: seq<Session>, showsRecordings: bool, i: nat, j: nat)
    requires i <= j <= |sessions|
    ensures HeightOf(sessions[..j], showsRecordings)
         == HeightOf(sessions[..i], showsRecordings) + HeightOf(sessions[i..j], showsRecordings)
  {
    assert sessions[..j] == sessions[..i] + sessions[i..j];
    HeightsJoin(sessions[..i], sessions[i..j], showsRecordings);
  }

  lemma CumulativeIsTable(sessions: seq<Session>, showsRecordings: bool)
    ensures Table(CumulativeOf(sessions, showsRecordings))
  {
    var c := CumulativeOf(sessions, showsRecordings);
    forall i, j | 0 <= i <= j < |c|
      ensures c[j] - c[i] >= ROW * (j - i)
    {
      HeightBetween(sessions, showsRecordings, i, j);
      TallEnough(sessions[i..j], showsRecordings);
    }
  }

  // ------------------------------------------------------------------------------
  // Finding an offset
  // ------------------------------------------------------------------------------

  /** A scan for the first offset above `target`, from `from`; the last index when none is. */
  function ScanFrom(cumulative: seq<nat>, target: real, from: nat): (r: nat)
    requires from < |cumulative|
    decreases |cumulative| - from
  {
    if from == |cumulative| - 1 || cumulative[from] as real > target then from
    else ScanFrom(cumulative, target, from + 1)
  }

  function FirstAbove(cumulative: seq<nat>, target: real): nat
    requires cumulative != []
  {
    ScanFrom(cumulative, target, 0)
  }

  /** `r` is the smallest index whose offset is above `target`, or the last index. */
  ghost predicate IsFirstAbove(cumulative: seq<nat>, target: real, r: nat) {
    && r < |cumulative|
    && (forall k :: 0 <= k < r ==> cumulative[k] as real <= target)
    && (r == |cumulative| - 1 || cumulative[r] as real > target)
  }

  lemma {:induction false} ScanFinds(cumulative: seq<nat>, target: real, from: nat)
    requires from < |cumulative| && forall k :: 0 <= k < from ==> cumulative[k] as real <= target
    ensures IsFirstAbove(cumulative, target, ScanFrom(cumulative, target, from))
    decreases |cumulative| - from
  {
    if !(from == |cumulative| - 1 || cumulative[from] as real > target) {
      ScanFinds(cumulative, target, from + 1);
    }
  }

  lemma NotBefore(cumulative: seq<nat>, target: real, r: nat, k: nat)
    requires IsFirstAbove(cumulative, target, r) && k < |cumulative|
    ensures k < r ==> cumulative[k] as real <= target
  {
  }

  lemma ScanIsFirst(cumulative: seq<nat>, target: real, r: nat)
    requires cumulative != []
    ensures IsFirstAbove(cumulative, target, r) <==> r == FirstAbove(cumulative, target)
  {
    ScanFinds(cumulative, target, 0);
    var found := FirstAbove(cumulative, target);
    if IsFirstAbove(cumulative, target, r) {
      NotBefore(cumulative, target, found, r);
      NotBefore(cumulative, target, r, found);
    }
  }

  /** Halving the table finds what a scan of it finds. */
  method FirstIndexAbove(cumulative: seq<nat>, target: real) returns (low: nat)
    requires Table(cumulative)
    ensures low == FirstAbove(cumulative, target)
  {
    low := 0;
    var high := |cumulative| - 1;
    while low < high
      invariant 0 <= low <= high < |cumulative|
      invariant forall k :: 0 <= k < low ==> cumulative[k] as real <= target
      invariant high == |cumulative| - 1 || cumulative[high] as real > target
    {
      var mid := (low + high) / 2;
      if cumulative[mid] as real <= target {
        Rising(cumulative, mid);
        low := mid + 1;
      } else {
        high := mid;
      }
    }
    ScanIsFirst(cumulative, target, low);
  }

  lemma Rising(cumulative: seq<nat>, mid: nat)
    requires Table(cumulative) && mid < |cumulative|
    ensures forall k :: 0 <= k <= mid ==> cumulative[k] <= cumulative[mid]
  {
  }

  // ------------------------------------------------------------------------------
  // The window
  // ------------------------------------------------------------------------------

  datatype Window = Window(start: nat, end: nat, virtualized: bool, topSpacer: int, bottomSpacer: int)

  function Max(a: int, b: int): int { if a < b then b else a }

  function Min(a: int, b: int): int { if b < a then b else a }

  /** The viewport's top edge on the table: a table below the edge is one not scrolled yet. */
  function TopEdge(scrollOffset: real): real {
    if scrollOffset < 0.0 then 0.0 else scrollOffset
  }

  function FirstMounted(cumulative: seq<nat>, top: real, overscan: nat): nat
    requires cumulative != []
  {
    Max(0, FirstAbove(cumulative, top) - 1 - overscan)
  }

  function MountedEnd(cumulative: seq<nat>, bottom: real, overscan: nat): nat
    requires cumulative != []
  {
    Min(|cumulative| - 1, FirstAbove(cumulative, bottom) + overscan)
  }

  lemma WithinTheTable(cumulative: seq<nat>, target: real, overscan: nat)
    requires cumulative != []
    ensures FirstMounted(cumulative, target, overscan) < |cumulative| && MountedEnd(cumulative, target, overscan) < |cumulative|
  {
    ScanIsFirst(cumulative, target, FirstAbove(cumulative, target));
  }

  function WindowOf(cumulative: seq<nat>, scrollOffset: real, viewport: real, overscan: nat): Window
    requires cumulative != []
  {
    var count := |cumulative| - 1;
    if viewport <= 0.0 || count == 0 then Window(0, count, false, 0, 0)
    else
      var top := TopEdge(scrollOffset);
      var start, end := FirstMounted(cumulative, top, overscan), MountedEnd(cumulative, top + viewport, overscan);
      WithinTheTable(cumulative, top, overscan);
      WithinTheTable(cumulative, top + viewport, overscan);
      Window(start, end, true, cumulative[start], cumulative[count] as int - cumulative[end] as int)
  }

  method SessionWindow(cumulative: seq<nat>, scrollOffset: real, viewport: real, overscan: nat) returns (window: Window)
    requires Table(cumulative)
    ensures window == WindowOf(cumulative, scrollOffset, viewport, overscan)
  {
    var count := |cumulative| - 1;
    if viewport <= 0.0 || count == 0 {
      return Window(0, count, false, 0, 0);
    }
    var top := TopEdge(scrollOffset);
    var bottom := top + viewport;
    var first := FirstIndexAbove(cumulative, top);
    var last := FirstIndexAbove(cumulative, bottom);
    var start, end := Max(0, first - 1 - overscan), Min(count, last + overscan);
    WithinTheTable(cumulative, top, overscan);
    WithinTheTable(cumulative, bottom, overscan);
    window := Window(start, end, true, cumulative[start], cumulative[count] as int - cumulative[end] as int);
  }
}
