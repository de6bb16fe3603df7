/** What a scrolled table shows, against the table with every session in it. */
module WindowLaws {
  import opened VirtualWindow

  /** What a screen mounts of `sessions`, scrolled. */
  function Shown(sessions: seq<Session>, showsRecordings: bool, scrollOffset: real, viewport: real, overscan: nat): Window {
    WindowOf(CumulativeOf(sessions, showsRecordings), scrollOffset, viewport, overscan)
  }

  predicate Mounted(window: Window, i: nat) {
    window.start <= i < window.end
  }

  predicate Measured(sessions: seq<Session>, viewport: real) {
    viewport > 0.0 && sessions != []
  }

  /** Session `i` touches the viewport: it starts no lower than the bottom edge, and ends below the top one. */
  predicate Touches(cumulative: seq<nat>, top: real, bottom: real, i: int) {
    0 <= i < |cumulative| - 1 && cumulative[i] as real <= bottom && cumulative[i + 1] as real > top
  }

  // ------------------------------------------------------------------------------
  // The sessions at the two edges
  // ------------------------------------------------------------------------------

  lemma Edge(cumulative: seq<nat>, target: real)
    requires Table(cumulative) && |cumulative| > 1 && target >= 0.0
    ensures var last := FirstAbove(cumulative, target) - 1;
            && 0 <= last < |cumulative| - 1
            && (forall k :: 0 <= k <= last ==> cumulative[k] as real <= target)
            && (last + 1 == |cumulative| - 1 || cumulative[last + 1] as real > target)
  {
    ScanIsFirst(cumulative, target, FirstAbove(cumulative, target));
  }

  lemma EdgesFollow(cumulative: seq<nat>, target: real, lower: real)
    requires cumulative != [] && target <= lower
    ensures FirstAbove(cumulative, target) <= FirstAbove(cumulative, lower)
  {
    var first, last := FirstAbove(cumulative, target), FirstAbove(cumulative, lower);
    ScanIsFirst(cumulative, target, first);
    ScanIsFirst(cumulative, lower, last);
    NotBefore(cumulative, target, first, last);
  }

  lemma OffsetsRise(cumulative: seq<nat>, i: nat, j: nat)
    requires Table(cumulative) && i <= j < |cumulative|
    ensures cumulative[i] as real <= cumulative[j] as real
  {
    Rising(cumulative, j);
  }

  /** The offset found is above the target exactly when the target is inside the table. */
  lemma AboveExactly(cumulative: seq<nat>, target: real)
    requires Table(cumulative)
    ensures FirstAbove(cumulative, target) < |cumulative|
    ensures cumulative[FirstAbove(cumulative, target)] as real > target <==> target < cumulative[|cumulative| - 1] as real
  {
    ScanIsFirst(cumulative, target, FirstAbove(cumulative, target));
    OffsetsRise(cumulative, FirstAbove(cumulative, target), |cumulative| - 1);
  }

  lemma OffsetAt(sessions: seq<Session>, showsRecordings: bool, i: nat)
    requires i <= |sessions|
    ensures CumulativeOf(sessions, showsRecordings)[i] == HeightOf(sessions[..i], showsRecordings)
  {
  }

  // ------------------------------------------------------------------------------
  // What is mounted
  // ------------------------------------------------------------------------------

  /** The sessions that touch the viewport are those between the two edges. */
  lemma TouchedExactly(cumulative: seq<nat>, top: real, bottom: real, i: int)
    requires Table(cumulative) && |cumulative| > 1 && 0.0 <= top <= bottom
    requires top < cumulative[|cumulative| - 1] as real
    ensures Touches(cumulative, top, bottom, i) <==> FirstAbove(cumulative, top) - 1 <= i < FirstAbove(cumulative, bottom)
  {
    Edge(cumulative, top);
    Edge(cumulative, bottom);
    var first, last := FirstAbove(cumulative, top) - 1, FirstAbove(cumulative, bottom) - 1;
    if 0 <= i < |cumulative| - 1 {
      if first <= i {
        OffsetsRise(cumulative, first + 1, i + 1);
      } else {
        OffsetsRise(cumulative, i + 1, first);
      }
      if last < i {
        OffsetsRise(cumulative, last + 1, i);
      }
    }
  }

  lemma WindowEdges(cumulative: seq<nat>, scrollOffset: real, viewport: real, overscan: nat)
    requires Table(cumulative) && |cumulative| > 1 && viewport > 0.0
    ensures WindowOf(cumulative, scrollOffset, viewport, overscan).virtualized
    ensures WindowOf(cumulative, scrollOffset, viewport, overscan).start
         == Max(0, FirstAbove(cumulative, TopEdge(scrollOffset)) - 1 - overscan)
    ensures WindowOf(cumulative, scrollOffset, viewport, overscan).end
         == Min(|cumulative| - 1, FirstAbove(cumulative, TopEdge(scrollOffset) + viewport) + overscan)
  {
  }

  /** A session is near the viewport when it is within the overscan of one that touches it. */
  ghost predicate Near(cumulative: seq<nat>, top: real, bottom: real, overscan: nat, i: int) {
    exists k :: Touches(cumulative, top, bottom, k) && i - k <= overscan && k - i <= overscan
  }

  lemma NearExactly(cumulative: seq<nat>, top: real, bottom: real, overscan: nat, i: int)
    requires Table(cumulative) && |cumulative| > 1 && 0.0 <= top <= bottom
    requires top < cumulative[|cumulative| - 1] as real
    ensures Near(cumulative, top, bottom, overscan, i)
       <==> FirstAbove(cumulative, top) - 1 - overscan <= i < FirstAbove(cumulative, bottom) + overscan
  {
    var first, last := FirstAbove(cumulative, top) - 1, FirstAbove(cumulative, bottom) - 1;
    EdgesFollow(cumulative, top, bottom);
    forall k
      ensures Touches(cumulative, top, bottom, k) <==> first <= k <= last
    {
      TouchedExactly(cumulative, top, bottom, k);
    }
    if first - overscan <= i <= last + overscan {
      var k := Max(first, Min(i, last));
      assert Touches(cumulative, top, bottom, k);
    }
  }

  /** Scrolled anywhere in a table, the sessions mounted are exactly those near the viewport. */
  lemma MountedExactly(sessions: seq<Session>, showsRecordings: bool, scrollOffset: real, viewport: real, overscan: nat, i: nat)
    requires Measured(sessions, viewport) && i < |sessions|
    requires TopEdge(scrollOffset) < HeightOf(sessions, showsRecordings) as real
    ensures Mounted(Shown(sessions, showsRecordings, scrollOffset, viewport, overscan), i)
       <==> Near(CumulativeOf(sessions, showsRecordings), TopEdge(scrollOffset), TopEdge(scrollOffset) + viewport, overscan, i)
  {
    CumulativeIsTable(sessions, showsRecordings);
    TableHeight(sessions, showsRecordings);
    MountedFrom(CumulativeOf(sessions, showsRecordings), scrollOffset, viewport, overscan, i);
  }

  lemma MountedFrom(cumulative: seq<nat>, scrollOffset: real, viewport: real, overscan: nat, i: nat)
    requires Table(cumulative) && i < |cumulative| - 1 && viewport > 0.0
    requires TopEdge(scrollOffset) < cumulative[|cumulative| - 1] as real
    ensures Mounted(WindowOf(cumulative, scrollOffset, viewport, overscan), i)
       <==> Near(cumulative, TopEdge(scrollOffset), TopEdge(scrollOffset) + viewport, overscan, i)
  {
    WindowEdges(cumulative, scrollOffset, viewport, overscan);
    NearExactly(cumulative, TopEdge(scrollOffset), TopEdge(scrollOffset) + viewport, overscan, i);
  }

  /** Scrolled past the end of it, those mounted are the last session and the overscan above it. */
  lemma PastTheEnd(sessions: seq<Session>, showsRecordings: bool, scrollOffset: real, viewport: real, overscan: nat, i: nat)
    requires Measured(sessions, viewport) && i < |sessions|
    requires TopEdge(scrollOffset) >= HeightOf(sessions, showsRecordings) as real
    ensures Mounted(Shown(sessions, showsRecordings, scrollOffset, viewport, overscan), i) <==> |sessions| - 1 - overscan <= i
  {
    var cumulative, top := CumulativeOf(sessions, showsRecordings), TopEdge(scrollOffset);
    CumulativeIsTable(sessions, showsRecordings);
    TableHeight(sessions, showsRecordings);
    WindowEdges(cumulative, scrollOffset, viewport, overscan);
    AllBelow(cumulative, top);
    AllBelow(cumulative, top + viewport);
  }

  lemma AllBelow(cumulative: seq<nat>, target: real)
    requires Table(cumulative) && target >= cumulative[|cumulative| - 1] as real
    ensures FirstAbove(cumulative, target) == |cumulative| - 1
  {
    ScanIsFirst(cumulative, target, FirstAbove(cumulative, target));
    OffsetsRise(cumulative, FirstAbove(cumulative, target), |cumulative| - 1);
  }

  /** Scrolled anywhere at all, something is mounted, and nothing that intersects the viewport is missing. */
  lemma NothingSeenIsMissing(sessions: seq<Session>, showsRecordings: bool, scrollOffset: real, viewport: real, overscan: nat,
                             i: nat)
    requires Measured(sessions, viewport)
    ensures var window := Shown(sessions, showsRecordings, scrollOffset, viewport, overscan);
            && window.start < window.end <= |sessions|
            && (Touches(CumulativeOf(sessions, showsRecordings), TopEdge(scrollOffset), TopEdge(scrollOffset) + viewport, i)
                ==> window.start <= i < window.end)
  {
    var cumulative := CumulativeOf(sessions, showsRecordings);
    CumulativeIsTable(sessions, showsRecordings);
    WindowEdges(cumulative, scrollOffset, viewport, overscan);
    EdgesHoldTouched(cumulative, TopEdge(scrollOffset), TopEdge(scrollOffset) + viewport, i);
  }

  lemma EdgesHoldTouched(cumulative: seq<nat>, top: real, bottom: real, i: nat)
    requires Table(cumulative) && |cumulative| > 1 && 0.0 <= top <= bottom
    ensures 1 <= FirstAbove(cumulative, top) <= FirstAbove(cumulative, bottom) <= |cumulative| - 1
    ensures Touches(cumulative, top, bottom, i) ==> FirstAbove(cumulative, top) - 1 <= i < FirstAbove(cumulative, bottom)
  {
    Edge(cumulative, top);
    Edge(cumulative, bottom);
    EdgesFollow(cumulative, top, bottom);
    if Touches(cumulative, top, bottom, i) {
      OffsetsRise(cumulative, i + 1, |cumulative| - 1);
      TouchedExactly(cumulative, top, bottom, i);
    }
  }

  // ------------------------------------------------------------------------------
  // The height of the table
  // ------------------------------------------------------------------------------

  lemma ThreeParts(sessions: seq<Session>, showsRecordings: bool, start: nat, end: nat)
    requires start <= end <= |sessions|
    ensures HeightOf(sessions, showsRecordings)
         == HeightOf(sessions[..start], showsRecordings) + HeightOf(sessions[start..end], showsRecordings)
            + HeightOf(sessions[end..], showsRecordings)
  {
    HeightBetween(sessions, showsRecordings, start, end);
    assert sessions == sessions[..end] + sessions[end..];
    HeightsJoin(sessions[..end], sessions[end..], showsRecordings);
  }

  /** Each spacer is as tall as the sessions it stands for, and with the mounted ones they make up
      the whole table, so that scrolling never changes its height. */
  lemma SpacersStandForTheRest(sessions: seq<Session>, showsRecordings: bool, scrollOffset: real, viewport: real, overscan: nat)
    ensures var window := Shown(sessions, showsRecordings, scrollOffset, viewport, overscan);
            && window.start <= window.end <= |sessions|
            && window.topSpacer == HeightOf(sessions[..window.start], showsRecordings)
            && window.bottomSpacer == HeightOf(sessions[window.end..], showsRecordings)
            && window.topSpacer + HeightOf(sessions[window.start..window.end], showsRecordings) + window.bottomSpacer
               == HeightOf(sessions, showsRecordings)
            && (window.virtualized <==> viewport > 0.0 && sessions != [])
            && (!window.virtualized ==> window.start == 0 && window.end == |sessions|)
  {
    var window := Shown(sessions, showsRecordings, scrollOffset, viewport, overscan);
    if Measured(sessions, viewport) {
      NothingSeenIsMissing(sessions, showsRecordings, scrollOffset, viewport, overscan, 0);
      assert sessions[..|sessions|] == sessions;
      OffsetAt(sessions, showsRecordings, |sessions|);
      HeightBetween(sessions, showsRecordings, window.end, |sessions|);
    } else {
      assert sessions[0..|sessions|] == sessions;
    }
    ThreeParts(sessions, showsRecordings, window.start, window.end);
  }

  /** How many sessions are mounted is bounded by the viewport, whatever the library's size. */
  lemma WindowIsSmall(sessions: seq<Session>, showsRecordings: bool, scrollOffset: real, viewport: real, overscan: nat)
    requires Measured(sessions, viewport)
    ensures var window := Shown(sessions, showsRecordings, scrollOffset, viewport, overscan);
            (window.end - window.start) as real < viewport / 40.0 + 2.0 + 2.0 * overscan as real
  {
    var cumulative, top := CumulativeOf(sessions, showsRecordings), TopEdge(scrollOffset);
    CumulativeIsTable(sessions, showsRecordings);
    WindowEdges(cumulative, scrollOffset, viewport, overscan);
    EdgesAreClose(cumulative, top, viewport);
  }

  lemma EdgesAreClose(cumulative: seq<nat>, top: real, viewport: real)
    requires Table(cumulative) && |cumulative| > 1 && top >= 0.0 && viewport > 0.0
    ensures (FirstAbove(cumulative, top + viewport) - FirstAbove(cumulative, top) - 1) as real < viewport / ROW as real
  {
    Edge(cumulative, top);
    Edge(cumulative, top + viewport);
    EdgesFollow(cumulative, top, top + viewport);
    var first, last := FirstAbove(cumulative, top), FirstAbove(cumulative, top + viewport) - 1;
    if first <= last {
      assert cumulative[last] - cumulative[first] >= ROW * (last - first);
      RowsFit(cumulative[first], cumulative[last], last - first, top, viewport);
    }
  }

  lemma RowsFit(a: nat, b: nat, rows: nat, top: real, viewport: real)
    requires b - a >= ROW * rows && a as real > top && b as real <= top + viewport
    ensures rows as real < viewport / ROW as real
  {
    assert (b - a) as real < viewport;
    assert (ROW * rows) as real == 40.0 * rows as real;
  }

  // ------------------------------------------------------------------------------
  // Scrolling, and a library that grows
  // ------------------------------------------------------------------------------

  /** Scrolling down, and a viewport made taller, never take the window back. */
  lemma ScrollingDownMovesOn(sessions: seq<Session>, showsRecordings: bool, scrollOffset: real, further: real, viewport: real,
                             taller: real, overscan: nat)
    requires scrollOffset <= further && 0.0 < viewport <= taller
    ensures var window, after := Shown(sessions, showsRecordings, scrollOffset, viewport, overscan),
                                 Shown(sessions, showsRecordings, further, taller, overscan);
            window.start <= after.start && window.end <= after.end
  {
    var cumulative := CumulativeOf(sessions, showsRecordings);
    EdgesFollow(cumulative, TopEdge(scrollOffset), TopEdge(further));
    EdgesFollow(cumulative, TopEdge(scrollOffset) + viewport, TopEdge(further) + taller);
  }

  lemma OffsetsStay(sessions: seq<Session>, more: seq<Session>, showsRecordings: bool)
    ensures CumulativeOf(sessions + more, showsRecordings)[..|sessions| + 1] == CumulativeOf(sessions, showsRecordings)
  {
    var longer, shorter := CumulativeOf(sessions + more, showsRecordings), CumulativeOf(sessions, showsRecordings);
    forall i | 0 <= i <= |sessions|
      ensures longer[i] == shorter[i]
    {
      assert (sessions + more)[..i] == sessions[..i];
    }
  }

  /** A longer table is searched to the same place, or to its own end and beyond. */
  lemma LongerTable(cumulative: seq<nat>, longer: seq<nat>, target: real)
    requires cumulative != [] && |cumulative| <= |longer| && longer[..|cumulative|] == cumulative
    ensures FirstAbove(cumulative, target) <= FirstAbove(longer, target)
    ensures target < cumulative[|cumulative| - 1] as real ==> FirstAbove(longer, target) == FirstAbove(cumulative, target)
  {
    var was, r := FirstAbove(cumulative, target), FirstAbove(longer, target);
    ScanIsFirst(cumulative, target, was);
    ScanIsFirst(longer, target, r);
    assert forall k :: 0 <= k < |cumulative| ==> longer[k] == cumulative[k];
    if r < |cumulative| {
      NotBefore(cumulative, target, was, r);
    }
    if target < cumulative[|cumulative| - 1] as real {
      assert IsFirstAbove(longer, target, was);
      ScanIsFirst(longer, target, was);
    }
  }

  /** A page added below, while the viewport's top is inside the table, moves nothing above it and
      takes nothing away. */
  lemma AppendingMovesNothing(sessions: seq<Session>, more: seq<Session>, showsRecordings: bool, scrollOffset: real,
                              viewport: real, overscan: nat)
    requires viewport > 0.0 && TopEdge(scrollOffset) < HeightOf(sessions, showsRecordings) as real
    ensures var window, after := Shown(sessions, showsRecordings, scrollOffset, viewport, overscan),
                                 Shown(sessions + more, showsRecordings, scrollOffset, viewport, overscan);
            && after.start == window.start
            && after.topSpacer == window.topSpacer
            && after.end >= window.end
  {
    OffsetsStay(sessions, more, showsRecordings);
    TableHeight(sessions, showsRecordings);
    if sessions != [] {
      LongerTableShows(CumulativeOf(sessions, showsRecordings), CumulativeOf(sessions + more, showsRecordings), scrollOffset,
                       viewport, overscan);
    }
  }

  lemma TableHeight(sessions: seq<Session>, showsRecordings: bool)
    ensures CumulativeOf(sessions, showsRecordings)[|sessions|] == HeightOf(sessions, showsRecordings)
  {
    assert sessions[..|sessions|] == sessions;
  }

  lemma LongerTableShows(cumulative: seq<nat>, longer: seq<nat>, scrollOffset: real, viewport: real, overscan: nat)
    requires 1 < |cumulative| <= |longer| && longer[..|cumulative|] == cumulative
    requires viewport > 0.0 && TopEdge(scrollOffset) < cumulative[|cumulative| - 1] as real
    ensures var window, after := WindowOf(cumulative, scrollOffset, viewport, overscan),
                                 WindowOf(longer, scrollOffset, viewport, overscan);
            after.start == window.start && after.topSpacer == window.topSpacer && after.end >= window.end
  {
    LongerTable(cumulative, longer, TopEdge(scrollOffset));
    LongerTable(cumulative, longer, TopEdge(scrollOffset) + viewport);
    var start := FirstMounted(cumulative, TopEdge(scrollOffset), overscan);
    WithinTheTable(cumulative, TopEdge(scrollOffset), overscan);
    assert longer[start] == longer[..|cumulative|][start];
  }

  // ------------------------------------------------------------------------------
  // Spelled out in rows and pixels
  // ------------------------------------------------------------------------------

  function RecordingsIn(sessions: seq<Session>): nat {
    if sessions == [] then 0 else RecordingsIn(sessions[..|sessions| - 1]) + sessions[|sessions| - 1].recordings
  }

  /** Sessions are forty pixels tall each, and forty more for each recording where recordings are drawn. */
  lemma {:induction false} HeightInRows(sessions: seq<Session>, showsRecordings: bool)
    ensures HeightOf(sessions, showsRecordings) == 40 * (|sessions| + if showsRecordings then RecordingsIn(sessions) else 0)
  {
    if sessions != [] {
      HeightInRows(sessions[..|sessions| - 1], showsRecordings);
    }
  }

  /** Session `k`, at its height in the table, reaches into what the viewport shows. */
  predicate InView(sessions: seq<Session>, showsRecordings: bool, scrollOffset: real, viewport: real, k: int) {
    && 0 <= k < |sessions|
    && HeightOf(sessions[..k], showsRecordings) as real <= scrollOffset + viewport
    && HeightOf(sessions[..k + 1], showsRecordings) as real > scrollOffset
  }

  lemma InViewTouches(sessions: seq<Session>, showsRecordings: bool, scrollOffset: real, viewport: real, k: int)
    ensures InView(sessions, showsRecordings, scrollOffset, viewport, k)
       <==> Touches(CumulativeOf(sessions, showsRecordings), scrollOffset, scrollOffset + viewport, k)
  {
  }

  /** One in view, or at most the overscan from one. */
  ghost predicate NearView(sessions: seq<Session>, showsRecordings: bool, scrollOffset: real, viewport: real, overscan: nat, i: int) {
    exists k :: InView(sessions, showsRecordings, scrollOffset, viewport, k) && i - k <= overscan && k - i <= overscan
  }

  lemma NearViewIsNear(sessions: seq<Session>, showsRecordings: bool, scrollOffset: real, viewport: real, overscan: nat, i: int)
    ensures NearView(sessions, showsRecordings, scrollOffset, viewport, overscan, i)
       <==> Near(CumulativeOf(sessions, showsRecordings), scrollOffset, scrollOffset + viewport, overscan, i)
  {
    var cumulative := CumulativeOf(sessions, showsRecordings);
    if NearView(sessions, showsRecordings, scrollOffset, viewport, overscan, i) {
      var k :| InView(sessions, showsRecordings, scrollOffset, viewport, k) && i - k <= overscan && k - i <= overscan;
      InViewTouches(sessions, showsRecordings, scrollOffset, viewport, k);
    }
    if Near(cumulative, scrollOffset, scrollOffset + viewport, overscan, i) {
      var k :| Touches(cumulative, scrollOffset, scrollOffset + viewport, k) && i - k <= overscan && k - i <= overscan;
      InViewTouches(sessions, showsRecordings, scrollOffset, viewport, k);
    }
  }

  /** Scrolled to anywhere in a table, a session is mounted exactly when it is one of those in view, or at
      most the overscan from one. */
  lemma ScrolledTo(sessions: seq<Session>, showsRecordings: bool, scrollOffset: real, viewport: real, overscan: nat, i: nat)
    requires viewport > 0.0 && i < |sessions| && 0.0 <= scrollOffset < HeightOf(sessions, showsRecordings) as real
    ensures Mounted(Shown(sessions, showsRecordings, scrollOffset, viewport, overscan), i)
       <==> NearView(sessions, showsRecordings, scrollOffset, viewport, overscan, i)
  {
    var near := Near(CumulativeOf(sessions, showsRecordings), scrollOffset, scrollOffset + viewport, overscan, i);
    MountedAt(sessions, showsRecordings, scrollOffset, viewport, overscan, i, near);
    NearViewIsNear(sessions, showsRecordings, scrollOffset, viewport, overscan, i);
  }

  lemma MountedAt(sessions: seq<Session>, showsRecordings: bool, scrollOffset: real, viewport: real, overscan: nat, i: nat,
                  near: bool)
    requires viewport > 0.0 && i < |sessions| && 0.0 <= scrollOffset < HeightOf(sessions, showsRecordings) as real
    requires near == Near(CumulativeOf(sessions, showsRecordings), scrollOffset, scrollOffset + viewport, overscan, i)
    ensures Mounted(Shown(sessions, showsRecordings, scrollOffset, viewport, overscan), i) == near
  {
    assert TopEdge(scrollOffset) == scrollOffset;
    MountedExactly(sessions, showsRecordings, scrollOffset, viewport, overscan, i);
  }

  /** A table that has not been scrolled to yet is one at its top. */
  lemma NotScrolledTo(sessions: seq<Session>, showsRecordings: bool, scrollOffset: real, viewport: real, overscan: nat)
    requires scrollOffset <= 0.0
    ensures Shown(sessions, showsRecordings, scrollOffset, viewport, overscan)
         == Shown(sessions, showsRecordings, 0.0, viewport, overscan)
  {
  }
}
