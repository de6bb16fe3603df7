/** The key to the markers of a timeline: which origins they have, and how many of each
    (`originsPresent` of `apps/desktop/src/recordingMarks.ts`). */
module Legend {
  import opened Timeline

  datatype Tally = Tally(markers: nat, marks: nat)

  datatype OriginCount = OriginCount(origin: MarkerOrigin, tally: Tally)

  function Add(tally: Tally, marker: Marker): Tally {
    Tally(tally.markers + 1, tally.marks + marker.count)
  }

  /** How many markers have `origin`, and how many marks are under them. */
  function TallyOf(markers: seq<Marker>, origin: MarkerOrigin): Tally {
    if |markers| == 0 then Tally(0, 0)
    else
      var before, last := TallyOf(markers[..|markers| - 1], origin), markers[|markers| - 1];
      if last.origin == origin then Add(before, last) else before
  }

  function Entry(origin: MarkerOrigin, tally: Tally): seq<OriginCount> {
    if tally.markers == 0 then [] else [OriginCount(origin, tally)]
  }

  /** The origins of `order` that are drawn, each with its tally. */
  function LegendOver(markers: seq<Marker>, order: seq<MarkerOrigin>): seq<OriginCount> {
    if order == [] then [] else Entry(order[0], TallyOf(markers, order[0])) + LegendOver(markers, order[1..])
  }

  /** An order that does not change from one recording to the next. */
  function DrawingOrder(): seq<MarkerOrigin> {
    [One(Plugin), One(Clipped), One(You), Several]
  }

  function LegendOf(markers: seq<Marker>): seq<OriginCount> {
    LegendOver(markers, DrawingOrder())
  }

  // ------------------------------------------------------------------------------
  // One pass over the markers
  // ------------------------------------------------------------------------------

  ghost predicate Counted(markers: seq<Marker>, counted: map<MarkerOrigin, Tally>) {
    forall o :: (o in counted <==> TallyOf(markers, o).markers > 0) && (o in counted ==> counted[o] == TallyOf(markers, o))
  }

  lemma CountedMore(markers: seq<Marker>, marker: Marker, counted: map<MarkerOrigin, Tally>)
    requires Counted(markers, counted)
    ensures Counted(markers + [marker], counted[marker.origin := Add(TallyOf(markers, marker.origin), marker)])
  {
  }

  lemma {:induction false} NoMarkersNoMarks(markers: seq<Marker>, origin: MarkerOrigin)
    ensures TallyOf(markers, origin).markers == 0 ==> TallyOf(markers, origin) == Tally(0, 0)
  {
    if |markers| > 0 {
      NoMarkersNoMarks(markers[..|markers| - 1], origin);
    }
  }

  function Found(counted: map<MarkerOrigin, Tally>, origin: MarkerOrigin): Tally {
    if origin in counted then counted[origin] else Tally(0, 0)
  }

  lemma FoundIsTally(markers: seq<Marker>, counted: map<MarkerOrigin, Tally>, origin: MarkerOrigin)
    requires Counted(markers, counted)
    ensures Found(counted, origin) == TallyOf(markers, origin)
  {
    NoMarkersNoMarks(markers, origin);
  }

  /** The legend read off what was counted. */
  function Lines(counted: map<MarkerOrigin, Tally>, order: seq<MarkerOrigin>): seq<OriginCount> {
    if order == [] then [] else Entry(order[0], Found(counted, order[0])) + Lines(counted, order[1..])
  }

  lemma {:induction false} LinesAreTheLegend(markers: seq<Marker>, counted: map<MarkerOrigin, Tally>, order: seq<MarkerOrigin>)
    requires Counted(markers, counted)
    ensures Lines(counted, order) == LegendOver(markers, order)
  {
    if order != [] {
      FoundIsTally(markers, counted, order[0]);
      LinesAreTheLegend(markers, counted, order[1..]);
    }
  }

  method OriginsPresent(markers: seq<Marker>) returns (counts: seq<OriginCount>)
    ensures counts == LegendOf(markers)
  {
    var counted: map<MarkerOrigin, Tally> := map[];
    ghost var seen: seq<Marker> := [];
    for i := 0 to |markers|
      invariant seen == markers[..i]
      invariant Counted(seen, counted)
    {
      var marker := markers[i];
      FoundIsTally(seen, counted, marker.origin);
      CountedMore(seen, marker, counted);
      counted := counted[marker.origin := Add(Found(counted, marker.origin), marker)];
      seen := seen + [marker];
    }
    assert seen == markers;
    LinesAreTheLegend(markers, counted, DrawingOrder());
    counts := Lines(counted, DrawingOrder());
  }

  // ------------------------------------------------------------------------------
  // Nothing is lost between the markers and their legend
  // ------------------------------------------------------------------------------

  function Plus(a: Tally, b: Tally): Tally {
    Tally(a.markers + b.markers, a.marks + b.marks)
  }

  function Summed(counts: seq<OriginCount>): Tally {
    if counts == [] then Tally(0, 0) else Plus(counts[0].tally, Summed(counts[1..]))
  }

  predicate EachOnce(order: seq<MarkerOrigin>) {
    forall i, j :: 0 <= i < j < |order| ==> order[i] != order[j]
  }

  lemma SummedEntry(origin: MarkerOrigin, tally: Tally, rest: seq<OriginCount>)
    requires tally.markers == 0 ==> tally == Tally(0, 0)
    ensures Summed(Entry(origin, tally) + rest) == Plus(tally, Summed(rest))
  {
    if tally.markers == 0 {
      assert Entry(origin, tally) + rest == rest;
    } else {
      assert (Entry(origin, tally) + rest)[1..] == rest;
    }
  }

  lemma SummedOver(markers: seq<Marker>, order: seq<MarkerOrigin>)
    requires order != []
    ensures Summed(LegendOver(markers, order)) == Plus(TallyOf(markers, order[0]), Summed(LegendOver(markers, order[1..])))
  {
    NoMarkersNoMarks(markers, order[0]);
    SummedEntry(order[0], TallyOf(markers, order[0]), LegendOver(markers, order[1..]));
  }

  lemma {:induction false} SummedNothing(markers: seq<Marker>, order: seq<MarkerOrigin>)
    requires |markers| == 0
    ensures Summed(LegendOver(markers, order)) == Tally(0, 0)
  {
    if order != [] {
      SummedOver(markers, order);
      SummedNothing(markers, order[1..]);
    }
  }

  lemma {:induction false} OneMarkerMore(markers: seq<Marker>, marker: Marker, order: seq<MarkerOrigin>)
    requires EachOnce(order)
    ensures Summed(LegendOver(markers + [marker], order))
         == if marker.origin in order then Add(Summed(LegendOver(markers, order)), marker) else Summed(LegendOver(markers, order))
  {
    if order != [] {
      OneMarkerMore(markers, marker, order[1..]);
      OneLineMore(markers, markers + [marker], marker, order, Summed(LegendOver(markers, order[1..])),
                  Summed(LegendOver(markers + [marker], order[1..])));
      SummedOver(markers, order);
      SummedOver(markers + [marker], order);
    }
  }

  lemma OneLineMore(markers: seq<Marker>, after: seq<Marker>, marker: Marker, order: seq<MarkerOrigin>, rest: Tally,
                    restAfter: Tally)
    requires order != [] && EachOnce(order) && after == markers + [marker]
    requires restAfter == if marker.origin in order[1..] then Add(rest, marker) else rest
    ensures Plus(TallyOf(after, order[0]), restAfter)
         == if marker.origin in order then Add(Plus(TallyOf(markers, order[0]), rest), marker)
            else Plus(TallyOf(markers, order[0]), rest)
  {
  }

  lemma OrderIsComplete(origin: MarkerOrigin)
    ensures origin in DrawingOrder()
  {
    match origin
    case Several =>
    case One(You) =>
    case One(Clipped) =>
    case One(Plugin) =>
  }

  /** The legend accounts for every marker and every mark under one. */
  lemma {:induction false} LegendLosesNothing(markers: seq<Marker>)
    ensures Summed(LegendOf(markers)) == Tally(|markers|, TotalCount(markers))
  {
    if |markers| == 0 {
      SummedNothing(markers, DrawingOrder());
    } else {
      var before, last := markers[..|markers| - 1], markers[|markers| - 1];
      LegendLosesNothing(before);
      OneMarkerMore(before, last, DrawingOrder());
      OrderIsComplete(last.origin);
      assert markers == before + [last];
    }
  }

  lemma {:induction false} TalliedIsDrawn(markers: seq<Marker>, origin: MarkerOrigin)
    ensures TallyOf(markers, origin).markers > 0 <==> exists m :: m in markers && m.origin == origin
  {
    if |markers| > 0 {
      TalliedIsDrawn(markers[..|markers| - 1], origin);
      DrawnInFront(markers, origin);
    }
  }

  lemma DrawnInFront(markers: seq<Marker>, origin: MarkerOrigin)
    requires |markers| > 0
    ensures (exists m :: m in markers && m.origin == origin)
       <==> markers[|markers| - 1].origin == origin || exists m :: m in markers[..|markers| - 1] && m.origin == origin
  {
    var last := markers[|markers| - 1];
    assert last in markers;
    assert forall m :: m in markers <==> m in markers[..|markers| - 1] || m == last by {
      assert markers == markers[..|markers| - 1] + [last];
    }
  }

  lemma {:induction false} LineForEach(markers: seq<Marker>, order: seq<MarkerOrigin>, line: OriginCount)
    ensures line in LegendOver(markers, order)
       <==> line.origin in order && line.tally == TallyOf(markers, line.origin) && line.tally.markers > 0
  {
    if order != [] {
      LineForEach(markers, order[1..], line);
      assert order == [order[0]] + order[1..];
    }
  }

  /** It has a line for an origin exactly when some marker has that origin, and the line is that
      origin's tally. */
  lemma LegendListsWhatIsDrawn(markers: seq<Marker>, line: OriginCount)
    ensures line in LegendOf(markers)
       <==> line.tally == TallyOf(markers, line.origin) && exists m :: m in markers && m.origin == line.origin
  {
    OrderIsComplete(line.origin);
    LineForEach(markers, DrawingOrder(), line);
    TalliedIsDrawn(markers, line.origin);
  }

  // ------------------------------------------------------------------------------
  // Each line, spelled out
  // ------------------------------------------------------------------------------

  /** The markers of one origin. */
  function Having(markers: seq<Marker>, origin: MarkerOrigin): seq<Marker> {
    if markers == [] then []
    else Having(markers[..|markers| - 1], origin)
         + if markers[|markers| - 1].origin == origin then [markers[|markers| - 1]] else []
  }

  lemma {:induction false} HavingExactly(markers: seq<Marker>, origin: MarkerOrigin, m: Marker)
    ensures multiset(Having(markers, origin))[m] == if m.origin == origin then multiset(markers)[m] else 0
  {
    if markers != [] {
      HavingExactly(markers[..|markers| - 1], origin, m);
      assert markers == markers[..|markers| - 1] + [markers[|markers| - 1]];
    }
  }

  lemma TallyOfHaving(before: Tally, having: seq<Marker>, last: Marker, has: bool)
    requires before == Tally(|having|, TotalCount(having))
    ensures (if has then Add(before, last) else before)
         == Tally(|having + if has then [last] else []|, TotalCount(having + if has then [last] else []))
  {
    if has {
      TotalOfOneMore(having, last);
    } else {
      assert having + [] == having;
    }
  }

  /** An origin's tally is how many markers have it, and how many marks are under those. */
  lemma {:induction false} TallySpelledOut(markers: seq<Marker>, origin: MarkerOrigin)
    ensures TallyOf(markers, origin) == Tally(|Having(markers, origin)|, TotalCount(Having(markers, origin)))
  {
    if |markers| > 0 {
      var before, last := markers[..|markers| - 1], markers[|markers| - 1];
      TallySpelledOut(before, origin);
      TallyOfHaving(TallyOf(before, origin), Having(before, origin), last, last.origin == origin);
    }
  }

  /** Plugins first, then the application, then whoever typed, then the markers of several. */
  function Place(origin: MarkerOrigin): nat {
    match origin
    case One(Plugin) => 0
    case One(Clipped) => 1
    case One(You) => 2
    case Several => 3
  }

  predicate Rising(order: seq<MarkerOrigin>) {
    forall i, j :: 0 <= i < j < |order| ==> Place(order[i]) < Place(order[j])
  }

  lemma {:induction false} LinesFollow(markers: seq<Marker>, order: seq<MarkerOrigin>, i: nat, j: nat)
    requires Rising(order) && i < j < |LegendOver(markers, order)|
    ensures Place(LegendOver(markers, order)[i].origin) < Place(LegendOver(markers, order)[j].origin)
  {
    var first, rest := Entry(order[0], TallyOf(markers, order[0])), LegendOver(markers, order[1..]);
    if i >= |first| {
      LinesFollow(markers, order[1..], i - |first|, j - |first|);
    } else {
      LineOfOrder(markers, order[1..], j - |first|);
    }
  }

  lemma LineOfOrder(markers: seq<Marker>, order: seq<MarkerOrigin>, i: nat)
    requires i < |LegendOver(markers, order)|
    ensures exists k :: 0 <= k < |order| && LegendOver(markers, order)[i].origin == order[k]
  {
    LineForEach(markers, order, LegendOver(markers, order)[i]);
  }

  lemma OrderRises()
    ensures Rising(DrawingOrder())
  {
  }

  /** The lines are in that order. */
  lemma LegendInOrder(markers: seq<Marker>, i: nat, j: nat)
    requires i < j < |LegendOf(markers)|
    ensures Place(LegendOf(markers)[i].origin) < Place(LegendOf(markers)[j].origin)
  {
    OrderRises();
    LinesFollow(markers, DrawingOrder(), i, j);
  }
}
