/** A recording's marks, placed on the recording (`apps/desktop/src/recordingMarks.ts`): what one
    pass over the marks accumulates, against grouping them by column.

    Positions are exact: seconds are rational numbers of nanoseconds, and nothing is rounded. */
module Timeline {
  import opened Decimal
  import Timecode

  datatype Mark = Mark(recording: string, at: int, kind: string, source: string)

  datatype Origin = You | Clipped | Plugin

  /** Who a marker's marks came from, or that they disagree. */
  datatype MarkerOrigin = One(origin: Origin) | Several

  /** A duration as the media element reports it; `NotFinite` is `NaN` or infinite. */
  datatype Duration = NotFinite | Seconds(length: real)

  datatype Marker = Marker(key: string, at: real, fraction: real, mark: Mark, count: nat, origin: MarkerOrigin)

  datatype TimelineView = TimelineView(markers: seq<Marker>, total: nat, offRecording: nat)

  /** A column as the pass fills it. */
  datatype Column = Column(at: real, mark: Mark, count: nat, origins: set<Origin>)

  predicate StartsWith(s: string, prefix: string) {
    |prefix| <= |s| && s[..|prefix|] == prefix
  }

  /** The application is the source of what somebody typed too, so the kind decides first. */
  function OriginOf(mark: Mark): Origin {
    if StartsWith(mark.kind, "user:") then You
    else if mark.source == "clipped" || StartsWith(mark.source, "clipped.") then Clipped
    else Plugin
  }

  function AtSeconds(mark: Mark): real {
    mark.at as real / Timecode.NANOS_PER_SECOND
  }

  /** A recording there is something to place marks against. */
  datatype Lane = Lane(length: real, columns: int)

  predicate Valid(lane: Lane) {
    lane.length > 0.0 && lane.columns >= 1
  }

  predicate OnRecording(lane: Lane, mark: Mark) {
    0.0 <= AtSeconds(mark) <= lane.length
  }

  /** A mark at the very end is in the last column, not in one past it. */
  function ColumnOf(lane: Lane, mark: Mark): int
    requires Valid(lane)
  {
    var column := (AtSeconds(mark) / lane.length * lane.columns as real).Floor;
    if column < lane.columns - 1 then column else lane.columns - 1
  }

  predicate InColumn(lane: Lane, mark: Mark, column: int)
    requires Valid(lane)
  {
    OnRecording(lane, mark) && ColumnOf(lane, mark) == column
  }

  // ------------------------------------------------------------------------------
  // Grouping by column
  // ------------------------------------------------------------------------------

  /** The marks of one column, in the order they came. */
  function Group(lane: Lane, marks: seq<Mark>, column: int): seq<Mark>
    requires Valid(lane)
  {
    if marks == [] then []
    else
      var last := marks[|marks| - 1];
      Group(lane, marks[..|marks| - 1], column) + if InColumn(lane, last, column) then [last] else []
  }

  function CountOff(lane: Lane, marks: seq<Mark>): nat {
    if marks == [] then 0
    else CountOff(lane, marks[..|marks| - 1]) + if OnRecording(lane, marks[|marks| - 1]) then 0 else 1
  }

  function Started(mark: Mark): Column {
    Column(AtSeconds(mark), mark, 1, {OriginOf(mark)})
  }

  function Joined(column: Column, mark: Mark): Column {
    var counted := column.(count := column.count + 1, origins := column.origins + {OriginOf(mark)});
    if AtSeconds(mark) < column.at then counted.(at := AtSeconds(mark), mark := mark) else counted
  }

  /** A column's marks, taken one after another. */
  function Accumulated(group: seq<Mark>): Column
    requires group != []
  {
    if |group| == 1 then Started(group[0])
    else Joined(Accumulated(group[..|group| - 1]), group[|group| - 1])
  }

  function KeyOf(column: int, mark: Mark): string {
    IntText(column) + "-" + mark.kind + "-" + IntText(mark.at)
  }

  function MarkerFor(lane: Lane, column: int, found: Column): Marker
    requires Valid(lane)
  {
    Marker(KeyOf(column, found.mark), found.at, found.at / lane.length, found.mark, found.count,
           if |found.origins| == 1 then One(TheOrigin(found.origins)) else Several)
  }

  function TheOrigin(origins: set<Origin>): Origin {
    if You in origins then You else if Clipped in origins then Clipped else Plugin
  }

  /** The columns below `upTo` that have marks, in order. */
  function OccupiedBelow(lane: Lane, marks: seq<Mark>, upTo: nat): (columns: seq<nat>)
    requires Valid(lane)
    ensures forall k :: 0 <= k < |columns| ==> columns[k] < upTo && Group(lane, marks, columns[k]) != []
  {
    if upTo == 0 then []
    else
      OccupiedBelow(lane, marks, upTo - 1) + if Group(lane, marks, upTo - 1) == [] then [] else [upTo - 1]
  }

  lemma {:induction false} OccupiedInOrder(lane: Lane, marks: seq<Mark>, upTo: nat, i: nat, j: nat)
    requires Valid(lane) && i < j < |OccupiedBelow(lane, marks, upTo)|
    ensures OccupiedBelow(lane, marks, upTo)[i] < OccupiedBelow(lane, marks, upTo)[j]
  {
    if j < |OccupiedBelow(lane, marks, upTo - 1)| {
      OccupiedInOrder(lane, marks, upTo - 1, i, j);
    }
  }

  lemma {:induction false} OccupiedExactly(lane: Lane, marks: seq<Mark>, upTo: nat, column: nat)
    requires Valid(lane)
    ensures column in OccupiedBelow(lane, marks, upTo) <==> column < upTo && Group(lane, marks, column) != []
  {
    if upTo > 0 {
      OccupiedExactly(lane, marks, upTo - 1, column);
    }
  }

  function MarkerOf(lane: Lane, marks: seq<Mark>, column: nat): Marker
    requires Valid(lane) && Group(lane, marks, column) != []
  {
    MarkerFor(lane, column, Accumulated(Group(lane, marks, column)))
  }

  /** The markers of the columns below `upTo`: one for each that has marks. */
  function MarkersBelow(lane: Lane, marks: seq<Mark>, upTo: nat): seq<Marker>
    requires Valid(lane)
  {
    var columns := OccupiedBelow(lane, marks, upTo);
    seq(|columns|, i requires 0 <= i < |columns| => MarkerOf(lane, marks, columns[i]))
  }

  predicate Placeable(duration: Duration, columns: int) {
    duration.Seconds? && duration.length > 0.0 && columns >= 1
  }

  /** The timeline of a recording, column by column. */
  function TimelineOf(marks: seq<Mark>, duration: Duration, columns: int): TimelineView {
    if !Placeable(duration, columns) then TimelineView([], |marks|, 0)
    else
      var lane := Lane(duration.length, columns);
      TimelineView(MarkersBelow(lane, marks, columns), |marks|, CountOff(lane, marks))
  }

  // ------------------------------------------------------------------------------
  // No mark is lost
  // ------------------------------------------------------------------------------

  function TotalCount(markers: seq<Marker>): nat {
    if markers == [] then 0 else TotalCount(markers[..|markers| - 1]) + markers[|markers| - 1].count
  }

  function GroupedBelow(lane: Lane, marks: seq<Mark>, upTo: nat): nat
    requires Valid(lane)
  {
    if upTo == 0 then 0 else GroupedBelow(lane, marks, upTo - 1) + |Group(lane, marks, upTo - 1)|
  }

  lemma {:induction false} AccumulatedCounts(group: seq<Mark>)
    requires group != []
    ensures Accumulated(group).count == |group|
  {
    if |group| > 1 {
      AccumulatedCounts(group[..|group| - 1]);
    }
  }

  lemma TotalOfOneMore(markers: seq<Marker>, last: Marker)
    ensures TotalCount(markers + [last]) == TotalCount(markers) + last.count
  {
  }

  lemma EmptyColumn(lane: Lane, marks: seq<Mark>, column: nat)
    requires Valid(lane) && Group(lane, marks, column) == []
    ensures MarkersBelow(lane, marks, column + 1) == MarkersBelow(lane, marks, column)
  {
  }

  lemma OccupiedColumn(lane: Lane, marks: seq<Mark>, column: nat)
    requires Valid(lane) && Group(lane, marks, column) != []
    ensures MarkersBelow(lane, marks, column + 1) == MarkersBelow(lane, marks, column) + [MarkerOf(lane, marks, column)]
  {
  }

  lemma {:induction false} MarkersCountGroups(lane: Lane, marks: seq<Mark>, upTo: nat)
    requires Valid(lane)
    ensures TotalCount(MarkersBelow(lane, marks, upTo)) == GroupedBelow(lane, marks, upTo)
    ensures |MarkersBelow(lane, marks, upTo)| <= upTo
  {
    if upTo > 0 {
      var column := upTo - 1;
      MarkersCountGroups(lane, marks, column);
      ColumnIsCounted(lane, marks, column);
    }
  }

  lemma ColumnIsCounted(lane: Lane, marks: seq<Mark>, column: nat)
    requires Valid(lane)
    ensures TotalCount(MarkersBelow(lane, marks, column + 1))
         == TotalCount(MarkersBelow(lane, marks, column)) + |Group(lane, marks, column)|
    ensures |MarkersBelow(lane, marks, column + 1)| <= |MarkersBelow(lane, marks, column)| + 1
  {
    if Group(lane, marks, column) == [] {
      EmptyColumn(lane, marks, column);
    } else {
      OccupiedColumn(lane, marks, column);
      AccumulatedCounts(Group(lane, marks, column));
      TotalOfOneMore(MarkersBelow(lane, marks, column), MarkerOf(lane, marks, column));
    }
  }

  lemma {:induction false} OneMarkMore(lane: Lane, marks: seq<Mark>, upTo: nat)
    requires Valid(lane) && marks != []
    ensures GroupedBelow(lane, marks, upTo)
         == GroupedBelow(lane, marks[..|marks| - 1], upTo)
            + if OnRecording(lane, marks[|marks| - 1]) && ColumnOf(lane, marks[|marks| - 1]) < upTo then 1 else 0
  {
    if OnRecording(lane, marks[|marks| - 1]) {
      ColumnsAreNatural(lane, marks[|marks| - 1]);
    }
    if upTo > 0 {
      OneMarkMore(lane, marks, upTo - 1);
    }
  }

  lemma ColumnsAreNatural(lane: Lane, mark: Mark)
    requires Valid(lane) && OnRecording(lane, mark)
    ensures 0 <= ColumnOf(lane, mark) < lane.columns
  {
    assert AtSeconds(mark) / lane.length >= 0.0;
    assert AtSeconds(mark) / lane.length * lane.columns as real >= 0.0;
  }

  lemma {:induction false} EveryMarkIsGrouped(lane: Lane, marks: seq<Mark>)
    requires Valid(lane)
    ensures GroupedBelow(lane, marks, lane.columns) + CountOff(lane, marks) == |marks|
  {
    if marks == [] {
      NothingGrouped(lane, lane.columns);
    } else {
      EveryMarkIsGrouped(lane, marks[..|marks| - 1]);
      OneMarkMore(lane, marks, lane.columns);
      if OnRecording(lane, marks[|marks| - 1]) {
        ColumnsAreNatural(lane, marks[|marks| - 1]);
      }
    }
  }

  lemma {:induction false} NothingGrouped(lane: Lane, upTo: nat)
    requires Valid(lane)
    ensures GroupedBelow(lane, [], upTo) == 0
  {
    if upTo > 0 {
      NothingGrouped(lane, upTo - 1);
    }
  }

  /** The marks under the markers and the marks off the recording are all the marks, exactly when
      there is a recording to place them on (or nothing to place); and there are at most as many
      markers as columns. */
  lemma NoMarkIsLost(marks: seq<Mark>, duration: Duration, columns: int)
    ensures var view := TimelineOf(marks, duration, columns);
            && view.total == |marks|
            && (TotalCount(view.markers) + view.offRecording == view.total <==> Placeable(duration, columns) || marks == [])
            && (columns >= 0 ==> |view.markers| <= columns)
  {
    if Placeable(duration, columns) {
      var lane := Lane(duration.length, columns);
      MarkersCountGroups(lane, marks, columns);
      EveryMarkIsGrouped(lane, marks);
    }
  }
}
