/** Which part of the recording each marker stands for: the recording is cut into equally long columns, and
    a marker takes the marks of one. Everything here is said in nanoseconds and seconds, and of the marks. */
module TimelineIntervals {
  import opened Timeline
  import opened TimelineLaws

  function SecondsAt(mark: Mark): real {
    mark.at as real / 1000000000.0
  }

  /** A mark is in the part of a recording that column `c` of so many is, `[c, c + 1)` columns along it; the
      last column has the end of the recording too. */
  predicate Covers(length: real, columns: int, c: int, mark: Mark) {
    var at := SecondsAt(mark);
    && c as real * length <= at * columns as real
    && (at * columns as real < (c + 1) as real * length || (c == columns - 1 && at == length))
  }

  predicate Outside(length: real, mark: Mark) {
    SecondsAt(mark) < 0.0 || SecondsAt(mark) > length
  }

  /** How many marks are in it. */
  function CountIn(length: real, columns: int, c: int, marks: seq<Mark>): nat {
    if marks == [] then 0
    else CountIn(length, columns, c, marks[..|marks| - 1]) + if Covers(length, columns, c, marks[|marks| - 1]) then 1 else 0
  }

  function CountOutside(length: real, marks: seq<Mark>): nat {
    if marks == [] then 0
    else CountOutside(length, marks[..|marks| - 1]) + if Outside(length, marks[|marks| - 1]) then 1 else 0
  }

  // ------------------------------------------------------------------------------
  // Columns are intervals
  // ------------------------------------------------------------------------------

  lemma Multiplied(a: real, b: real, length: real)
    requires length > 0.0
    ensures a <= b <==> a * length <= b * length
  {
    if a <= b {
      assert (b - a) * length >= 0.0;
    } else {
      assert (a - b) * length > 0.0;
    }
  }

  /** How far along a mark is, in columns, and in seconds times columns. */
  lemma Along(at: real, length: real, columns: real)
    requires length > 0.0
    ensures at / length * columns * length == at * columns
  {
    assert at / length * length == at;
  }

  /** Said of `along`: the column is its whole part, or the last. */
  lemma WholePart(along: real, columns: int, c: int, inside: bool, from: bool, before: bool, end: bool)
    requires 0 <= c < columns
    requires inside <==> 0.0 <= along <= columns as real
    requires (from <==> c as real <= along) && (before <==> along < (c + 1) as real) && (end <==> along == columns as real)
    ensures inside && (if along.Floor < columns - 1 then along.Floor else columns - 1) == c
       <==> from && (before || (c == columns - 1 && end))
  {
  }

  /** Comparing how far along a mark is with a number of columns is comparing seconds times columns. */
  lemma Compared(along: real, x: real, k: real, length: real)
    requires length > 0.0 && along * length == x
    ensures k <= along <==> k * length <= x
    ensures along <= k <==> x <= k * length
  {
    Multiplied(k, along, length);
    Multiplied(along, k, length);
  }

  lemma OnRecordingExactly(at: real, along: real, columns: real, length: real)
    requires length > 0.0 && columns >= 1.0 && along * length == at * columns
    ensures 0.0 <= at <= length <==> 0.0 <= along <= columns
    ensures at == length <==> along == columns
  {
    Compared(along, at * columns, 0.0, length);
    Compared(along, at * columns, columns, length);
    Multiplied(0.0, at, columns);
    Multiplied(at, length, columns);
    Multiplied(length, at, columns);
  }

  lemma IntervalExactly(at: real, along: real, x: real, length: real, columns: int, c: int)
    requires length > 0.0 && 0 <= c < columns && x == at * columns as real && along * length == x
    ensures 0.0 <= at <= length && (if along.Floor < columns - 1 then along.Floor else columns - 1) == c
       <==> c as real * length <= x && (x < (c + 1) as real * length || (c == columns - 1 && at == length))
  {
    OnRecordingExactly(at, along, columns as real, length);
    var low, high := c as real * length, (c + 1) as real * length;
    Compared(along, x, c as real, length);
    Compared(along, x, (c + 1) as real, length);
    WholePart(along, columns, c, 0.0 <= at <= length, low <= x, x < high, at == length);
  }

  /** A column of the lane is the interval it is said to be. */
  lemma InColumnExactly(lane: Lane, mark: Mark, c: int)
    requires Valid(lane) && 0 <= c < lane.columns
    ensures InColumn(lane, mark, c) <==> Covers(lane.length, lane.columns, c, mark)
  {
    var at, n := SecondsAt(mark), lane.columns as real;
    Along(at, lane.length, n);
    IntervalExactly(at, at / lane.length * n, at * n, lane.length, lane.columns, c);
  }

  lemma {:induction false} CountInIsGroup(lane: Lane, marks: seq<Mark>, c: int)
    requires Valid(lane) && 0 <= c < lane.columns
    ensures CountIn(lane.length, lane.columns, c, marks) == |Group(lane, marks, c)|
  {
    if marks != [] {
      CountInIsGroup(lane, marks[..|marks| - 1], c);
      InColumnExactly(lane, marks[|marks| - 1], c);
    }
  }

  lemma {:induction false} CountOutsideIsOff(lane: Lane, marks: seq<Mark>)
    ensures CountOutside(lane.length, marks) == CountOff(lane, marks)
  {
    if marks != [] {
      CountOutsideIsOff(lane, marks[..|marks| - 1]);
    }
  }

  // ------------------------------------------------------------------------------
  // Markers are intervals that have marks
  // ------------------------------------------------------------------------------

  /** A marker for the marks of one column: it counts them all, seeks to the earliest, and says whose they
      are when they agree. */
  ghost predicate MarkerOver(marks: seq<Mark>, length: real, columns: int, c: int, marker: Marker) {
    && marker.count == CountIn(length, columns, c, marks)
    && marker.mark in marks && Covers(length, columns, c, marker.mark)
    && marker.at == SecondsAt(marker.mark)
    && (forall m :: m in marks && Covers(length, columns, c, m) ==> marker.at <= SecondsAt(m))
    && marker.fraction * length == marker.at
    && forall o :: marker.origin == One(o) <==> forall m :: m in marks && Covers(length, columns, c, m) ==> OriginOf(m) == o
  }

  lemma MembersExactly(lane: Lane, marks: seq<Mark>, c: int, m: Mark)
    requires Valid(lane) && 0 <= c < lane.columns
    ensures m in Group(lane, marks, c) <==> m in marks && Covers(lane.length, lane.columns, c, m)
  {
    GroupMembers(lane, marks, c, m);
    InColumnExactly(lane, m, c);
  }

  /** Said of any list of marks that are the column's. */
  lemma ShownIsOver(lane: Lane, marks: seq<Mark>, c: int, marker: Marker, group: seq<Mark>)
    requires Valid(lane) && Shows(lane, marker, group) && |group| == CountIn(lane.length, lane.columns, c, marks)
    requires forall m :: m in group <==> m in marks && Covers(lane.length, lane.columns, c, m)
    ensures MarkerOver(marks, lane.length, lane.columns, c, marker)
  {
    forall o
      ensures marker.origin == One(o) <==> forall m :: m in marks && Covers(lane.length, lane.columns, c, m) ==> OriginOf(m) == o
    {
      assert (forall m :: m in group ==> OriginOf(m) == o)
        <==> (forall m :: m in marks && Covers(lane.length, lane.columns, c, m) ==> OriginOf(m) == o);
    }
    assert marker.mark in group;
    Along(marker.at, lane.length, 1.0);
  }

  lemma MarkerIsOver(lane: Lane, marks: seq<Mark>, c: nat)
    requires Valid(lane) && c < lane.columns && Group(lane, marks, c) != []
    ensures MarkerOver(marks, lane.length, lane.columns, c, MarkerOf(lane, marks, c))
  {
    MarkerShowsGroup(lane, marks, c);
    CountInIsGroup(lane, marks, c);
    forall m
      ensures m in Group(lane, marks, c) <==> m in marks && Covers(lane.length, lane.columns, c, m)
    {
      MembersExactly(lane, marks, c, m);
    }
    ShownIsOver(lane, marks, c, MarkerOf(lane, marks, c), Group(lane, marks, c));
  }

  /** The markers of a recording are those of its columns that have marks, in order, and the marks it does
      not show are those in front of it and behind it. */
  lemma MarkersAreIntervals(marks: seq<Mark>, length: real, columns: int) returns (occupied: seq<int>)
    requires length > 0.0 && columns >= 1
    ensures forall i, j :: 0 <= i < j < |occupied| ==> occupied[i] < occupied[j]
    ensures forall c :: c in occupied <==> 0 <= c < columns && CountIn(length, columns, c, marks) > 0
    ensures |TimelineOf(marks, Seconds(length), columns).markers| == |occupied|
    ensures forall k :: 0 <= k < |occupied| ==>
              MarkerOver(marks, length, columns, occupied[k], TimelineOf(marks, Seconds(length), columns).markers[k])
    ensures TimelineOf(marks, Seconds(length), columns).offRecording == CountOutside(length, marks)
  {
    var lane := Lane(length, columns);
    occupied := OccupiedBelow(lane, marks, columns);
    CountOutsideIsOff(lane, marks);
    forall i, j | 0 <= i < j < |occupied|
      ensures occupied[i] < occupied[j]
    {
      OccupiedInOrder(lane, marks, columns, i, j);
    }
    forall c
      ensures c in occupied <==> 0 <= c < columns && CountIn(length, columns, c, marks) > 0
    {
      OccupiedByCount(lane, marks, c);
    }
    forall k | 0 <= k < |occupied|
      ensures MarkerOver(marks, length, columns, occupied[k], MarkersBelow(lane, marks, columns)[k])
    {
      MarkerIsOver(lane, marks, OccupiedBelow(lane, marks, columns)[k]);
    }
  }

  lemma OccupiedByCount(lane: Lane, marks: seq<Mark>, c: int)
    requires Valid(lane)
    ensures var occupied: seq<int> := OccupiedBelow(lane, marks, lane.columns);
            c in occupied <==> 0 <= c < lane.columns && CountIn(lane.length, lane.columns, c, marks) > 0
  {
    if 0 <= c < lane.columns {
      CountInIsGroup(lane, marks, c);
    }
    if c >= 0 {
      OccupiedExactly(lane, marks, lane.columns, c);
    }
  }

  /** Without a length to place them on, or a column to place them in, no mark has a marker and none is off
      the recording. */
  lemma NothingToPlaceThemOn(marks: seq<Mark>, duration: Duration, columns: int)
    requires duration.NotFinite? || duration.length <= 0.0 || columns < 1
    ensures TimelineOf(marks, duration, columns) == TimelineView([], |marks|, 0)
  {
  }

  /** Who a mark is from: whoever typed it, if its kind says that somebody did; the application, if its
      source is that or a part of that; and the plugin of that name otherwise. */
  lemma OriginsSpelledOut(mark: Mark, words: string)
    ensures OriginOf(mark.(kind := "user:" + words)) == You
    ensures OriginOf(mark) == You ==> exists rest :: mark.kind == "user:" + rest
    ensures OriginOf(mark) != You ==> OriginOf(mark.(source := "clipped")) == Clipped
    ensures OriginOf(mark) != You ==> OriginOf(mark.(source := "clipped." + words)) == Clipped
    ensures OriginOf(mark) == Clipped ==> mark.source == "clipped" || exists rest :: mark.source == "clipped." + rest
  {
    if OriginOf(mark) == You {
      assert mark.kind == "user:" + mark.kind[5..];
    }
    if OriginOf(mark) == Clipped && mark.source != "clipped" {
      assert mark.source == "clipped." + mark.source[8..];
    }
  }
}
