/** How the window places the marks: one pass over them into a map of columns, the columns sorted,
    and a marker for each. */
module TimelinePass {
  import opened Timeline
  import opened TimelineLaws

  // ------------------------------------------------------------------------------
  // Sorting the columns
  // ------------------------------------------------------------------------------

  predicate Ascending(s: seq<int>) {
    forall i, j :: 0 <= i < j < |s| ==> s[i] < s[j]
  }

  predicate Distinct(keys: seq<int>) {
    forall i, j :: 0 <= i < j < |keys| ==> keys[i] != keys[j]
  }

  /** `x` put where it belongs among `s`. */
  function Inserted(s: seq<int>, x: int): seq<int> {
    if s == [] || x < s[0] then [x] + s else [s[0]] + Inserted(s[1..], x)
  }

  lemma {:induction false} InsertedMembers(s: seq<int>, x: int, y: int)
    ensures y in Inserted(s, x) <==> y in s || y == x
  {
    if !(s == [] || x < s[0]) {
      InsertedMembers(s[1..], x, y);
      assert s == [s[0]] + s[1..];
    }
  }

  lemma {:induction false} InsertedInOrder(s: seq<int>, x: int)
    requires Ascending(s) && x !in s
    ensures Ascending(Inserted(s, x))
  {
    if !(s == [] || x < s[0]) {
      InsertedInOrder(s[1..], x);
      forall y | y in Inserted(s[1..], x)
        ensures s[0] < y
      {
        InsertedMembers(s[1..], x, y);
      }
      AscendingFrom(s[0], Inserted(s[1..], x));
    }
  }

  lemma AscendingFrom(least: int, s: seq<int>)
    requires Ascending(s) && forall y :: y in s ==> least < y
    ensures Ascending([least] + s)
  {
    assert forall i :: 0 <= i < |s| ==> s[i] in s;
  }

  /** The map's keys, smallest first. */
  function Sorted(keys: seq<int>): seq<int> {
    if keys == [] then [] else Inserted(Sorted(keys[1..]), keys[0])
  }

  lemma {:induction false} SortedMembers(keys: seq<int>, y: int)
    ensures y in Sorted(keys) <==> y in keys
  {
    if keys != [] {
      SortedMembers(keys[1..], y);
      InsertedMembers(Sorted(keys[1..]), keys[0], y);
      assert keys == [keys[0]] + keys[1..];
    }
  }

  lemma {:induction false} SortedInOrder(keys: seq<int>)
    requires Distinct(keys)
    ensures Ascending(Sorted(keys))
  {
    if keys != [] {
      SortedInOrder(keys[1..]);
      SortedMembers(keys[1..], keys[0]);
      InsertedInOrder(Sorted(keys[1..]), keys[0]);
    }
  }

  lemma HasMembers(s: seq<int>)
    ensures s != [] <==> exists x :: x in s
  {
    if s != [] {
      var first := s[0];
      assert first in s;
    }
  }

  /** There is one way to put a set in order. */
  lemma {:induction false} OneOrder(a: seq<int>, b: seq<int>)
    requires Ascending(a) && Ascending(b) && forall x :: x in a <==> x in b
    ensures a == b
    decreases |a|
  {
    HasMembers(a);
    HasMembers(b);
    if a != [] {
      SameLast(a, b);
      var n, m := |a| - 1, |b| - 1;
      forall x
        ensures x in a[..n] <==> x in b[..m]
      {
        InFront(a, x);
        InFront(b, x);
      }
      OneOrder(a[..n], b[..m]);
      LastSplits(a);
      LastSplits(b);
    }
  }

  lemma SameLast(a: seq<int>, b: seq<int>)
    requires Ascending(a) && Ascending(b) && a != [] && b != []
    requires forall x :: x in a <==> x in b
    ensures a[|a| - 1] == b[|b| - 1]
  {
    assert a[|a| - 1] in a && b[|b| - 1] in b;
    var i :| 0 <= i < |b| && b[i] == a[|a| - 1];
    var j :| 0 <= j < |a| && a[j] == b[|b| - 1];
  }

  lemma InFront(s: seq<int>, x: int)
    requires Ascending(s) && s != []
    ensures x in s[..|s| - 1] <==> x in s && x != s[|s| - 1]
  {
  }

  // ------------------------------------------------------------------------------
  // One pass over the marks
  // ------------------------------------------------------------------------------

  /** What the map holds after `marks`: each occupied column, and what it accumulated. */
  ghost predicate Holds(lane: Lane, marks: seq<Mark>, occupied: map<int, Column>)
    requires Valid(lane)
  {
    forall c: int :: (c in occupied <==> Group(lane, marks, c) != [])
                     && (c in occupied ==> occupied[c] == Accumulated(Group(lane, marks, c)))
  }

  /** The map's keys, in the order they were first set. */
  ghost predicate Keys(keys: seq<int>, occupied: map<int, Column>) {
    Distinct(keys) && forall c :: c in keys <==> c in occupied
  }

  lemma KeysMore(keys: seq<int>, occupied: map<int, Column>, column: int, found: Column)
    requires Keys(keys, occupied)
    ensures Keys(if column in occupied then keys else keys + [column], occupied[column := found])
  {
  }

  lemma GroupGrows(lane: Lane, marks: seq<Mark>, mark: Mark, c: int)
    requires Valid(lane)
    ensures Group(lane, marks + [mark], c) == Group(lane, marks, c) + if InColumn(lane, mark, c) then [mark] else []
  {
  }

  lemma HoldsOff(lane: Lane, marks: seq<Mark>, mark: Mark, occupied: map<int, Column>)
    requires Valid(lane) && Holds(lane, marks, occupied) && !OnRecording(lane, mark)
    ensures Holds(lane, marks + [mark], occupied)
  {
    forall c
      ensures Group(lane, marks + [mark], c) == Group(lane, marks, c)
    {
      GroupGrows(lane, marks, mark, c);
    }
  }

  lemma HoldsMore(lane: Lane, marks: seq<Mark>, mark: Mark, occupied: map<int, Column>, found: Column)
    requires Valid(lane) && Holds(lane, marks, occupied) && OnRecording(lane, mark)
    requires var column := ColumnOf(lane, mark);
             found == if column in occupied then Joined(occupied[column], mark) else Started(mark)
    ensures Holds(lane, marks + [mark], occupied[ColumnOf(lane, mark) := found])
  {
    var column := ColumnOf(lane, mark);
    GroupGrows(lane, marks, mark, column);
    OneMoreAccumulated(Group(lane, marks, column), mark);
    forall c
      ensures Group(lane, marks + [mark], c) == if c == column then Group(lane, marks, column) + [mark] else Group(lane, marks, c)
    {
      GroupGrows(lane, marks, mark, c);
    }
    HoldsAfter(lane, marks, marks + [mark], column, occupied, found);
  }

  lemma OneMoreAccumulated(group: seq<Mark>, mark: Mark)
    ensures Accumulated(group + [mark]) == if group == [] then Started(mark) else Joined(Accumulated(group), mark)
  {
    assert (group + [mark])[..|group|] == group;
  }

  lemma HoldsAfter(lane: Lane, before: seq<Mark>, after: seq<Mark>, column: int, occupied: map<int, Column>, found: Column)
    requires Valid(lane) && Holds(lane, before, occupied)
    requires Group(lane, after, column) != [] && found == Accumulated(Group(lane, after, column))
    requires forall c :: c != column ==> Group(lane, after, c) == Group(lane, before, c)
    ensures Holds(lane, after, occupied[column := found])
  {
  }

  lemma CountOffGrows(lane: Lane, marks: seq<Mark>, mark: Mark)
    ensures CountOff(lane, marks + [mark]) == CountOff(lane, marks) + if OnRecording(lane, mark) then 0 else 1
  {
  }

  lemma NothingHeld(lane: Lane, marks: seq<Mark>)
    requires Valid(lane) && |marks| == 0
    ensures Holds(lane, marks, map[]) && CountOff(lane, marks) == 0
  {
  }

  /** What the pass has when `marks` are behind it. */
  ghost predicate Passed(lane: Lane, marks: seq<Mark>, occupied: map<int, Column>, keys: seq<int>, offRecording: nat)
    requires Valid(lane)
  {
    Holds(lane, marks, occupied) && Keys(keys, occupied) && offRecording == CountOff(lane, marks)
  }

  /** One pass over the marks: what each column accumulated, and the columns in the order met. */
  method Occupy(lane: Lane, marks: seq<Mark>) returns (occupied: map<int, Column>, keys: seq<int>, offRecording: nat)
    requires Valid(lane)
    ensures Passed(lane, marks, occupied, keys, offRecording)
  {
    occupied, keys, offRecording := map[], [], 0;
    ghost var seen: seq<Mark> := [];
    NothingHeld(lane, seen);
    for i := 0 to |marks|
      invariant seen == marks[..i]
      invariant Passed(lane, seen, occupied, keys, offRecording)
    {
      var mark := marks[i];
      CountOffGrows(lane, seen, mark);
      if OnRecording(lane, mark) {
        var column := ColumnOf(lane, mark);
        var found := if column in occupied then Joined(occupied[column], mark) else Started(mark);
        HoldsMore(lane, seen, mark, occupied, found);
        KeysMore(keys, occupied, column, found);
        if column !in occupied {
          keys := keys + [column];
        }
        occupied := occupied[column := found];
      } else {
        HoldsOff(lane, seen, mark, occupied);
        offRecording := offRecording + 1;
      }
      seen := seen + [mark];
    }
    assert seen == marks;
  }

  // ------------------------------------------------------------------------------
  // A marker for each column
  // ------------------------------------------------------------------------------

  lemma ColumnsInRange(lane: Lane, marks: seq<Mark>, c: int)
    requires Valid(lane) && Group(lane, marks, c) != []
    ensures 0 <= c < lane.columns
    decreases |marks|
  {
    var before, last := marks[..|marks| - 1], marks[|marks| - 1];
    if InColumn(lane, last, c) {
      ColumnsAreNatural(lane, last);
    } else {
      assert Group(lane, marks, c) == Group(lane, before, c);
      ColumnsInRange(lane, before, c);
    }
  }

  lemma GroupedInOrder(lane: Lane, marks: seq<Mark>)
    requires Valid(lane)
    ensures Ascending(OccupiedBelow(lane, marks, lane.columns))
  {
    var grouped := OccupiedBelow(lane, marks, lane.columns);
    forall i, j | 0 <= i < j < |grouped|
      ensures grouped[i] < grouped[j]
    {
      OccupiedInOrder(lane, marks, lane.columns, i, j);
    }
  }

  lemma GroupedMembers(lane: Lane, marks: seq<Mark>, occupied: map<int, Column>, x: int)
    requires Valid(lane) && Holds(lane, marks, occupied)
    ensures var grouped: seq<int> := OccupiedBelow(lane, marks, lane.columns);
            x in grouped <==> x in occupied
  {
    if x in occupied {
      ColumnsInRange(lane, marks, x);
    }
    if x >= 0 {
      OccupiedExactly(lane, marks, lane.columns, x);
    }
  }

  /** The occupied columns in order are the ones the grouping finds. */
  lemma SortedAreOccupied(lane: Lane, marks: seq<Mark>, occupied: map<int, Column>, keys: seq<int>)
    requires Valid(lane) && Holds(lane, marks, occupied) && Keys(keys, occupied)
    ensures Sorted(keys) == OccupiedBelow(lane, marks, lane.columns)
  {
    var grouped: seq<int> := OccupiedBelow(lane, marks, lane.columns);
    SortedInOrder(keys);
    GroupedInOrder(lane, marks);
    forall x
      ensures x in Sorted(keys) <==> x in grouped
    {
      SortedMembers(keys, x);
      GroupedMembers(lane, marks, occupied, x);
    }
    OneOrder(Sorted(keys), grouped);
  }

  function MarkersAt(lane: Lane, occupied: map<int, Column>, columns: seq<int>): seq<Marker>
    requires Valid(lane) && forall k :: 0 <= k < |columns| ==> columns[k] in occupied
  {
    seq(|columns|, k requires 0 <= k < |columns| => MarkerFor(lane, columns[k], occupied[columns[k]]))
  }

  lemma MarkersAgree(lane: Lane, marks: seq<Mark>, occupied: map<int, Column>, columns: seq<int>)
    requires Valid(lane) && Holds(lane, marks, occupied)
    requires columns == OccupiedBelow(lane, marks, lane.columns)
    ensures forall k :: 0 <= k < |columns| ==> columns[k] in occupied
    ensures MarkersAt(lane, occupied, columns) == MarkersBelow(lane, marks, lane.columns)
  {
  }

  method RecordingTimeline(marks: seq<Mark>, duration: Duration, columns: int) returns (view: TimelineView)
    ensures view == TimelineOf(marks, duration, columns)
  {
    if duration.NotFinite? || duration.length <= 0.0 || columns < 1 {
      return TimelineView([], |marks|, 0);
    }
    var lane := Lane(duration.length, columns);
    var occupied, keys, offRecording := Occupy(lane, marks);
    SortedAreOccupied(lane, marks, occupied, keys);
    MarkersAgree(lane, marks, occupied, Sorted(keys));
    view := TimelineView(MarkersAt(lane, occupied, Sorted(keys)), |marks|, offRecording);
  }
}
