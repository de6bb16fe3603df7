/** What the markers of a timeline say about the marks, in whatever order the marks came. */
module TimelineLaws {
  import opened Decimal
  import opened Timeline

  // ------------------------------------------------------------------------------
  // A column's marks
  // ------------------------------------------------------------------------------

  lemma {:induction false} GroupMembers(lane: Lane, marks: seq<Mark>, column: int, mark: Mark)
    requires Valid(lane)
    ensures mark in Group(lane, marks, column) <==> mark in marks && InColumn(lane, mark, column)
  {
    if marks != [] {
      GroupMembers(lane, marks[..|marks| - 1], column, mark);
      assert marks == marks[..|marks| - 1] + [marks[|marks| - 1]];
    }
  }

  lemma {:induction false} GroupMultiplicity(lane: Lane, marks: seq<Mark>, column: int, mark: Mark)
    requires Valid(lane)
    ensures multiset(Group(lane, marks, column))[mark] == if InColumn(lane, mark, column) then multiset(marks)[mark] else 0
  {
    if marks != [] {
      GroupMultiplicity(lane, marks[..|marks| - 1], column, mark);
      assert marks == marks[..|marks| - 1] + [marks[|marks| - 1]];
    }
  }

  /** The earliest position in a group, held by the first mark to have it. */
  ghost predicate FirstEarliest(group: seq<Mark>, at: real, mark: Mark) {
    && at == AtSeconds(mark)
    && (forall m :: m in group ==> at <= AtSeconds(m))
    && exists i :: 0 <= i < |group| && group[i] == mark && forall j :: 0 <= j < i ==> at < AtSeconds(group[j])
  }

  ghost predicate Describes(found: Column, group: seq<Mark>) {
    && found.count == |group|
    && FirstEarliest(group, found.at, found.mark)
    && forall o :: o in found.origins <==> exists m :: m in group && OriginOf(m) == o
  }

  lemma JoinedDescribes(found: Column, group: seq<Mark>, mark: Mark)
    requires Describes(found, group)
    ensures Describes(Joined(found, mark), group + [mark])
  {
    var after, all := Joined(found, mark), group + [mark];
    var i :| 0 <= i < |group| && group[i] == found.mark && forall j :: 0 <= j < i ==> found.at < AtSeconds(group[j]);
    var k := if AtSeconds(mark) < found.at then |group| else i;
    assert all[k] == after.mark && forall j :: 0 <= j < k ==> after.at < AtSeconds(all[j]);
    forall o
      ensures o in after.origins <==> exists m :: m in all && OriginOf(m) == o
    {
      assert mark in all;
      if o in found.origins {
        var m :| m in group && OriginOf(m) == o;
        assert m in all;
      }
      if m :| m in all && OriginOf(m) == o {
        assert m in group || m == mark;
      }
    }
  }

  lemma LastSplits<T>(s: seq<T>)
    requires s != []
    ensures s == s[..|s| - 1] + [s[|s| - 1]]
  {
  }

  /** One pass over a group finds its size, its earliest mark and who its marks came from. */
  lemma {:induction false} AccumulatedDescribes(group: seq<Mark>)
    requires group != []
    ensures Describes(Accumulated(group), group)
  {
    if |group| == 1 {
      assert group[0] in group;
    } else {
      var before, last := group[..|group| - 1], group[|group| - 1];
      AccumulatedDescribes(before);
      JoinedDescribes(Accumulated(before), before, last);
      LastSplits(group);
    }
  }

  lemma OneOriginIsIt(origins: set<Origin>, o: Origin)
    ensures |origins| == 1 && TheOrigin(origins) == o <==> origins == {o}
  {
    match o
    case You =>
      OnlyMember(origins, o);
    case Clipped =>
      OnlyMember(origins, o);
    case Plugin =>
      OnlyMember(origins, o);
  }

  lemma OnlyMember(origins: set<Origin>, o: Origin)
    ensures |origins| == 1 && o in origins <==> origins == {o}
    ensures |origins| == 1 ==> TheOrigin(origins) in origins
  {
    if |origins| == 1 {
      var only :| only in origins;
      assert |origins - {only}| == 0;
      assert origins == {only};
      assert only == You || only == Clipped || only == Plugin;
    }
  }

  /** A marker has one origin exactly when every mark under it has that origin. */
  lemma OriginIsAgreed(found: Column, group: seq<Mark>, lane: Lane, column: int, o: Origin)
    requires Valid(lane) && group != [] && Describes(found, group)
    ensures MarkerFor(lane, column, found).origin == One(o) <==> forall m :: m in group ==> OriginOf(m) == o
  {
    OneOriginIsIt(found.origins, o);
    assert group[0] in group && OriginOf(group[0]) in found.origins;
    if found.origins == {o} {
      forall m | m in group
        ensures OriginOf(m) == o
      {
        assert OriginOf(m) in found.origins;
      }
    }
  }

  // ------------------------------------------------------------------------------
  // Markers and columns
  // ------------------------------------------------------------------------------

  lemma ColumnsFollowTime(lane: Lane, one: Mark, other: Mark)
    requires Valid(lane) && AtSeconds(one) <= AtSeconds(other)
    ensures ColumnOf(lane, one) <= ColumnOf(lane, other)
  {
    var a, b, d, n := AtSeconds(one), AtSeconds(other), lane.length, lane.columns as real;
    QuotientsFollow(a, b, d);
    ProductsFollow(a / d, b / d, n);
  }

  lemma QuotientsFollow(a: real, b: real, d: real)
    requires a <= b && d > 0.0
    ensures a / d <= b / d
  {
    assert b / d - a / d == (b - a) / d;
  }

  lemma ProductsFollow(a: real, b: real, n: real)
    requires a <= b && n >= 0.0
    ensures a * n <= b * n
  {
    assert (b - a) * n >= 0.0;
  }

  lemma EarliestIsInColumn(lane: Lane, marks: seq<Mark>, column: int)
    requires Valid(lane) && Group(lane, marks, column) != []
    ensures var found := Accumulated(Group(lane, marks, column));
            found.at == AtSeconds(found.mark) && found.mark in marks && InColumn(lane, found.mark, column)
  {
    var group := Group(lane, marks, column);
    AccumulatedDescribes(group);
    GroupMembers(lane, marks, column, Accumulated(group).mark);
  }

  lemma LaterColumnLaterMark(lane: Lane, marks: seq<Mark>, one: nat, other: nat)
    requires Valid(lane) && one < other && Group(lane, marks, one) != [] && Group(lane, marks, other) != []
    ensures MarkerOf(lane, marks, one).at < MarkerOf(lane, marks, other).at
  {
    EarliestIsInColumn(lane, marks, one);
    EarliestIsInColumn(lane, marks, other);
    var a, b := Accumulated(Group(lane, marks, one)).mark, Accumulated(Group(lane, marks, other)).mark;
    if AtSeconds(b) <= AtSeconds(a) {
      ColumnsFollowTime(lane, b, a);
    }
  }

  /** Markers are in strictly increasing order of the positions they seek to. */
  lemma MarkersFollowTime(lane: Lane, marks: seq<Mark>, upTo: nat, i: nat, j: nat)
    requires Valid(lane) && i < j < |MarkersBelow(lane, marks, upTo)|
    ensures MarkersBelow(lane, marks, upTo)[i].at < MarkersBelow(lane, marks, upTo)[j].at
  {
    var columns := OccupiedBelow(lane, marks, upTo);
    OccupiedInOrder(lane, marks, upTo, i, j);
    LaterColumnLaterMark(lane, marks, columns[i], columns[j]);
  }

  /** A marker as the column's marks have it. */
  ghost predicate Shows(lane: Lane, marker: Marker, group: seq<Mark>)
    requires Valid(lane)
  {
    && marker.count == |group|
    && FirstEarliest(group, marker.at, marker.mark)
    && marker.fraction == marker.at / lane.length
    && forall o :: marker.origin == One(o) <==> forall m :: m in group ==> OriginOf(m) == o
  }

  lemma MarkerShowsGroup(lane: Lane, marks: seq<Mark>, column: nat)
    requires Valid(lane) && Group(lane, marks, column) != []
    ensures Shows(lane, MarkerOf(lane, marks, column), Group(lane, marks, column))
  {
    var group := Group(lane, marks, column);
    AccumulatedDescribes(group);
    forall o
      ensures MarkerOf(lane, marks, column).origin == One(o) <==> forall m :: m in group ==> OriginOf(m) == o
    {
      OriginIsAgreed(Accumulated(group), group, lane, column, o);
    }
  }

  /** One marker for each of the columns that have marks and no other, in order, each seeking to its
      column's earliest mark and counting and attributing all of them. */
  ghost predicate ShowsColumns(lane: Lane, marks: seq<Mark>, markers: seq<Marker>, occupied: seq<nat>)
    requires Valid(lane)
  {
    && (forall c: nat :: c in occupied <==> c < lane.columns && Group(lane, marks, c) != [])
    && |markers| == |occupied|
    && (forall i, j :: 0 <= i < j < |markers| ==> occupied[i] < occupied[j] && markers[i].at < markers[j].at)
    && forall k :: 0 <= k < |markers| ==> Shows(lane, markers[k], Group(lane, marks, occupied[k]))
  }

  /** The timeline of a recording groups its marks by column. */
  lemma TimelineGroupsByColumn(marks: seq<Mark>, duration: Duration, columns: int)
    requires Placeable(duration, columns)
    ensures var lane := Lane(duration.length, columns);
            ShowsColumns(lane, marks, TimelineOf(marks, duration, columns).markers, OccupiedBelow(lane, marks, columns))
  {
    MarkersShowColumns(Lane(duration.length, columns), marks);
  }

  lemma MarkersShowColumns(lane: Lane, marks: seq<Mark>)
    requires Valid(lane)
    ensures ShowsColumns(lane, marks, MarkersBelow(lane, marks, lane.columns), OccupiedBelow(lane, marks, lane.columns))
  {
    var occupied, markers := OccupiedBelow(lane, marks, lane.columns), MarkersBelow(lane, marks, lane.columns);
    forall c: nat
      ensures c in occupied <==> c < lane.columns && Group(lane, marks, c) != []
    {
      OccupiedExactly(lane, marks, lane.columns, c);
    }
    forall k | 0 <= k < |markers|
      ensures Shows(lane, markers[k], Group(lane, marks, occupied[k]))
    {
      MarkerShowsGroup(lane, marks, occupied[k]);
    }
    forall i, j | 0 <= i < j < |markers|
      ensures occupied[i] < occupied[j] && markers[i].at < markers[j].at
    {
      OccupiedInOrder(lane, marks, lane.columns, i, j);
      MarkersFollowTime(lane, marks, lane.columns, i, j);
    }
  }

  // ------------------------------------------------------------------------------
  // The order the marks come in
  // ------------------------------------------------------------------------------

  lemma GroupsPermute(lane: Lane, marks: seq<Mark>, others: seq<Mark>, column: int)
    requires Valid(lane) && multiset(marks) == multiset(others)
    ensures multiset(Group(lane, marks, column)) == multiset(Group(lane, others, column))
  {
    forall m
      ensures multiset(Group(lane, marks, column))[m] == multiset(Group(lane, others, column))[m]
    {
      GroupMultiplicity(lane, marks, column, m);
      GroupMultiplicity(lane, others, column, m);
    }
  }

  lemma SameMembers(group: seq<Mark>, other: seq<Mark>)
    requires multiset(group) == multiset(other)
    ensures |group| == |other| && forall m :: m in group <==> m in other
  {
    assert |multiset(group)| == |group| && |multiset(other)| == |other|;
    assert forall m :: m in group <==> m in multiset(group);
    assert forall m :: m in other <==> m in multiset(other);
  }

  /** Everything about a marker but which of several equally early marks it carries. */
  predicate DrawnAlike(one: Marker, other: Marker) {
    one.at == other.at && one.fraction == other.fraction && one.count == other.count && one.origin == other.origin
  }

  lemma ShownAlike(lane: Lane, one: Marker, other: Marker, group: seq<Mark>, permuted: seq<Mark>)
    requires Valid(lane) && Shows(lane, one, group) && Shows(lane, other, permuted)
    requires multiset(group) == multiset(permuted)
    ensures DrawnAlike(one, other)
  {
    SameMembers(group, permuted);
    assert one.mark in group && other.mark in permuted;
    forall o
      ensures one.origin == One(o) <==> other.origin == One(o)
    {
      assert (one.origin == One(o)) == (forall m :: m in group ==> OriginOf(m) == o);
      assert (other.origin == One(o)) == (forall m :: m in permuted ==> OriginOf(m) == o);
    }
    SameOrigin(one.origin, other.origin);
  }

  lemma SameOrigin(a: MarkerOrigin, b: MarkerOrigin)
    requires forall o :: a == One(o) <==> b == One(o)
    ensures a == b
  {
    assert a.One? ==> b == One(a.origin);
    assert b.One? ==> a == One(b.origin);
  }

  lemma SameGroupSize(lane: Lane, marks: seq<Mark>, others: seq<Mark>, column: int)
    requires Valid(lane) && multiset(marks) == multiset(others)
    ensures |Group(lane, marks, column)| == |Group(lane, others, column)|
  {
    GroupsPermute(lane, marks, others, column);
    SameMembers(Group(lane, marks, column), Group(lane, others, column));
  }

  lemma {:induction false} SameColumnsGrouped(lane: Lane, marks: seq<Mark>, others: seq<Mark>, upTo: nat)
    requires Valid(lane) && forall c: nat :: |Group(lane, marks, c)| == |Group(lane, others, c)|
    ensures GroupedBelow(lane, marks, upTo) == GroupedBelow(lane, others, upTo)
  {
    if upTo > 0 {
      SameColumnsGrouped(lane, marks, others, upTo - 1);
    }
  }

  lemma {:induction false} SameColumnsOccupied(lane: Lane, marks: seq<Mark>, others: seq<Mark>, upTo: nat)
    requires Valid(lane) && forall c: nat :: Group(lane, marks, c) == [] <==> Group(lane, others, c) == []
    ensures OccupiedBelow(lane, marks, upTo) == OccupiedBelow(lane, others, upTo)
  {
    if upTo > 0 {
      SameColumnsOccupied(lane, marks, others, upTo - 1);
      OccupiedStep(lane, marks, upTo - 1);
      OccupiedStep(lane, others, upTo - 1);
      assert Group(lane, marks, upTo - 1) == [] <==> Group(lane, others, upTo - 1) == [];
    }
  }

  lemma OccupiedStep(lane: Lane, marks: seq<Mark>, column: nat)
    requires Valid(lane)
    ensures OccupiedBelow(lane, marks, column + 1)
         == OccupiedBelow(lane, marks, column) + if Group(lane, marks, column) == [] then [] else [column]
  {
  }

  /** The same marks in another order draw the same timeline, marker for marker. */
  lemma OrderDoesNotMatter(marks: seq<Mark>, others: seq<Mark>, duration: Duration, columns: int)
    requires multiset(marks) == multiset(others)
    ensures var view, other := TimelineOf(marks, duration, columns), TimelineOf(others, duration, columns);
            && view.total == other.total
            && view.offRecording == other.offRecording
            && |view.markers| == |other.markers|
            && forall k :: 0 <= k < |view.markers| ==> DrawnAlike(view.markers[k], other.markers[k])
  {
    SameMembers(marks, others);
    if Placeable(duration, columns) {
      var lane := Lane(duration.length, columns);
      forall c: nat
        ensures |Group(lane, marks, c)| == |Group(lane, others, c)|
      {
        SameGroupSize(lane, marks, others, c);
      }
      SameColumnsOccupied(lane, marks, others, columns);
      SameColumnsGrouped(lane, marks, others, columns);
      EveryMarkIsGrouped(lane, marks);
      EveryMarkIsGrouped(lane, others);
      var occupied := OccupiedBelow(lane, marks, columns);
      forall k | 0 <= k < |occupied|
        ensures DrawnAlike(MarkersBelow(lane, marks, columns)[k], MarkersBelow(lane, others, columns)[k])
      {
        var c := occupied[k];
        GroupsPermute(lane, marks, others, c);
        MarkerShowsGroup(lane, marks, c);
        MarkerShowsGroup(lane, others, c);
        ShownAlike(lane, MarkerOf(lane, marks, c), MarkerOf(lane, others, c), Group(lane, marks, c), Group(lane, others, c));
      }
    }
  }

  /** No two markers of a timeline have one key. */
  lemma KeysAreDistinct(marks: seq<Mark>, duration: Duration, columns: int, i: nat, j: nat)
    requires Placeable(duration, columns) && i < j < |TimelineOf(marks, duration, columns).markers|
    ensures TimelineOf(marks, duration, columns).markers[i].key != TimelineOf(marks, duration, columns).markers[j].key
  {
    var lane := Lane(duration.length, columns);
    var occupied := OccupiedBelow(lane, marks, columns);
    var a, b := occupied[i], occupied[j];
    OccupiedInOrder(lane, marks, columns, i, j);
    KeysTellColumnsApart(a, Accumulated(Group(lane, marks, a)).mark, b, Accumulated(Group(lane, marks, b)).mark);
  }

  lemma KeyStartsWithColumn(column: nat, mark: Mark)
    ensures KeyOf(column, mark) == Text(column) + ("-" + (mark.kind + "-" + IntText(mark.at)))
  {
  }

  lemma KeysTellColumnsApart(a: nat, m: Mark, b: nat, n: Mark)
    requires a != b
    ensures KeyOf(a, m) != KeyOf(b, n)
  {
    KeyStartsWithColumn(a, m);
    KeyStartsWithColumn(b, n);
    TextParses(a);
    TextParses(b);
    if KeyOf(a, m) == KeyOf(b, n) {
      NumberEnds(Text(a), "-" + (m.kind + "-" + IntText(m.at)), Text(b), "-" + (n.kind + "-" + IntText(n.at)));
    }
  }
}
