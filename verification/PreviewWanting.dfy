/** Whether the preview queue knows who wants what: when `wanted` is the number of mounted rows
    still waiting, exactly which step breaks that, and what a broken count costs a row. */
module PreviewWanting {
  import opened PreviewQueue
  import opened PreviewRuns

  /** The mounted rows still waiting for `promise`. */
  function Waiters(rows: map<nat, Row>, promise: Promise): set<nat> {
    set r | r in rows && !rows[r].answered && rows[r].promise == promise
  }

  /** Every count in the map is the number of rows waiting. */
  predicate Counted(asked: Requests, rows: map<nat, Row>) {
    match asked
    case Nil => true
    case Cons(e, older) => e.wanted == |Waiters(rows, e.promise)| && Counted(older, rows)
  }

  /** Every mounted row without an answer has its request in the map. */
  predicate Served(s: System) {
    forall r :: r in s.rows && !s.rows[r].answered ==> s.rows[r].promise in Held(s.queue.asked)
  }

  predicate Sound(s: System) {
    Counted(s.queue.asked, s.rows) && Served(s)
  }

  /** A row that has had its answer goes away while a newer request for the same recording is
      in the map: `stopWanting` then takes one off a count the row was never part of. */
  predicate Stray(s: System, e: Event) {
    e.Unmount? && e.row in s.rows && s.rows[e.row].answered && Has(s.queue.asked, s.rows[e.row].promise.source)
  }

  // ------------------------------------------------------------------------------
  // Counts, entry by entry
  // ------------------------------------------------------------------------------

  /** `after` has the waiters `before` has, except for `mine`, which has `change` more. */
  ghost predicate Shifted(before: map<nat, Row>, after: map<nat, Row>, mine: Promise, change: int) {
    forall p :: |Waiters(after, p)| == |Waiters(before, p)| + if p == mine then change else 0
  }

  /** Rows that wait for nothing in the map may come and go. */
  lemma {:induction false} OthersCounted(asked: Requests, before: map<nat, Row>, after: map<nat, Row>,
                                         mine: Promise, change: int)
    requires Counted(asked, before) && Shifted(before, after, mine, change)
    requires mine !in Held(asked) || change == 0
    ensures Counted(asked, after)
  {
    if asked.Cons? {
      OthersCounted(asked.older, before, after, mine, change);
    }
  }

  /** Recounting an entry by as much as its waiters changed keeps every count right. */
  lemma {:induction false} RecountCounted(asked: Requests, issued: nat, before: map<nat, Row>, after: map<nat, Row>,
                                          source: Source, change: int)
    requires Entries(asked, issued) && Has(asked, source) && Counted(asked, before)
    requires Shifted(before, after, Get(asked, source).promise, change)
    ensures Counted(Recount(asked, source, change), after)
  {
    var mine := Get(asked, source).promise;
    if asked.newest.promise.source == source {
      if mine in Held(asked.older) {
        HeldHas(asked.older, mine);
      }
      OthersCounted(asked.older, before, after, mine, change);
    } else {
      RecountCounted(asked.older, issued, before, after, source, change);
    }
  }

  lemma {:induction false} DeleteCounted(asked: Requests, issued: nat, before: map<nat, Row>, after: map<nat, Row>,
                                         source: Source, change: int)
    requires Entries(asked, issued) && Has(asked, source) && Counted(asked, before)
    requires Shifted(before, after, Get(asked, source).promise, change)
    ensures Counted(Delete(asked, source), after)
  {
    var mine := Get(asked, source).promise;
    if asked.newest.promise.source == source {
      if mine in Held(asked.older) {
        HeldHas(asked.older, mine);
      }
      OthersCounted(asked.older, before, after, mine, change);
    } else {
      DeleteCounted(asked.older, issued, before, after, source, change);
    }
  }

  lemma {:induction false} DispatchCounted(asked: Requests, free: int, rows: map<nat, Row>)
    requires Counted(asked, rows)
    ensures Counted(Dispatch(asked, free), rows)
  {
    if asked.Cons? {
      DispatchCounted(asked.older, free, rows);
      DispatchCounted(asked.older, free - 1, rows);
    }
  }

  lemma {:induction false} GetCounted(asked: Requests, rows: map<nat, Row>, source: Source)
    requires Counted(asked, rows) && Has(asked, source)
    ensures Get(asked, source).wanted == |Waiters(rows, Get(asked, source).promise)|
  {
    if asked.newest.promise.source != source {
      GetCounted(asked.older, rows, source);
    }
  }

  /** Taking one off a count whose waiters are all still there makes it wrong. */
  lemma {:induction false} RecountMiscounts(asked: Requests, rows: map<nat, Row>, source: Source)
    requires Counted(asked, rows) && Has(asked, source)
    ensures !Counted(Recount(asked, source, -1), rows)
  {
    if asked.newest.promise.source != source {
      RecountMiscounts(asked.older, rows, source);
    }
  }

  // ------------------------------------------------------------------------------
  // Who waits, as rows come and go
  // ------------------------------------------------------------------------------

  lemma RowJoins(rows: map<nat, Row>, row: nat, mine: Promise)
    requires row !in rows
    ensures Shifted(rows, rows[row := Row(mine, false)], mine, 1)
  {
    forall p
      ensures |Waiters(rows[row := Row(mine, false)], p)| == |Waiters(rows, p)| + if p == mine then 1 else 0
    {
      WaitersJoin(rows, row, mine, p);
    }
  }

  lemma WaitersJoin(rows: map<nat, Row>, row: nat, mine: Promise, p: Promise)
    requires row !in rows
    ensures |Waiters(rows[row := Row(mine, false)], p)| == |Waiters(rows, p)| + if p == mine then 1 else 0
  {
    var more := rows[row := Row(mine, false)];
    if p == mine {
      assert Waiters(more, p) == Waiters(rows, p) + {row};
    } else {
      assert Waiters(more, p) == Waiters(rows, p);
    }
  }

  lemma RowLeaves(rows: map<nat, Row>, row: nat)
    requires row in rows
    ensures Shifted(rows, rows - {row}, rows[row].promise, if rows[row].answered then 0 else -1)
  {
    forall p
      ensures |Waiters(rows - {row}, p)|
           == |Waiters(rows, p)| + if p == rows[row].promise && !rows[row].answered then -1 else 0
    {
      if p == rows[row].promise && !rows[row].answered {
        assert row in Waiters(rows, p);
        assert Waiters(rows - {row}, p) == Waiters(rows, p) - {row};
      } else {
        assert Waiters(rows - {row}, p) == Waiters(rows, p);
      }
    }
  }

  lemma RowsAnswered(rows: map<nat, Row>, promise: Promise)
    ensures Shifted(rows, Answering(rows, promise), promise, -|Waiters(rows, promise)|)
  {
    forall p
      ensures |Waiters(Answering(rows, promise), p)| == if p == promise then 0 else |Waiters(rows, p)|
    {
      assert Waiters(Answering(rows, promise), p) == if p == promise then {} else Waiters(rows, p);
    }
  }

  lemma WaiterIsCounted(rows: map<nat, Row>, row: nat)
    requires row in rows && !rows[row].answered
    ensures |Waiters(rows, rows[row].promise)| >= 1
  {
    assert row in Waiters(rows, rows[row].promise);
  }

  // ------------------------------------------------------------------------------
  // One step: sound stays sound exactly when the step is not a stray release
  // ------------------------------------------------------------------------------

  lemma NobodyWaitsYet(s: System, promise: Promise)
    requires Conserved(s) && RowsCoherent(s) && promise.ticket == s.queue.issued
    ensures promise !in Held(s.queue.asked) && Waiters(s.rows, promise) == {}
  {
  }

  lemma FirstAskCounted(s: System, row: nat, source: Source)
    requires Inv(s) && Sound(s) && row !in s.rows && !Has(s.queue.asked, source)
    ensures Counted(Ask(s.queue, source).asked, s.rows[row := Row(Promise(source, s.queue.issued), false)])
  {
    var q, mine := s.queue, Promise(source, s.queue.issued);
    var rows := s.rows[row := Row(mine, false)];
    RowJoins(s.rows, row, mine);
    NobodyWaitsYet(s, mine);
    OthersCounted(q.asked, s.rows, rows, mine, 1);
    DispatchCounted(Cons(Entry(mine, 1, false), q.asked), CONCURRENT_PREVIEWS - q.inFlight, rows);
  }

  lemma MountStaysSound(s: System, row: nat, source: Source)
    requires Inv(s) && Sound(s) && row !in s.rows
    ensures Sound(Step(s, Mount(row, source)))
  {
    AskKeeps(s.queue, source);
    if Has(s.queue.asked, source) {
      var mine := Get(s.queue.asked, source).promise;
      RowJoins(s.rows, row, mine);
      RecountCounted(s.queue.asked, s.queue.issued, s.rows, s.rows[row := Row(mine, false)], source, 1);
    } else {
      FirstAskCounted(s, row, source);
    }
  }

  lemma SettledStaysSound(s: System, promise: Promise)
    requires Inv(s) && Sound(s) && promise in s.queue.wire
    ensures Sound(Step(s, Settled(promise)))
  {
    var q := s.queue;
    SentIsHeld(q.asked);
    GetHeld(q.asked, q.issued, promise);
    SettleKeeps(q, promise);
    RowsAnswered(s.rows, promise);
    DeleteCounted(q.asked, q.issued, s.rows, Answering(s.rows, promise), promise.source, -|Waiters(s.rows, promise)|);
    DispatchCounted(Delete(q.asked, promise.source), CONCURRENT_PREVIEWS - (q.inFlight - 1), Answering(s.rows, promise));
  }

  /** A row that was waiting goes away: its own count goes down with it. */
  lemma ReleaseStaysSound(s: System, row: nat)
    requires Inv(s) && Sound(s) && row in s.rows && !s.rows[row].answered
    ensures Sound(Step(s, Unmount(row)))
  {
    var q, mine, rows := s.queue, s.rows[row].promise, s.rows - {row};
    GetHeld(q.asked, q.issued, mine);
    StopWantingKeeps(q, mine.source);
    RowLeaves(s.rows, row);
    GetCounted(q.asked, s.rows, mine.source);
    if Dropping(q, mine.source) {
      DeleteCounted(q.asked, q.issued, s.rows, rows, mine.source, -1);
      forall r | r in rows && !rows[r].answered
        ensures rows[r].promise != mine
      {
        WaiterIsCounted(rows, r);
      }
    } else {
      RecountCounted(q.asked, q.issued, s.rows, rows, mine.source, -1);
    }
  }

  /** A row that had its answer goes away with nothing newer asked: nothing changes hands. */
  lemma QuietReleaseStaysSound(s: System, row: nat)
    requires Inv(s) && Sound(s) && row in s.rows && s.rows[row].answered && !Stray(s, Unmount(row))
    ensures Sound(Step(s, Unmount(row)))
  {
    RowLeaves(s.rows, row);
    OthersCounted(s.queue.asked, s.rows, s.rows - {row}, s.rows[row].promise, 0);
  }

  /** A mounted row with no answer and no request left to bring one. */
  predicate Stranded(s: System, row: nat) {
    row in s.rows && !s.rows[row].answered && s.rows[row].promise in s.dropped
  }

  /** A stray release always leaves a wrong count, or drops a request a mounted row waits for. */
  lemma StrayBreaks(s: System, row: nat)
    requires Inv(s) && Sound(s) && Stray(s, Unmount(row))
    ensures !Sound(Step(s, Unmount(row)))
    ensures if Dropping(s.queue, s.rows[row].promise.source)
            then exists k :: Stranded(Step(s, Unmount(row)), k)
            else Step(s, Unmount(row)).dropped == s.dropped && Served(Step(s, Unmount(row)))
  {
    var q, source := s.queue, s.rows[row].promise.source;
    var r := Step(s, Unmount(row));
    var theirs := Get(q.asked, source).promise;
    StopWantingKeeps(q, source);
    GetIsHeld(q.asked, q.issued, source);
    GetCounted(q.asked, s.rows, source);
    if Dropping(q, source) {
      assert |Waiters(s.rows, theirs)| >= 1;
      var k :| k in Waiters(s.rows, theirs);
      assert Stranded(r, k);
      assert !Served(r);
    } else {
      RowLeaves(s.rows, row);
      OthersCounted(q.asked, s.rows, s.rows - {row}, s.rows[row].promise, 0);
      RecountMiscounts(q.asked, s.rows - {row}, source);
    }
  }

  lemma StepSoundExactly(s: System, e: Event)
    requires Inv(s) && Sound(s) && Enabled(s, e)
    ensures Sound(Step(s, e)) <==> !Stray(s, e)
  {
    match e
    case Mount(row, source) => MountStaysSound(s, row, source);
    case Settled(promise) => SettledStaysSound(s, promise);
    case Unmount(row) =>
      if !s.rows[row].answered {
        ReleaseStaysSound(s, row);
      } else if Stray(s, e) {
        StrayBreaks(s, row);
      } else {
        QuietReleaseStaysSound(s, row);
      }
  }

  // ------------------------------------------------------------------------------
  // Whole runs
  // ------------------------------------------------------------------------------

  predicate SoundThroughout(s: System, events: seq<Event>)
    requires IsRun(s, events)
    decreases |events|
  {
    Sound(s) && (events != [] ==> SoundThroughout(Step(s, events[0]), events[1..]))
  }

  predicate NoStrayRelease(s: System, events: seq<Event>)
    requires IsRun(s, events)
    decreases |events|
  {
    events != [] ==> !Stray(s, events[0]) && NoStrayRelease(Step(s, events[0]), events[1..])
  }

  lemma StartIsSound(s: System)
    requires Initial(s)
    ensures Sound(s)
  {
  }

  lemma {:induction false} SoundFromHere(s: System, events: seq<Event>)
    requires Inv(s) && Sound(s) && IsRun(s, events)
    ensures SoundThroughout(s, events) <==> NoStrayRelease(s, events)
    decreases |events|
  {
    if events != [] {
      StepKeeps(s, events[0]);
      StepSoundExactly(s, events[0]);
      if !Stray(s, events[0]) {
        SoundFromHere(Step(s, events[0]), events[1..]);
      }
    }
  }

  /** In a run of the window, every count is right and every waiting row has its request, at every
      moment, exactly when no row that has its answer goes away while its recording is asked
      about anew. */
  lemma SoundExactlyWithoutStrays(s: System, events: seq<Event>)
    requires Initial(s) && IsRun(s, events)
    ensures SoundThroughout(s, events) <==> NoStrayRelease(s, events)
  {
    StartHolds(s);
    StartIsSound(s);
    SoundFromHere(s, events);
  }

  // ------------------------------------------------------------------------------
  // What a stray release costs
  // ------------------------------------------------------------------------------

  /** From a sound state, a step strands a row exactly when it is a stray release of a request
      that has not been sent and that one row wants. */
  lemma StrandsExactly(s: System, e: Event)
    requires Inv(s) && Sound(s) && Enabled(s, e)
    ensures (exists k :: Stranded(Step(s, e), k)) <==> Stray(s, e) && Dropping(s.queue, s.rows[e.row].promise.source)
  {
    StepKeeps(s, e);
    StepSoundExactly(s, e);
    if Stray(s, e) {
      StrayBreaks(s, e.row);
    }
    assert Served(Step(s, e)) && Conserved(Step(s, e)) ==> forall k :: !Stranded(Step(s, e), k);
  }

  /** Once stranded, a row stays so for as long as it is mounted, whatever is asked or answered. */
  lemma {:induction false} StrandedForGood(s: System, events: seq<Event>, row: nat)
    requires Inv(s) && IsRun(s, events) && Stranded(s, row) && Unmount(row) !in events
    ensures Stranded(Final(s, events), row)
    decreases |events|
  {
    if events != [] {
      var e := events[0];
      StepKeeps(s, e);
      assert e in events && forall x :: x in events[1..] ==> x in events;
      if e.Settled? {
        SentIsHeld(s.queue.asked);
      }
      StrandedForGood(Step(s, e), events[1..], row);
    }
  }

  /** With every slot taken, one letting-go undoes a new request. */
  lemma AskedThenLetGo(q: Queue, source: Source)
    requires Valid(q) && q.inFlight == CONCURRENT_PREVIEWS && !Has(q.asked, source)
    ensures PromiseFor(q, source) in Held(Ask(q, source).asked)
    ensures PromiseFor(q, source) !in Held(StopWanting(Ask(q, source), source).asked)
  {
    AskKeeps(q, source);
    StopWantingKeeps(Ask(q, source), source);
    assert Ask(q, source) == Requested(q, source);
  }

  /** The condition is needed, and not only in one corner: whenever every slot is taken, a
      recording drawn by a row that has its answer is drawn again by a second row, and the
      first then goes, the second stays mounted with nothing left to wait for. */
  lemma SecondRowIsStranded(s: System, first: nat, second: nat)
    requires Inv(s) && s.queue.inFlight == CONCURRENT_PREVIEWS
    requires first in s.rows && s.rows[first].answered && second !in s.rows
    requires !Has(s.queue.asked, s.rows[first].promise.source)
    ensures IsRun(s, [Mount(second, s.rows[first].promise.source), Unmount(first)])
    ensures Stranded(Final(s, [Mount(second, s.rows[first].promise.source), Unmount(first)]), second)
  {
    var source := s.rows[first].promise.source;
    var mid := Step(s, Mount(second, source));
    AskedThenLetGo(s.queue, source);
    assert mid.rows[first] == s.rows[first];
    RunStep(mid, Unmount(first), []);
    RunStep(s, Mount(second, source), [Unmount(first)]);
  }

  /** With a slot free and nothing waiting, a new request leaves at once. */
  lemma AskLeavesAtOnce(s: System, row: nat, source: Source)
    requires row !in s.rows && !Has(s.queue.asked, source)
    requires s.queue.inFlight < CONCURRENT_PREVIEWS && CountWaiting(s.queue.asked) == 0
    ensures var q := Step(s, Mount(row, source)).queue;
            && q.asked == Cons(Entry(Promise(source, s.queue.issued), 1, true), s.queue.asked)
            && q.inFlight == s.queue.inFlight + 1
            && q.wire == s.queue.wire + {Promise(source, s.queue.issued)}
            && q.issued == s.queue.issued + 1
    ensures Step(s, Mount(row, source)).rows == s.rows[row := Row(Promise(source, s.queue.issued), false)]
  {
    NothingToSend(s.queue.asked, CONCURRENT_PREVIEWS - s.queue.inFlight - 1);
  }

  lemma {:induction false} NothingToSend(asked: Requests, free: int)
    requires CountWaiting(asked) == 0
    ensures Dispatch(asked, free) == asked && Launched(asked, free) == {}
  {
    if asked.Cons? {
      NothingToSend(asked.older, free);
    }
  }

  /** Such a state is reached: one answered row, then three other recordings on the wire. */
  lemma SlotsFillUp(start: System) returns (events: seq<Event>)
    requires Initial(start)
    ensures IsRun(start, events)
    ensures var s := Final(start, events);
            && s.queue.inFlight == CONCURRENT_PREVIEWS
            && 0 in s.rows && s.rows[0].answered && 4 !in s.rows
            && !Has(s.queue.asked, s.rows[0].promise.source)
  {
    AskLeavesAtOnce(start, 0, "a");
    var s1 := Step(start, Mount(0, "a"));
    var s2 := Step(s1, Settled(Promise("a", 0)));
    assert s2.queue.asked == Nil;
    AskLeavesAtOnce(s2, 1, "b");
    var s3 := Step(s2, Mount(1, "b"));
    AskLeavesAtOnce(s3, 2, "c");
    var s4 := Step(s3, Mount(2, "c"));
    AskLeavesAtOnce(s4, 3, "d");
    var last := [Mount(3, "d")];
    RunStep(s4, Mount(3, "d"), []);
    RunStep(s3, Mount(2, "c"), last);
    RunStep(s2, Mount(1, "b"), [Mount(2, "c")] + last);
    RunStep(s1, Settled(Promise("a", 0)), [Mount(1, "b")] + ([Mount(2, "c")] + last));
    events := [Settled(Promise("a", 0))] + ([Mount(1, "b")] + ([Mount(2, "c")] + last));
    RunStep(start, Mount(0, "a"), events);
    events := [Mount(0, "a")] + events;
  }

  lemma StrandedAfter(s: System, before: seq<Event>, first: nat, second: nat) returns (events: seq<Event>)
    requires Initial(s) && IsRun(s, before)
    requires var mid := Final(s, before);
             && mid.queue.inFlight == CONCURRENT_PREVIEWS
             && first in mid.rows && mid.rows[first].answered && second !in mid.rows
             && !Has(mid.queue.asked, mid.rows[first].promise.source)
    ensures IsRun(s, events) && Stranded(Final(s, events), second)
  {
    var mid := Final(s, before);
    StartHolds(s);
    RunsKeep(s, before);
    var last := [Mount(second, mid.rows[first].promise.source), Unmount(first)];
    SecondRowIsStranded(mid, first, second);
    RunsJoin(s, before, last);
    events := before + last;
  }

  /** So the queue, as it is written, can leave a mounted row without its picture for good. */
  lemma ARowCanBeStranded(start: System) returns (events: seq<Event>)
    requires Initial(start)
    ensures IsRun(start, events)
    ensures Stranded(Final(start, events), 4)
  {
    var before := SlotsFillUp(start);
    events := StrandedAfter(start, before, 0, 4);
  }
}
