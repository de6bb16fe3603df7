/** Runs of the preview queue together with the rows that ask (`useThumbnail`): mounting,
    unmounting and answers in any order.

    Every effect of `useThumbnail` is a row of its own: a row recycled for another recording
    is an unmount followed by a mount.  `made`, `answered` and `dropped` remember what became
    of every promise. */
module PreviewRuns {
  import opened PreviewQueue

  /** A mounted row, the promise it was given, and whether that promise has settled. */
  datatype Row = Row(promise: Promise, answered: bool)

  datatype System = System(queue: Queue, rows: map<nat, Row>,
                           made: set<Promise>, answered: set<Promise>, dropped: set<Promise>)

  datatype Event =
    | Mount(row: nat, source: Source)
    | Unmount(row: nat)
    | Settled(promise: Promise)

  /** The window as it opens: nothing asked, nobody asking. */
  predicate Initial(s: System) {
    s.queue == EMPTY_QUEUE && s.rows == map[] && s.made == {} && s.answered == {} && s.dropped == {}
  }

  predicate Enabled(s: System, e: Event) {
    match e
    case Mount(row, _) => row !in s.rows
    case Unmount(row) => row in s.rows
    case Settled(promise) => promise in s.queue.wire
  }

  function Answering(rows: map<nat, Row>, promise: Promise): map<nat, Row> {
    map r | r in rows :: if rows[r].promise == promise then rows[r].(answered := true) else rows[r]
  }

  function Step(s: System, e: Event): System
    requires Enabled(s, e)
  {
    match e
    case Mount(row, source) =>
      var promise := PromiseFor(s.queue, source);
      s.(queue := Ask(s.queue, source), rows := s.rows[row := Row(promise, false)], made := s.made + {promise})
    case Unmount(row) =>
      var after := StopWanting(s.queue, s.rows[row].promise.source);
      s.(queue := after, rows := s.rows - {row}, dropped := s.dropped + (Held(s.queue.asked) - Held(after.asked)))
    case Settled(promise) =>
      s.(queue := Settle(s.queue, promise),
         rows := Answering(s.rows, promise),
         answered := s.answered + {promise})
  }

  predicate IsRun(s: System, events: seq<Event>)
    decreases |events|
  {
    events == [] || (Enabled(s, events[0]) && IsRun(Step(s, events[0]), events[1..]))
  }

  function Final(s: System, events: seq<Event>): System
    requires IsRun(s, events)
    decreases |events|
  {
    if events == [] then s else Final(Step(s, events[0]), events[1..])
  }

  /** Every promise ever made is in exactly one place: the map, answered, or dropped. */
  predicate Conserved(s: System) {
    && s.made == Held(s.queue.asked) + s.answered + s.dropped
    && Held(s.queue.asked) !! s.answered
    && Held(s.queue.asked) !! s.dropped
    && s.answered !! s.dropped
    && forall p :: p in s.made ==> p.ticket < s.queue.issued
  }

  /** A row holds a promise that was made, and knows of its answer exactly when there is one. */
  predicate RowsCoherent(s: System) {
    forall r :: r in s.rows ==>
      s.rows[r].promise in s.made && (s.rows[r].answered <==> s.rows[r].promise in s.answered)
  }

  predicate Inv(s: System) {
    Valid(s.queue) && Conserved(s) && RowsCoherent(s)
  }

  lemma StartIsValid(s: System)
    requires Initial(s)
    ensures Valid(s.queue)
  {
  }

  lemma StartIsConserved(s: System)
    requires Initial(s)
    ensures Conserved(s)
  {
  }

  lemma StartRowsAreCoherent(s: System)
    requires Initial(s)
    ensures RowsCoherent(s)
  {
  }

  lemma StartHolds(s: System)
    requires Initial(s)
    ensures Inv(s)
  {
    StartIsValid(s);
    StartIsConserved(s);
    StartRowsAreCoherent(s);
  }

  lemma MountKeeps(s: System, row: nat, source: Source)
    requires Inv(s) && row !in s.rows
    ensures Inv(Step(s, Mount(row, source)))
  {
    AskKeeps(s.queue, source);
    if Has(s.queue.asked, source) {
      GetIsHeld(s.queue.asked, s.queue.issued, source);
    }
  }

  lemma UnmountKeeps(s: System, row: nat)
    requires Inv(s) && row in s.rows
    ensures Inv(Step(s, Unmount(row)))
  {
    StopWantingKeeps(s.queue, s.rows[row].promise.source);
  }

  lemma SettledKeeps(s: System, promise: Promise)
    requires Inv(s) && promise in s.queue.wire
    ensures Inv(Step(s, Settled(promise)))
  {
    SettleKeeps(s.queue, promise);
  }

  lemma StepKeeps(s: System, e: Event)
    requires Inv(s) && Enabled(s, e)
    ensures Inv(Step(s, e))
  {
    match e
    case Mount(row, source) => MountKeeps(s, row, source);
    case Unmount(row) => UnmountKeeps(s, row);
    case Settled(promise) => SettledKeeps(s, promise);
  }

  /** Every run, whatever mounts, unmounts and answers it is made of, keeps all of it. */
  lemma {:induction false} RunsKeep(s: System, events: seq<Event>)
    requires Inv(s) && IsRun(s, events)
    ensures Inv(Final(s, events))
    decreases |events|
  {
    if events != [] {
      StepKeeps(s, events[0]);
      RunsKeep(Step(s, events[0]), events[1..]);
    }
  }

  lemma {:induction false} SentSize(asked: Requests, issued: nat)
    requires Entries(asked, issued)
    ensures |Sent(asked)| == Size(asked) - CountWaiting(asked)
  {
    if asked.Cons? {
      SentSize(asked.older, issued);
      SentIsHeld(asked.older);
      if asked.newest.promise in Sent(asked.older) {
        HeldHas(asked.older, asked.newest.promise);
      }
    }
  }

  /** In every reachable state `inFlight` is the number of round trips outstanding, at most three
      of them, no two about one recording, and none is missing while anything is asked. */
  ghost predicate OutstandingRightly(q: Queue) {
    && |q.wire| == q.inFlight <= CONCURRENT_PREVIEWS
    && (q.asked != Nil ==> q.wire != {})
    && forall p, p' :: p in q.wire && p' in q.wire && p.source == p'.source ==> p == p'
  }

  lemma ValidIsOutstandingRightly(q: Queue)
    requires Valid(q)
    ensures OutstandingRightly(q)
  {
    SentSize(q.asked, q.issued);
    forall p, p' | p in q.wire && p' in q.wire && p.source == p'.source
      ensures p == p'
    {
      SentIsHeld(q.asked);
      GetHeld(q.asked, q.issued, p);
      GetHeld(q.asked, q.issued, p');
    }
  }

  lemma RoundTripsOutstanding(s: System, events: seq<Event>)
    requires Initial(s) && IsRun(s, events)
    ensures OutstandingRightly(Final(s, events).queue)
  {
    StartHolds(s);
    RunsKeep(s, events);
    ValidIsOutstandingRightly(Final(s, events).queue);
  }

  // ------------------------------------------------------------------------------
  // Putting runs together
  // ------------------------------------------------------------------------------

  lemma RunStep(s: System, e: Event, rest: seq<Event>)
    requires Enabled(s, e) && IsRun(Step(s, e), rest)
    ensures IsRun(s, [e] + rest)
    ensures Final(s, [e] + rest) == Final(Step(s, e), rest)
  {
  }

  lemma {:induction false} RunsJoin(s: System, a: seq<Event>, b: seq<Event>)
    requires IsRun(s, a) && IsRun(Final(s, a), b)
    ensures IsRun(s, a + b) && Final(s, a + b) == Final(Final(s, a), b)
    decreases |a|
  {
    if a == [] {
      assert a + b == b;
    } else {
      assert (a + b)[1..] == a[1..] + b;
      RunsJoin(Step(s, a[0]), a[1..], b);
    }
  }
}
