/** What the preview queue gets done: a waiting request's turn comes within a known number of
    answers, and answers alone empty the queue. */
module PreviewProgress {
  import opened PreviewQueue
  import opened PreviewRuns

  lemma {:induction false} WaitingIsCounted(asked: Requests, promise: Promise)
    requires IsWaiting(asked, promise)
    ensures promise in Held(asked) && CountWaiting(asked) > 0
  {
    if asked.newest.promise != promise {
      WaitingIsCounted(asked.older, promise);
    }
  }

  /** A free slot goes to the newest waiting request, and everyone behind it moves up one. */
  lemma {:induction false} DispatchMovesUp(asked: Requests, promise: Promise)
    requires IsWaiting(Dispatch(asked, 1), promise)
    ensures IsWaiting(asked, promise) && Newer(Dispatch(asked, 1), promise) == Newer(asked, promise) - 1
  {
    DispatchIsNewestFirst(asked, 1, promise);
    if asked.newest.sent {
      DispatchMovesUp(asked.older, promise);
    }
  }

  lemma {:induction false} DeletingMovesNobodyBack(asked: Requests, source: Source, promise: Promise)
    requires IsWaiting(Delete(asked, source), promise) && promise.source != source
    ensures IsWaiting(asked, promise)
    ensures Newer(Delete(asked, source), promise) <= Newer(asked, promise)
  {
    if asked.newest.promise.source != source && asked.newest.promise != promise {
      DeletingMovesNobodyBack(asked.older, source, promise);
    }
  }

  lemma {:induction false} RecountMovesNobody(asked: Requests, source: Source, change: int, promise: Promise)
    ensures IsWaiting(Recount(asked, source, change), promise) == IsWaiting(asked, promise)
    ensures Newer(Recount(asked, source, change), promise) == Newer(asked, promise)
  {
    if asked.Cons? {
      RecountMovesNobody(asked.older, source, change, promise);
    }
  }

  /** What still waits after deleting `source` is about something else. */
  lemma WaitsForSomethingElse(q: Queue, source: Source, promise: Promise)
    requires Coherent(q) && Has(q.asked, source) && IsWaiting(Delete(q.asked, source), promise)
    ensures promise.source != source
  {
    DeleteKeeps(q.asked, q.issued, source);
    WaitingIsCounted(Delete(q.asked, source), promise);
    GetHeld(q.asked, q.issued, promise);
  }

  lemma StopMovesNobodyBack(q: Queue, source: Source, promise: Promise)
    requires Valid(q) && IsWaiting(StopWanting(q, source).asked, promise)
    ensures IsWaiting(q.asked, promise)
    ensures Newer(StopWanting(q, source).asked, promise) <= Newer(q.asked, promise)
  {
    if Dropping(q, source) {
      WaitsForSomethingElse(q, source, promise);
      DeletingMovesNobodyBack(q.asked, source, promise);
    } else {
      RecountMovesNobody(q.asked, source, -1, promise);
    }
  }

  /** While a request waits every slot is taken, so each answer moves it up. */
  lemma SettledMovesUp(q: Queue, settled: Promise, promise: Promise)
    requires Valid(q) && settled in q.wire && IsWaiting(Settle(q, settled).asked, promise)
    ensures IsWaiting(q.asked, promise)
    ensures Newer(Settle(q, settled).asked, promise) < Newer(q.asked, promise)
  {
    var shorter := Delete(q.asked, settled.source);
    SentIsHeld(q.asked);
    GetHeld(q.asked, q.issued, settled);
    DispatchIsNewestFirst(shorter, CONCURRENT_PREVIEWS - (q.inFlight - 1), promise);
    WaitsForSomethingElse(q, settled.source, promise);
    DeletingMovesNobodyBack(q.asked, settled.source, promise);
    WaitingIsCounted(q.asked, promise);
    DispatchMovesUp(shorter, promise);
  }

  // ------------------------------------------------------------------------------
  // Runs
  // ------------------------------------------------------------------------------

  function Answers(events: seq<Event>): nat {
    if events == [] then 0 else (if events[0].Settled? then 1 else 0) + Answers(events[1..])
  }

  predicate NoAsks(events: seq<Event>) {
    forall e :: e in events ==> !e.Mount?
  }

  lemma StepWithoutAsk(s: System, e: Event, promise: Promise)
    requires Inv(s) && Enabled(s, e) && !e.Mount? && IsWaiting(Step(s, e).queue.asked, promise)
    ensures IsWaiting(s.queue.asked, promise)
    ensures Newer(Step(s, e).queue.asked, promise) + (if e.Settled? then 1 else 0) <= Newer(s.queue.asked, promise)
  {
    match e
    case Unmount(row) => StopMovesNobodyBack(s.queue, s.rows[row].promise.source, promise);
    case Settled(settled) => SettledMovesUp(s.queue, settled, promise);
  }

  lemma {:induction false} TurnComes(s: System, events: seq<Event>, promise: Promise)
    requires Inv(s) && IsRun(s, events) && NoAsks(events)
    requires IsWaiting(s.queue.asked, promise) ==> Newer(s.queue.asked, promise) < Answers(events)
    ensures !IsWaiting(Final(s, events).queue.asked, promise)
    decreases |events|
  {
    if events != [] {
      var e := events[0];
      assert e in events && forall x :: x in events[1..] ==> x in events;
      StepKeeps(s, e);
      if IsWaiting(Step(s, e).queue.asked, promise) {
        StepWithoutAsk(s, e, promise);
      }
      TurnComes(Step(s, e), events[1..], promise);
    }
  }

  lemma {:induction false} MadeIsKept(s: System, events: seq<Event>, promise: Promise)
    requires IsRun(s, events) && promise in s.made
    ensures promise in Final(s, events).made
    decreases |events|
  {
    if events != [] {
      MadeIsKept(Step(s, events[0]), events[1..], promise);
    }
  }

  /** With no new asks, a request with r newer ones waiting has stopped waiting after r + 1
      answers, however the stops fall: it was sent, unless a row going away dropped it. */
  lemma ServedInTurn(s: System, events: seq<Event>, promise: Promise)
    requires Inv(s) && IsRun(s, events) && NoAsks(events)
    requires promise in Held(s.queue.asked) && Newer(s.queue.asked, promise) < Answers(events)
    ensures promise in Final(s, events).queue.wire + Final(s, events).answered + Final(s, events).dropped
  {
    RunsKeep(s, events);
    TurnComes(s, events, promise);
    MadeIsKept(s, events, promise);
    var q := Final(s, events).queue;
    if promise in Held(q.asked) {
      GetHeld(q.asked, q.issued, promise);
    }
  }

  lemma {:induction false} AnswersAtMost(events: seq<Event>)
    ensures Answers(events) <= |events|
  {
    if events != [] {
      AnswersAtMost(events[1..]);
    }
  }

  /** Answers alone drain the queue, one entry each: as many as were asked empty it, no fewer do. */
  lemma {:induction false} AnswersDrain(s: System, events: seq<Event>)
    requires Inv(s) && IsRun(s, events) && Answers(events) == |events|
    ensures Size(Final(s, events).queue.asked) == Size(s.queue.asked) - |events|
    decreases |events|
  {
    if events != [] {
      AnswersAtMost(events[1..]);
      StepKeeps(s, events[0]);
      SettleKeeps(s.queue, events[0].promise);
      AnswersDrain(Step(s, events[0]), events[1..]);
    }
  }

  /** And the answers it takes can always be had: some run of answers empties the queue. */
  lemma {:induction false} SomeAnswersEmptyIt(s: System) returns (events: seq<Event>)
    requires Inv(s)
    ensures IsRun(s, events) && |events| == Size(s.queue.asked) && Answers(events) == |events|
    ensures Final(s, events).queue.asked == Nil
    decreases Size(s.queue.asked)
  {
    if s.queue.asked == Nil {
      return [];
    }
    SentSize(s.queue.asked, s.queue.issued);
    var promise :| promise in s.queue.wire;
    StepKeeps(s, Settled(promise));
    SettleKeeps(s.queue, promise);
    var rest := SomeAnswersEmptyIt(Step(s, Settled(promise)));
    RunStep(s, Settled(promise), rest);
    events := [Settled(promise)] + rest;
    assert events[1..] == rest;
  }
}
