/** Which request is the newest: the one made last, however often the others have been asked about since. */
module PreviewOrder {
  import opened PreviewQueue
  import opened PreviewRuns

  /** Every entry was made after all those behind it; promises are numbered as they are made. */
  predicate Descending(asked: Requests) {
    match asked
    case Nil => true
    case Cons(e, older) => (older.Cons? ==> e.promise.ticket > older.newest.promise.ticket) && Descending(older)
  }

  lemma {:induction false} DispatchStaysInOrder(asked: Requests, free: int)
    requires Descending(asked)
    ensures Descending(Dispatch(asked, free))
    ensures Dispatch(asked, free).Cons? == asked.Cons?
    ensures asked.Cons? ==> Dispatch(asked, free).newest.promise == asked.newest.promise
  {
    if asked.Cons? {
      DispatchStaysInOrder(asked.older, free);
      DispatchStaysInOrder(asked.older, free - 1);
    }
  }

  lemma {:induction false} RecountStaysInOrder(asked: Requests, source: Source, change: int)
    requires Descending(asked)
    ensures Descending(Recount(asked, source, change))
    ensures Recount(asked, source, change).Cons? == asked.Cons?
    ensures asked.Cons? ==> Recount(asked, source, change).newest.promise == asked.newest.promise
  {
    if asked.Cons? {
      RecountStaysInOrder(asked.older, source, change);
    }
  }

  lemma {:induction false} DeleteStaysInOrder(asked: Requests, source: Source)
    requires Descending(asked)
    ensures Descending(Delete(asked, source))
    ensures Delete(asked, source).Cons? ==> asked.Cons? && Delete(asked, source).newest.promise.ticket <= asked.newest.promise.ticket
  {
    if asked.Cons? {
      DeleteStaysInOrder(asked.older, source);
    }
  }

  lemma StepStaysInOrder(s: System, e: Event)
    requires Inv(s) && Enabled(s, e) && Descending(s.queue.asked)
    ensures Descending(Step(s, e).queue.asked)
  {
    var q := s.queue;
    match e
    case Mount(row, source) =>
      RecountStaysInOrder(q.asked, source, 1);
      if !Has(q.asked, source) {
        DispatchStaysInOrder(Requested(q, source).asked, CONCURRENT_PREVIEWS - q.inFlight);
      }
    case Unmount(row) =>
      DeleteStaysInOrder(q.asked, s.rows[row].promise.source);
      RecountStaysInOrder(q.asked, s.rows[row].promise.source, -1);
    case Settled(promise) =>
      DeleteStaysInOrder(q.asked, promise.source);
      DispatchStaysInOrder(Removed(q, promise).asked, CONCURRENT_PREVIEWS - (q.inFlight - 1));
  }

  lemma {:induction false} RunsStayInOrder(s: System, events: seq<Event>)
    requires Inv(s) && IsRun(s, events) && Descending(s.queue.asked)
    ensures Descending(Final(s, events).queue.asked)
    decreases |events|
  {
    if events != [] {
      StepKeeps(s, events[0]);
      StepStaysInOrder(s, events[0]);
      RunsStayInOrder(Step(s, events[0]), events[1..]);
    }
  }

  lemma {:induction false} BehindTheNewest(asked: Requests, promise: Promise)
    requires Descending(asked) && promise in Held(asked)
    ensures asked.Cons? && promise.ticket <= asked.newest.promise.ticket
  {
    if promise != asked.newest.promise {
      BehindTheNewest(asked.older, promise);
    }
  }

  lemma {:induction false} WaitingIsHeld(asked: Requests, promise: Promise)
    requires IsWaiting(asked, promise)
    ensures promise in Held(asked)
  {
    if promise != asked.newest.promise {
      WaitingIsHeld(asked.older, promise);
    }
  }

  /** Of the requests that were waiting, those sent were made after all those left. */
  lemma {:induction false} SentAreNewer(asked: Requests, free: int, sent: Promise, left: Promise)
    requires Descending(asked) && sent in Launched(asked, free) && IsWaiting(Dispatch(asked, free), left)
    ensures sent.ticket > left.ticket
  {
    var e, older := asked.newest, asked.older;
    DispatchStaysInOrder(asked, free);
    var spare := if e.sent then free else free - 1;
    if left != e.promise {
      WaitingIsHeld(Dispatch(older, spare), left);
      DispatchStaysInOrder(older, spare);
      BehindTheNewest(Dispatch(older, spare), left);
      if sent != e.promise {
        SentAreNewer(older, spare, sent, left);
      }
    }
  }

  lemma StepSendsNewest(s: System, e: Event, sent: Promise, left: Promise)
    requires Inv(s) && Enabled(s, e) && Descending(s.queue.asked)
    requires sent in Step(s, e).queue.wire && sent !in s.queue.wire && IsWaiting(Step(s, e).queue.asked, left)
    ensures sent.ticket > left.ticket
  {
    match e
    case Mount(row, source) =>
      DispatchOfRequested(s.queue, source, sent, left);
    case Unmount(row) =>
    case Settled(promise) =>
      DeleteStaysInOrder(s.queue.asked, promise.source);
      SentAreNewer(Removed(s.queue, promise).asked, CONCURRENT_PREVIEWS - (s.queue.inFlight - 1), sent, left);
  }

  lemma StartIsInOrder(s: System)
    requires Initial(s)
    ensures Descending(s.queue.asked)
  {
  }

  lemma ReachedInOrder(start: System, events: seq<Event>)
    requires Initial(start) && IsRun(start, events)
    ensures Inv(Final(start, events)) && Descending(Final(start, events).queue.asked)
  {
    StartHolds(start);
    StartIsInOrder(start);
    RunsKeep(start, events);
    RunsStayInOrder(start, events);
  }

  /** In every run of the window, whatever a step sends was first asked for after everything that it
      leaves waiting: a row asking again moves nothing. */
  lemma NewestIsSentFirst(start: System, events: seq<Event>, s: System, e: Event, sent: Promise, left: Promise)
    requires Initial(start) && IsRun(start, events) && s == Final(start, events) && Enabled(s, e)
    requires sent in Step(s, e).queue.wire && sent !in s.queue.wire && IsWaiting(Step(s, e).queue.asked, left)
    ensures sent.ticket > left.ticket
  {
    ReachedInOrder(start, events);
    StepSendsNewest(s, e, sent, left);
  }

  lemma DispatchOfRequested(q: Queue, source: Source, sent: Promise, left: Promise)
    requires Coherent(q) && Descending(q.asked)
    requires sent in Ask(q, source).wire && sent !in q.wire && IsWaiting(Ask(q, source).asked, left)
    ensures sent.ticket > left.ticket
  {
    assert !Has(q.asked, source);
    assert Descending(Requested(q, source).asked);
    SentAreNewer(Requested(q, source).asked, CONCURRENT_PREVIEWS - q.inFlight, sent, left);
  }

  lemma {:induction false} RecountMovesNothing(asked: Requests, source: Source, change: int, promise: Promise)
    ensures IsWaiting(Recount(asked, source, change), promise) == IsWaiting(asked, promise)
    ensures Newer(Recount(asked, source, change), promise) == Newer(asked, promise)
  {
    if asked.Cons? {
      RecountMovesNothing(asked.older, source, change, promise);
    }
  }

  /** Asking about a recording that is asked about already changes neither what waits nor behind how many. */
  lemma AskingAgainMovesNothing(q: Queue, source: Source, promise: Promise)
    requires Has(q.asked, source)
    ensures IsWaiting(Ask(q, source).asked, promise) == IsWaiting(q.asked, promise)
    ensures Newer(Ask(q, source).asked, promise) == Newer(q.asked, promise)
    ensures Ask(q, source).wire == q.wire && Ask(q, source).inFlight == q.inFlight
  {
    RecountMovesNothing(q.asked, source, 1, promise);
  }

  lemma {:induction false} SentOrWaiting(asked: Requests, promise: Promise)
    ensures CountWaiting(asked) == 0 ==> !IsWaiting(asked, promise)
  {
    if asked.Cons? {
      SentOrWaiting(asked.older, promise);
    }
  }

  /** In every state a run reaches, three round trips are out or nothing waits. */
  lemma ThreeAreOutOrNothingWaits(start: System, events: seq<Event>, s: System, promise: Promise)
    requires Initial(start) && IsRun(start, events) && s == Final(start, events)
    ensures |s.queue.wire| <= 3 && (IsWaiting(s.queue.asked, promise) ==> |s.queue.wire| == 3)
  {
    ReachedInOrder(start, events);
    ValidIsOutstandingRightly(s.queue);
    SentOrWaiting(s.queue.asked, promise);
  }
}
