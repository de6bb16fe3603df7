/** The queue behind the library's thumbnails: which preview requests are waiting, which are on
    the wire, and who still wants them (`apps/desktop/src/preview.ts`).

    `Queue` is the state of that file's module.  The `asked` map keeps insertion order and is
    only ever read newest first, so it is a list with the newest entry at its head; the other
    two parts are the `inFlight` counter and the round trips `send` has started.  A promise is
    named by its recording and a number given out as it is made, so that two requests for one
    recording can be told apart. */
module PreviewQueue {

  type Source = string

  /** The promise a request's rows share; it also names the round trip that settles it. */
  datatype Promise = Promise(source: Source, ticket: nat)

  /** A recording asked about and not answered yet. `sent` is "its `send` is null". */
  datatype Entry = Entry(promise: Promise, wanted: int, sent: bool)

  datatype Requests = Nil | Cons(newest: Entry, older: Requests)

  datatype Queue = Queue(asked: Requests, inFlight: int, wire: set<Promise>, issued: nat)

  const CONCURRENT_PREVIEWS := 3

  const EMPTY_QUEUE := Queue(Nil, 0, {}, 0)

  // ------------------------------------------------------------------------------
  // The map
  // ------------------------------------------------------------------------------

  predicate Has(asked: Requests, source: Source) {
    asked.Cons? && (asked.newest.promise.source == source || Has(asked.older, source))
  }

  function Get(asked: Requests, source: Source): (entry: Entry)
    requires Has(asked, source)
    ensures entry.promise.source == source
  {
    if asked.newest.promise.source == source then asked.newest else Get(asked.older, source)
  }

  function Delete(asked: Requests, source: Source): Requests {
    match asked
    case Nil => Nil
    case Cons(e, older) => if e.promise.source == source then older else Cons(e, Delete(older, source))
  }

  function Recount(asked: Requests, source: Source, change: int): Requests {
    match asked
    case Nil => Nil
    case Cons(e, older) =>
      if e.promise.source == source then Cons(e.(wanted := e.wanted + change), older)
      else Cons(e, Recount(older, source, change))
  }

  function Held(asked: Requests): set<Promise> {
    match asked
    case Nil => {}
    case Cons(e, older) => {e.promise} + Held(older)
  }

  function Sent(asked: Requests): set<Promise> {
    match asked
    case Nil => {}
    case Cons(e, older) => (if e.sent then {e.promise} else {}) + Sent(older)
  }

  function Size(asked: Requests): nat {
    match asked
    case Nil => 0
    case Cons(_, older) => 1 + Size(older)
  }

  function CountWaiting(asked: Requests): nat {
    match asked
    case Nil => 0
    case Cons(e, older) => (if e.sent then 0 else 1) + CountWaiting(older)
  }

  /** Whether `promise` is in the map and has not been sent. */
  predicate IsWaiting(asked: Requests, promise: Promise) {
    match asked
    case Nil => false
    case Cons(e, older) => if e.promise == promise then !e.sent else IsWaiting(older, promise)
  }

  /** How many waiting requests are newer than `promise`. */
  function Newer(asked: Requests, promise: Promise): nat {
    match asked
    case Nil => 0
    case Cons(e, older) => if e.promise == promise then 0 else (if e.sent then 0 else 1) + Newer(older, promise)
  }

  // ------------------------------------------------------------------------------
  // What the operations do
  // ------------------------------------------------------------------------------

  /** The map after `free` slots have been given out, newest waiting entry first. */
  function Dispatch(asked: Requests, free: int): Requests {
    match asked
    case Nil => Nil
    case Cons(e, older) =>
      if free <= 0 then asked
      else if e.sent then Cons(e, Dispatch(older, free))
      else Cons(e.(sent := true), Dispatch(older, free - 1))
  }

  /** The round trips that handing out those slots starts. */
  function Launched(asked: Requests, free: int): set<Promise> {
    match asked
    case Nil => {}
    case Cons(e, older) =>
      if free <= 0 then {}
      else if e.sent then Launched(older, free)
      else {e.promise} + Launched(older, free - 1)
  }

  function SendWhatFits(q: Queue): Queue {
    var free := CONCURRENT_PREVIEWS - q.inFlight;
    Queue(Dispatch(q.asked, free),
          q.inFlight + CountWaiting(q.asked) - CountWaiting(Dispatch(q.asked, free)),
          q.wire + Launched(q.asked, free),
          q.issued)
  }

  /** A new request, made but not sent. */
  function Requested(q: Queue, source: Source): Queue {
    q.(asked := Cons(Entry(Promise(source, q.issued), 1, false), q.asked), issued := q.issued + 1)
  }

  /** A row asks: it shares the request there is, or makes one. */
  function Ask(q: Queue, source: Source): Queue {
    if Has(q.asked, source) then q.(asked := Recount(q.asked, source, 1))
    else SendWhatFits(Requested(q, source))
  }

  /** The promise that asking hands back. */
  function PromiseFor(q: Queue, source: Source): Promise {
    if Has(q.asked, source) then Get(q.asked, source).promise else Promise(source, q.issued)
  }

  /** Whether letting go of `source` once takes its request out of the map. */
  predicate Dropping(q: Queue, source: Source) {
    Has(q.asked, source) && Get(q.asked, source).wanted - 1 <= 0 && !Get(q.asked, source).sent
  }

  /** A row stops wanting `source`. */
  function StopWanting(q: Queue, source: Source): Queue {
    if !Has(q.asked, source) then q
    else if Dropping(q, source) then q.(asked := Delete(q.asked, source))
    else q.(asked := Recount(q.asked, source, -1))
  }

  /** A request whose round trip is over: out of the map, by recording, and off the wire. */
  function Removed(q: Queue, promise: Promise): Queue {
    q.(asked := Delete(q.asked, promise.source), inFlight := q.inFlight - 1, wire := q.wire - {promise})
  }

  /** The recorder answers `promise`, either way. */
  function Settle(q: Queue, promise: Promise): Queue {
    SendWhatFits(Removed(q, promise))
  }

  // ------------------------------------------------------------------------------
  // What every reachable queue keeps
  // ------------------------------------------------------------------------------

  /** One entry per recording, numbered below `issued`, and nobody has let go of a waiting one. */
  predicate Entries(asked: Requests, issued: nat) {
    match asked
    case Nil => true
    case Cons(e, older) =>
      !Has(older, e.promise.source) && e.promise.ticket < issued && (e.sent || e.wanted >= 1) && Entries(older, issued)
  }

  predicate Coherent(q: Queue) {
    && Entries(q.asked, q.issued)
    && q.wire == Sent(q.asked)
    && q.inFlight == Size(q.asked) - CountWaiting(q.asked)
  }

  /** Every slot is used while something waits. */
  predicate WorkConserving(q: Queue) {
    q.inFlight == CONCURRENT_PREVIEWS || CountWaiting(q.asked) == 0
  }

  predicate Valid(q: Queue) {
    Coherent(q) && q.inFlight <= CONCURRENT_PREVIEWS && WorkConserving(q)
  }

  // ------------------------------------------------------------------------------
  // Dispatching
  // ------------------------------------------------------------------------------

  /** Newest first, said without the loop: of the requests waiting, exactly those with fewer
      newer ones waiting than there are slots leave. */
  lemma {:induction false} DispatchIsNewestFirst(asked: Requests, free: int, promise: Promise)
    ensures IsWaiting(Dispatch(asked, free), promise) <==> IsWaiting(asked, promise) && Newer(asked, promise) >= free
  {
    match asked
    case Nil =>
    case Cons(e, older) =>
      DispatchIsNewestFirst(older, free, promise);
      DispatchIsNewestFirst(older, free - 1, promise);
  }

  lemma {:induction false} DispatchKeepsSources(asked: Requests, free: int, source: Source)
    ensures Has(Dispatch(asked, free), source) == Has(asked, source)
  {
    match asked
    case Nil =>
    case Cons(_, older) =>
      DispatchKeepsSources(older, free, source);
      DispatchKeepsSources(older, free - 1, source);
  }

  /** Dispatching loses no entry and starts exactly the round trips of those it sends. */
  lemma {:induction false} DispatchKeeps(asked: Requests, free: int, issued: nat)
    requires Entries(asked, issued)
    ensures Entries(Dispatch(asked, free), issued)
    ensures Held(Dispatch(asked, free)) == Held(asked)
    ensures Sent(Dispatch(asked, free)) == Sent(asked) + Launched(asked, free)
    ensures Size(Dispatch(asked, free)) == Size(asked)
  {
    match asked
    case Nil =>
    case Cons(e, older) =>
      DispatchKeeps(older, free, issued);
      DispatchKeeps(older, free - 1, issued);
      DispatchKeepsSources(older, free, e.promise.source);
      DispatchKeepsSources(older, free - 1, e.promise.source);
  }

  lemma {:induction false} DispatchCounts(asked: Requests, free: int)
    requires free >= 0
    ensures CountWaiting(Dispatch(asked, free)) == if CountWaiting(asked) <= free then 0 else CountWaiting(asked) - free
  {
    match asked
    case Nil =>
    case Cons(e, older) =>
      DispatchCounts(older, free);
      if free > 0 {
        DispatchCounts(older, free - 1);
      }
  }

  /** Handing out slots keeps everything, fills them, and leaves none free while a request waits. */
  lemma SendWhatFitsKeeps(q: Queue)
    requires Coherent(q) && q.inFlight <= CONCURRENT_PREVIEWS
    ensures Valid(SendWhatFits(q))
    ensures Held(SendWhatFits(q).asked) == Held(q.asked)
  {
    DispatchKeeps(q.asked, CONCURRENT_PREVIEWS - q.inFlight, q.issued);
    DispatchCounts(q.asked, CONCURRENT_PREVIEWS - q.inFlight);
  }

  // ------------------------------------------------------------------------------
  // Each operation keeps a valid queue valid
  // ------------------------------------------------------------------------------

  lemma {:induction false} SentIsHeld(asked: Requests)
    ensures Sent(asked) <= Held(asked)
  {
    if asked.Cons? {
      SentIsHeld(asked.older);
    }
  }

  lemma {:induction false} HeldHas(asked: Requests, promise: Promise)
    requires promise in Held(asked)
    ensures Has(asked, promise.source)
  {
    if asked.newest.promise != promise {
      HeldHas(asked.older, promise);
    }
  }

  /** The entry of a held promise is the one its recording finds. */
  lemma {:induction false} GetHeld(asked: Requests, issued: nat, promise: Promise)
    requires Entries(asked, issued) && promise in Held(asked)
    ensures Has(asked, promise.source) && Get(asked, promise.source).promise == promise
    ensures promise in Sent(asked) <==> Get(asked, promise.source).sent
    ensures IsWaiting(asked, promise) <==> promise !in Sent(asked)
  {
    var e, older := asked.newest, asked.older;
    SentIsHeld(older);
    if e.promise == promise {
      if promise in Sent(older) {
        HeldHas(older, promise);
      }
    } else {
      HeldHas(older, promise);
      GetHeld(older, issued, promise);
    }
  }

  lemma {:induction false} GetIsHeld(asked: Requests, issued: nat, source: Source)
    requires Entries(asked, issued) && Has(asked, source)
    ensures Get(asked, source).promise in Held(asked) && Get(asked, source).promise.ticket < issued
    ensures Get(asked, source).sent || Get(asked, source).wanted >= 1
  {
    if asked.newest.promise.source != source {
      GetIsHeld(asked.older, issued, source);
    }
  }

  lemma {:induction false} DeleteSources(asked: Requests, source: Source, other: Source)
    requires source != other
    ensures Has(Delete(asked, source), other) == Has(asked, other)
  {
    if asked.Cons? {
      DeleteSources(asked.older, source, other);
    }
  }

  /** Deleting takes out one entry, and its round trip with it when it had one. */
  lemma {:induction false} DeleteKeeps(asked: Requests, issued: nat, source: Source)
    requires Entries(asked, issued) && Has(asked, source)
    ensures Entries(Delete(asked, source), issued)
    ensures Held(Delete(asked, source)) == Held(asked) - {Get(asked, source).promise}
    ensures Sent(Delete(asked, source)) == Sent(asked) - {Get(asked, source).promise}
    ensures Size(Delete(asked, source)) == Size(asked) - 1
    ensures CountWaiting(Delete(asked, source)) == CountWaiting(asked) - if Get(asked, source).sent then 0 else 1
  {
    var e, older := asked.newest, asked.older;
    SentIsHeld(older);
    if e.promise.source == source {
      if e.promise in Held(older) {
        HeldHas(older, e.promise);
      }
    } else {
      DeleteKeeps(older, issued, source);
      DeleteSources(older, source, e.promise.source);
    }
  }

  lemma {:induction false} RecountSources(asked: Requests, source: Source, change: int, other: Source)
    ensures Has(Recount(asked, source, change), other) == Has(asked, other)
  {
    if asked.Cons? {
      RecountSources(asked.older, source, change, other);
    }
  }

  /** Counting changes who wants an entry and nothing else. */
  lemma {:induction false} RecountKeeps(asked: Requests, issued: nat, source: Source, change: int)
    requires Entries(asked, issued) && Has(asked, source)
    requires Get(asked, source).sent || Get(asked, source).wanted + change >= 1
    ensures var after := Recount(asked, source, change);
            && Entries(after, issued)
            && Held(after) == Held(asked)
            && Sent(after) == Sent(asked)
            && Size(after) == Size(asked)
            && CountWaiting(after) == CountWaiting(asked)
  {
    if asked.newest.promise.source != source {
      RecountKeeps(asked.older, issued, source, change);
      RecountSources(asked.older, source, change, asked.newest.promise.source);
    }
  }

  lemma {:induction false} MoreIssued(asked: Requests, issued: nat)
    requires Entries(asked, issued)
    ensures Entries(asked, issued + 1)
  {
    if asked.Cons? {
      MoreIssued(asked.older, issued);
    }
  }

  lemma AskKeeps(q: Queue, source: Source)
    requires Valid(q)
    ensures Valid(Ask(q, source))
    ensures Held(Ask(q, source).asked) == Held(q.asked) + {PromiseFor(q, source)}
  {
    if Has(q.asked, source) {
      GetIsHeld(q.asked, q.issued, source);
      RecountKeeps(q.asked, q.issued, source, 1);
    } else {
      MoreIssued(q.asked, q.issued);
      SendWhatFitsKeeps(Requested(q, source));
    }
  }

  /** Letting go drops at most the one request, and only while it is unsent. */
  lemma StopWantingKeeps(q: Queue, source: Source)
    requires Valid(q)
    ensures Valid(StopWanting(q, source))
    ensures Held(StopWanting(q, source).asked)
         == if Dropping(q, source) then Held(q.asked) - {Get(q.asked, source).promise} else Held(q.asked)
  {
    if Has(q.asked, source) {
      var promise := Get(q.asked, source).promise;
      GetIsHeld(q.asked, q.issued, source);
      GetHeld(q.asked, q.issued, promise);
      if Dropping(q, source) {
        DeleteKeeps(q.asked, q.issued, source);
      } else {
        RecountKeeps(q.asked, q.issued, source, -1);
      }
    }
  }

  /** An answer takes out the entry whose round trip it was, and no other. */
  lemma SettleKeeps(q: Queue, promise: Promise)
    requires Valid(q) && promise in q.wire
    ensures Valid(Settle(q, promise))
    ensures promise in Held(q.asked) && Held(Settle(q, promise).asked) == Held(q.asked) - {promise}
    ensures Size(Settle(q, promise).asked) == Size(q.asked) - 1
  {
    SentIsHeld(q.asked);
    GetHeld(q.asked, q.issued, promise);
    DeleteKeeps(q.asked, q.issued, promise.source);
    SendWhatFitsKeeps(Removed(q, promise));
    DispatchKeeps(Removed(q, promise).asked, CONCURRENT_PREVIEWS - (q.inFlight - 1), q.issued);
  }
}
