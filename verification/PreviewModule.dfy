/** The queue as the window holds it: entries updated where they stand, a counter, and the loop
    that hands out slots.  Each operation is proved to be the one of `PreviewQueue`. */
module PreviewModule {
  import opened PreviewQueue

  /** An entry of the `asked` map, in insertion order among the others. */
  class Asked {
    const promise: Promise
    var wanted: int
    var sent: bool

    constructor (promise: Promise)
      ensures this.promise == promise && wanted == 1 && !sent
    {
      this.promise := promise;
      wanted := 1;
      sent := false;
    }

    function Value(): Entry
      reads this
    {
      Entry(promise, wanted, sent)
    }
  }

  function Values(asked: seq<Asked>): (r: seq<Entry>)
    reads asked
    ensures |r| == |asked|
    ensures forall i :: 0 <= i < |asked| ==> r[i] == asked[i].Value()
  {
    seq(|asked|, i requires 0 <= i < |asked| reads asked => asked[i].Value())
  }

  /** Insertion order, read newest first. */
  function Listed(entries: seq<Entry>): Requests {
    if entries == [] then Nil else Cons(entries[|entries| - 1], Listed(entries[..|entries| - 1]))
  }

  function Without<T>(s: seq<T>, i: nat): seq<T>
    requires i < |s|
  {
    s[..i] + s[i + 1..]
  }

  /** A map holds one entry per key. */
  predicate OneEach(asked: Requests) {
    asked.Cons? ==> !Has(asked.older, asked.newest.promise.source) && OneEach(asked.older)
  }

  lemma {:induction false} EntriesAreOneEach(asked: Requests, issued: nat)
    requires Entries(asked, issued)
    ensures OneEach(asked)
  {
    if asked.Cons? {
      EntriesAreOneEach(asked.older, issued);
    }
  }

  // ------------------------------------------------------------------------------
  // Positions in the map and the list they stand for
  // ------------------------------------------------------------------------------

  lemma {:induction false} ListedAt(entries: seq<Entry>, i: nat)
    requires i < |entries| && OneEach(Listed(entries))
    ensures var source := entries[i].promise.source;
            && Has(Listed(entries), source)
            && Get(Listed(entries), source) == entries[i]
  {
    var n := |entries| - 1;
    if i < n {
      ListedAt(entries[..n], i);
    }
  }

  lemma {:induction false} ListedAbsent(entries: seq<Entry>, source: Source)
    requires forall i :: 0 <= i < |entries| ==> entries[i].promise.source != source
    ensures !Has(Listed(entries), source)
  {
    if entries != [] {
      ListedAbsent(entries[..|entries| - 1], source);
    }
  }

  lemma {:induction false} ListedWithout(entries: seq<Entry>, i: nat)
    requires i < |entries| && OneEach(Listed(entries))
    ensures Listed(Without(entries, i)) == Delete(Listed(entries), entries[i].promise.source)
  {
    var n := |entries| - 1;
    if i < n {
      ListedWithout(entries[..n], i);
      ListedAt(entries[..n], i);
      assert Without(entries, i)[..n - 1] == Without(entries[..n], i);
    } else {
      assert Without(entries, i) == entries[..n];
    }
  }

  lemma {:induction false} ListedRecount(entries: seq<Entry>, i: nat, change: int)
    requires i < |entries| && OneEach(Listed(entries))
    ensures Listed(entries[i := entries[i].(wanted := entries[i].wanted + change)])
         == Recount(Listed(entries), entries[i].promise.source, change)
  {
    var n := |entries| - 1;
    var after := entries[i := entries[i].(wanted := entries[i].wanted + change)];
    if i < n {
      ListedRecount(entries[..n], i, change);
      ListedAt(entries[..n], i);
      assert after[..n] == entries[..n][i := entries[..n][i].(wanted := entries[..n][i].wanted + change)];
    } else {
      assert after[..n] == entries[..n];
    }
  }

  /** One turn of the loop sends the newest waiting entry, and leaves the rest as it would have gone. */
  lemma {:induction false} ListedTurn(entries: seq<Entry>, j: nat, free: int)
    requires j < |entries| && !entries[j].sent && free > 0
    requires forall i :: j < i < |entries| ==> entries[i].sent
    ensures var after := Listed(entries[j := entries[j].(sent := true)]);
            && Dispatch(after, free - 1) == Dispatch(Listed(entries), free)
            && Launched(after, free - 1) + {entries[j].promise} == Launched(Listed(entries), free)
            && CountWaiting(after) == CountWaiting(Listed(entries)) - 1
  {
    var n := |entries| - 1;
    var after := entries[j := entries[j].(sent := true)];
    if j < n {
      ListedTurn(entries[..n], j, free);
      assert after[..n] == entries[..n][j := entries[..n][j].(sent := true)];
    } else {
      assert after[..n] == entries[..n];
    }
  }

  lemma TurnIsPartOfSending(q: Queue, entries: seq<Entry>, j: nat)
    requires q.asked == Listed(entries) && q.inFlight < CONCURRENT_PREVIEWS
    requires j < |entries| && !entries[j].sent && forall i :: j < i < |entries| ==> entries[i].sent
    ensures SendWhatFits(Queue(Listed(entries[j := entries[j].(sent := true)]), q.inFlight + 1,
                               q.wire + {entries[j].promise}, q.issued))
         == SendWhatFits(q)
  {
    ListedTurn(entries, j, CONCURRENT_PREVIEWS - q.inFlight);
  }

  lemma {:induction false} ListedIdle(entries: seq<Entry>, free: int)
    requires free <= 0 || forall i :: 0 <= i < |entries| ==> entries[i].sent
    ensures Dispatch(Listed(entries), free) == Listed(entries) && Launched(Listed(entries), free) == {}
  {
    if entries != [] {
      ListedIdle(entries[..|entries| - 1], free);
    }
  }

  lemma {:induction false} DeleteAbsent(asked: Requests, source: Source)
    requires !Has(asked, source)
    ensures Delete(asked, source) == asked
  {
    if asked.Cons? {
      DeleteAbsent(asked.older, source);
    }
  }

  /** Counting an entry first does not matter to taking it out. */
  lemma {:induction false} DeleteRecounted(asked: Requests, source: Source, change: int)
    ensures Delete(Recount(asked, source, change), source) == Delete(asked, source)
  {
    if asked.Cons? {
      DeleteRecounted(asked.older, source, change);
    }
  }

  lemma {:induction false} RecountedOneEach(asked: Requests, source: Source, change: int)
    requires OneEach(asked)
    ensures OneEach(Recount(asked, source, change))
  {
    if asked.Cons? {
      RecountedOneEach(asked.older, source, change);
      RecountSources(asked.older, source, change, asked.newest.promise.source);
    }
  }

  predicate Distinct(asked: seq<Asked>) {
    forall i, j :: 0 <= i < j < |asked| ==> asked[i] != asked[j]
  }

  lemma ValuesWithout(asked: seq<Asked>, i: nat)
    requires i < |asked| && Distinct(asked)
    ensures Values(Without(asked, i)) == Without(Values(asked), i)
    ensures Distinct(Without(asked, i)) && forall k :: 0 <= k < |asked| - 1 ==> Without(asked, i)[k] in asked
  {
  }

  // ------------------------------------------------------------------------------
  // The module's state and its operations
  // ------------------------------------------------------------------------------

  class Previews {
    /** The map's entries, oldest first. */
    var asked: seq<Asked>
    var inFlight: int
    /** The round trips started and not settled. */
    var wire: set<Promise>
    /** How many promises have been made. */
    var issued: nat

    constructor ()
      ensures Ready() && View() == EMPTY_QUEUE
    {
      asked, inFlight, wire, issued := [], 0, {}, 0;
    }

    function View(): Queue
      reads this, asked
    {
      Queue(Listed(Values(asked)), inFlight, wire, issued)
    }

    /** No two places in the map hold one entry, so that updating one updates no other. */
    ghost predicate Ready()
      reads this
    {
      Distinct(asked)
    }

    /** The newest entry still waiting, or -1. */
    method NewestWaiting() returns (j: int)
      ensures -1 <= j < |asked|
      ensures j >= 0 ==> !asked[j].sent
      ensures forall i :: j < i < |asked| ==> asked[i].sent
    {
      j := |asked| - 1;
      while j >= 0 && asked[j].sent
        invariant -1 <= j < |asked|
        invariant forall i :: j < i < |asked| ==> asked[i].sent
      {
        j := j - 1;
      }
    }

    /** Starts the round trip of the entry at `j`, which is the newest waiting. */
    method Send(j: nat)
      requires j < |asked| && Ready() && !asked[j].sent && inFlight < CONCURRENT_PREVIEWS
      requires forall i :: j < i < |asked| ==> asked[i].sent
      modifies this`inFlight, this`wire, asked[j]
      ensures inFlight == old(inFlight) + 1
      ensures PreviewQueue.SendWhatFits(View()) == PreviewQueue.SendWhatFits(old(View()))
    {
      ghost var before := Values(asked);
      TurnIsPartOfSending(View(), before, j);
      asked[j].sent := true;
      inFlight := inFlight + 1;
      wire := wire + {asked[j].promise};
      assert Values(asked) == before[j := before[j].(sent := true)];
    }

    method SendWhatFits()
      requires Ready()
      modifies this`inFlight, this`wire, asked
      ensures View() == PreviewQueue.SendWhatFits(old(View()))
    {
      ghost var start := View();
      while inFlight < CONCURRENT_PREVIEWS
        invariant Ready()
        invariant PreviewQueue.SendWhatFits(View()) == PreviewQueue.SendWhatFits(start)
        decreases CONCURRENT_PREVIEWS - inFlight
      {
        var next := NewestWaiting();
        if next < 0 {
          ListedIdle(Values(asked), CONCURRENT_PREVIEWS - inFlight);
          return;
        }
        Send(next);
      }
      ListedIdle(Values(asked), CONCURRENT_PREVIEWS - inFlight);
    }

    /** Where `source` stands in the map, or its size when it does not. */
    method Lookup(source: Source) returns (i: nat)
      requires OneEach(View().asked)
      ensures i <= |asked|
      ensures i == |asked| ==> !Has(View().asked, source)
      ensures i < |asked| ==> asked[i].promise.source == source && Has(View().asked, source)
                              && Get(View().asked, source) == asked[i].Value()
    {
      i := 0;
      while i < |asked| && asked[i].promise.source != source
        invariant i <= |asked|
        invariant forall j :: 0 <= j < i ==> asked[j].promise.source != source
      {
        i := i + 1;
      }
      if i < |asked| {
        ListedAt(Values(asked), i);
      } else {
        ListedAbsent(Values(asked), source);
      }
    }

    /** `Map.delete`: takes the entry of `source` out, when there is one. */
    method Remove(source: Source)
      requires Ready() && OneEach(View().asked)
      modifies this`asked
      ensures Ready() && forall k :: 0 <= k < |asked| ==> asked[k] in old(asked)
      ensures View() == old(View()).(asked := Delete(old(View()).asked, source))
    {
      var i := Lookup(source);
      if i < |asked| {
        ListedWithout(Values(asked), i);
        ValuesWithout(asked, i);
        asked := Without(asked, i);
      } else {
        DeleteAbsent(View().asked, source);
      }
    }

    /** Changes how many rows want the entry at `i`. */
    method Tally(i: nat, change: int)
      requires i < |asked| && Ready() && OneEach(View().asked)
      modifies asked[i]
      ensures asked[i].sent == old(asked[i].sent) && asked[i].wanted == old(asked[i].wanted) + change
      ensures View() == old(View()).(asked := Recount(old(View()).asked, asked[i].promise.source, change))
    {
      ListedRecount(Values(asked), i, change);
      ghost var before := Values(asked);
      asked[i].wanted := asked[i].wanted + change;
      assert Values(asked) == before[i := before[i].(wanted := before[i].wanted + change)];
    }

    /** Puts a new request at the end of the map. */
    method Append(source: Source)
      requires Ready()
      modifies this`asked, this`issued
      ensures Ready() && fresh(set a | a in asked && a !in old(asked)) && View() == Requested(old(View()), source)
    {
      ghost var before := Values(asked);
      var entry := new Asked(Promise(source, issued));
      asked := asked + [entry];
      issued := issued + 1;
      assert asked[..|asked| - 1] == old(asked);
      assert Values(asked) == before + [entry.Value()];
      assert (before + [entry.Value()])[..|before|] == before;
    }

    /** A row asks; what it gets back is the promise of the one request there is. */
    method AskForThumbnail(source: Source) returns (answer: Promise)
      requires Ready() && OneEach(View().asked)
      modifies this, asked
      ensures Ready() && View() == Ask(old(View()), source) && answer == PromiseFor(old(View()), source)
      ensures fresh(set a | a in asked && a !in old(asked))
    {
      var i := Lookup(source);
      if i < |asked| {
        answer := asked[i].promise;
        Tally(i, 1);
      } else {
        answer := Promise(source, issued);
        Append(source);
        SendWhatFits();
      }
    }

    /** A row goes away; a request nobody else wants goes with it, unless it has left. */
    method StopWanting(source: Source)
      requires Ready() && OneEach(View().asked)
      modifies this, asked
      ensures Ready() && View() == PreviewQueue.StopWanting(old(View()), source)
      ensures forall k :: 0 <= k < |asked| ==> asked[k] in old(asked)
    {
      var i := Lookup(source);
      if i < |asked| {
        DeleteRecounted(View().asked, source, -1);
        RecountedOneEach(View().asked, source, -1);
        Tally(i, -1);
        if asked[i].wanted <= 0 && !asked[i].sent {
          Remove(source);
        }
      }
    }

    /** A round trip ends, with a picture or a refusal. */
    method Settled(promise: Promise)
      requires Ready() && OneEach(View().asked)
      modifies this, asked
      ensures Ready() && View() == Settle(old(View()), promise)
      ensures forall k :: 0 <= k < |asked| ==> asked[k] in old(asked)
    {
      ghost var q := View();
      inFlight := inFlight - 1;
      wire := wire - {promise};
      assert View() == q.(inFlight := q.inFlight - 1, wire := q.wire - {promise});
      Remove(promise.source);
      assert View() == Removed(q, promise);
      SendWhatFits();
    }
  }
}
