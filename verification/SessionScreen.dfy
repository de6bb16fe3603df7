/** What the screen shows after each thing that happens to it, said of the screen: the rows or the problem
    shown, whether there is more to ask for, and what is asked. */
module SessionScreen {
  import opened Options
  import opened SessionPages

  /** What a person sees of the list: what is shown, where it goes on, and whether that is being fetched. */
  datatype Screen = Screen(read: Read, more: Option<nat>, loading: bool)

  function Seen(h: Hook): Screen {
    Screen(Shown(h), CursorNow(h), h.loadingMore)
  }

  /** Whether a round trip is the first page of the question now asked, last sent. */
  predicate IsCurrent(h: Hook, id: nat) {
    id in h.firsts && id == h.current
  }

  /** Whether one is a further page of it. */
  predicate IsFurther(h: Hook, id: nat) {
    id in h.mores && h.mores[id].asked == h.question
  }

  /** What an event does to the screen. */
  predicate ScreenAfter(h: Hook, e: Event, after: Screen) {
    var before := Seen(h);
    match e
    case Asked(question) =>
      // Only a question put again while its answer is still held has anything to show.
      after == if h.answer.asked == question then Screen(h.answer.read, h.answer.cursor, before.loading)
               else Screen(Reading, None, before.loading)
    case SittingEnded => after == before
    case FirstAnswered(id, page) =>
      after == if IsCurrent(h, id) then Screen(Rows(page.sessions), page.next, before.loading) else before
    case FirstFailed(id, problem) =>
      after == if IsCurrent(h, id) then Screen(Unread(problem), None, before.loading) else before
    case MorePressed => after == before.(loading := before.loading || before.more.Some?)
    case MoreAnswered(id, page) =>
      after == if IsFurther(h, id) && before.read.Rows? then Screen(Rows(before.read.rows + page.sessions), page.next, false)
               else before.(loading := false)
    case MoreFailed(id, problem) =>
      after == if IsFurther(h, id) then Screen(Unread(problem), None, false) else Screen(Reading, None, false)
  }

  /** The round trips that are out after an event: a question and a sitting's end send for a first page of
      what is asked, and a press for what follows the rows shown. */
  ghost predicate SentAfter(h: Hook, e: Event, after: Hook)
    requires Enabled(h, e)
  {
    match e
    case Asked(question) => after.question == question && SentFirst(h, after)
    case SittingEnded => after.question == h.question && SentFirst(h, after)
    case MorePressed =>
      && after.question == h.question && after.firsts == h.firsts
      && if Seen(h).more.Some? && !h.loadingMore
         then exists id: nat :: id !in h.mores && id !in h.firsts
                           && after.mores == h.mores[id := More(h.question, Seen(h).more.value)]
         else after.mores == h.mores
    case FirstAnswered(id, _) => after.firsts == h.firsts - {id} && after.mores == h.mores && after.question == h.question
    case FirstFailed(id, _) => after.firsts == h.firsts - {id} && after.mores == h.mores && after.question == h.question
    case MoreAnswered(id, _) => after.mores == h.mores - {id} && after.firsts == h.firsts && after.question == h.question
    case MoreFailed(id, _) => after.mores == h.mores - {id} && after.firsts == h.firsts && after.question == h.question
  }

  /** A new first page of the question now asked is out, and it is the one that counts. */
  predicate SentFirst(h: Hook, after: Hook) {
    && after.current !in h.firsts && after.current !in h.mores
    && after.firsts == h.firsts[after.current := after.question] && after.mores == h.mores
  }

  lemma StepShows(h: Hook, e: Event)
    requires Valid(h) && Enabled(h, e)
    ensures ScreenAfter(h, e, Seen(Step(h, e)))
  {
  }

  lemma StepSends(h: Hook, e: Event)
    requires Valid(h) && Enabled(h, e)
    ensures SentAfter(h, e, Step(h, e))
  {
    if e.MorePressed? && Seen(h).more.Some? && !h.loadingMore {
      assert h.made !in h.mores && h.made !in h.firsts;
    }
  }

  lemma {:induction false} RunsAreValid(h: Hook, events: seq<Event>)
    requires Valid(h) && IsRun(h, events)
    ensures Valid(Final(h, events))
    decreases |events|
  {
    if events != [] {
      StepKeeps(h, events[0]);
      RunsAreValid(Step(h, events[0]), events[1..]);
    }
  }

  /** In every run of the screen, each thing that happens shows, and sends, exactly that. */
  lemma EveryEventShows(question: Question, events: seq<Event>, e: Event)
    requires IsRun(Opened(question), events) && Enabled(Final(Opened(question), events), e)
    ensures ScreenAfter(Final(Opened(question), events), e, Seen(Step(Final(Opened(question), events), e)))
    ensures SentAfter(Final(Opened(question), events), e, Step(Final(Opened(question), events), e))
  {
    RunsAreValid(Opened(question), events);
    StepShows(Final(Opened(question), events), e);
    StepSends(Final(Opened(question), events), e);
  }

  /** So a failure for the question now asked is always shown, and leaves nothing to go on from. */
  lemma FailuresAreShown(question: Question, events: seq<Event>, id: nat, problem: string)
    requires IsRun(Opened(question), events)
    ensures var h := Final(Opened(question), events);
            && (IsFurther(h, id) ==> Seen(Step(h, MoreFailed(id, problem))) == Screen(Unread(problem), None, false))
            && (IsCurrent(h, id) ==> Seen(Step(h, FirstFailed(id, problem))) == Screen(Unread(problem), None, h.loadingMore))
  {
    var h := Final(Opened(question), events);
    if IsFurther(h, id) {
      EveryEventShows(question, events, MoreFailed(id, problem));
    }
    if IsCurrent(h, id) {
      EveryEventShows(question, events, FirstFailed(id, problem));
    }
  }

  /** And before anything has happened the first page of the question is out, and nothing is shown. */
  lemma OpensReading(question: Question)
    ensures Seen(Opened(question)) == Screen(Reading, None, false) && IsCurrent(Opened(question), 0)
    ensures Opened(question).firsts == map[0 := question] && Opened(question).mores == map[]
  {
  }
}
