/** A list of sittings read page by page (`useSessions` of `apps/desktop/src/library.ts`):
    what the screen shows while answers to old questions and new ones arrive in any order.

    A round trip is numbered as it is made and stays in `firsts` or `mores` until it is answered
    or fails.  Of the first-page reads only the newest has its `current` flag still set.  A cursor
    is opaque to the window; here it is the number of sittings before the place it names. */
module SessionPages {

  import opened Options

  type Session = string

  datatype Question = Question(pageSize: nat, query: string)

  datatype Read = Reading | Rows(rows: seq<Session>) | Unread(problem: string)

  /** What is held, with the question it answers and the place it stops. */
  datatype Answer = Answer(asked: Question, read: Read, cursor: Option<nat>)

  datatype Page = Page(sessions: seq<Session>, next: Option<nat>)

  /** A request for the page after `cursor`, by whoever asked `asked`. */
  datatype More = More(asked: Question, cursor: nat)

  datatype Hook = Hook(question: Question, answer: Answer, loadingMore: bool,
                       firsts: map<nat, Question>, current: nat,
                       mores: map<nat, More>, made: nat)

  datatype Event =
    | Asked(question: Question)
    | SittingEnded
    | FirstAnswered(id: nat, page: Page)
    | FirstFailed(id: nat, problem: string)
    | MorePressed
    | MoreAnswered(id: nat, page: Page)
    | MoreFailed(id: nat, problem: string)

  function Opened(question: Question): Hook {
    Hook(question, Answer(question, Reading, None), false, map[0 := question], 0, map[], 1)
  }

  predicate Fresh(h: Hook) {
    h.answer.asked == h.question
  }

  /** What the screen shows. */
  function Shown(h: Hook): Read {
    if Fresh(h) then h.answer.read else Reading
  }

  function CursorNow(h: Hook): Option<nat> {
    if Fresh(h) then h.answer.cursor else None
  }

  predicate Outstanding(h: Hook) {
    h.current in h.firsts
  }

  /** Runs the effect: the read before loses its `current`, and a new one goes out. */
  function Reread(h: Hook): Hook {
    h.(firsts := h.firsts[h.made := h.question], current := h.made, made := h.made + 1)
  }

  predicate Enabled(h: Hook, e: Event) {
    match e
    case Asked(question) => question != h.question
    case SittingEnded => true
    case FirstAnswered(id, _) => id in h.firsts
    case FirstFailed(id, _) => id in h.firsts
    case MorePressed => true
    case MoreAnswered(id, _) => id in h.mores
    case MoreFailed(id, _) => id in h.mores
  }

  function FirstSettled(h: Hook, id: nat, read: Read, cursor: Option<nat>): Hook
    requires id in h.firsts
  {
    var after := h.(firsts := h.firsts - {id});
    if id == h.current then after.(answer := Answer(h.firsts[id], read, cursor)) else after
  }

  /** A further page lands on the rows there are, if they still answer its question. */
  function Appended(answer: Answer, asked: Question, page: Page): Answer {
    if answer.asked == asked && answer.read.Rows? then Answer(asked, Rows(answer.read.rows + page.sessions), page.next)
    else answer
  }

  function PressMore(h: Hook): Hook {
    if CursorNow(h) == None || h.loadingMore then h
    else h.(loadingMore := true, mores := h.mores[h.made := More(h.question, CursorNow(h).value)], made := h.made + 1)
  }

  function Step(h: Hook, e: Event): Hook
    requires Enabled(h, e)
  {
    match e
    case Asked(question) => Reread(h.(question := question))
    case SittingEnded => Reread(h)
    case FirstAnswered(id, page) => FirstSettled(h, id, Rows(page.sessions), page.next)
    case FirstFailed(id, problem) => FirstSettled(h, id, Unread(problem), None)
    case MorePressed => PressMore(h)
    case MoreAnswered(id, page) =>
      h.(answer := Appended(h.answer, h.mores[id].asked, page), loadingMore := false, mores := h.mores - {id})
    case MoreFailed(id, problem) =>
      h.(answer := Answer(h.mores[id].asked, Unread(problem), None), loadingMore := false, mores := h.mores - {id})
  }

  predicate IsRun(h: Hook, events: seq<Event>)
    decreases |events|
  {
    events == [] || (Enabled(h, events[0]) && IsRun(Step(h, events[0]), events[1..]))
  }

  function Final(h: Hook, events: seq<Event>): Hook
    requires IsRun(h, events)
    decreases |events|
  {
    if events == [] then h else Final(Step(h, events[0]), events[1..])
  }

  // ------------------------------------------------------------------------------
  // What every run keeps
  // ------------------------------------------------------------------------------

  predicate Valid(h: Hook) {
    && (forall id :: id in h.firsts ==> id < h.made)
    && (forall id :: id in h.mores ==> id < h.made)
    && (Outstanding(h) ==> h.firsts[h.current] == h.question)
    && h.current < h.made
    // One further page at a time, and the flag says whether.
    && |h.mores| == if h.loadingMore then 1 else 0
  }

  lemma OneFewer(mores: map<nat, More>, id: nat)
    requires id in mores
    ensures |mores - {id}| == |mores| - 1
  {
  }

  lemma RereadKeeps(h: Hook, question: Question)
    requires Valid(h)
    ensures Valid(Reread(h.(question := question)))
  {
  }

  lemma FirstSettledKeeps(h: Hook, id: nat, read: Read, cursor: Option<nat>)
    requires Valid(h) && id in h.firsts
    ensures Valid(FirstSettled(h, id, read, cursor))
  {
  }

  lemma MorePressedKeeps(h: Hook)
    requires Valid(h)
    ensures Valid(PressMore(h))
  {
  }

  lemma MoreSettledKeeps(h: Hook, id: nat, answer: Answer)
    requires Valid(h) && id in h.mores
    ensures Valid(h.(answer := answer, loadingMore := false, mores := h.mores - {id}))
  {
  }

  lemma StepKeeps(h: Hook, e: Event)
    requires Valid(h) && Enabled(h, e)
    ensures Valid(Step(h, e))
  {
    match e
    case Asked(question) => RereadKeeps(h, question);
    case SittingEnded => RereadKeeps(h, h.question);
    case FirstAnswered(id, page) => FirstSettledKeeps(h, id, Rows(page.sessions), page.next);
    case FirstFailed(id, problem) => FirstSettledKeeps(h, id, Unread(problem), None);
    case MorePressed => MorePressedKeeps(h);
    case MoreAnswered(id, page) => MoreSettledKeeps(h, id, Appended(h.answer, h.mores[id].asked, page));
    case MoreFailed(id, problem) => MoreSettledKeeps(h, id, Answer(h.mores[id].asked, Unread(problem), None));
  }

  // ------------------------------------------------------------------------------
  // Every row shown answers the question asked
  // ------------------------------------------------------------------------------

  /** The sittings a round trip brings, each with the question that round trip put. */
  function Brought(h: Hook, e: Event): set<(Question, Session)>
    requires Enabled(h, e)
  {
    match e
    case FirstAnswered(id, page) => set r | r in page.sessions :: (h.firsts[id], r)
    case MoreAnswered(id, page) => set r | r in page.sessions :: (h.mores[id].asked, r)
    case _ => {}
  }

  /** Everything a run's pages brought. */
  function AllBrought(h: Hook, events: seq<Event>): set<(Question, Session)>
    requires IsRun(h, events)
    decreases |events|
  {
    if events == [] then {} else Brought(h, events[0]) + AllBrought(Step(h, events[0]), events[1..])
  }

  predicate RowsAreFrom(answer: Answer, brought: set<(Question, Session)>) {
    answer.read.Rows? ==> forall r :: r in answer.read.rows ==> (answer.asked, r) in brought
  }

  lemma StepRowsAreFrom(h: Hook, e: Event, brought: set<(Question, Session)>)
    requires Valid(h) && Enabled(h, e) && RowsAreFrom(h.answer, brought)
    ensures RowsAreFrom(Step(h, e).answer, brought + Brought(h, e))
  {
  }

  lemma {:induction false} RunRowsAreFrom(h: Hook, events: seq<Event>, brought: set<(Question, Session)>)
    requires Valid(h) && IsRun(h, events) && RowsAreFrom(h.answer, brought)
    ensures RowsAreFrom(Final(h, events).answer, brought + AllBrought(h, events))
    decreases |events|
  {
    if events != [] {
      StepKeeps(h, events[0]);
      StepRowsAreFrom(h, events[0], brought);
      RunRowsAreFrom(Step(h, events[0]), events[1..], brought + Brought(h, events[0]));
    }
  }

  /** Whatever is typed, answered, lost and ended in between, every row on screen came in a page
      that answered the question on screen. */
  lemma ShownRowsAnswerTheQuestion(question: Question, events: seq<Event>, row: Session)
    requires IsRun(Opened(question), events)
    requires Shown(Final(Opened(question), events)).Rows? && row in Shown(Final(Opened(question), events)).rows
    ensures (Final(Opened(question), events).question, row) in AllBrought(Opened(question), events)
  {
    RunRowsAreFrom(Opened(question), events, {});
  }

  // ------------------------------------------------------------------------------
  // Whether "reading" is true
  // ------------------------------------------------------------------------------

  /** A screen that says it is reading has a read out to wait for. */
  predicate Honest(h: Hook) {
    Shown(h) == Reading ==> Outstanding(h)
  }

  /** A further page for a question no longer asked fails, with nothing else on its way: its
      failure takes the place of the answer on screen. */
  predicate LateFailure(h: Hook, e: Event)
    requires Enabled(h, e)
  {
    e.MoreFailed? && h.mores[e.id].asked != h.question && !Outstanding(h)
  }

  lemma StepHonestExactly(h: Hook, e: Event)
    requires Valid(h) && Honest(h) && Enabled(h, e)
    ensures Honest(Step(h, e)) <==> !LateFailure(h, e)
  {
  }

  predicate HonestThroughout(h: Hook, events: seq<Event>)
    requires IsRun(h, events)
    decreases |events|
  {
    Honest(h) && (events != [] ==> HonestThroughout(Step(h, events[0]), events[1..]))
  }

  predicate NoLateFailure(h: Hook, events: seq<Event>)
    requires IsRun(h, events)
    decreases |events|
  {
    events != [] ==> !LateFailure(h, events[0]) && NoLateFailure(Step(h, events[0]), events[1..])
  }

  lemma {:induction false} HonestFromHere(h: Hook, events: seq<Event>)
    requires Valid(h) && Honest(h) && IsRun(h, events)
    ensures HonestThroughout(h, events) <==> NoLateFailure(h, events)
    decreases |events|
  {
    if events != [] {
      StepKeeps(h, events[0]);
      StepHonestExactly(h, events[0]);
      if !LateFailure(h, events[0]) {
        HonestFromHere(Step(h, events[0]), events[1..]);
      }
    }
  }

  /** A run of the screen says "reading" only while it is, exactly when no further page fails
      late. */
  lemma HonestExactlyWithoutLateFailures(question: Question, events: seq<Event>)
    requires IsRun(Opened(question), events)
    ensures HonestThroughout(Opened(question), events) <==> NoLateFailure(Opened(question), events)
  {
    HonestFromHere(Opened(question), events);
  }

  /** "Reading", with nothing on its way that the screen would take. */
  predicate Stuck(h: Hook) {
    !Fresh(h) && !Outstanding(h) && h.mores == map[]
  }

  lemma LateFailureSticks(h: Hook, e: Event)
    requires Valid(h) && Enabled(h, e) && LateFailure(h, e)
    ensures Stuck(Step(h, e)) && !Honest(Step(h, e))
  {
    OneFewer(h.mores, e.id);
  }

  /** A screen that a late failure has emptied stays empty until something is asked again: no
      answer still on its way, and no press, brings the rows back. */
  lemma {:induction false} StuckUntilAskedAgain(h: Hook, events: seq<Event>)
    requires Valid(h) && Stuck(h) && IsRun(h, events)
    requires SittingEnded !in events && forall e :: e in events ==> !e.Asked?
    ensures Stuck(Final(h, events)) && Shown(Final(h, events)) == Reading
    decreases |events|
  {
    if events != [] {
      var e := events[0];
      assert e in events && forall x :: x in events[1..] ==> x in events;
      StepKeeps(h, e);
      assert Stuck(Step(h, e));
      StuckUntilAskedAgain(Step(h, e), events[1..]);
    }
  }

  lemma RunStep(h: Hook, e: Event, rest: seq<Event>)
    requires Enabled(h, e) && IsRun(Step(h, e), rest)
    ensures IsRun(h, [e] + rest)
    ensures Final(h, [e] + rest) == Final(Step(h, e), rest)
  {
  }

  /** The run that does it: a page, "Show more", another question and its answer, and then the
      failure of the further page for the first. */
  lemma AScreenCanStick(one: Question, other: Question, page: Page, answer: Page, problem: string)
    requires one != other && page.next.Some?
    ensures var events := [FirstAnswered(0, page), MorePressed, Asked(other), FirstAnswered(2, answer), MoreFailed(1, problem)];
            && IsRun(Opened(one), events)
            && Stuck(Final(Opened(one), events))
  {
    var h0 := Opened(one);
    var h1 := Step(h0, FirstAnswered(0, page));
    var h2 := Step(h1, MorePressed);
    var h3 := Step(h2, Asked(other));
    var h4 := Step(h3, FirstAnswered(2, answer));
    assert h4.mores == map[1 := More(one, page.next.value)] && h4.question == other && 2 !in h4.firsts && h4.current == 2;
    var h5 := Step(h4, MoreFailed(1, problem));
    assert h5.mores == map[];
    var last := [MoreFailed(1, problem)];
    RunStep(h4, MoreFailed(1, problem), []);
    RunStep(h3, FirstAnswered(2, answer), last);
    RunStep(h2, Asked(other), [FirstAnswered(2, answer)] + last);
    RunStep(h1, MorePressed, [Asked(other)] + ([FirstAnswered(2, answer)] + last));
    RunStep(h0, FirstAnswered(0, page), [MorePressed] + ([Asked(other)] + ([FirstAnswered(2, answer)] + last)));
    assert [FirstAnswered(0, page)] + ([MorePressed] + ([Asked(other)] + ([FirstAnswered(2, answer)] + last)))
        == [FirstAnswered(0, page), MorePressed, Asked(other), FirstAnswered(2, answer), MoreFailed(1, problem)];
  }

  // ------------------------------------------------------------------------------
  // Against a library that does not change
  // ------------------------------------------------------------------------------

  /** Every question's whole result, newest first, each sitting once. */
  type Library = Question -> seq<Session>

  ghost predicate Once(rows: seq<Session>) {
    forall i, j :: 0 <= i < j < |rows| ==> rows[i] != rows[j]
  }

  /** `page` is what the recorder has after `from`: some of the sittings that follow, and a cursor
      behind them when there are more. */
  predicate IsPage(page: Page, all: seq<Session>, from: nat) {
    && from + |page.sessions| <= |all|
    && page.sessions == all[from..from + |page.sessions|]
    && page.next == if from + |page.sessions| < |all| then Some(from + |page.sessions|) else None
  }

  /** Every answer of the run comes from `library`. */
  ghost predicate Answers(library: Library, h: Hook, e: Event)
    requires Enabled(h, e)
  {
    match e
    case FirstAnswered(id, page) => IsPage(page, library(h.firsts[id]), 0)
    case MoreAnswered(id, page) => IsPage(page, library(h.mores[id].asked), h.mores[id].cursor)
    case _ => true
  }

  /** What is held is the beginning of the question's result, with the cursor where it stops. */
  ghost predicate Prefixed(library: Library, answer: Answer) {
    answer.read.Rows? ==>
      var all, n := library(answer.asked), |answer.read.rows|;
      && n <= |all|
      && answer.read.rows == all[..n]
      && answer.cursor == if n < |all| then Some(n) else None
  }

  /** A further page lands on rows that no longer stop where it begins. */
  predicate LatePage(h: Hook, e: Event)
    requires Enabled(h, e)
  {
    e.MoreAnswered? && h.answer.read.Rows? && h.answer.asked == h.mores[e.id].asked
    && h.answer.cursor != Some(h.mores[e.id].cursor)
  }

  /** Cursors name places before the end. */
  ghost predicate CursorsInside(library: Library, h: Hook) {
    && (h.answer.cursor.Some? ==> h.answer.cursor.value < |library(h.answer.asked)|)
    && forall id :: id in h.mores ==> h.mores[id].cursor < |library(h.mores[id].asked)|
  }

  lemma AppendedPrefixExactly(library: Library, answer: Answer, more: More, page: Page)
    requires Once(library(more.asked)) && Prefixed(library, answer) && more.cursor < |library(more.asked)|
    requires answer.read.Rows? && answer.asked == more.asked
    requires IsPage(page, library(more.asked), more.cursor)
    ensures Prefixed(library, Appended(answer, more.asked, page)) <==> answer.cursor == Some(more.cursor)
  {
  }

  lemma StepPrefixedExactly(library: Library, h: Hook, e: Event)
    requires Valid(h) && Enabled(h, e) && Answers(library, h, e) && CursorsInside(library, h)
    requires forall q :: Once(library(q))
    requires Prefixed(library, h.answer)
    ensures Prefixed(library, Step(h, e).answer) <==> !LatePage(h, e)
  {
    if e.MoreAnswered? && h.answer.read.Rows? && h.answer.asked == h.mores[e.id].asked {
      AppendedPrefixExactly(library, h.answer, h.mores[e.id], e.page);
    }
  }

  lemma StepCursorsInside(library: Library, h: Hook, e: Event)
    requires Valid(h) && Enabled(h, e) && Answers(library, h, e) && CursorsInside(library, h)
    ensures CursorsInside(library, Step(h, e))
  {
  }

  ghost predicate RunAnswers(library: Library, h: Hook, events: seq<Event>)
    requires IsRun(h, events)
    decreases |events|
  {
    events != [] ==> Answers(library, h, events[0]) && RunAnswers(library, Step(h, events[0]), events[1..])
  }

  ghost predicate PrefixedThroughout(library: Library, h: Hook, events: seq<Event>)
    requires IsRun(h, events)
    decreases |events|
  {
    Prefixed(library, h.answer) && (events != [] ==> PrefixedThroughout(library, Step(h, events[0]), events[1..]))
  }

  predicate NoLatePage(h: Hook, events: seq<Event>)
    requires IsRun(h, events)
    decreases |events|
  {
    events != [] ==> !LatePage(h, events[0]) && NoLatePage(Step(h, events[0]), events[1..])
  }

  /** Against a library that does not change, the rows held are the beginning of their question's
      result at every moment of a run exactly when no further page lands late. */
  lemma {:induction false} PrefixedExactlyWithoutLatePages(library: Library, h: Hook, events: seq<Event>)
    requires Valid(h) && CursorsInside(library, h) && Prefixed(library, h.answer)
    requires IsRun(h, events) && RunAnswers(library, h, events) && forall q :: Once(library(q))
    ensures PrefixedThroughout(library, h, events) <==> NoLatePage(h, events)
    decreases |events|
  {
    if events != [] {
      StepKeeps(h, events[0]);
      StepCursorsInside(library, h, events[0]);
      StepPrefixedExactly(library, h, events[0]);
      if !LatePage(h, events[0]) {
        PrefixedExactlyWithoutLatePages(library, Step(h, events[0]), events[1..]);
      }
    }
  }

  /** The end of a run that does it: with a third page asked for, a sitting ends, the first page is
      read again, and the third is then put straight after it. */
  lemma GapShows(library: Library, question: Question, h: Hook, one: Page, two: Page, three: Page)
    requires Once(library(question))
    requires IsPage(one, library(question), 0) && one.next.Some?
    requires IsPage(two, library(question), one.next.value) && two.next.Some? && two.sessions != []
    requires IsPage(three, library(question), two.next.value)
    requires h.question == question && h.firsts == map[] && h.mores == map[2 := More(question, two.next.value)] && h.made == 3
    ensures var events := [SittingEnded, FirstAnswered(3, one), MoreAnswered(2, three)];
            && IsRun(h, events)
            && Shown(Final(h, events)) == Rows(one.sessions + three.sessions)
            && !Prefixed(library, Final(h, events).answer)
  {
    var h1 := Step(h, SittingEnded);
    var h2 := Step(h1, FirstAnswered(3, one));
    AppendedPrefixExactly(library, h2.answer, More(question, two.next.value), three);
    RunStep(h2, MoreAnswered(2, three), []);
    RunStep(h1, FirstAnswered(3, one), [MoreAnswered(2, three)]);
    RunStep(h, SittingEnded, [FirstAnswered(3, one)] + [MoreAnswered(2, three)]);
    assert [SittingEnded] + ([FirstAnswered(3, one)] + [MoreAnswered(2, three)])
        == [SittingEnded, FirstAnswered(3, one), MoreAnswered(2, three)];
  }

  /** Such a page does land late: a third page is asked for when two are shown. */
  lemma AGapCanShow(library: Library, question: Question, one: Page, two: Page, three: Page)
    requires Once(library(question))
    requires IsPage(one, library(question), 0) && one.next.Some?
    requires IsPage(two, library(question), one.next.value) && two.next.Some? && two.sessions != []
    requires IsPage(three, library(question), two.next.value)
    ensures var events := [FirstAnswered(0, one), MorePressed, MoreAnswered(1, two), MorePressed]
                          + [SittingEnded, FirstAnswered(3, one), MoreAnswered(2, three)];
            && IsRun(Opened(question), events)
            && Shown(Final(Opened(question), events)) == Rows(one.sessions + three.sessions)
            && !Prefixed(library, Final(Opened(question), events).answer)
  {
    var h0 := Opened(question);
    var h1 := Step(h0, FirstAnswered(0, one));
    var h2 := Step(h1, MorePressed);
    var h3 := Step(h2, MoreAnswered(1, two));
    assert h3.mores == map[];
    var h4 := Step(h3, MorePressed);
    var last := [SittingEnded, FirstAnswered(3, one), MoreAnswered(2, three)];
    GapShows(library, question, h4, one, two, three);
    RunStep(h3, MorePressed, last);
    RunStep(h2, MoreAnswered(1, two), [MorePressed] + last);
    RunStep(h1, MorePressed, [MoreAnswered(1, two)] + ([MorePressed] + last));
    RunStep(h0, FirstAnswered(0, one), [MorePressed] + ([MoreAnswered(1, two)] + ([MorePressed] + last)));
    assert [FirstAnswered(0, one)] + ([MorePressed] + ([MoreAnswered(1, two)] + ([MorePressed] + last)))
        == [FirstAnswered(0, one), MorePressed, MoreAnswered(1, two), MorePressed] + last;
  }

  // ------------------------------------------------------------------------------
  // When no page lands late
  // ------------------------------------------------------------------------------

  /** No first-page read and no further page are out together. */
  predicate Calm(h: Hook) {
    !(Outstanding(h) && h.mores != map[])
  }

  predicate CalmThroughout(h: Hook, events: seq<Event>)
    requires IsRun(h, events)
    decreases |events|
  {
    Calm(h) && (events != [] ==> CalmThroughout(Step(h, events[0]), events[1..]))
  }

  /** The further page that is out was asked for from what is on screen. */
  predicate InStep(h: Hook) {
    forall id :: id in h.mores ==>
      h.answer.read.Rows? && h.answer.asked == h.mores[id].asked && h.answer.cursor == Some(h.mores[id].cursor)
  }

  /** Only an answer with rows has a cursor to go on from. */
  predicate CursorHasRows(h: Hook) {
    h.answer.cursor.Some? ==> h.answer.read.Rows?
  }

  lemma CalmStaysInStep(h: Hook, e: Event)
    requires Valid(h) && Calm(h) && InStep(h) && CursorHasRows(h) && Enabled(h, e) && Calm(Step(h, e))
    ensures InStep(Step(h, e)) && CursorHasRows(Step(h, e)) && !LatePage(h, e)
  {
    if e.MoreAnswered? || e.MoreFailed? {
      OneFewer(h.mores, e.id);
    }
  }

  lemma {:induction false} CalmHasNoLatePage(h: Hook, events: seq<Event>)
    requires Valid(h) && InStep(h) && CursorHasRows(h) && IsRun(h, events) && CalmThroughout(h, events)
    ensures NoLatePage(h, events)
    decreases |events|
  {
    if events != [] {
      StepKeeps(h, events[0]);
      CalmStaysInStep(h, events[0]);
      CalmHasNoLatePage(Step(h, events[0]), events[1..]);
    }
  }

  /** So a screen that never has both out shows the beginning of the result, and nothing else. */
  lemma CalmRunsShowPrefixes(library: Library, question: Question, events: seq<Event>)
    requires IsRun(Opened(question), events) && RunAnswers(library, Opened(question), events)
    requires CalmThroughout(Opened(question), events) && forall q :: Once(library(q))
    ensures PrefixedThroughout(library, Opened(question), events)
  {
    CalmHasNoLatePage(Opened(question), events);
    PrefixedExactlyWithoutLatePages(library, Opened(question), events);
  }
}
