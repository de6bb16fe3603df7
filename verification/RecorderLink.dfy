/** The recorder as the window last heard of it (`useRecorderLink` of
    `apps/desktop/src/useRecorderLink.ts`): one question asked as the window opens, a stream of
    events beside it, and nothing to say which arrives first. */
module RecorderLink {
  import opened Options

  /** `recording` carries the file being written; every other status is named. */
  datatype Status = Recording(id: string, output: string) | Quiet(name: string)

  datatype Link =
    | Connecting
    | Attached(status: Status)
    | Reconnecting(attempt: nat, reason: string)
    | Unavailable(reason: string)

  type Interruption = string
  type Sitting = string

  datatype Failure = Failure(id: string, error: string, output: Option<string>)

  datatype View = View(link: Option<Link>, interrupted: Option<Interruption>, failed: Option<Failure>,
                       ended: Option<Sitting>, lastRecording: Option<Status>,
                       superseded: bool, answered: bool, subscription: Subscription)

  /** Whether the subscription has delivered anything, or been refused. */
  datatype Subscription = Silent | Heard | Refused

  datatype Event =
    | Snapshot(link: Link)
    | SnapshotFailed(reason: string)
    | State(link: Link)
    | Interrupted(recording: Interruption)
    | SittingEnded(sitting: Sitting)
    | Failed(id: string, error: string)
    | SubscriptionFailed(reason: string)

  const OPENED := View(None, None, None, None, None, false, false, Silent)

  /** The question is answered once; a subscription that is refused delivers nothing. */
  predicate Enabled(v: View, e: Event) {
    if e.Snapshot? || e.SnapshotFailed? then !v.answered
    else if e.SubscriptionFailed? then v.subscription == Silent
    else v.subscription != Refused
  }

  function Observe(v: View, link: Link): View {
    v.(link := Some(link),
       lastRecording := if link.Attached? && link.status.Recording? then Some(link.status) else v.lastRecording)
  }

  function CannotFollow(reason: string): Link {
    Unavailable("This window cannot follow the recorder: " + reason)
  }

  /** The file a failed recording was writing, if the last recording seen is the one that failed. */
  function OutputOf(lastRecording: Option<Status>, id: string): Option<string> {
    if lastRecording.Some? && lastRecording.value.Recording? && lastRecording.value.id == id
    then Some(lastRecording.value.output)
    else None
  }

  function Step(v: View, e: Event): View {
    match e
    case Snapshot(link) => (if v.superseded then v else Observe(v, link)).(answered := true)
    case SnapshotFailed(reason) => (if v.superseded then v else Observe(v, Unavailable(reason))).(answered := true)
    case State(link) => Observe(v, link).(superseded := true, subscription := Heard)
    case Interrupted(recording) => v.(interrupted := Some(recording), subscription := Heard)
    case SittingEnded(sitting) => v.(ended := Some(sitting), subscription := Heard)
    case Failed(id, error) =>
      v.(failed := Some(Failure(id, error, OutputOf(v.lastRecording, id))), subscription := Heard)
    case SubscriptionFailed(reason) => Observe(v, CannotFollow(reason)).(subscription := Refused)
  }

  /** What the window has come to after `events`, in the order they happened. */
  function After(events: seq<Event>): View {
    if events == [] then OPENED else Step(After(events[..|events| - 1]), events[|events| - 1])
  }

  predicate IsRun(events: seq<Event>) {
    events != [] ==>
      IsRun(events[..|events| - 1]) && Enabled(After(events[..|events| - 1]), events[|events| - 1])
  }

  // ------------------------------------------------------------------------------
  // The same, read off the history
  // ------------------------------------------------------------------------------

  function LastState(events: seq<Event>): Option<Link> {
    if events == [] then None
    else if events[|events| - 1].State? then Some(events[|events| - 1].link)
    else LastState(events[..|events| - 1])
  }

  function LastInterruption(events: seq<Event>): Option<Interruption> {
    if events == [] then None
    else if events[|events| - 1].Interrupted? then Some(events[|events| - 1].recording)
    else LastInterruption(events[..|events| - 1])
  }

  function LastSitting(events: seq<Event>): Option<Sitting> {
    if events == [] then None
    else if events[|events| - 1].SittingEnded? then Some(events[|events| - 1].sitting)
    else LastSitting(events[..|events| - 1])
  }

  /** The links a window learns of, oldest first: every state event's, the answer to the question
      unless a state event came before it, and what a refused subscription is reported as. */
  function Learned(events: seq<Event>): seq<Link> {
    if events == [] then []
    else
      var before, e := events[..|events| - 1], events[|events| - 1];
      match e
      case State(link) => Learned(before) + [link]
      case Snapshot(link) => if LastState(before).Some? then Learned(before) else Learned(before) + [link]
      case SnapshotFailed(reason) =>
        if LastState(before).Some? then Learned(before) else Learned(before) + [Unavailable(reason)]
      case SubscriptionFailed(reason) => Learned(before) + [CannotFollow(reason)]
      case _ => Learned(before)
  }

  function LastOf<T>(s: seq<T>): Option<T> {
    if s == [] then None else Some(s[|s| - 1])
  }

  function LastRecordingIn(links: seq<Link>): Option<Status> {
    if links == [] then None
    else
      var last := links[|links| - 1];
      if last.Attached? && last.status.Recording? then Some(last.status) else LastRecordingIn(links[..|links| - 1])
  }

  /** The last failure, with the file of the last recording learned of before it if that is the
      recording that failed. */
  function LastFailure(events: seq<Event>): Option<Failure> {
    if events == [] then None
    else
      var before, e := events[..|events| - 1], events[|events| - 1];
      if e.Failed? then Some(Failure(e.id, e.error, OutputOf(LastRecordingIn(Learned(before)), e.id)))
      else LastFailure(before)
  }

  lemma LearnedOneMore(links: seq<Link>, link: Link)
    ensures LastOf(links + [link]) == Some(link)
    ensures LastRecordingIn(links + [link])
         == if link.Attached? && link.status.Recording? then Some(link.status) else LastRecordingIn(links)
  {
  }

  /** Whatever the order of answer and events, the window is what its history says: the link it
      learned of last, and the last event of each other kind, which nothing erases. */
  lemma {:induction false} WindowIsItsHistory(events: seq<Event>)
    ensures var v := After(events);
            && v.link == LastOf(Learned(events))
            && v.lastRecording == LastRecordingIn(Learned(events))
            && v.interrupted == LastInterruption(events)
            && v.ended == LastSitting(events)
            && v.failed == LastFailure(events)
            && v.superseded == LastState(events).Some?
  {
    if events != [] {
      var before, e := events[..|events| - 1], events[|events| - 1];
      WindowIsItsHistory(before);
      match e
      case Snapshot(link) => LearnedOneMore(Learned(before), link);
      case SnapshotFailed(reason) => LearnedOneMore(Learned(before), Unavailable(reason));
      case State(link) => LearnedOneMore(Learned(before), link);
      case SubscriptionFailed(reason) => LearnedOneMore(Learned(before), CannotFollow(reason));
      case _ =>
    }
  }

  predicate SubscriptionHolds(events: seq<Event>) {
    forall e :: e in events ==> !e.SubscriptionFailed?
  }

  /** While the subscription holds, a window that has been told a state shows the state it was told
      last, whenever the answer to its question arrives. */
  lemma {:induction false} ShowsTheLastState(events: seq<Event>)
    requires IsRun(events) && SubscriptionHolds(events) && LastState(events).Some?
    ensures After(events).link == LastState(events)
  {
    WindowIsItsHistory(events);
    LearnedEndsWithState(events);
  }

  lemma {:induction false} LearnedEndsWithState(events: seq<Event>)
    requires SubscriptionHolds(events) && LastState(events).Some?
    ensures LastOf(Learned(events)) == LastState(events)
  {
    var before, e := events[..|events| - 1], events[|events| - 1];
    assert e in events && forall x :: x in before ==> x in events;
    if !e.State? {
      LearnedEndsWithState(before);
    }
  }

  /** A failure names a file exactly when the last recording the window learned of before it is the
      one that failed, and then it names that recording's file. */
  lemma FailureNamesItsOwnFile(before: seq<Event>, id: string, error: string)
    ensures var failed, seen := After(before + [Failed(id, error)]).failed, LastRecordingIn(Learned(before));
            && failed.Some? && failed.value.id == id && failed.value.error == error
            && (failed.value.output.Some? <==> seen.Some? && seen.value.Recording? && seen.value.id == id)
            && (failed.value.output.Some? ==> failed.value.output.value == seen.value.output)
  {
    var events := before + [Failed(id, error)];
    assert events[..|events| - 1] == before;
    WindowIsItsHistory(before);
  }

  // ------------------------------------------------------------------------------
  // A subscription that is refused
  // ------------------------------------------------------------------------------

  lemma {:induction false} SilentIsNotSuperseded(events: seq<Event>)
    requires IsRun(events)
    ensures After(events).subscription != Heard ==> !After(events).superseded
  {
  }

  function AnswerOf(e: Event): Link
    requires e.Snapshot? || e.SnapshotFailed?
  {
    if e.Snapshot? then e.link else Unavailable(e.reason)
  }

  /** After a refusal nothing is delivered, and at most the answer to the question is still to come.
      The window says that it cannot follow the recorder until that answer arrives, and then shows
      the answer instead, for good. */
  lemma {:induction false} RefusalIsShownUntilAnswered(before: seq<Event>, reason: string, rest: seq<Event>)
    requires IsRun(before + [SubscriptionFailed(reason)] + rest)
    ensures |rest| <= 1 && (rest != [] ==> rest[0].Snapshot? || rest[0].SnapshotFailed?)
    ensures var v := After(before + [SubscriptionFailed(reason)] + rest);
            && v.subscription == Refused
            && (rest != [] ==> v.answered)
            && v.link == Some(if rest == [] then CannotFollow(reason) else AnswerOf(rest[0]))
            && (rest == [] ==> v.link.value.Unavailable?)
            && (rest != [] ==> v.link.value == if rest[0].Snapshot? then rest[0].link else Unavailable(rest[0].reason))
    decreases |rest|
  {
    var events := before + [SubscriptionFailed(reason)] + rest;
    var n := |events| - 1;
    SilentIsNotSuperseded(events);
    if rest == [] {
      assert events == before + [SubscriptionFailed(reason)];
      assert events[..n] == before;
    } else {
      assert events[..n] == before + [SubscriptionFailed(reason)] + rest[..|rest| - 1];
      RefusalIsShownUntilAnswered(before, reason, rest[..|rest| - 1]);
      SilentIsNotSuperseded(events[..n]);
    }
  }

  /** Such a run exists for any answer, so a window that cannot follow the recorder can say
      otherwise. */
  lemma TheRefusalCanBeOverwritten(reason: string, link: Link)
    ensures IsRun([SubscriptionFailed(reason), Snapshot(link)])
    ensures After([SubscriptionFailed(reason), Snapshot(link)]).link == Some(link)
  {
    var events := [SubscriptionFailed(reason), Snapshot(link)];
    assert events[..1] == [SubscriptionFailed(reason)] && [SubscriptionFailed(reason)][..0] == [];
    assert events == [] + [SubscriptionFailed(reason)] + [Snapshot(link)];
    RefusalIsShownUntilAnswered([], reason, [Snapshot(link)]);
  }
}
