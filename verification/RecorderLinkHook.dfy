/** The state `useRecorderLink` keeps and the callbacks that change it, each proved to be a step of
    `RecorderLink`. */
module RecorderLinkHook {
  import opened Options
  import opened RecorderLink

  class LinkHook {
    var link: Option<Link>
    var interrupted: Option<Interruption>
    var failed: Option<Failure>
    var ended: Option<Sitting>
    var lastRecording: Option<Status>
    var superseded: bool
    var answered: bool
    var subscription: Subscription

    constructor ()
      ensures Seen() == OPENED
    {
      link, interrupted, failed, ended, lastRecording := None, None, None, None, None;
      superseded, answered, subscription := false, false, Silent;
    }

    function Seen(): View
      reads this
    {
      View(link, interrupted, failed, ended, lastRecording, superseded, answered, subscription)
    }

    /** Records a state, and the recording in it when there is one. */
    method Record(seen: Link)
      modifies this`link, this`lastRecording
      ensures Seen() == Observe(old(Seen()), seen)
    {
      if seen.Attached? && seen.status.Recording? {
        lastRecording := Some(seen.status);
      }
      link := Some(seen);
    }

    /** The question is answered, or fails: either way it is settled. */
    method Answered(e: Event)
      requires e.Snapshot? || e.SnapshotFailed?
      modifies this
      ensures Seen() == Step(old(Seen()), e)
    {
      if !superseded {
        if e.Snapshot? {
          Record(e.link);
        } else {
          Record(Unavailable(e.reason));
        }
      }
      answered := true;
    }

    /** The subscription delivers an event. */
    method Delivered(e: Event)
      requires e.State? || e.Interrupted? || e.SittingEnded? || e.Failed?
      modifies this
      ensures Seen() == Step(old(Seen()), e)
    {
      subscription := Heard;
      if e.State? {
        superseded := true;
        Record(e.link);
        return;
      }
      if e.Interrupted? {
        interrupted := Some(e.recording);
        return;
      }
      if e.SittingEnded? {
        ended := Some(e.sitting);
        return;
      }
      var output := None;
      if lastRecording.Some? && lastRecording.value.Recording? && lastRecording.value.id == e.id {
        output := Some(lastRecording.value.output);
      }
      failed := Some(Failure(e.id, e.error, output));
    }

    method NotSubscribed(reason: string)
      modifies this
      ensures Seen() == Step(old(Seen()), SubscriptionFailed(reason))
    {
      Record(CannotFollow(reason));
      subscription := Refused;
    }
  }
}
