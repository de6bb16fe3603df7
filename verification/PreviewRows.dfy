/** The rows that ask (`useThumbnail` of `apps/desktop/src/preview.ts`), over the module they share, and
    whole runs of them. */
module PreviewRows {
  import opened PreviewQueue
  import opened PreviewRuns
  import opened PreviewModule

  class Rows {
    const previews: Previews
    /** The mounted rows, and what each was given. */
    var rows: map<nat, Row>
    /** The state of the whole window, with what became of every promise. */
    ghost var window: System

    /** The module and the rows are the window's, and the window is one that runs reach. */
    ghost predicate Ready()
      reads this, previews, previews.asked
    {
      && previews.Ready()
      && window.queue == previews.View()
      && window.rows == rows
      && Inv(window)
    }

    /** No row is mounted yet; the module may have been left anywhere that a run can leave it. */
    constructor (previews: Previews, ghost opening: System)
      requires previews.Ready() && Inv(opening) && opening.queue == previews.View() && opening.rows == map[]
      ensures Ready() && window == opening && this.previews == previews
    {
      this.previews, rows, window := previews, map[], opening;
    }

    /** The effect runs: the row asks, and keeps the promise it is given. */
    method Mount(row: nat, source: Source)
      requires Ready() && row !in rows
      modifies this, previews, previews.asked
      ensures Ready() && window == Step(old(window), PreviewRuns.Mount(row, source))
      ensures fresh(set a | a in previews.asked && a !in old(previews.asked))
    {
      StepKeeps(window, PreviewRuns.Mount(row, source));
      EntriesAreOneEach(window.queue.asked, window.queue.issued);
      var promise := previews.AskForThumbnail(source);
      rows := rows[row := Row(promise, false)];
      window := Step(window, PreviewRuns.Mount(row, source));
    }

    /** The effect is cleaned up: the row stops wanting its recording. */
    method Unmount(row: nat)
      requires Ready() && row in rows
      modifies this, previews, previews.asked
      ensures Ready() && window == Step(old(window), PreviewRuns.Unmount(row))
      ensures fresh(set a | a in previews.asked && a !in old(previews.asked))
    {
      StepKeeps(window, PreviewRuns.Unmount(row));
      EntriesAreOneEach(window.queue.asked, window.queue.issued);
      previews.StopWanting(rows[row].promise.source);
      rows := rows - {row};
      window := Step(window, PreviewRuns.Unmount(row));
    }

    /** A round trip ends, and the rows that share its promise have their answer. */
    method Settled(promise: Promise)
      requires Ready() && promise in previews.wire
      modifies this, previews, previews.asked
      ensures Ready() && window == Step(old(window), PreviewRuns.Settled(promise))
      ensures fresh(set a | a in previews.asked && a !in old(previews.asked))
    {
      StepKeeps(window, PreviewRuns.Settled(promise));
      EntriesAreOneEach(window.queue.asked, window.queue.issued);
      previews.Settled(promise);
      rows := Answering(rows, promise);
      window := Step(window, PreviewRuns.Settled(promise));
    }

    method Perform(e: Event)
      requires Ready() && Enabled(window, e)
      modifies this, previews, previews.asked
      ensures Ready() && window == Step(old(window), e)
      ensures fresh(set a | a in previews.asked && a !in old(previews.asked))
    {
      match e
      case Mount(row, source) => Mount(row, source);
      case Unmount(row) => Unmount(row);
      case Settled(promise) => Settled(promise);
    }

    /** Any run of mounts, unmounts and answers leaves the module and its rows as the run says. */
    method Run(events: seq<Event>)
      requires Ready() && IsRun(window, events)
      modifies this, previews, previews.asked
      ensures Ready() && window == Final(old(window), events)
      ensures fresh(set a | a in previews.asked && a !in old(previews.asked))
    {
      for i := 0 to |events|
        invariant Ready() && IsRun(window, events[i..])
        invariant Final(window, events[i..]) == Final(old(window), events)
        invariant fresh(set a | a in previews.asked && a !in old(previews.asked))
      {
        assert events[i..][0] == events[i] && events[i..][1..] == events[i + 1..];
        Perform(events[i]);
      }
    }
  }
}
