/** A process that checks one recording after another. */
module RecordingRuns {
  import opened Options
  import opened Paths
  import opened RecordingRules
  import opened RecordingLaws
  import Names = OutputNames

  datatype Request = Request(env: Environment, args: RecordArgs, configured: Option<Path>)

  function Check(space: Space, files: Files, request: Request): Checked<Recording> {
    Resolved(space, files, request.env, request.args, request.configured)
  }

  /** The files after a run of requests, oldest first. */
  function After(space: Space, files: Files, requests: seq<Request>): Files
    decreases |requests|
  {
    if requests == [] then files else After(space, Check(space, files, requests[0]).files, requests[1..])
  }

  /** All made by the process `pid`. */
  predicate Own(requests: seq<Request>, pid: nat) {
    forall i :: 0 <= i < |requests| ==> requests[i].env.pid == pid
  }

  predicate AllRemove(requests: seq<Request>) {
    forall i :: 0 <= i < |requests| ==> requests[i].env.removes
  }

  /** No probe the process has still to make is in the way. */
  ghost predicate ProbesBehind(files: Files, pid: nat) {
    forall directory: Path, call: nat :: call >= files.nextProbe ==> Child(directory, ProbeName(pid, call)) !in files.nodes
  }

  /** A check makes no probe but the next. */
  lemma CheckAddsNoLaterProbe(space: Space, files: Files, request: Request)
    ensures files.nextProbe <= Check(space, files, request).files.nextProbe
    ensures forall directory: Path, call: nat :: call >= Check(space, files, request).files.nextProbe ==>
              (Child(directory, ProbeName(request.env.pid, call)) in Check(space, files, request).files.nodes
               <==> Child(directory, ProbeName(request.env.pid, call)) in files.nodes)
  {
    var pid := request.env.pid;
    ResolvedLeaves(space, files, request.env, request.args, request.configured);
    forall directory: Path, call: nat | call >= Check(space, files, request).files.nextProbe
      ensures Child(directory, ProbeName(pid, call)) in Check(space, files, request).files.nodes
         <==> Child(directory, ProbeName(pid, call)) in files.nodes
    {
      var probed := ProbedDirectory(space, request.env, request.args, request.configured);
      if probed.Some? {
        NameIsLast(directory, ProbeName(pid, call), probed.value, ProbeName(pid, files.nextProbe));
        ProbeNamesAreDistinct(pid, call, pid, files.nextProbe);
      }
    }
  }

  /** A directory that can be written to is refused exactly when the probe to be made in it is there. */
  lemma ProbeInTheWayExactly(files: Files, env: Environment, directory: Path)
    requires IsDirectory(files, directory) && files.nodes[directory].writable
    ensures DirectoryProblem(files, env, directory).None? <==> Probe(files, env, directory) !in files.nodes
  {
  }

  /** So one is never refused for what an earlier check left in it. */
  lemma WritableIsUsable(files: Files, env: Environment, directory: Path)
    requires ProbesBehind(files, env.pid)
    ensures DirectoryProblem(files, env, directory).None? <==> IsDirectory(files, directory) && files.nodes[directory].writable
  {
  }

  /** Whatever a process is asked to check, and however its probes fare, every file and directory there
      was is still there unchanged, and a probe it has still to make is there only if it was. */
  lemma {:induction false} RunsKeepFiles(space: Space, files: Files, requests: seq<Request>, pid: nat)
    requires Own(requests, pid)
    ensures Kept(files, After(space, files, requests))
    ensures files.nextProbe <= After(space, files, requests).nextProbe
    ensures forall directory: Path, call: nat :: call >= After(space, files, requests).nextProbe ==>
              (Child(directory, ProbeName(pid, call)) in After(space, files, requests).nodes
               <==> Child(directory, ProbeName(pid, call)) in files.nodes)
    decreases |requests|
  {
    if requests != [] {
      CheckKeeps(space, files, requests[0]);
      CheckAddsNoLaterProbe(space, files, requests[0]);
      RunsKeepFiles(space, Check(space, files, requests[0]).files, requests[1..], pid);
    }
  }

  /** After any run, a directory that can be written to is refused exactly when the probe to be made
      in it was there before the run: what the process itself made is never in its way. */
  lemma UsableAfterAnyRun(space: Space, files: Files, requests: seq<Request>, env: Environment, directory: Path)
    requires Own(requests, env.pid)
    requires var after := After(space, files, requests);
             IsDirectory(after, directory) && after.nodes[directory].writable
    ensures DirectoryProblem(After(space, files, requests), env, directory).None?
       <==> Child(directory, ProbeName(env.pid, After(space, files, requests).nextProbe)) !in files.nodes
  {
    RunsKeepFiles(space, files, requests, env.pid);
    ProbeInTheWayExactly(After(space, files, requests), env, directory);
  }

  lemma RunsKeepProbesBehind(space: Space, files: Files, requests: seq<Request>, pid: nat)
    requires Own(requests, pid) && ProbesBehind(files, pid)
    ensures ProbesBehind(After(space, files, requests), pid)
  {
    RunsKeepFiles(space, files, requests, pid);
  }

  lemma CheckKeeps(space: Space, files: Files, request: Request)
    ensures Kept(files, Check(space, files, request).files)
    ensures request.env.removes ==> Check(space, files, request).files.nodes == files.nodes
  {
    LeavesNothingExactly(space, files, request.env, request.args, request.configured);
  }

  /** When every probe can be removed, a run leaves the files exactly as they were. */
  lemma {:induction false} RunsLeaveNothing(space: Space, files: Files, requests: seq<Request>)
    requires AllRemove(requests)
    ensures After(space, files, requests).nodes == files.nodes
    decreases |requests|
  {
    if requests != [] {
      CheckKeeps(space, files, requests[0]);
      RunsLeaveNothing(space, Check(space, files, requests[0]).files, requests[1..]);
    }
  }

  // ------------------------------------------------------------------------------
  // Checking changes no verdict
  // ------------------------------------------------------------------------------

  lemma SameOutcome(files: Files, other: Files, env: Environment, directory: Path, output: Path, target: Target, overwrite: bool)
    requires files.nodes == other.nodes && ProbesBehind(files, env.pid) && ProbesBehind(other, env.pid)
    requires output != Probe(files, env, directory) && output != Probe(other, env, directory)
    ensures FreeOutput(InDirectory(files, env, directory, output), target, overwrite).result
         == FreeOutput(InDirectory(other, env, directory, output), target, overwrite).result
  {
  }

  lemma SameNamed(files: Files, other: Files, env: Environment, requested: Path, target: Target, overwrite: bool)
    requires files.nodes == other.nodes && ProbesBehind(files, env.pid) && ProbesBehind(other, env.pid)
    ensures FreeOutput(NamedOutput(files, env, requested), target, overwrite).result
         == FreeOutput(NamedOutput(other, env, requested), target, overwrite).result
  {
    var made := AgainstCurrent(env, requested);
    if made.Ok? && FileNameProblem(made.value).None? {
      var path := made.value;
      FileNamesHaveParents(path);
      var directory := Parent(path).value;
      NamedIsNoProbe(files, env, path, directory);
      NamedIsNoProbe(other, env, path, directory);
      SameOutcome(files, other, env, directory, path, target, overwrite);
    }
  }

  lemma SameGenerated(files: Files, other: Files, env: Environment, configured: Option<Path>, target: Target, overwrite: bool)
    requires files.nodes == other.nodes && ProbesBehind(files, env.pid) && ProbesBehind(other, env.pid)
    ensures FreeOutput(GeneratedOutput(files, env, configured), target, overwrite).result
         == FreeOutput(GeneratedOutput(other, env, configured), target, overwrite).result
  {
    if ChosenDirectory(env, configured).Some? {
      var directory := ChosenDirectory(env, configured).value;
      GeneratedIsNoProbe(files, env, directory);
      GeneratedIsNoProbe(other, env, directory);
      SameOutcome(files, other, env, directory, Child(directory, Names.FileName(env.now)), target, overwrite);
    }
  }

  /** What a request is answered does not depend on how many checks came before it. */
  lemma VerdictsDoNotCount(space: Space, files: Files, other: Files, request: Request)
    requires files.nodes == other.nodes && ProbesBehind(files, request.env.pid) && ProbesBehind(other, request.env.pid)
    ensures Check(space, files, request).result == Check(space, other, request).result
  {
    var selected := TargetFrom(space, request.args.selectors);
    if selected.Ok? {
      if request.args.output.Some? {
        SameNamed(files, other, request.env, request.args.output.value, selected.value, request.args.overwrite);
      } else {
        SameGenerated(files, other, request.env, request.configured, selected.value, request.args.overwrite);
      }
    }
  }

  /** After any run of checks whose probes were removed, a request is answered as it would have been
      before them. */
  lemma RunsChangeNoVerdict(space: Space, files: Files, requests: seq<Request>, request: Request)
    requires Own(requests, request.env.pid) && AllRemove(requests) && ProbesBehind(files, request.env.pid)
    ensures Check(space, After(space, files, requests), request).result == Check(space, files, request).result
  {
    RunsKeepProbesBehind(space, files, requests, request.env.pid);
    RunsLeaveNothing(space, files, requests);
    VerdictsDoNotCount(space, After(space, files, requests), files, request);
  }

  /** A probe that an earlier process of the same number left, still to be made by this one, refuses a
      directory that can be written to. */
  lemma AStaleProbeRefuses(env: Environment, directory: Path)
    ensures var files := Files(map[directory := Directory(true), Child(directory, ProbeName(env.pid, 0)) := File], 0);
            DirectoryProblem(files, env, directory) == Some(OutputDirectoryNotWritable(directory))
  {
  }
}
