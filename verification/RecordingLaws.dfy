/** What a checked recording promises, and what checking one leaves behind. */
module RecordingLaws {
  import opened Options
  import opened Decimal
  import opened Paths
  import opened RecordingRules
  import Names = OutputNames
  import Times = OutputTimes

  // ------------------------------------------------------------------------------
  // Targets
  // ------------------------------------------------------------------------------

  predicate AllSpace(space: Space, s: string) {
    forall i :: 0 <= i < |s| ==> space(s[i])
  }

  /** Trimming takes white space from both ends, all of it and nothing else. */
  lemma Trimmed(space: Space, s: string) returns (before: string, after: string)
    ensures s == before + Trim(space, s) + after && AllSpace(space, before) && AllSpace(space, after)
    ensures Trim(space, s) != "" ==> !space(Trim(space, s)[0]) && !space(Trim(space, s)[|Trim(space, s)| - 1])
  {
    var n := Leading(space, s);
    var rest := s[n..];
    var m := Untrailed(space, rest);
    before, after := s[..n], rest[m..];
    Rejoined(s, n, rest, m);
  }

  lemma Rejoined(s: string, n: nat, rest: string, m: nat)
    requires n <= |s| && s[n..] == rest && m <= |rest|
    ensures s == s[..n] + rest[..m] + rest[m..]
  {
  }

  lemma TrimmedAway(space: Space, s: string)
    ensures Trim(space, s) == "" <==> AllSpace(space, s)
  {
    var before, after := Trimmed(space, s);
    var trimmed := Trim(space, s);
    if trimmed != "" {
      assert s[|before|] == trimmed[0];
    } else {
      assert s == before + after;
    }
  }

  /** Exactly one selector, and a usable one. */
  predicate OneTarget(space: Space, selectors: Selectors) {
    && Selected(selectors) == 1
    && (selectors.window.Some? ==> !AllSpace(space, selectors.window.value))
    && (selectors.process.Some? ==>
          !AllSpace(space, selectors.process.value)
          && '/' !in Trim(space, selectors.process.value) && '\\' !in Trim(space, selectors.process.value))
    && (selectors.pid.Some? ==> selectors.pid.value != 0)
  }

  lemma TargetExactly(space: Space, selectors: Selectors)
    ensures TargetFrom(space, selectors).Ok? <==> OneTarget(space, selectors)
  {
    if selectors.window.Some? {
      TrimmedAway(space, selectors.window.value);
    }
    if selectors.process.Some? {
      TrimmedAway(space, selectors.process.value);
    }
  }

  // ------------------------------------------------------------------------------
  // Probes are not outputs, and never one another
  // ------------------------------------------------------------------------------

  lemma NoDots(n: nat)
    ensures '.' !in Text(n)
  {
  }

  lemma OneDotInFront(rest: string)
    requires '.' !in rest
    ensures Extension("." + rest) == None
  {
    var name := "." + rest;
    LastDotInName(name);
    assert forall i :: 0 < i < |name| ==> name[i] == rest[i - 1];
  }

  lemma NoDotsBetween(a: string, b: string, c: string, d: string)
    requires '.' !in a && '.' !in b && '.' !in c && '.' !in d
    ensures '.' !in a + (b + (c + d))
  {
  }

  lemma ProbeHasNoExtension(pid: nat, call: nat)
    ensures Extension(ProbeName(pid, call)) == None
  {
    NoDots(pid);
    NoDots(call);
    NoDotsBetween("clipped-write-probe-", Text(pid), "-", Text(call));
    OneDotInFront("clipped-write-probe-" + (Text(pid) + ("-" + Text(call))));
  }

  lemma ProbeIsNotGenerated(pid: nat, call: nat, now: Names.Civil)
    ensures ProbeName(pid, call) != Names.FileName(now)
  {
    assert ProbeName(pid, call)[0] == '.' && Names.FileName(now)[0] == 'c';
  }

  /** Two probes have one name only when they are one process's and one call's. */
  lemma ProbeNamesAreDistinct(pid: nat, call: nat, otherPid: nat, otherCall: nat)
    ensures ProbeName(pid, call) == ProbeName(otherPid, otherCall) <==> pid == otherPid && call == otherCall
  {
    var a, b := Text(pid) + ("-" + Text(call)), Text(otherPid) + ("-" + Text(otherCall));
    if ProbeName(pid, call) == ProbeName(otherPid, otherCall) {
      Names.SameFront(".", "clipped-write-probe-" + a, "clipped-write-probe-" + b);
      Names.SameFront("clipped-write-probe-", a, b);
      TextParses(pid);
      TextParses(otherPid);
      TextParses(call);
      TextParses(otherCall);
      NumberEnds(Text(pid), "-" + Text(call), Text(otherPid), "-" + Text(otherCall));
      Names.SameFront("-", Text(call), Text(otherCall));
    }
  }

  lemma NameIsLast(a: Path, name: string, b: Path, other: string)
    ensures Child(a, name) == Child(b, other) <==> a == b && name == other
  {
    ChildNames(a, name);
    ChildNames(b, other);
  }

  // ------------------------------------------------------------------------------
  // What a check leaves behind
  // ------------------------------------------------------------------------------

  /** The directory a probe will be made in, if one gets that far. */
  function ProbedDirectory(space: Space, env: Environment, args: RecordArgs, configured: Option<Path>): Option<Path> {
    if !OneTarget(space, args.selectors) then None
    else if args.output.None? then ChosenDirectory(env, configured)
    else if AgainstCurrent(env, args.output.value).Err? then None
    else
      var path := AgainstCurrent(env, args.output.value).value;
      if FileName(path).Some? && HasOutputExtension(FileName(path).value) then Parent(path) else None
  }

  /** A probe is created. */
  predicate ProbeMade(space: Space, files: Files, env: Environment, args: RecordArgs, configured: Option<Path>) {
    var directory := ProbedDirectory(space, env, args, configured);
    directory.Some? && Creates(files, env, directory.value)
  }

  lemma DirectoryLeaves(files: Files, env: Environment, directory: Path)
    ensures AfterDirectory(files, env, directory).nodes
         == if Creates(files, env, directory) && !env.removes then files.nodes[Probe(files, env, directory) := File] else files.nodes
    ensures AfterDirectory(files, env, directory).nextProbe == files.nextProbe + if IsDirectory(files, directory) then 1 else 0
  {
  }

  function AfterProbing(files: Files, env: Environment, directory: Option<Path>): Files {
    if directory.Some? then AfterDirectory(files, env, directory.value) else files
  }

  /** Where the files of a check come from: the directory it probes, or nowhere. */
  lemma ResolvedFiles(space: Space, files: Files, env: Environment, args: RecordArgs, configured: Option<Path>)
    ensures Resolved(space, files, env, args, configured).files
         == AfterProbing(files, env, ProbedDirectory(space, env, args, configured))
  {
    TargetExactly(space, args.selectors);
    if args.output.Some? && AgainstCurrent(env, args.output.value).Ok? {
      OnlyNamesHaveParents(AgainstCurrent(env, args.output.value).value);
    }
  }

  lemma OnlyNamesHaveParents(path: Path)
    ensures FileName(path).Some? ==> Parent(path).Some?
  {
  }

  /** Checking a recording leaves the files as they were, or with its own probe and nothing else. */
  lemma ResolvedLeaves(space: Space, files: Files, env: Environment, args: RecordArgs, configured: Option<Path>)
    ensures Resolved(space, files, env, args, configured).files.nodes
         == if ProbeMade(space, files, env, args, configured) && !env.removes
            then files.nodes[Probe(files, env, ProbedDirectory(space, env, args, configured).value) := File]
            else files.nodes
    ensures var directory := ProbedDirectory(space, env, args, configured);
            Resolved(space, files, env, args, configured).files.nextProbe
            == files.nextProbe + if directory.Some? && IsDirectory(files, directory.value) then 1 else 0
  {
    ResolvedFiles(space, files, env, args, configured);
    var directory := ProbedDirectory(space, env, args, configured);
    if directory.Some? {
      DirectoryLeaves(files, env, directory.value);
    }
  }

  /** It leaves the files exactly as they were, accepted or refused, exactly when it made no probe or
      could remove it; and whatever was there is there unchanged regardless. */
  lemma LeavesNothingExactly(space: Space, files: Files, env: Environment, args: RecordArgs, configured: Option<Path>)
    ensures Resolved(space, files, env, args, configured).files.nodes == files.nodes
       <==> env.removes || !ProbeMade(space, files, env, args, configured)
    ensures Kept(files, Resolved(space, files, env, args, configured).files)
  {
    ResolvedLeaves(space, files, env, args, configured);
  }

  ghost predicate Kept(before: Files, after: Files) {
    forall path :: path in before.nodes ==> path in after.nodes && after.nodes[path] == before.nodes[path]
  }

  // ------------------------------------------------------------------------------
  // What is accepted
  // ------------------------------------------------------------------------------

  /** Nothing can be seen at an output, or a file that may be replaced. */
  predicate Free(files: Files, output: Path, overwrite: bool) {
    Exists(files, output) ==> files.nodes[output].File? && overwrite
  }

  /** A checked output that passes, and a file system that has it free. */
  lemma OutputAccepted(checked: Checked<Path>, target: Target, overwrite: bool)
    ensures FreeOutput(checked, target, overwrite).result.Ok?
       <==> checked.result.Ok? && Free(checked.files, checked.result.value, overwrite)
    ensures FreeOutput(checked, target, overwrite).result.Ok?
        ==> FreeOutput(checked, target, overwrite).result.value == Recording(target, checked.result.value, overwrite)
  {
  }

  lemma InDirectoryAccepted(files: Files, env: Environment, directory: Path, output: Path, target: Target, overwrite: bool)
    requires output != Probe(files, env, directory)
    ensures FreeOutput(InDirectory(files, env, directory, output), target, overwrite).result.Ok?
       <==> Creates(files, env, directory) && Free(files, output, overwrite)
    ensures FreeOutput(InDirectory(files, env, directory, output), target, overwrite).result.Ok?
        ==> FreeOutput(InDirectory(files, env, directory, output), target, overwrite).result.value
            == Recording(target, output, overwrite)
  {
  }

  /** A named output names a Matroska file in a directory that is there and can be written to. */
  predicate GoodName(files: Files, env: Environment, requested: Path, overwrite: bool) {
    && AgainstCurrent(env, requested).Ok?
    && var path := AgainstCurrent(env, requested).value;
       && FileName(path).Some? && HasOutputExtension(FileName(path).value)
       && Creates(files, env, Parent(path).value)
       && Free(files, path, overwrite)
  }

  lemma FileNamesHaveParents(path: Path)
    requires FileName(path).Some?
    ensures Parent(path).Some? && path == Child(Parent(path).value, FileName(path).value)
  {
  }

  lemma NamedIsNoProbe(files: Files, env: Environment, path: Path, directory: Path)
    requires FileName(path).Some? && HasOutputExtension(FileName(path).value)
    ensures path != Probe(files, env, directory)
  {
    ProbeHasNoExtension(env.pid, files.nextProbe);
    ChildNames(directory, ProbeName(env.pid, files.nextProbe));
  }

  lemma NamedAccepted(files: Files, env: Environment, requested: Path, target: Target, overwrite: bool)
    ensures FreeOutput(NamedOutput(files, env, requested), target, overwrite).result.Ok?
       <==> GoodName(files, env, requested, overwrite)
    ensures GoodName(files, env, requested, overwrite)
        ==> FreeOutput(NamedOutput(files, env, requested), target, overwrite).result.value
            == Recording(target, AgainstCurrent(env, requested).value, overwrite)
  {
    var made := AgainstCurrent(env, requested);
    if made.Ok? && FileName(made.value).Some? && HasOutputExtension(FileName(made.value).value) {
      var path := made.value;
      FileNamesHaveParents(path);
      NamedIsNoProbe(files, env, path, Parent(path).value);
      InDirectoryAccepted(files, env, Parent(path).value, path, target, overwrite);
    }
  }

  /** A generated output goes in a directory that can be written to, or that is yet to be made. */
  predicate GoodDirectory(files: Files, env: Environment, configured: Option<Path>, overwrite: bool) {
    && ChosenDirectory(env, configured).Some?
    && var directory := ChosenDirectory(env, configured).value;
       && (Exists(files, directory) ==> Creates(files, env, directory))
       && Free(files, Child(directory, Names.FileName(env.now)), overwrite)
  }

  lemma GeneratedIsNoProbe(files: Files, env: Environment, directory: Path)
    ensures Child(directory, Names.FileName(env.now)) != Probe(files, env, directory)
  {
    ProbeIsNotGenerated(env.pid, files.nextProbe, env.now);
    NameIsLast(directory, Names.FileName(env.now), directory, ProbeName(env.pid, files.nextProbe));
  }

  lemma GeneratedAccepted(files: Files, env: Environment, configured: Option<Path>, target: Target, overwrite: bool)
    ensures FreeOutput(GeneratedOutput(files, env, configured), target, overwrite).result.Ok?
       <==> GoodDirectory(files, env, configured, overwrite)
    ensures GoodDirectory(files, env, configured, overwrite)
        ==> FreeOutput(GeneratedOutput(files, env, configured), target, overwrite).result.value
            == Recording(target, Child(ChosenDirectory(env, configured).value, Names.FileName(env.now)), overwrite)
  {
    if ChosenDirectory(env, configured).Some? {
      var directory := ChosenDirectory(env, configured).value;
      var output := Child(directory, Names.FileName(env.now));
      GeneratedIsNoProbe(files, env, directory);
      if Exists(files, directory) {
        InDirectoryAccepted(files, env, directory, output, target, overwrite);
      } else {
        OutputAccepted(Checked(Ok(output), files), target, overwrite);
      }
    }
  }

  /** A generated output whose directory is not there, or cannot be looked at, is accepted as if it were:
      nothing reports it. */
  lemma AGoneDirectoryIsAccepted(space: Space, files: Files, env: Environment, args: RecordArgs, directory: Path)
    requires args.output.None? && (directory in files.nodes ==> files.nodes[directory].Unreadable?)
    ensures Resolved(space, files, env, args, Some(directory)).result.Ok?
       <==> OneTarget(space, args.selectors) && Free(files, Child(directory, Names.FileName(env.now)), args.overwrite)
  {
    AcceptedExactly(space, files, env, args, Some(directory));
  }

  /** An output named well, in `directory`. */
  predicate NamedIn(env: Environment, requested: Path, directory: Path) {
    && AgainstCurrent(env, requested).Ok?
    && var path := AgainstCurrent(env, requested).value;
       FileName(path).Some? && HasOutputExtension(FileName(path).value) && Parent(path) == Some(directory)
  }

  lemma MissingFromCheck(checked: Checked<Path>, target: Target, overwrite: bool, directory: Path)
    ensures FreeOutput(checked, target, overwrite).result == Err(OutputDirectoryMissing(directory))
       <==> checked.result == Err(OutputDirectoryMissing(directory))
  {
  }

  lemma MissingInDirectory(files: Files, env: Environment, within: Path, output: Path, directory: Path)
    ensures InDirectory(files, env, within, output).result == Err(OutputDirectoryMissing(directory))
       <==> within == directory && directory !in files.nodes
  {
  }

  lemma MissingWhenNamed(files: Files, env: Environment, requested: Path, directory: Path)
    ensures NamedOutput(files, env, requested).result == Err(OutputDirectoryMissing(directory))
       <==> NamedIn(env, requested, directory) && directory !in files.nodes
  {
    var made := AgainstCurrent(env, requested);
    if made.Ok? && FileNameProblem(made.value).None? {
      FileNamesHaveParents(made.value);
      MissingInDirectory(files, env, Parent(made.value).value, made.value, directory);
    }
  }

  lemma NeverMissingWhenGenerated(files: Files, env: Environment, configured: Option<Path>, directory: Path)
    ensures GeneratedOutput(files, env, configured).result != Err(OutputDirectoryMissing(directory))
  {
    if ChosenDirectory(env, configured).Some? {
      var chosen := ChosenDirectory(env, configured).value;
      MissingInDirectory(files, env, chosen, Child(chosen, Names.FileName(env.now)), directory);
    }
  }

  /** A directory is reported missing exactly when it is the directory of a named output, and is missing,
      and nothing is wrong with the target or the name. */
  lemma MissingIsReportedExactly(space: Space, files: Files, env: Environment, args: RecordArgs, configured: Option<Path>,
                                 directory: Path)
    ensures Resolved(space, files, env, args, configured).result == Err(OutputDirectoryMissing(directory))
       <==> OneTarget(space, args.selectors) && args.output.Some? && NamedIn(env, args.output.value, directory)
            && directory !in files.nodes
  {
    TargetExactly(space, args.selectors);
    if OneTarget(space, args.selectors) {
      MissingFromCheck(OutputOf(files, env, args.output, configured), TargetFrom(space, args.selectors).value, args.overwrite,
                       directory);
      if args.output.Some? {
        MissingWhenNamed(files, env, args.output.value, directory);
      } else {
        NeverMissingWhenGenerated(files, env, configured, directory);
      }
    }
  }

  /** Where an accepted recording is written. */
  function OutputPath(env: Environment, args: RecordArgs, configured: Option<Path>): Option<Path> {
    if args.output.Some? then
      if AgainstCurrent(env, args.output.value).Ok? then Some(AgainstCurrent(env, args.output.value).value) else None
    else if ChosenDirectory(env, configured).Some? then Some(Child(ChosenDirectory(env, configured).value, Names.FileName(env.now)))
    else None
  }

  /** A recording is accepted exactly when it has one usable target and a good output, and then it is
      that target, written to that output. */
  lemma AcceptedExactly(space: Space, files: Files, env: Environment, args: RecordArgs, configured: Option<Path>)
    ensures Resolved(space, files, env, args, configured).result.Ok?
       <==> OneTarget(space, args.selectors)
            && if args.output.Some? then GoodName(files, env, args.output.value, args.overwrite)
               else GoodDirectory(files, env, configured, args.overwrite)
    ensures Resolved(space, files, env, args, configured).result.Ok?
        ==> OutputPath(env, args, configured).Some?
            && Resolved(space, files, env, args, configured).result
               == Ok(Recording(TargetFrom(space, args.selectors).value, OutputPath(env, args, configured).value, args.overwrite))
  {
    TargetExactly(space, args.selectors);
    if OneTarget(space, args.selectors) {
      var target := TargetFrom(space, args.selectors).value;
      if args.output.Some? {
        NamedAccepted(files, env, args.output.value, target, args.overwrite);
      } else {
        GeneratedAccepted(files, env, configured, target, args.overwrite);
      }
    }
  }

  /** A path that the working directory makes absolute: not one with a drive and no root. */
  predicate Completes(requested: Path) {
    requested.drive.None? || requested.rooted
  }

  /** Against an absolute directory, a path comes out absolute exactly when it is not one with a drive and
      no root. */
  lemma JoinsAbsolutely(current: Path, requested: Path)
    requires Absolute(current)
    ensures Absolute(Join(current, requested)) <==> Completes(requested)
  {
  }

  /** An accepted output is absolute exactly when it was named without a drive or with a root, or generated
      in an absolute directory. */
  lemma AbsoluteExactly(space: Space, files: Files, env: Environment, args: RecordArgs, configured: Option<Path>)
    requires env.current.Some? ==> Absolute(env.current.value)
    requires Resolved(space, files, env, args, configured).result.Ok?
    ensures Absolute(Resolved(space, files, env, args, configured).result.value.output)
       <==> if args.output.Some? then Completes(args.output.value) else Absolute(ChosenDirectory(env, configured).value)
  {
    AcceptedExactly(space, files, env, args, configured);
    if args.output.Some? && env.current.Some? {
      JoinsAbsolutely(env.current.value, args.output.value);
    }
  }

  /** A directory from the settings file is absolute, so a generated output is, exactly when there is such a
      directory or the home directory is absolute. */
  lemma AbsoluteFromSettings(space: Space, files: Files, env: Environment, args: RecordArgs, configured: Option<Path>)
    requires env.current.Some? ==> Absolute(env.current.value)
    requires configured.Some? ==> Absolute(configured.value)
    requires Resolved(space, files, env, args, configured).result.Ok?
    ensures Absolute(Resolved(space, files, env, args, configured).result.value.output)
       <==> if args.output.Some? then args.output.value.drive.None? || args.output.value.rooted
            else configured.Some? || Absolute(env.home.value)
  {
    AbsoluteExactly(space, files, env, args, configured);
  }

  /** `C:clips\session.mkv`, where `C:clips` is a directory that can be written to, is accepted as it is. */
  lemma ADriveWithoutARootIsAccepted(space: Space, env: Environment, directory: Path, output: Path)
    requires env.current.Some?
    requires directory == Path(Some("C"), false, [Named("clips")]) && output == Child(directory, "session.mkv")
    ensures var args := RecordArgs(Selectors(None, None, Some(1)), Some(output), false);
            Resolved(space, Files(map[directory := Directory(true)], 0), env, args, None).result
            == Ok(Recording(ProcessId(1), output, false))
    ensures !Absolute(output)
  {
    var files := Files(map[directory := Directory(true)], 0);
    ChildNames(directory, "session.mkv");
    NamedMatroska("session.mkv");
    Longer(directory, "session.mkv");
    Longer(directory, ProbeName(env.pid, 0));
    NamedAccepted(files, env, output, ProcessId(1), false);
  }

  lemma NamedMatroska(name: string)
    requires name == "session.mkv"
    ensures HasOutputExtension(name)
  {
    LastDotInName(name);
    assert name[7] == '.';
    assert LastDot(name) == 7 && name[8..] == "mkv";
  }

  lemma Longer(directory: Path, name: string)
    ensures Child(directory, name) != directory
  {
    assert |Child(directory, name).parts| == |directory.parts| + 1;
  }

  /** A relative home is not made absolute, and the recording is accepted. */
  lemma ARelativeOutputIsAccepted(space: Space, env: Environment)
    requires env.home == Some(Path(None, false, [Named("alice")]))
    ensures var args := RecordArgs(Selectors(None, None, Some(1)), None, false);
            var checked := Resolved(space, Files(map[], 0), env, args, None);
            checked.result.Ok? && !Absolute(checked.result.value.output)
  {
  }

  /** Two generated outputs in one directory are one file exactly when the local clock shows the same date
      and time, to the second. */
  lemma GeneratedOutputsCollide(a: Environment, b: Environment, args: RecordArgs, configured: Path)
    requires args.output.None? && Names.Valid(a.now) && Names.Valid(b.now) && a.now.year >= 0 && b.now.year >= 0
    ensures OutputPath(a, args, Some(configured)) == OutputPath(b, args, Some(configured)) <==> a.now == b.now
  {
    Names.NamesAreDistinct(a.now, b.now);
    NameIsLast(configured, Names.FileName(a.now), configured, Names.FileName(b.now));
  }

  /** Which is when one is made later than the other by just as much as the clock was set back between. */
  lemma GeneratedOutputsCollideAt(a: Environment, s: int, x: int, b: Environment, t: int, y: int, args: RecordArgs,
                                  configured: Path)
    requires args.output.None? && Times.Shows(a.now, s, x) && Times.Shows(b.now, t, y)
    ensures OutputPath(a, args, Some(configured)) == OutputPath(b, args, Some(configured)) <==> s + x == t + y
  {
    GeneratedOutputsCollide(a, b, args, configured);
    Times.EarlierIsFewerSeconds(a.now, b.now);
  }

  // ------------------------------------------------------------------------------
  // The replay buffer
  // ------------------------------------------------------------------------------

  /** How much is kept: what this run asks for before what the settings say. */
  function BufferOf(args: ReplayArgs, configured: Option<nat>): Option<nat> {
    match (args.duration, configured)
    case (Some(asked), _) => Some(asked)
    case (None, settings) => settings
  }

  /** A replay is accepted exactly when its recording is, there is a buffer, and a save fits in it. */
  lemma ReplayAcceptedExactly(space: Space, files: Files, env: Environment, args: ReplayArgs, configured: Option<nat>,
                              directory: Option<Path>)
    ensures var recording, replay := Resolved(space, files, env, args.record, directory),
                                     ReplayResolved(space, files, env, args, configured, directory);
            && replay.files == recording.files
            && (replay.result.Ok? <==>
                  && recording.result.Ok? && (args.duration.Some? || configured.Some?)
                  && (args.saveDuration.Some? ==> args.saveDuration.value <= BufferOf(args, configured).value))
            && (recording.result.Err? ==> replay.result == Err(recording.result.error))
            && (replay.result.Ok? ==>
                  && replay.result.value.recording == recording.result.value
                  && Some(replay.result.value.window) == BufferOf(args, configured)
                  && replay.result.value.save
                     == (if args.saveDuration.Some? then args.saveDuration.value else replay.result.value.window)
                  && replay.result.value.save <= replay.result.value.window
                  && (replay.result.value.writesARecording <==> !args.noRecording))
  {
  }

  /** The seconds of a duration that a 32-bit number can say. */
  function WholeSeconds(nanos: nat): nat {
    if nanos < 4294967296 * 1000000000 then nanos / 1000000000 else 4294967295
  }

  /** A replay whose recording is accepted is refused for its buffer: there is none, or a save does not
      fit in it. */
  lemma ReplayRefusedFor(space: Space, files: Files, env: Environment, args: ReplayArgs, configured: Option<nat>,
                         directory: Option<Path>)
    requires Resolved(space, files, env, args.record, directory).result.Ok?
    ensures var result, buffer := ReplayResolved(space, files, env, args, configured, directory).result,
                                  BufferOf(args, configured);
            && (result == Err(ReplayWindowOff) <==> args.duration.None? && configured.None?)
            && (result.Err? && result.error.SaveLongerThanBuffer? <==>
                  buffer.Some? && args.saveDuration.Some? && args.saveDuration.value > buffer.value)
            && (result.Err? && result.error.SaveLongerThanBuffer? ==>
                  && result.error.save == WholeSeconds(args.saveDuration.value)
                  && result.error.window == WholeSeconds(buffer.value)
                  && result.error.window <= result.error.save <= 4294967295)
  {
  }

  // ------------------------------------------------------------------------------
  // What a refusal says
  // ------------------------------------------------------------------------------

  /** What is so of the arguments and the files when a recording is refused with `error`. */
  predicate Explains(space: Space, files: Files, env: Environment, args: RecordArgs, configured: Option<Path>, error: ConfigError) {
    match error
    case NoTarget => args.selectors == Selectors(None, None, None)
    case ConflictingTargets => Selected(args.selectors) >= 2
    case EmptyWindowTitle => args.selectors.window.Some? && AllSpace(space, args.selectors.window.value)
    case EmptyProcessName => args.selectors.process.Some? && AllSpace(space, args.selectors.process.value)
    case ProcessNameIsAPath(value) =>
      args.selectors.process.Some? && value == Trim(space, args.selectors.process.value) && ('/' in value || '\\' in value)
    case ZeroProcessId => args.selectors.pid == Some(0)
    case OutputHasNoFileName(path) => Requested(env, args, path) && FileName(path).None?
    case OutputIsNotMatroska(path) =>
      Requested(env, args, path) && FileName(path).Some? && !HasOutputExtension(FileName(path).value)
    case OutputDirectoryMissing(directory) => GoesIn(env, args, configured, directory) && directory !in files.nodes
    case OutputDirectoryIsNotADirectory(directory) =>
      GoesIn(env, args, configured, directory) && directory in files.nodes && files.nodes[directory].File?
    case OutputDirectoryNotWritable(directory) =>
      && GoesIn(env, args, configured, directory) && directory in files.nodes && !files.nodes[directory].File?
      && !Creates(files, env, directory)
    case OutputIsADirectory(path) => OutputPath(env, args, configured) == Some(path) && IsDirectory(files, path)
    case OutputExists(path) =>
      OutputPath(env, args, configured) == Some(path) && path in files.nodes && files.nodes[path].File? && !args.overwrite
    case NoDefaultOutputDirectory =>
      args.output.None? && configured.None? && (env.home.None? || env.home.value == Path(None, false, []))
    case WorkingDirectoryUnavailable => args.output.Some? && !Absolute(args.output.value) && env.current.None?
    case SaveLongerThanBuffer(_, _) => false
    case ReplayWindowOff => false
  }

  predicate Requested(env: Environment, args: RecordArgs, path: Path) {
    args.output.Some? && OutputPath(env, args, None) == Some(path)
  }

  predicate GoesIn(env: Environment, args: RecordArgs, configured: Option<Path>, directory: Path) {
    OutputPath(env, args, configured).Some? && Parent(OutputPath(env, args, configured).value) == Some(directory)
  }

  lemma DirectoryRefusal(files: Files, env: Environment, directory: Path)
    requires DirectoryProblem(files, env, directory).Some?
    ensures match DirectoryProblem(files, env, directory).value
            case OutputDirectoryMissing(d) => d == directory && d !in files.nodes
            case OutputDirectoryIsNotADirectory(d) => d == directory && d in files.nodes && files.nodes[d].File?
            case OutputDirectoryNotWritable(d) =>
              d == directory && d in files.nodes && !files.nodes[d].File? && !Creates(files, env, d)
            case _ => false
  {
  }

  lemma TargetRefusal(space: Space, files: Files, env: Environment, args: RecordArgs, configured: Option<Path>)
    requires TargetFrom(space, args.selectors).Err?
    ensures Explains(space, files, env, args, configured, TargetFrom(space, args.selectors).error)
  {
    if args.selectors.window.Some? {
      TrimmedAway(space, args.selectors.window.value);
    }
    if args.selectors.process.Some? {
      TrimmedAway(space, args.selectors.process.value);
    }
  }

  lemma FreeRefusal(space: Space, files: Files, env: Environment, args: RecordArgs, configured: Option<Path>, directory: Path,
                    output: Path)
    requires OutputPath(env, args, configured) == Some(output) && Parent(output) == Some(directory)
    requires output != Probe(files, env, directory)
    requires OutputProblem(AfterDirectory(files, env, directory), output, args.overwrite).Some?
    ensures Explains(space, files, env, args, configured,
                     OutputProblem(AfterDirectory(files, env, directory), output, args.overwrite).value)
  {
    ProbeIsNotInTheWay(files, env, directory, output, args.overwrite);
    OutputRefusal(space, files, env, args, configured, output);
  }

  /** A probe does not change what is found at an output. */
  lemma ProbeIsNotInTheWay(files: Files, env: Environment, directory: Path, output: Path, overwrite: bool)
    requires output != Probe(files, env, directory)
    ensures OutputProblem(AfterDirectory(files, env, directory), output, overwrite) == OutputProblem(files, output, overwrite)
  {
  }

  lemma OutputRefusal(space: Space, files: Files, env: Environment, args: RecordArgs, configured: Option<Path>, output: Path)
    requires OutputPath(env, args, configured) == Some(output) && OutputProblem(files, output, args.overwrite).Some?
    ensures Explains(space, files, env, args, configured, OutputProblem(files, output, args.overwrite).value)
  {
  }

  lemma InDirectoryRefusal(space: Space, files: Files, env: Environment, args: RecordArgs, configured: Option<Path>,
                           directory: Path, output: Path, target: Target)
    requires OutputPath(env, args, configured) == Some(output) && Parent(output) == Some(directory)
    requires output != Probe(files, env, directory)
    ensures var result := FreeOutput(InDirectory(files, env, directory, output), target, args.overwrite).result;
            result.Err? ==> Explains(space, files, env, args, configured, result.error)
  {
    if DirectoryProblem(files, env, directory).Some? {
      DirectoryRefusal(files, env, directory);
    } else if OutputProblem(AfterDirectory(files, env, directory), output, args.overwrite).Some? {
      FreeRefusal(space, files, env, args, configured, directory, output);
    }
  }

  lemma NamedRefusal(space: Space, files: Files, env: Environment, args: RecordArgs, configured: Option<Path>, target: Target)
    requires args.output.Some?
    ensures var result := FreeOutput(NamedOutput(files, env, args.output.value), target, args.overwrite).result;
            result.Err? ==> Explains(space, files, env, args, configured, result.error)
  {
    var made := AgainstCurrent(env, args.output.value);
    if made.Ok? && FileNameProblem(made.value).None? {
      FileNamesHaveParents(made.value);
      NamedIsNoProbe(files, env, made.value, Parent(made.value).value);
      InDirectoryRefusal(space, files, env, args, configured, Parent(made.value).value, made.value, target);
    }
  }

  lemma GeneratedRefusal(space: Space, files: Files, env: Environment, args: RecordArgs, configured: Option<Path>, target: Target)
    requires args.output.None?
    ensures var result := FreeOutput(GeneratedOutput(files, env, configured), target, args.overwrite).result;
            result.Err? ==> Explains(space, files, env, args, configured, result.error)
  {
    if ChosenDirectory(env, configured).Some? {
      var directory := ChosenDirectory(env, configured).value;
      var output := Child(directory, Names.FileName(env.now));
      GeneratedIsNoProbe(files, env, directory);
      ChildNames(directory, Names.FileName(env.now));
      if Exists(files, directory) {
        InDirectoryRefusal(space, files, env, args, configured, directory, output, target);
      } else {
        UncheckedRefusal(space, files, env, args, configured, output, target);
      }
    }
  }

  lemma UncheckedRefusal(space: Space, files: Files, env: Environment, args: RecordArgs, configured: Option<Path>, output: Path,
                         target: Target)
    requires OutputPath(env, args, configured) == Some(output)
    ensures var result := FreeOutput(Checked(Ok(output), files), target, args.overwrite).result;
            result.Err? ==> Explains(space, files, env, args, configured, result.error)
  {
    if OutputProblem(files, output, args.overwrite).Some? {
      OutputRefusal(space, files, env, args, configured, output);
    }
  }

  /** Every refusal is true of what was asked: the error names the setting, path or directory that is
      wrong, and it is wrong in the way the error says. */
  lemma RefusalIsTrue(space: Space, files: Files, env: Environment, args: RecordArgs, configured: Option<Path>)
    requires Resolved(space, files, env, args, configured).result.Err?
    ensures Explains(space, files, env, args, configured, Resolved(space, files, env, args, configured).result.error)
  {
    var target := TargetFrom(space, args.selectors);
    if target.Err? {
      TargetRefusal(space, files, env, args, configured);
    } else if args.output.Some? {
      NamedRefusal(space, files, env, args, configured, target.value);
    } else {
      GeneratedRefusal(space, files, env, args, configured, target.value);
    }
  }
}
