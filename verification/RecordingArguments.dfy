/** What the arguments of a recording come to, spelled out: the target, the name and the path. */
module RecordingArguments {
  import opened Options
  import opened Paths
  import opened RecordingRules
  import opened RecordingLaws
  import Names = OutputNames

  // ------------------------------------------------------------------------------
  // The target
  // ------------------------------------------------------------------------------

  /** Each selector names its own kind of target, without the white space around it. */
  lemma TargetsSpelledOut(space: Space, s: string, pid: nat)
    ensures TargetFrom(space, Selectors(Some(s), None, None))
         == if AllSpace(space, s) then Err(EmptyWindowTitle) else Ok(WindowTitle(Trim(space, s)))
    ensures AllSpace(space, s) ==> TargetFrom(space, Selectors(None, Some(s), None)) == Err(EmptyProcessName)
    ensures !AllSpace(space, s) ==>
              TargetFrom(space, Selectors(None, Some(s), None))
              == if '/' in Trim(space, s) || '\\' in Trim(space, s) then Err(ProcessNameIsAPath(Trim(space, s)))
                 else Ok(ProcessName(Trim(space, s)))
    ensures TargetFrom(space, Selectors(None, None, Some(pid))) == if pid == 0 then Err(ZeroProcessId) else Ok(ProcessId(pid))
  {
    TrimmedAway(space, s);
  }

  /** None at all, and any two, are refused as what they are. */
  lemma OneSelectorOrNone(space: Space, selectors: Selectors)
    ensures TargetFrom(space, selectors) == Err(NoTarget) <==> selectors == Selectors(None, None, None)
    ensures TargetFrom(space, selectors) == Err(ConflictingTargets)
       <==> || (selectors.window.Some? && selectors.process.Some?)
            || (selectors.window.Some? && selectors.pid.Some?)
            || (selectors.process.Some? && selectors.pid.Some?)
  {
  }

  // ------------------------------------------------------------------------------
  // The name
  // ------------------------------------------------------------------------------

  lemma DotBefore(name: string, dot: nat)
    requires dot < |name| && name[dot] == '.' && forall i :: dot < i < |name| ==> name[i] != '.'
    ensures LastDot(name) == dot
  {
    LastDotInName(name);
  }

  predicate IsMkv(extension: string) {
    |extension| == 3 && extension[0] in "mM" && extension[1] in "kK" && extension[2] in "vV"
  }

  lemma LowerExactly(c: char, small: char, large: char)
    requires 'a' <= small <= 'z' && large as int + 32 == small as int
    ensures Lower(c) == Lower(small) <==> c == small || c == large
  {
  }

  lemma SameAsMkv(extension: string)
    ensures SameIgnoringCase(extension, "mkv") <==> IsMkv(extension)
  {
    if |extension| == 3 {
      LowerExactly(extension[0], 'm', 'M');
      LowerExactly(extension[1], 'k', 'K');
      LowerExactly(extension[2], 'v', 'V');
    }
  }

  lemma NoDotInMkv(extension: string)
    requires IsMkv(extension)
    ensures forall i :: 0 <= i < |extension| ==> extension[i] != '.'
  {
  }

  /** A name is a Matroska file's when it ends in `.mkv`, in any case, and that is not all of it. */
  lemma MatroskaExactly(name: string)
    ensures HasOutputExtension(name) <==> |name| > 4 && name[|name| - 4] == '.' && IsMkv(name[|name| - 3..])
  {
    LastDotInName(name);
    if Extension(name).Some? {
      SameAsMkv(Extension(name).value);
    }
    if |name| > 4 && name[|name| - 4] == '.' && IsMkv(name[|name| - 3..]) {
      NoDotInMkv(name[|name| - 3..]);
      assert forall i :: |name| - 3 <= i < |name| ==> name[i] == name[|name| - 3..][i - (|name| - 3)];
      DotBefore(name, |name| - 4);
    }
  }

  // ------------------------------------------------------------------------------
  // The path
  // ------------------------------------------------------------------------------

  /** What a named output is written to: itself if it has a drive, and otherwise on the working directory's
      drive, from its root or behind it. */
  function Located(current: Path, requested: Path): Path {
    match requested
    case Path(Some(_), _, _) => requested
    case Path(None, true, parts) => Path(current.drive, true, parts)
    case Path(None, false, parts) => Path(current.drive, current.rooted, current.parts + parts)
  }

  /** An accepted recording is written where it was named to be; or into the directory of the settings; or,
      without one, into `Videos` and `Clipped` of the home directory: under the name of the moment. */
  lemma WrittenWhereItSays(space: Space, files: Files, env: Environment, args: RecordArgs, configured: Option<Path>)
    requires Resolved(space, files, env, args, configured).result.Ok?
    ensures var output, name := Resolved(space, files, env, args, configured).result.value.output, Named(Names.FileName(env.now));
            match (args.output, configured)
            case (Some(requested), _) =>
              if requested.drive.Some? && requested.rooted then output == requested
              else env.current.Some? && output == Located(env.current.value, requested)
            case (None, Some(directory)) => output == Path(directory.drive, directory.rooted, directory.parts + [name])
            case (None, None) =>
              && env.home.Some? && env.home.value != Path(None, false, [])
              && output == Path(env.home.value.drive, env.home.value.rooted,
                                env.home.value.parts + [Named("Videos"), Named("Clipped"), name])
    ensures Resolved(space, files, env, args, configured).result.value.overwrite == args.overwrite
  {
    AcceptedExactly(space, files, env, args, configured);
    if args.output.None? && configured.None? {
      InHome(env.home.value, Names.FileName(env.now));
    }
  }

  lemma InHome(home: Path, name: string)
    ensures Child(Child(Child(home, "Videos"), "Clipped"), name)
         == Path(home.drive, home.rooted, home.parts + [Named("Videos"), Named("Clipped"), Named(name)])
  {
  }

  /** What is in the way of an output: a directory always, a file unless it may be replaced, and nothing that
      cannot be looked at. */
  lemma InTheWayExactly(files: Files, output: Path, overwrite: bool)
    ensures OutputProblem(files, output, overwrite)
         == if output !in files.nodes then None
            else match files.nodes[output]
                 case Directory(_) => Some(OutputIsADirectory(output))
                 case File => if overwrite then None else Some(OutputExists(output))
                 case Unreadable => None
  {
  }
}
