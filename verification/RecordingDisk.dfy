/** The checks as they run, probe and all, on a disk that they change, each proved to do what
    `RecordingRules` says. */
module RecordingDisk {
  import opened Options
  import opened Paths
  import opened RecordingRules
  import Names = OutputNames

  class Disk {
    var nodes: map<Path, Node>
    var nextProbe: nat

    function State(): Files
      reads this
    {
      Files(nodes, nextProbe)
    }

    constructor (nodes: map<Path, Node>)
      ensures State() == Files(nodes, 0)
    {
      this.nodes, nextProbe := nodes, 0;
    }

    method ProbeWritable(env: Environment, directory: Path) returns (ok: bool)
      modifies this
      ensures ok == Creates(old(State()), env, directory)
      ensures State() == Probed(old(State()), env, directory)
    {
      var probe := Child(directory, ProbeName(env.pid, nextProbe));
      nextProbe := nextProbe + 1;
      ok := directory in nodes && nodes[directory].Directory? && nodes[directory].writable && probe !in nodes;
      if ok {
        nodes := nodes[probe := File];
        if env.removes {
          nodes := nodes - {probe};
        }
      }
    }

    method CheckDirectoryUsable(env: Environment, directory: Path) returns (problem: Option<ConfigError>)
      modifies this
      ensures problem == DirectoryProblem(old(State()), env, directory)
      ensures State() == AfterDirectory(old(State()), env, directory)
    {
      if directory !in nodes {
        return Some(OutputDirectoryMissing(directory));
      }
      match nodes[directory]
      case Unreadable =>
        return Some(OutputDirectoryNotWritable(directory));
      case File =>
        return Some(OutputDirectoryIsNotADirectory(directory));
      case Directory(_) =>
        var ok := ProbeWritable(env, directory);
        problem := if ok then None else Some(OutputDirectoryNotWritable(directory));
    }

    method CheckOutputIsFree(path: Path, overwrite: bool) returns (problem: Option<ConfigError>)
      ensures problem == OutputProblem(State(), path, overwrite)
    {
      if path !in nodes || nodes[path].Unreadable? {
        return None;
      }
      if nodes[path].Directory? {
        return Some(OutputIsADirectory(path));
      }
      problem := if overwrite then None else Some(OutputExists(path));
    }

    method ResolveNamed(env: Environment, requested: Path) returns (output: Result<Path, ConfigError>)
      modifies this
      ensures Checked(output, State()) == NamedOutput(old(State()), env, requested)
    {
      var path := AgainstCurrent(env, requested);
      if path.Err? {
        return path;
      }
      var named := FileNameProblem(path.value);
      if named.Some? {
        return Err(named.value);
      }
      if Parent(path.value).None? {
        return Err(OutputHasNoFileName(path.value));
      }
      var problem := CheckDirectoryUsable(env, Parent(path.value).value);
      output := if problem.Some? then Err(problem.value) else path;
    }

    method ResolveGenerated(env: Environment, configured: Option<Path>) returns (output: Result<Path, ConfigError>)
      modifies this
      ensures Checked(output, State()) == GeneratedOutput(old(State()), env, configured)
    {
      var chosen := ChosenDirectory(env, configured);
      if chosen.None? {
        return Err(NoDefaultOutputDirectory);
      }
      var directory := chosen.value;
      if directory in nodes && !nodes[directory].Unreadable? {
        var problem := CheckDirectoryUsable(env, directory);
        if problem.Some? {
          return Err(problem.value);
        }
      }
      output := Ok(Child(directory, Names.FileName(env.now)));
    }

    method ResolveOutput(env: Environment, requested: Option<Path>, configured: Option<Path>)
      returns (output: Result<Path, ConfigError>)
      modifies this
      ensures Checked(output, State()) == OutputOf(old(State()), env, requested, configured)
    {
      if requested.Some? {
        output := ResolveNamed(env, requested.value);
      } else {
        output := ResolveGenerated(env, configured);
      }
    }

    method Resolve(space: Space, env: Environment, args: RecordArgs, configured: Option<Path>)
      returns (recording: Result<Recording, ConfigError>)
      modifies this
      ensures Checked(recording, State()) == Resolved(space, old(State()), env, args, configured)
    {
      var target := TargetFrom(space, args.selectors);
      if target.Err? {
        return Err(target.error);
      }
      var output := ResolveOutput(env, args.output, configured);
      if output.Err? {
        return Err(output.error);
      }
      var problem := CheckOutputIsFree(output.value, args.overwrite);
      recording := if problem.Some? then Err(problem.value) else Ok(Recording(target.value, output.value, args.overwrite));
    }

    method ResolveReplay(space: Space, env: Environment, args: ReplayArgs, configured: Option<nat>, directory: Option<Path>)
      returns (replay: Result<Replay, ConfigError>)
      modifies this
      ensures Checked(replay, State()) == ReplayResolved(space, old(State()), env, args, configured, directory)
    {
      var recording := Resolve(space, env, args.record, directory);
      if recording.Err? {
        return Err(recording.error);
      }
      var window := Or(args.duration, configured);
      if window.None? {
        return Err(ReplayWindowOff);
      }
      var save := if args.saveDuration.Some? then args.saveDuration.value else window.value;
      if save > window.value {
        return Err(SaveLongerThanBuffer(SecondsOf(save), SecondsOf(window.value)));
      }
      replay := Ok(Replay(recording.value, window.value, save, !args.noRecording));
    }
  }
}
