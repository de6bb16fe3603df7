/** What makes a recording's arguments coherent (`apps/recorder/src/config.rs`), over a file system
    that is a map of paths.

    The working directory, the home directory, the clock, the process's number, what counts as
    white space and whether a file can be removed again are given. */
module RecordingRules {
  import opened Options
  import opened Decimal
  import opened Paths
  import Names = OutputNames

  datatype Node = File | Directory(writable: bool) | Unreadable

  /** The file system, and how many probes this process has made. */
  datatype Files = Files(nodes: map<Path, Node>, nextProbe: nat)

  datatype Environment = Environment(current: Option<Path>, home: Option<Path>, now: Names.Civil, pid: nat, removes: bool)

  datatype Selectors = Selectors(window: Option<string>, process: Option<string>, pid: Option<nat>)

  datatype Target = WindowTitle(title: string) | ProcessName(name: string) | ProcessId(id: nat)

  datatype RecordArgs = RecordArgs(selectors: Selectors, output: Option<Path>, overwrite: bool)

  datatype Recording = Recording(target: Target, output: Path, overwrite: bool)

  datatype ConfigError =
    | NoTarget
    | ConflictingTargets
    | EmptyWindowTitle
    | EmptyProcessName
    | ProcessNameIsAPath(value: string)
    | ZeroProcessId
    | OutputHasNoFileName(path: Path)
    | OutputIsNotMatroska(path: Path)
    | OutputDirectoryMissing(directory: Path)
    | OutputDirectoryIsNotADirectory(directory: Path)
    | OutputDirectoryNotWritable(directory: Path)
    | OutputExists(path: Path)
    | OutputIsADirectory(path: Path)
    | NoDefaultOutputDirectory
    | WorkingDirectoryUnavailable
    | SaveLongerThanBuffer(save: nat, window: nat)
    | ReplayWindowOff

  // ------------------------------------------------------------------------------
  // The target
  // ------------------------------------------------------------------------------

  type Space = char -> bool

  /** How much white space `s` starts with. */
  function Leading(space: Space, s: string): (n: nat)
    ensures n <= |s| && (n < |s| ==> !space(s[n]))
    ensures forall i :: 0 <= i < n ==> space(s[i])
  {
    if s != "" && space(s[0]) then 1 + Leading(space, s[1..]) else 0
  }

  /** How long `s` is without the white space it ends with. */
  function Untrailed(space: Space, s: string): (n: nat)
    ensures n <= |s| && (n > 0 ==> !space(s[n - 1]))
    ensures forall i :: n <= i < |s| ==> space(s[i])
    decreases |s|
  {
    if s != "" && space(s[|s| - 1]) then Untrailed(space, s[..|s| - 1]) else |s|
  }

  function Trim(space: Space, s: string): string {
    var rest := s[Leading(space, s)..];
    rest[..Untrailed(space, rest)]
  }

  function Given<T>(option: Option<T>): nat {
    if option.Some? then 1 else 0
  }

  function Selected(selectors: Selectors): nat {
    Given(selectors.window) + Given(selectors.process) + Given(selectors.pid)
  }

  function TargetFrom(space: Space, selectors: Selectors): Result<Target, ConfigError> {
    if Selected(selectors) == 0 then Err(NoTarget)
    else if Selected(selectors) > 1 then Err(ConflictingTargets)
    else if selectors.window.Some? then
      var title := Trim(space, selectors.window.value);
      if title == "" then Err(EmptyWindowTitle) else Ok(WindowTitle(title))
    else if selectors.process.Some? then
      var name := Trim(space, selectors.process.value);
      if name == "" then Err(EmptyProcessName)
      else if '/' in name || '\\' in name then Err(ProcessNameIsAPath(name))
      else Ok(ProcessName(name))
    else if selectors.pid.value == 0 then Err(ZeroProcessId)
    else Ok(ProcessId(selectors.pid.value))
  }

  // ------------------------------------------------------------------------------
  // The directory
  // ------------------------------------------------------------------------------

  /** Unique for each process and each call. */
  function ProbeName(pid: nat, call: nat): string {
    "." + ("clipped-write-probe-" + (Text(pid) + ("-" + Text(call))))
  }

  function Probe(files: Files, env: Environment, directory: Path): Path {
    Child(directory, ProbeName(env.pid, files.nextProbe))
  }

  predicate IsDirectory(files: Files, path: Path) {
    path in files.nodes && files.nodes[path].Directory?
  }

  /** A file that is not there can be created in a directory that can be written to. */
  predicate Creates(files: Files, env: Environment, directory: Path) {
    IsDirectory(files, directory) && files.nodes[directory].writable && Probe(files, env, directory) !in files.nodes
  }

  function Probed(files: Files, env: Environment, directory: Path): Files {
    Files(if Creates(files, env, directory) && !env.removes then files.nodes[Probe(files, env, directory) := File] else files.nodes,
          files.nextProbe + 1)
  }

  /** Why a directory cannot be used, if it cannot. */
  function DirectoryProblem(files: Files, env: Environment, directory: Path): Option<ConfigError> {
    if directory !in files.nodes then Some(OutputDirectoryMissing(directory))
    else
      match files.nodes[directory]
      case Unreadable => Some(OutputDirectoryNotWritable(directory))
      case File => Some(OutputDirectoryIsNotADirectory(directory))
      case Directory(_) =>
        if Creates(files, env, directory) then None else Some(OutputDirectoryNotWritable(directory))
  }

  function AfterDirectory(files: Files, env: Environment, directory: Path): Files {
    if IsDirectory(files, directory) then Probed(files, env, directory) else files
  }

  /** Whether anything can be seen at a path: an error is nothing. */
  predicate Exists(files: Files, path: Path) {
    path in files.nodes && !files.nodes[path].Unreadable?
  }

  // ------------------------------------------------------------------------------
  // The output
  // ------------------------------------------------------------------------------

  const OUTPUT_EXTENSION := "mkv"

  /** A path as it is or, when it is not absolute, joined to the working directory: which makes it
      absolute unless it has a drive and no root. */
  function AgainstCurrent(env: Environment, path: Path): Result<Path, ConfigError> {
    if Absolute(path) then Ok(path)
    else if env.current.None? then Err(WorkingDirectoryUnavailable)
    else Ok(Join(env.current.value, path))
  }

  predicate HasOutputExtension(name: string) {
    Extension(name).Some? && SameIgnoringCase(Extension(name).value, OUTPUT_EXTENSION)
  }

  function FileNameProblem(path: Path): Option<ConfigError> {
    if FileName(path).None? then Some(OutputHasNoFileName(path))
    else if !HasOutputExtension(FileName(path).value) then Some(OutputIsNotMatroska(path))
    else None
  }

  /** The videos folder; an empty home is none. */
  function DefaultDirectory(env: Environment): Option<Path> {
    if env.home.None? || env.home.value == Path(None, false, []) then None
    else Some(Child(Child(env.home.value, "Videos"), "Clipped"))
  }

  /** The settings' directory before the one picked for the user. */
  function ChosenDirectory(env: Environment, configured: Option<Path>): Option<Path> {
    if configured.Some? then configured else DefaultDirectory(env)
  }

  /** A checked output, and the file system after the check. */
  datatype Checked<T> = Checked(result: Result<T, ConfigError>, files: Files)

  function InDirectory(files: Files, env: Environment, directory: Path, output: Path): Checked<Path> {
    var problem := DirectoryProblem(files, env, directory);
    Checked(if problem.Some? then Err(problem.value) else Ok(output), AfterDirectory(files, env, directory))
  }

  function NamedOutput(files: Files, env: Environment, requested: Path): Checked<Path> {
    match AgainstCurrent(env, requested)
    case Err(error) => Checked(Err(error), files)
    case Ok(path) =>
      if FileNameProblem(path).Some? then Checked(Err(FileNameProblem(path).value), files)
      else if Parent(path).None? then Checked(Err(OutputHasNoFileName(path)), files)
      else InDirectory(files, env, Parent(path).value, path)
  }

  function GeneratedOutput(files: Files, env: Environment, configured: Option<Path>): Checked<Path> {
    match ChosenDirectory(env, configured)
    case None => Checked(Err(NoDefaultOutputDirectory), files)
    case Some(directory) =>
      var output := Child(directory, Names.FileName(env.now));
      if Exists(files, directory) then InDirectory(files, env, directory, output) else Checked(Ok(output), files)
  }

  function OutputOf(files: Files, env: Environment, requested: Option<Path>, configured: Option<Path>): Checked<Path> {
    if requested.Some? then NamedOutput(files, env, requested.value) else GeneratedOutput(files, env, configured)
  }

  function OutputProblem(files: Files, path: Path, overwrite: bool): Option<ConfigError> {
    if !Exists(files, path) then None
    else if files.nodes[path].Directory? then Some(OutputIsADirectory(path))
    else if overwrite then None
    else Some(OutputExists(path))
  }

  // ------------------------------------------------------------------------------
  // The recording, and the replay buffer beside it
  // ------------------------------------------------------------------------------

  function FreeOutput(checked: Checked<Path>, target: Target, overwrite: bool): Checked<Recording> {
    match checked.result
    case Err(error) => Checked(Err(error), checked.files)
    case Ok(output) =>
      var problem := OutputProblem(checked.files, output, overwrite);
      Checked(if problem.Some? then Err(problem.value) else Ok(Recording(target, output, overwrite)), checked.files)
  }

  function Resolved(space: Space, files: Files, env: Environment, args: RecordArgs, configured: Option<Path>): Checked<Recording> {
    match TargetFrom(space, args.selectors)
    case Err(error) => Checked(Err(error), files)
    case Ok(target) => FreeOutput(OutputOf(files, env, args.output, configured), target, args.overwrite)
  }

  /** Durations are in nanoseconds. */
  datatype ReplayArgs = ReplayArgs(record: RecordArgs, duration: Option<nat>, saveDuration: Option<nat>, noRecording: bool)

  datatype Replay = Replay(recording: Recording, window: nat, save: nat, writesARecording: bool)

  function SecondsOf(nanos: nat): nat {
    var seconds := nanos / 1000000000;
    if seconds > 4294967295 then 4294967295 else seconds
  }

  function Or<T>(option: Option<T>, other: Option<T>): Option<T> {
    if option.Some? then option else other
  }

  function WithBuffer(recording: Recording, args: ReplayArgs, configured: Option<nat>): Result<Replay, ConfigError> {
    match Or(args.duration, configured)
    case None => Err(ReplayWindowOff)
    case Some(window) =>
      var save := if args.saveDuration.Some? then args.saveDuration.value else window;
      if save > window then Err(SaveLongerThanBuffer(SecondsOf(save), SecondsOf(window)))
      else Ok(Replay(recording, window, save, !args.noRecording))
  }

  function ReplayResolved(space: Space, files: Files, env: Environment, args: ReplayArgs, configured: Option<nat>,
                          configuredDirectory: Option<Path>): Checked<Replay> {
    var checked := Resolved(space, files, env, args.record, configuredDirectory);
    match checked.result
    case Err(error) => Checked(Err(error), checked.files)
    case Ok(recording) => Checked(WithBuffer(recording, args, configured), checked.files)
  }
}
