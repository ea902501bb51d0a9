/** The client object (pkg/composer/composer.go): its options, its
    construction, its accessors, the test-mode mock table, and the way a
    command is turned into one process invocation and one (output, error)
    pair. The process itself is an oracle `Process`; every other operation
    of the client reaches the process only through `Run`, which the
    per-command modules see as a `Runner`. */
module Core {
  import opened Wrappers
  import opened Text
  import opened Errors
  import Detector

  /** time.Minute, in nanoseconds (time.Duration's unit). */
  const Minute: int := 60_000_000_000

  /** The options of New. A nil Detector or Env is None. The installer is
      not modelled: its only effect, success or failure of Install, is a
      parameter of New. */
  datatype Options = Options(
    executablePath: string,
    workingDir: string,
    autoInstall: bool,
    detector: Option<Detector.Detector>,
    env: Option<seq<string>>,
    defaultTimeout: int)

  /** A configured client. */
  datatype Composer = Composer(
    executablePath: string,
    workingDir: string,
    autoInstall: bool,
    detector: Detector.Detector,
    env: Option<seq<string>>,
    defaultTimeout: int)

  /** DefaultOptions: the current directory (empty working dir), automatic
      installation, a ten-minute timeout, everything else unset. */
  function DefaultOptions(): (o: Options)
    ensures o.workingDir == "" && o.executablePath == ""
    ensures o.autoInstall
    ensures o.defaultTimeout == 10 * Minute
    ensures o.detector.None? && o.env.None?
  {
    Options("", "", true, None, None, 10 * Minute)
  }

  /** What New did, in order: ask the detector, run the installer, stat the
      configured executable. */
  datatype Step = Detected | Installed | StatChecked

  datatype Creation = Creation(composer: Option<Composer>, err: Option<Error>, steps: seq<Step>)

  /** The client New builds before looking for the executable. */
  function Configured(options: Options, platformPaths: seq<string>): Composer {
    Composer(options.executablePath, options.workingDir, options.autoInstall,
             options.detector.GetOr(Detector.NewDetector(platformPaths)),
             options.env, options.defaultTimeout)
  }

  /** New. `before` and `after` are the host seen by the detector before and
      after the installer runs; `installError` is the installer's failure,
      if any; `testMode` is the package-level flag the mock setters raise;
      `statMissing` is whether os.Stat reports that the configured executable
      does not exist. */
  function New(options: Options, platformPaths: seq<string>,
               before: Detector.Host, installError: Option<string>, after: Detector.Host,
               testMode: bool, statMissing: bool): (r: Creation)
    ensures r.composer.Some? <==> r.err.None?
    ensures r.composer.Some? ==>
      var c := r.composer.value;
      c.workingDir == options.workingDir && c.env == options.env
      && c.autoInstall == options.autoInstall && c.defaultTimeout == options.defaultTimeout
      && (options.detector.Some? ==> c.detector == options.detector.value)
    // A configured path is used as given and the detector is never asked.
    ensures options.executablePath != "" ==>
      Detected !in r.steps && Installed !in r.steps
      && (r.composer.Some? <==> testMode || !statMissing)
      && (r.composer.Some? ==> r.composer.value.executablePath == options.executablePath)
      && (r.err.Some? ==> r.err.value.kind == ComposerNotFound)
    // Without a path, the first detection decides when it succeeds.
    ensures options.executablePath == "" ==>
      var det := Configured(options, platformPaths).detector;
      && (Detector.Detect(det, before).Some? ==>
            r.steps == [Detected] && r.composer.Some?
            && r.composer.value.executablePath == Detector.Detect(det, before).value)
      && (Detector.Detect(det, before).None? && !options.autoInstall ==>
            r.steps == [Detected] && r.err.Some? && r.err.value.kind == ComposerNotFound)
      && (Detector.Detect(det, before).None? && options.autoInstall && installError.Some? ==>
            r.steps == [Detected, Installed] && r.err.Some? && r.err.value.kind == ComposerInstallation)
      && (Detector.Detect(det, before).None? && options.autoInstall && installError.None? ==>
            r.steps == [Detected, Installed, Detected]
            && (r.composer.Some? <==> Detector.Detect(det, after).Some?)
            && (r.composer.Some? ==> r.composer.value.executablePath == Detector.Detect(det, after).value)
            && (r.err.Some? ==> r.err.value.kind == ComposerNotFound))
  {
    var c := Configured(options, platformPaths);
    if c.executablePath == "" then
      match Detector.Detect(c.detector, before)
      case Some(path) => Creation(Some(c.(executablePath := path)), None, [Detected])
      case None =>
        if c.autoInstall then
          match installError
          case Some(cause) =>
            Creation(None, Some(Wrap(ComposerInstallation, ComposerInstallationText, cause)), [Detected, Installed])
          case None =>
            match Detector.Detect(c.detector, after)
            case Some(path) => Creation(Some(c.(executablePath := path)), None, [Detected, Installed, Detected])
            case None =>
              Creation(None, Some(Wrap(ComposerNotFound, ComposerNotFoundText, ExecutableNotFoundText)),
                       [Detected, Installed, Detected])
        else
          Creation(None, Some(Wrap(ComposerNotFound, ComposerNotFoundText, ExecutableNotFoundText)), [Detected])
    else if !testMode then
      if statMissing then
        Creation(None, Some(Wrap(ComposerNotFound, ComposerNotFoundText, "指定的可执行文件不存在: " + c.executablePath)),
                 [StatChecked])
      else Creation(Some(c), None, [StatChecked])
    else Creation(Some(c), None, [])
  }

  function GetExecutablePath(c: Composer): string { c.executablePath }
  function GetWorkingDir(c: Composer): string { c.workingDir }
  function GetEnv(c: Composer): Option<seq<string>> { c.env }

  /** SetWorkingDir: the getter returns exactly the value set, and putting
      the old directory back restores the client, so nothing else changed. */
  function SetWorkingDir(c: Composer, dir: string): (c': Composer)
    ensures GetWorkingDir(c') == dir
    ensures c'.(workingDir := GetWorkingDir(c)) == c
  {
    c.(workingDir := dir)
  }

  /** SetEnv, with the same two promises; nil (None) is stored as nil. */
  function SetEnv(c: Composer, env: Option<seq<string>>): (c': Composer)
    ensures GetEnv(c') == env
    ensures c'.(env := GetEnv(c)) == c
  {
    c.(env := env)
  }

  /** IsInstalled only looks at the stored path. */
  function IsInstalled(c: Composer): (b: bool)
    ensures b <==> |GetExecutablePath(c)| > 0
  {
    c.executablePath != ""
  }

  // ---------------------------------------------------------------------
  // The mock table (test mode)

  datatype Mock = Mock(output: string, err: Option<Error>)

  /** The package-level mock table and test-mode flag. */
  datatype Mocks = Mocks(table: map<string, Mock>, testMode: bool)

  /** SetupMockOutput: switches test mode on and binds one command string,
      leaving the other bindings as they were. */
  function SetupMockOutput(m: Mocks, command: string, output: string, err: Option<Error>): (m': Mocks)
    ensures m'.testMode
    ensures m'.table.Keys == m.table.Keys + {command}
    ensures m'.table[command] == Mock(output, err)
    ensures forall k :: k in m.table && k != command ==> m'.table[k] == m.table[k]
  {
    Mocks(m.table[command := Mock(output, err)], true)
  }

  /** ClearMockOutputs: no binding is left; test mode stays on. */
  function ClearMockOutputs(m: Mocks): (m': Mocks)
    ensures m'.testMode
    ensures forall k :: k !in m'.table
  {
    Mocks(map[], true)
  }

  /** The key a command is looked up under: its words joined by one space. */
  function MockKey(args: seq<string>): string {
    Join(args, ' ')
  }

  /** getMockOutput: the whole command first, then its first word alone. */
  function GetMockOutput(table: map<string, Mock>, args: seq<string>): (r: Option<Mock>)
    ensures |args| == 0 ==> r.None?
    ensures |args| > 0 && MockKey(args) in table ==> r == Some(table[MockKey(args)])
    ensures |args| > 0 && MockKey(args) !in table ==>
      r == if args[0] in table then Some(table[args[0]]) else None
  {
    if |args| == 0 then None
    else if MockKey(args) in table then Some(table[MockKey(args)])
    else if args[0] in table then Some(table[args[0]])
    else None
  }

  /** Commands whose words contain no space have distinct keys, so a mock
      bound to one such command is never found for another by exact match. */
  lemma MockKeyInjective(a: seq<string>, b: seq<string>)
    requires |a| > 0 && |b| > 0
    requires forall i :: 0 <= i < |a| ==> ' ' !in a[i]
    requires forall i :: 0 <= i < |b| ==> ' ' !in b[i]
    requires MockKey(a) == MockKey(b)
    ensures a == b
  {
    SplitJoin(a, ' ');
    SplitJoin(b, ' ');
  }

  // ---------------------------------------------------------------------
  // Running a command

  /** One process invocation: exec.CommandContext(ctx, path, args...) with
      cmd.Dir and cmd.Env (None: inherited from the parent). */
  datatype Invocation = Invocation(
    path: string,
    args: seq<string>,
    dir: Option<string>,
    env: Option<seq<string>>,
    timeout: int)

  /** What CombinedOutput returns: the interleaved output, and the error
      text when the process could not start, exited non-zero or was killed
      at the deadline. */
  datatype Exit = Exit(output: string, failure: Option<string>)

  type Process = Invocation -> Exit

  /** The result of RunWithContext, with the invocation it made (None when a
      mock answered). */
  datatype RunResult = RunResult(output: string, err: Option<Error>, spawned: Option<Invocation>)

  function EnvLength(env: Option<seq<string>>): nat {
    if env.Some? then |env.value| else 0
  }

  /** The invocation RunWithContext prepares for `args`. */
  function Prepare(c: Composer, timeout: int, args: seq<string>): Invocation {
    Invocation(c.executablePath, args,
               if c.workingDir != "" then Some(c.workingDir) else None,
               if EnvLength(c.env) > 0 then c.env else None,
               timeout)
  }

  /** RunWithContext: a mock answers verbatim without starting a process;
      otherwise one process runs with the client's path, the arguments as
      given, the working directory only when one is set and the environment
      only when it is non-empty. A failing process yields its output together
      with a CommandExecution error whose text carries the cause and the
      output. `timeout` is the context's deadline. */
  function RunWithContext(c: Composer, mocks: Mocks, proc: Process, timeout: int, args: seq<string>): (r: RunResult)
    ensures GetMockOutput(mocks.table, args).Some? ==>
      var mock := GetMockOutput(mocks.table, args).value;
      r.output == mock.output && r.err == mock.err && r.spawned.None?
    ensures GetMockOutput(mocks.table, args).None? ==>
      && r.spawned.Some?
      && var inv := r.spawned.value;
      && inv.path == c.executablePath && inv.args == args && inv.timeout == timeout
      && (inv.dir.Some? <==> c.workingDir != "")
      && (inv.dir.Some? ==> inv.dir.value == c.workingDir)
      && (inv.env.Some? <==> EnvLength(c.env) > 0)
      && (inv.env.Some? ==> inv.env == c.env)
      && r.output == proc(inv).output
      && (proc(inv).failure.None? <==> r.err.None?)
      && (r.err.Some? ==>
            r.err.value.kind == CommandExecution
            && HasPrefix(r.err.value.message, CommandExecutionText)
            && Contains(r.err.value.message, proc(inv).failure.value)
            && Contains(r.err.value.message, r.output))
  {
    match GetMockOutput(mocks.table, args)
    case Some(mock) => RunResult(mock.output, mock.err, None)
    case None =>
      var inv := Prepare(c, timeout, args);
      var exit := proc(inv);
      match exit.failure
      case None => RunResult(exit.output, None, Some(inv))
      case Some(cause) =>
        var head := CommandExecutionText + ": " + cause + ", output: ";
        var message := head + exit.output;
        assert Contains(message, cause) by {
          assert HasPrefix(cause + ", output: " + exit.output, cause);
          ContainsInRight(CommandExecutionText + ": ", cause + ", output: " + exit.output, cause);
          assert message == (CommandExecutionText + ": ") + (cause + ", output: " + exit.output);
        }
        assert Contains(message, exit.output) by {
          assert HasPrefix(exit.output, exit.output);
          ContainsInRight(head, exit.output, exit.output);
        }
        RunResult(exit.output, Some(Error(CommandExecution, message)), Some(inv))
  }

  /** RunWithTimeout: the context it builds only carries the deadline. */
  function RunWithTimeout(c: Composer, mocks: Mocks, proc: Process, timeout: int, args: seq<string>): RunResult {
    RunWithContext(c, mocks, proc, timeout, args)
  }

  /** Run uses the client's default timeout. */
  function Run(c: Composer, mocks: Mocks, proc: Process, args: seq<string>): (r: RunResult)
    ensures r == RunWithTimeout(c, mocks, proc, c.defaultTimeout, args)
    ensures r.spawned.Some? ==> r.spawned.value.timeout == c.defaultTimeout
  {
    RunWithContext(c, mocks, proc, c.defaultTimeout, args)
  }

  // ---------------------------------------------------------------------
  // The view the command modules have of Run

  datatype Outcome = Outcome(output: string, err: Option<Error>)

  /** `Run` with the client, the mock table and the process fixed. */
  type Runner = seq<string> -> Outcome

  /** The runner every client method calls: Run's output and error for each
      vector. A bound mock answers verbatim; any other vector runs the
      process prepared with the default timeout, whose output comes back
      unchanged, and fails exactly when the process does, with a
      CommandExecution error that names the cause. */
  function Bind(c: Composer, mocks: Mocks, proc: Process): (run: Runner)
    ensures forall args :: run(args) == Outcome(Run(c, mocks, proc, args).output, Run(c, mocks, proc, args).err)
    ensures forall args :: GetMockOutput(mocks.table, args).Some? ==>
      run(args) == Outcome(GetMockOutput(mocks.table, args).value.output, GetMockOutput(mocks.table, args).value.err)
    ensures forall args :: GetMockOutput(mocks.table, args).None? ==>
      var exit := proc(Prepare(c, c.defaultTimeout, args));
      && run(args).output == exit.output
      && (run(args).err.None? <==> exit.failure.None?)
      && (run(args).err.Some? ==>
            run(args).err.value.kind == CommandExecution && Contains(run(args).err.value.message, exit.failure.value))
  {
    args => Outcome(Run(c, mocks, proc, args).output, Run(c, mocks, proc, args).err)
  }

  /** What a client method returns, with the commands it passed to Run, in
      order. */
  datatype Reply<T> = Reply(value: T, err: Option<Error>, issued: seq<seq<string>>)

  /** A method that passes one command to Run and returns Run's output and
      error unchanged. */
  function Invoke(run: Runner, argv: seq<string>): (r: Reply<string>)
    ensures r.issued == [argv]
    ensures r.value == run(argv).output && r.err == run(argv).err
  {
    Reply(run(argv).output, run(argv).err, [argv])
  }
}
