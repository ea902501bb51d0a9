/** Configuration commands (pkg/composer/config.go), and the `config`
    command shapes the repository helpers (pkg/composer/repository.go) share:
    read a setting, write it, or unset it, locally or with "--global". */
module Config {
  import opened Wrappers
  import opened Text
  import opened Core
  import Args

  datatype Action = Get(key: string) | Set(key: string, value: string) | Unset(key: string)

  datatype ConfigCommand = ConfigCommand(global: bool, action: Action)

  /** "config", then "--global" iff global, then the key (after "--unset"
      for an unset) and, for a write, the value. */
  function ConfigArgv(cmd: ConfigCommand): (a: seq<string>)
    ensures |a| == 1 + (if cmd.global then 1 else 0) + |ActionWords(cmd.action)| && a[0] == "config"
    ensures ("--global" in a[1..|a| - |ActionWords(cmd.action)|]) <==> cmd.global
    ensures a[|a| - |ActionWords(cmd.action)|..] == ActionWords(cmd.action)
    ensures WellFormed(cmd) ==> ParseConfig(a) == Some(cmd)
  {
    var a := ["config"] + (if cmd.global then ["--global"] else []) + ActionWords(cmd.action);
    assert a[1..|a| - |ActionWords(cmd.action)|] == if cmd.global then ["--global"] else [];
    a
  }

  function ActionWords(action: Action): seq<string> {
    match action
    case Get(key) => [key]
    case Set(key, value) => [key, value]
    case Unset(key) => ["--unset", key]
  }

  /** A key that does not look like a flag. */
  predicate WellFormed(cmd: ConfigCommand) {
    !HasPrefix(cmd.action.key, "-")
  }

  /** Reads a config command back from its words. */
  function ParseConfig(a: seq<string>): Option<ConfigCommand> {
    if |a| < 2 || a[0] != "config" then None
    else
      var global := a[1] == "--global";
      var rest := if global then a[2..] else a[1..];
      if |rest| == 2 && rest[0] == "--unset" then Some(ConfigCommand(global, Unset(rest[1])))
      else if |rest| == 1 then Some(ConfigCommand(global, Get(rest[0])))
      else if |rest| == 2 then Some(ConfigCommand(global, Set(rest[0], rest[1])))
      else None
  }

  /** GetConfigWithGlobal: the trimmed output, or "" with Run's error. */
  function GetConfigWithGlobal(run: Runner, setting: string, global: bool): (r: Reply<string>)
    ensures r.issued == [ConfigArgv(ConfigCommand(global, Get(setting)))]
    ensures r.err == run(r.issued[0]).err
    ensures r.err.Some? ==> r.value == ""
    ensures r.err.None? ==> r.value == TrimSpace(run(r.issued[0]).output) && IsTrimmed(r.value)
  {
    var argv := ConfigArgv(ConfigCommand(global, Get(setting)));
    var o := run(argv);
    if o.err.Some? then Reply("", o.err, [argv]) else Reply(TrimSpace(o.output), None, [argv])
  }

  /** GetComposerHome reads the global "home" setting the same way. */
  function GetComposerHome(run: Runner): (r: Reply<string>)
    ensures r == GetConfigWithGlobal(run, "home", true)
    ensures r.issued == [["config", "--global", "home"]]
  {
    var argv := ["config", "--global", "home"];
    assert argv == ConfigArgv(ConfigCommand(true, Get("home")));
    var o := run(argv);
    if o.err.Some? then Reply("", o.err, [argv]) else Reply(TrimSpace(o.output), None, [argv])
  }

  /** SetConfigWithGlobal: "config", "--global" iff global, the setting and
      the value. */
  function SetConfigWithGlobalArgv(setting: string, value: string, global: bool): (a: seq<string>)
    ensures a == ConfigArgv(ConfigCommand(global, Set(setting, value)))
    ensures a[|a| - 2..] == [setting, value]
  {
    ["config"] + (if global then ["--global"] else []) + [setting, value]
  }

  /** ValidateComposerJson: "--strict" iff strict, then "--with-dependencies"
      iff withDependencies. */
  function ValidateComposerJsonArgv(strict: bool, withDependencies: bool): (a: seq<string>)
    ensures |a| >= 1 && a[0] == "validate"
    ensures Args.SwitchedOn(a[1..], ["--strict", "--with-dependencies"], [strict, withDependencies])
  {
    var flags := Args.Switches(["--strict", "--with-dependencies"], [strict, withDependencies]);
    Args.SwitchesSwitchedOn(["--strict", "--with-dependencies"], [strict, withDependencies]);
    assert (["validate"] + flags)[1..] == flags;
    ["validate"] + flags
  }

  /** The commands of this file that take no argument. */
  datatype Fixed = Validate | ClearCache | CheckPlatformReqs

  function ParseFixed(a: seq<string>): Option<Fixed> {
    if a == ["validate"] then Some(Validate)
    else if a == ["clear-cache"] then Some(ClearCache)
    else if a == ["check-platform-reqs"] then Some(CheckPlatformReqs)
    else None
  }

  function FixedArgv(q: Fixed): (a: seq<string>)
    ensures |a| == 1
    ensures ParseFixed(a) == Some(q)
  {
    match q
    case Validate => ["validate"]
    case ClearCache => ["clear-cache"]
    case CheckPlatformReqs => ["check-platform-reqs"]
  }
}
