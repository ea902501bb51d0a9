/** Dependency management commands (pkg/composer/dependencies.go). Each
    `...Argv` function is the command the like-named client method passes to
    Run; the method returns Run's error (and, where it has one, its output)
    unchanged, which is `Core.Invoke`. */
module Dependencies {
  import opened Wrappers
  import Args

  /** Install: "--no-dev" iff noDev, then "--optimize-autoloader" iff
      optimize, each at most once. */
  function InstallArgv(noDev: bool, optimize: bool): (a: seq<string>)
    ensures |a| >= 1 && a[0] == "install"
    ensures Args.SwitchedOn(a[1..], ["--no-dev", "--optimize-autoloader"], [noDev, optimize])
  {
    var flags := Args.Switches(["--no-dev", "--optimize-autoloader"], [noDev, optimize]);
    Args.SwitchesSwitchedOn(["--no-dev", "--optimize-autoloader"], [noDev, optimize]);
    assert (["install"] + flags)[1..] == flags;
    ["install"] + flags
  }

  /** InstallWithOptions: one flag per option entry after the command. */
  function InstallWithOptionsArgv(opts: seq<(string, string)>): (a: seq<string>)
    ensures |a| == 1 + |opts| && a[0] == "install"
    ensures Args.HoldsOptions(a, 1, opts)
    ensures |opts| == 0 ==> a == InstallArgv(false, false)
  {
    Args.OptionsAtEnd(["install"], opts);
    ["install"] + Args.OptionFlags(opts)
  }

  /** Update: "--no-dev" iff noDev, then the package names last, in the
      order given. */
  function UpdateArgv(packages: seq<string>, noDev: bool): (a: seq<string>)
    ensures |a| == 1 + (if noDev then 1 else 0) + |packages|
    ensures a[0] == "update"
    ensures noDev ==> a[1] == "--no-dev"
    ensures a[|a| - |packages|..] == packages
  {
    ["update"] + (if noDev then ["--no-dev"] else []) + packages
  }

  /** UpdateWithOptions: every option flag comes before every package name. */
  function UpdateWithOptionsArgv(packages: seq<string>, opts: seq<(string, string)>): (a: seq<string>)
    ensures |a| == 1 + |opts| + |packages| && a[0] == "update"
    ensures Args.HoldsOptions(a, 1, opts)
    ensures a[1 + |opts|..] == packages
    ensures |opts| == 0 ==> a == UpdateArgv(packages, false)
  {
    Args.OptionsBetween(["update"], opts, packages);
    ["update"] + Args.OptionFlags(opts) + packages
  }

  /** DumpAutoload: "--optimize" iff optimize. */
  function DumpAutoloadArgv(optimize: bool): (a: seq<string>)
    ensures |a| >= 1 && a[0] == "dump-autoload"
    ensures Args.SwitchedOn(a[1..], ["--optimize"], [optimize])
  {
    var flags := Args.Switches(["--optimize"], [optimize]);
    Args.SwitchesSwitchedOn(["--optimize"], [optimize]);
    assert (["dump-autoload"] + flags)[1..] == flags;
    ["dump-autoload"] + flags
  }

  function DumpAutoloadWithOptionsArgv(opts: seq<(string, string)>): (a: seq<string>)
    ensures |a| == 1 + |opts| && a[0] == "dump-autoload"
    ensures Args.HoldsOptions(a, 1, opts)
    ensures |opts| == 0 ==> a == DumpAutoloadArgv(false)
  {
    Args.OptionsAtEnd(["dump-autoload"], opts);
    ["dump-autoload"] + Args.OptionFlags(opts)
  }

  /** The commands of this file that take no argument. */
  datatype Fixed = CheckDependencies | Suggests | FundPackages | RunAudit

  /** Recognises a fixed command of this file. */
  function ParseFixed(a: seq<string>): Option<Fixed> {
    if a == ["check"] then Some(CheckDependencies)
    else if a == ["suggests"] then Some(Suggests)
    else if a == ["fund"] then Some(FundPackages)
    else if a == ["audit"] then Some(RunAudit)
    else None
  }

  /** One word each, and distinct commands issue distinct words. */
  function FixedArgv(q: Fixed): (a: seq<string>)
    ensures |a| == 1
    ensures ParseFixed(a) == Some(q)
  {
    match q
    case CheckDependencies => ["check"]
    case Suggests => ["suggests"]
    case FundPackages => ["fund"]
    case RunAudit => ["audit"]
  }
}
