/** Package commands (pkg/composer/packages.go). `...Argv` functions give the
    command the like-named method passes to Run; methods without further
    logic return Run's output and error unchanged (`Core.Invoke`). */
module Packages {
  import opened Wrappers
  import opened Core
  import Args

  /** RequirePackage: "--dev" iff dev, then the spec `name:version` (the bare
      name when the version is empty) as the last word. */
  function RequirePackageArgv(name: string, version: string, dev: bool): (a: seq<string>)
    ensures |a| == 2 + (if dev then 1 else 0)
    ensures a[0] == "require" && (dev ==> a[1] == "--dev")
    ensures a[|a| - 1] == Args.PackageSpec(name, version, ':')
    ensures ':' !in name ==> Args.SplitSpec(a[|a| - 1], ':') == (name, version)
  {
    Args.PackageSpecInverse(name, version, ':');
    ["require"] + (if dev then ["--dev"] else []) + [Args.PackageSpec(name, version, ':')]
  }

  /** Remove: "--dev" iff dev, then the name as the last word. */
  function RemoveArgv(name: string, dev: bool): (a: seq<string>)
    ensures |a| == 2 + (if dev then 1 else 0)
    ensures a[0] == "remove" && (dev ==> a[1] == "--dev")
    ensures a[|a| - 1] == name
  {
    ["remove"] + (if dev then ["--dev"] else []) + [name]
  }

  /** ShowDependencyTree: the name is a third word only when non-empty. */
  function ShowDependencyTreeArgv(name: string): (a: seq<string>)
    ensures |a| == if name == "" then 2 else 3
    ensures a[..2] == ["show", "--tree"]
    ensures name != "" ==> a[2] == name
  {
    if name != "" then ["show", "--tree", name] else ["show", "--tree"]
  }

  /** RequirePackageWithOptions: all option flags before the spec, which is
      the last word. */
  function RequirePackageWithOptionsArgv(name: string, version: string, opts: seq<(string, string)>): (a: seq<string>)
    ensures |a| == 2 + |opts| && a[0] == "require"
    ensures Args.HoldsOptions(a, 1, opts)
    ensures a[|a| - 1] == Args.PackageSpec(name, version, ':')
    ensures |opts| == 0 ==> a == RequirePackageArgv(name, version, false)
  {
    Args.OptionsBetween(["require"], opts, [Args.PackageSpec(name, version, ':')]);
    ["require"] + Args.OptionFlags(opts) + [Args.PackageSpec(name, version, ':')]
  }

  /** BumpPackages: the packages after the command, in order. */
  function BumpPackagesArgv(packages: seq<string>): (a: seq<string>)
    ensures |a| == 1 + |packages| && a[0] == "bump" && a[1..] == packages
  {
    ["bump"] + packages
  }

  /** BumpPackagesWithOptions: the option flags before the packages. */
  function BumpPackagesWithOptionsArgv(packages: seq<string>, opts: seq<(string, string)>): (a: seq<string>)
    ensures |a| == 1 + |opts| + |packages| && a[0] == "bump"
    ensures Args.HoldsOptions(a, 1, opts)
    ensures a[1 + |opts|..] == packages
    ensures |opts| == 0 ==> a == BumpPackagesArgv(packages)
  {
    Args.OptionsBetween(["bump"], opts, packages);
    ["bump"] + Args.OptionFlags(opts) + packages
  }

  /** BrowsePackageWithOptions: the name comes before the option flags, the
      other way round from require and bump. */
  function BrowsePackageWithOptionsArgv(name: string, opts: seq<(string, string)>): (a: seq<string>)
    ensures |a| == 2 + |opts| && a[..2] == ["browse", name]
    ensures Args.HoldsOptions(a, 2, opts)
    ensures |opts| == 0 ==> a == SimpleArgv(BrowsePackage(name))
  {
    Args.OptionsAtEnd(["browse", name], opts);
    ["browse", name] + Args.OptionFlags(opts)
  }

  /** Reinstall: remove (not dev), then require without version (not dev)
      only when the removal succeeded; the first error is returned. */
  function Reinstall(run: Runner, name: string): (r: Reply<()>)
    ensures |r.issued| >= 1 && r.issued[0] == RemoveArgv(name, false)
    ensures run(RemoveArgv(name, false)).err.Some? ==>
      r.issued == [RemoveArgv(name, false)] && r.err == run(RemoveArgv(name, false)).err
    ensures run(RemoveArgv(name, false)).err.None? ==>
      r.issued == [RemoveArgv(name, false), RequirePackageArgv(name, "", false)]
      && r.err == run(RequirePackageArgv(name, "", false)).err
  {
    var removed := Invoke(run, RemoveArgv(name, false));
    if removed.err.Some? then Reply((), removed.err, removed.issued)
    else
      var required := Invoke(run, RequirePackageArgv(name, "", false));
      Reply((), required.err, removed.issued + required.issued)
  }

  /** The commands of this file that pass their parameters through as they
      are: no validation, not even of empty names. */
  datatype Simple =
    | ShowPackage(name: string)
    | Search(query: string)
    | ShowAllPackages
    | ShowReverseDependencies(name: string)
    | WhyPackage(name: string)
    | OutdatedPackages
    | OutdatedPackagesDirect
    | BrowsePackage(name: string)
    | WhyNotPackage(name: string, version: string)

  function ParseSimple(a: seq<string>): Option<Simple> {
    if a == ["show"] then Some(ShowAllPackages)
    else if a == ["outdated"] then Some(OutdatedPackages)
    else if a == ["outdated", "--direct"] then Some(OutdatedPackagesDirect)
    else if |a| == 2 && a[0] == "show" then Some(ShowPackage(a[1]))
    else if |a| == 2 && a[0] == "search" then Some(Search(a[1]))
    else if |a| == 2 && a[0] == "depends" then Some(ShowReverseDependencies(a[1]))
    else if |a| == 2 && a[0] == "why" then Some(WhyPackage(a[1]))
    else if |a| == 2 && a[0] == "browse" then Some(BrowsePackage(a[1]))
    else if |a| == 3 && a[0] == "why-not" then Some(WhyNotPackage(a[1], a[2]))
    else None
  }

  /** Every simple command is recognised back from its words, parameters
      included; WhyNotPackage always has three words, even with an empty
      version. */
  function SimpleArgv(q: Simple): (a: seq<string>)
    ensures ParseSimple(a) == Some(q)
    ensures q.WhyNotPackage? ==> |a| == 3
  {
    match q
    case ShowPackage(name) => ["show", name]
    case Search(query) => ["search", query]
    case ShowAllPackages => ["show"]
    case ShowReverseDependencies(name) => ["depends", name]
    case WhyPackage(name) => ["why", name]
    case OutdatedPackages => ["outdated"]
    case OutdatedPackagesDirect => ["outdated", "--direct"]
    case BrowsePackage(name) => ["browse", name]
    case WhyNotPackage(name, version) => ["why-not", name, version]
  }
}
