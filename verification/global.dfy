/** Commands on the global (per-user) project (pkg/composer/global.go).
    Each is the matching project-level command prefixed with "global"; the
    methods pass it to Run and return Run's error or output unchanged
    (`Core.Invoke`). */
module Global {
  import Dependencies
  import Packages
  import Diagnosis

  /** The word list with "global" in front. */
  function Globally(local: seq<string>): (a: seq<string>)
    ensures |a| == 1 + |local| && a[0] == "global" && a[1..] == local
  {
    ["global"] + local
  }

  /** GlobalRequire: the spec is `name:version`, never a dev requirement. */
  function GlobalRequireArgv(name: string, version: string): (a: seq<string>)
    ensures a == Globally(Packages.RequirePackageArgv(name, version, false))
  {
    ["global", "require", if version != "" then name + ":" + version else name]
  }

  /** GlobalUpdate: the packages in the order given. */
  function GlobalUpdateArgv(packages: seq<string>): (a: seq<string>)
    ensures a == Globally(Dependencies.UpdateArgv(packages, false))
  {
    ["global", "update"] + packages
  }

  function GlobalRemoveArgv(name: string): (a: seq<string>)
    ensures a == Globally(Packages.RemoveArgv(name, false))
  {
    ["global", "remove", name]
  }

  function GlobalInstallArgv(): (a: seq<string>)
    ensures a == Globally(Dependencies.InstallArgv(false, false))
  {
    ["global", "install"]
  }

  /** GlobalList lists the global packages with "show". */
  function GlobalListArgv(): (a: seq<string>)
    ensures a == Globally(Packages.SimpleArgv(Packages.ShowAllPackages))
  {
    ["global", "show"]
  }

  function GlobalStatusArgv(): (a: seq<string>)
    ensures a == Globally(Diagnosis.FixedArgv(Diagnosis.Status))
  {
    ["global", "status"]
  }

  /** GlobalHome has no project-level counterpart in the client. */
  const GlobalHomeArgv: seq<string> := ["global", "home"]

  /** GlobalExecute: "exec" with no "--" separator, like LocalExec. */
  function GlobalExecuteArgv(command: string, args: seq<string>): (a: seq<string>)
    ensures a == Globally(Diagnosis.LocalExecArgv(command, args))
  {
    ["global", "exec", command] + args
  }

  /** GlobalDumpAutoload: "--optimize" iff optimize. */
  function GlobalDumpAutoloadArgv(optimize: bool): (a: seq<string>)
    ensures a == Globally(Dependencies.DumpAutoloadArgv(optimize))
  {
    ["global", "dump-autoload"] + (if optimize then ["--optimize"] else [])
  }
}
