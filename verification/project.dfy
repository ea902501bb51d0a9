/** Project commands (pkg/composer/project.go). `...Argv` functions give the
    command the like-named method passes to Run; methods without further
    logic return Run's output and error unchanged (`Core.Invoke`). */
module Project {
  import opened Wrappers
  import opened Errors
  import opened Core
  import Args

  /** CreateProject: the spec (`name:version`, or the bare name), then the
      directory as the last word. */
  function CreateProjectArgv(name: string, directory: string, version: string): (a: seq<string>)
    ensures |a| == 3 && a[0] == "create-project"
    ensures a[1] == Args.PackageSpec(name, version, ':') && a[2] == directory
    ensures ':' !in name ==> Args.SplitSpec(a[1], ':') == (name, version)
  {
    Args.PackageSpecInverse(name, version, ':');
    ["create-project", Args.PackageSpec(name, version, ':'), directory]
  }

  /** CreateProjectWithOptions: the option flags between "create-project"
      and the spec and directory. */
  function CreateProjectWithOptionsArgv(name: string, directory: string, version: string, opts: seq<(string, string)>)
    : (a: seq<string>)
    ensures |a| == 3 + |opts| && a[0] == "create-project"
    ensures Args.HoldsOptions(a, 1, opts)
    ensures a[1 + |opts|..] == CreateProjectArgv(name, directory, version)[1..]
    ensures |opts| == 0 ==> a == CreateProjectArgv(name, directory, version)
  {
    var tail := [Args.PackageSpec(name, version, ':'), directory];
    Args.OptionsBetween(["create-project"], opts, tail);
    ["create-project"] + Args.OptionFlags(opts) + tail
  }

  /** The --name, --description and --author values InitProjectWithOptions
      was given, in that order; empty ones are left out. */
  function InitFields(name: string, description: string, author: string): seq<(string, string)> {
    Args.IfGiven("name", name) + Args.IfGiven("description", description) + Args.IfGiven("author", author)
  }

  /** InitProjectWithOptions: "--name=", "--description=" and "--author=" for
      the non-empty arguments, in that order, before the flags of the option
      map. The named arguments use the same `--key=value` shape as options. */
  function InitProjectWithOptionsArgv(name: string, description: string, author: string, opts: seq<(string, string)>)
    : (a: seq<string>)
    ensures |a| == 1 + |InitFields(name, description, author)| + |opts| && a[0] == "init"
    ensures Args.HoldsOptions(a, 1, InitFields(name, description, author) + opts)
  {
    var fields := InitFields(name, description, author);
    Args.OptionsAtEnd(["init"], fields + opts);
    ["init"] + Args.OptionFlags(fields + opts)
  }

  /** RunScript: "run-script", the script, then the arguments, with no "--"
      separator and no check of the name. */
  function RunScriptArgv(script: string, args: seq<string>): (a: seq<string>)
    ensures |a| == 2 + |args| && a[..2] == ["run-script", script] && a[2..] == args
  {
    ["run-script", script] + args
  }

  /** The fields of ArchiveProject that were given, dir before format. */
  function ArchiveFields(directory: string, format: string): seq<(string, string)> {
    Args.IfGiven("dir", directory) + Args.IfGiven("format", format)
  }

  /** ArchiveProject: "--dir=" iff a directory is given, then "--format=" iff
      a format is given. */
  function ArchiveProjectArgv(directory: string, format: string): (a: seq<string>)
    ensures |a| == 1 + |ArchiveFields(directory, format)| && a[0] == "archive"
    ensures Args.HoldsOptions(a, 1, ArchiveFields(directory, format))
  {
    var fields := ArchiveFields(directory, format);
    Args.OptionsAtEnd(["archive"], fields);
    ["archive"] + Args.OptionFlags(fields)
  }

  /** The fields of composer.json GetProjectInfo reads; nil maps are None. */
  datatype ProjectInfo = ProjectInfo(
    name: string,
    description: string,
    kind: string,
    require: Option<map<string, string>>,
    requireDev: Option<map<string, string>>)

  const ProjectInfoArgv: seq<string> := ["config", "--list", "--json"]

  /** GetProjectInfo: the decoded output; no info and an error when the
      command fails or the output does not decode. `decode` stands for
      json.Unmarshal. */
  function GetProjectInfo(run: Runner, decode: string -> Result<ProjectInfo>): (r: Reply<Option<ProjectInfo>>)
    ensures r.issued == [ProjectInfoArgv]
    ensures r.value.Some? <==> r.err.None?
    ensures run(ProjectInfoArgv).err.Some? ==> r.err == run(ProjectInfoArgv).err
    ensures run(ProjectInfoArgv).err.None? ==>
      match decode(run(ProjectInfoArgv).output)
      case Ok(info) => r.value == Some(info)
      case Fail(msg) => r.err == Some(PlainError(msg))
  {
    var o := run(ProjectInfoArgv);
    if o.err.Some? then Reply(None, o.err, [ProjectInfoArgv])
    else
      match decode(o.output)
      case Ok(info) => Reply(Some(info), None, [ProjectInfoArgv])
      case Fail(msg) => Reply(None, Some(PlainError(msg)), [ProjectInfoArgv])
  }

  /** The commands of this file that pass their parameters through as they
      are. */
  datatype Simple = InitProject | ExecuteScript(script: string) | ListScripts

  function ParseSimple(a: seq<string>): Option<Simple> {
    if a == ["init"] then Some(InitProject)
    else if a == ["run-script", "--list"] then Some(ListScripts)
    else if |a| == 2 && a[0] == "run" then Some(ExecuteScript(a[1]))
    else None
  }

  /** ExecuteScript uses "run", ListScripts "run-script --list"; each simple
      command is recognised back from its words. */
  function SimpleArgv(q: Simple): (a: seq<string>)
    ensures ParseSimple(a) == Some(q)
  {
    match q
    case InitProject => ["init"]
    case ExecuteScript(script) => ["run", script]
    case ListScripts => ["run-script", "--list"]
  }
}
