/** Repository and configuration-setting commands
    (pkg/composer/repository.go). Every command here is a `config` command
    (module Config); the repository record is serialised by json.Marshal,
    which the model receives as a parameter. */
module Repositories {
  import opened Wrappers
  import opened Text
  import opened Errors
  import opened Core
  import Config
  import opened Json

  datatype RepositoryType = Vcs | ComposerType | Packagist | PathType | Artifact | Pear

  /** The "type" string each repository type is serialised as. */
  function TypeName(t: RepositoryType): string {
    match t
    case Vcs => "vcs"
    case ComposerType => "composer"
    case Packagist => "packagist"
    case PathType => "path"
    case Artifact => "artifact"
    case Pear => "pear"
  }

  datatype Repository = Repository(
    kind: RepositoryType,
    url: string,
    name: string,
    options: map<string, Value>)

  /** json.Marshal for a Repository: the JSON text, or the marshalling
      error's text. */
  type Encoder = Repository -> Result<string>

  /** The config key a named repository lives under. */
  function RepositoryKey(name: string): (k: string)
    ensures !HasPrefix(k, "-")
  {
    var k := "repositories." + name;
    assert k[0] == 'r';
    k
  }

  /** AddRepository (global false) and AddGlobalRepository (global true):
      when marshalling fails its error is returned and nothing runs;
      otherwise one config write of the repository's JSON under
      "repositories.<name>", and Run's error. */
  function AddRepository(run: Runner, encode: Encoder, global: bool, name: string, repo: Repository): (r: Reply<()>)
    ensures encode(repo).Fail? ==> r.issued == [] && r.err == Some(PlainError(encode(repo).message))
    ensures encode(repo).Ok? ==>
      && r.issued == [Config.ConfigArgv(Config.ConfigCommand(global, Config.Set(RepositoryKey(name), encode(repo).value)))]
      && Config.ParseConfig(r.issued[0]) == Some(Config.ConfigCommand(global, Config.Set(RepositoryKey(name), encode(repo).value)))
      && r.err == run(r.issued[0]).err
  {
    match encode(repo)
    case Fail(message) => Reply((), Some(PlainError(message)), [])
    case Ok(json) =>
      var argv := ["config"] + (if global then ["--global"] else []) + [RepositoryKey(name), json];
      assert argv == Config.ConfigArgv(Config.ConfigCommand(global, Config.Set(RepositoryKey(name), json)));
      Reply((), run(argv).err, [argv])
  }

  /** The convenience constructors: each fills in the type, puts the URL or
      path in `url`, leaves `name` empty and sets options only for a path
      repository. AddPackagistRepository always uses the name
      "packagist.org". */
  datatype Preset =
    | PackagistPreset(url: string)
    | VcsPreset(name: string, url: string)
    | PathPreset(name: string, path: string, options: map<string, Value>)
    | ComposerPreset(name: string, url: string)
    | ArtifactPreset(name: string, path: string)

  function PresetName(p: Preset): string {
    if p.PackagistPreset? then "packagist.org" else p.name
  }

  function PresetRepository(p: Preset): (repo: Repository)
    ensures repo.name == ""
    ensures repo.options != map[] ==> p.PathPreset?
  {
    match p
    case PackagistPreset(url) => Repository(Packagist, url, "", map[])
    case VcsPreset(_, url) => Repository(Vcs, url, "", map[])
    case PathPreset(_, path, options) => Repository(PathType, path, "", options)
    case ComposerPreset(_, url) => Repository(ComposerType, url, "", map[])
    case ArtifactPreset(_, path) => Repository(Artifact, path, "", map[])
  }

  /** AddPackagistRepository, AddVcsRepository, AddPathRepository,
      AddComposerRepository and AddArtifactRepository: a local
      AddRepository of the preset's record. */
  function AddPreset(run: Runner, encode: Encoder, p: Preset): (r: Reply<()>)
    ensures r == AddRepository(run, encode, false, PresetName(p), PresetRepository(p))
    ensures encode(PresetRepository(p)).Ok? ==>
      r.issued == [Config.ConfigArgv(Config.ConfigCommand(false, Config.Set(RepositoryKey(PresetName(p)), encode(PresetRepository(p)).value)))]
    ensures encode(PresetRepository(p)).Fail? ==> r.issued == [] && r.err.Some?
  {
    AddRepository(run, encode, false, PresetName(p), PresetRepository(p))
  }

  /** The values SetPreferredInstall accepts. */
  const PreferredInstallValues: set<string> := {"dist", "source", "auto"}

  /** SetPreferredInstall: an unknown value is refused with an error naming
      it, and nothing runs; a known value is written. */
  function SetPreferredInstall(run: Runner, value: string): (r: Reply<()>)
    ensures r.issued == [] <==> value !in PreferredInstallValues
    ensures value !in PreferredInstallValues ==>
      r.err.Some? && r.err.value.kind == Plain && Contains(r.err.value.message, value)
    ensures value in PreferredInstallValues ==>
      && r.issued == [Config.ConfigArgv(Config.ConfigCommand(false, Config.Set("preferred-install", value)))]
      && r.err == run(r.issued[0]).err
  {
    if value != "dist" && value != "source" && value != "auto" then
      var message := "invalid preferred-install value: " + value + ", must be 'dist', 'source' or 'auto'";
      assert Contains(message, value) by {
        assert HasPrefix(value + ", must be 'dist', 'source' or 'auto'", value);
        ContainsInRight("invalid preferred-install value: ", value + ", must be 'dist', 'source' or 'auto'", value);
        assert message == "invalid preferred-install value: " + (value + ", must be 'dist', 'source' or 'auto'");
      }
      Reply((), Some(PlainError(message)), [])
    else
      var argv := ["config", "preferred-install", value];
      assert argv == Config.ConfigArgv(Config.ConfigCommand(false, Config.Set("preferred-install", value)));
      Reply((), run(argv).err, [argv])
  }

  /** SetPreferStable writes "1" for true and "0" for false. */
  function SetPreferStableArgv(preferStable: bool): (a: seq<string>)
    ensures |a| == 3
    ensures Config.ParseConfig(a) == Some(Config.ConfigCommand(false, Config.Set("prefer-stable", a[2])))
    ensures a[2] == "1" <==> preferStable
    ensures a[2] in {"0", "1"}
  {
    var value := if preferStable then "1" else "0";
    var argv := ["config", "prefer-stable", value];
    assert argv == Config.ConfigArgv(Config.ConfigCommand(false, Config.Set("prefer-stable", value)));
    argv
  }

  /** The remaining methods: each issues one config command, named here, and
      returns Run's output (the getters) or error unchanged. */
  datatype Request =
    | RemoveRepository(name: string)
    | ListRepositories
    | DisablePackagistRepository
    | EnablePackagistRepository
    | GetPreferredInstall
    | SetMinimumStability(stability: string)
    | GetMinimumStability
    | GetPreferStable
    | SetConfigParameter(key: string, value: string)
    | GetConfigParameter(key: string)
    | UnsetConfig(key: string)
    | RemoveGlobalRepository(name: string)
    | ListGlobalRepositories

  /** The config command each request stands for. */
  function RequestCommand(q: Request): Config.ConfigCommand {
    match q
    case RemoveRepository(name) => Config.ConfigCommand(false, Config.Unset(RepositoryKey(name)))
    case ListRepositories => Config.ConfigCommand(false, Config.Get("repositories"))
    case DisablePackagistRepository => Config.ConfigCommand(false, Config.Set("repositories.packagist.org.url", "false"))
    case EnablePackagistRepository =>
      Config.ConfigCommand(false, Config.Set("repositories.packagist.org.url", "https://repo.packagist.org"))
    case GetPreferredInstall => Config.ConfigCommand(false, Config.Get("preferred-install"))
    case SetMinimumStability(stability) => Config.ConfigCommand(false, Config.Set("minimum-stability", stability))
    case GetMinimumStability => Config.ConfigCommand(false, Config.Get("minimum-stability"))
    case GetPreferStable => Config.ConfigCommand(false, Config.Get("prefer-stable"))
    case SetConfigParameter(key, value) => Config.ConfigCommand(false, Config.Set(key, value))
    case GetConfigParameter(key) => Config.ConfigCommand(false, Config.Get(key))
    case UnsetConfig(key) => Config.ConfigCommand(false, Config.Unset(key))
    case RemoveGlobalRepository(name) => Config.ConfigCommand(true, Config.Unset(RepositoryKey(name)))
    case ListGlobalRepositories => Config.ConfigCommand(true, Config.Get("repositories"))
  }

  /** The words each method passes to Run, as the source spells them out,
      agree with the config command it stands for; and whenever the key is
      not flag-like the words can be read back as that command. */
  function RequestArgv(q: Request): (a: seq<string>)
    ensures a == Config.ConfigArgv(RequestCommand(q))
    ensures Config.WellFormed(RequestCommand(q)) ==> Config.ParseConfig(a) == Some(RequestCommand(q))
  {
    match q
    case RemoveRepository(name) => ["config", "--unset", RepositoryKey(name)]
    case ListRepositories => ["config", "repositories"]
    case DisablePackagistRepository => ["config", "repositories.packagist.org.url", "false"]
    case EnablePackagistRepository => ["config", "repositories.packagist.org.url", "https://repo.packagist.org"]
    case GetPreferredInstall => ["config", "preferred-install"]
    case SetMinimumStability(stability) => ["config", "minimum-stability", stability]
    case GetMinimumStability => ["config", "minimum-stability"]
    case GetPreferStable => ["config", "prefer-stable"]
    case SetConfigParameter(key, value) => ["config", key, value]
    case GetConfigParameter(key) => ["config", key]
    case UnsetConfig(key) => ["config", "--unset", key]
    case RemoveGlobalRepository(name) => ["config", "--global", "--unset", RepositoryKey(name)]
    case ListGlobalRepositories => ["config", "--global", "repositories"]
  }
}
