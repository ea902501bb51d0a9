/** Satis repository configuration files (pkg/composer/satis.go). The file
    is named by the caller; each editing method reads and decodes it,
    changes one part, and writes it back encoded. The file system is a
    `Store.Disk` and JSON coding is a parameter (`Codec`). */
module Satis {
  import opened Wrappers
  import opened Errors
  import opened Json
  import opened Store
  import opened Core
  import GoMaps

  /** satis.json. */
  datatype SatisConfig = SatisConfig(
    name: string,
    homepage: string,
    repositories: seq<map<string, string>>,
    outputDir: string,
    requireAll: bool,
    requireDependencies: bool,
    requireDevDependencies: bool,
    require: Option<map<string, string>>,
    archive: Option<map<string, Value>>,
    minimumStability: string,
    providers: bool,
    providersUrl: string,
    config: Option<map<string, Value>>,
    notify: Option<map<string, Value>>,
    twigTemplate: string)

  /** The configuration CreateSatisConfig writes: the name and homepage, no
      repositories, output to "public", every package required; every other
      field is its zero value. */
  function NewSatisConfig(name: string, homepage: string): (cfg: SatisConfig)
    ensures cfg.name == name && cfg.homepage == homepage
    ensures cfg.repositories == [] && cfg.outputDir == "public" && cfg.requireAll
    ensures !cfg.requireDependencies && !cfg.requireDevDependencies && !cfg.providers
    ensures cfg.require.None? && cfg.archive.None? && cfg.config.None? && cfg.notify.None?
    ensures cfg.minimumStability == "" && cfg.providersUrl == "" && cfg.twigTemplate == ""
  {
    SatisConfig(name, homepage, [], "public", true, false, false, None, None, "", false, "", None, None, "")
  }

  /** json.Unmarshal and json.MarshalIndent for satis.json. */
  datatype Codec = Codec(decode: string -> Result<SatisConfig>, encode: SatisConfig -> Result<string>)

  /** CreateSatisConfig: writes the new configuration at the path, replacing
      any file there; on an encoding error nothing is written. */
  function CreateSatisConfig(disk: Disk, codec: Codec, path: string, name: string, homepage: string): (r: (Disk, Option<Error>))
    ensures r.1.Some? <==> codec.encode(NewSatisConfig(name, homepage)).Fail?
    ensures r.1.Some? ==> r.0 == disk
    ensures r.1.None? ==> r.0 == disk[path := Ok(codec.encode(NewSatisConfig(name, homepage)).value)]
  {
    var content := codec.encode(NewSatisConfig(name, homepage));
    if content.Fail? then (disk, Some(PlainError(content.message)))
    else (disk[path := Ok(content.value)], None)
  }

  const DefaultDir: string := "satis"
  const FileName: string := "satis.json"

  /** The file InitSatis creates: satis.json in the directory, "satis" when
      none is given. */
  function InitSatisPath(dir: string): (path: string)
    ensures dir != "" ==> path == PathJoin(dir, FileName)
    ensures dir == "" ==> path == PathJoin(DefaultDir, FileName) == "satis/satis.json"
  {
    assert DefaultDir + "/" + FileName == "satis/satis.json";
    PathJoin(if dir == "" then DefaultDir else dir, FileName)
  }

  /** InitSatis: creates the new configuration as satis.json in `dir`
      ("satis" when empty). It fails, writing nothing, exactly when the
      encoding fails; otherwise only that file changes, and it loads back as
      the new configuration whenever decoding inverts encoding. */
  function InitSatis(disk: Disk, codec: Codec, name: string, homepage: string, dir: string): (r: (Disk, Option<Error>))
    ensures r.1.Some? <==> codec.encode(NewSatisConfig(name, homepage)).Fail?
    ensures r.1.Some? ==> r.0 == disk && r.1 == Some(PlainError(codec.encode(NewSatisConfig(name, homepage)).message))
    ensures r.1.None? ==>
      && r.0 == disk[InitSatisPath(dir) := Ok(codec.encode(NewSatisConfig(name, homepage)).value)]
      && (codec.decode(codec.encode(NewSatisConfig(name, homepage)).value) == Ok(NewSatisConfig(name, homepage)) ==>
            Load(r.0, codec, InitSatisPath(dir)) == Done(NewSatisConfig(name, homepage)))
  {
    CreateSatisConfig(disk, codec, InitSatisPath(dir), name, homepage)
  }

  /** BuildSatis: the output directory is a fourth word only when given. */
  function BuildSatisArgv(configPath: string, outputDir: string): (a: seq<string>)
    ensures |a| == if outputDir == "" then 3 else 4
    ensures a[..3] == ["satis", "build", configPath]
    ensures outputDir != "" ==> a[3] == outputDir
  {
    if outputDir == "" then ["satis", "build", configPath] else ["satis", "build", configPath, outputDir]
  }

  /** BuildSatis returns Run's output and error as they are. */
  function BuildSatis(run: Runner, configPath: string, outputDir: string): (r: Reply<string>)
    ensures r.issued == [BuildSatisArgv(configPath, outputDir)]
    ensures r.value == run(r.issued[0]).output && r.err == run(r.issued[0]).err
  {
    Invoke(run, BuildSatisArgv(configPath, outputDir))
  }

  // ---------------------------------------------------------------------
  // The edits

  /** AddSatisRepository's change: one more repository, of the given type
      and URL, after the existing ones. */
  function AddRepository(cfg: SatisConfig, kind: string, url: string): (r: SatisConfig)
    ensures r.(repositories := cfg.repositories) == cfg
    ensures |r.repositories| == |cfg.repositories| + 1
    ensures r.repositories[..|cfg.repositories|] == cfg.repositories
    ensures var repo := r.repositories[|cfg.repositories|];
      repo.Keys == {"type", "url"} && repo["type"] == kind && repo["url"] == url
  {
    cfg.(repositories := cfg.repositories + [map["type" := kind, "url" := url]])
  }

  /** The stabilities UpdateSatisStability accepts. */
  const ValidStabilities: set<string> := {"dev", "alpha", "beta", "RC", "stable"}

  /** UpdateSatisStability's change. */
  function WithStability(cfg: SatisConfig, stability: string): (r: SatisConfig)
    ensures r.minimumStability == stability
    ensures r.(minimumStability := cfg.minimumStability) == cfg
  {
    cfg.(minimumStability := stability)
  }

  const ArchiveDirectory: string := "dist"
  const DefaultArchiveFormat: string := "zip"

  /** EnableSatisArchive's change: the archive section (made when nil) gets
      the "dist" directory, the format ("zip" when none is given) and
      skip-dev false; its other entries stay. */
  function WithArchive(cfg: SatisConfig, format: string): (r: SatisConfig)
    ensures r.(archive := cfg.archive) == cfg
    ensures r.archive.Some?
    ensures var a := r.archive.value;
      && a.Keys == cfg.archive.GetOr(map[]).Keys + {"directory", "format", "skip-dev"}
      && a["directory"] == Str(ArchiveDirectory)
      && a["format"] == Str(if format != "" then format else DefaultArchiveFormat)
      && a["skip-dev"] == Bool(false)
      && forall k :: k in a && k !in {"directory", "format", "skip-dev"} ==> a[k] == cfg.archive.value[k]
  {
    var withDir := GoMaps.Put(cfg.archive, "directory", Str(ArchiveDirectory));
    var withFormat := GoMaps.Put(withDir, "format", Str(if format != "" then format else DefaultArchiveFormat));
    cfg.(archive := GoMaps.Put(withFormat, "skip-dev", Bool(false)))
  }

  /** AddSatisRequire's change: the package maps to the version (require made
      when nil) and require-all is switched off, since naming a package
      means not everything is wanted. */
  function WithRequire(cfg: SatisConfig, name: string, version: string): (r: SatisConfig)
    ensures r.(require := cfg.require, requireAll := cfg.requireAll) == cfg
    ensures !r.requireAll
    ensures r.require == Some(cfg.require.GetOr(map[])[name := version])
  {
    cfg.(require := GoMaps.Put(cfg.require, name, version), requireAll := false)
  }

  /** The editing methods, by their parameters. */
  datatype Edit =
    | AddRepositoryEdit(kind: string, url: string)
    | StabilityEdit(stability: string)
    | ArchiveEdit(format: string)
    | RequireEdit(name: string, version: string)

  function Apply(cfg: SatisConfig, e: Edit): SatisConfig {
    match e
    case AddRepositoryEdit(kind, url) => AddRepository(cfg, kind, url)
    case StabilityEdit(stability) => WithStability(cfg, stability)
    case ArchiveEdit(format) => WithArchive(cfg, format)
    case RequireEdit(name, version) => WithRequire(cfg, name, version)
  }

  /** The decoded content of a file. */
  function Load(disk: Disk, codec: Codec, path: string): (r: Attempt<SatisConfig>)
    ensures path !in disk ==> r == Failed(PlainError(NoSuchFile(path)))
    ensures r.Done? ==> path in disk && disk[path].Ok? && codec.decode(disk[path].value) == Ok(r.value)
    ensures path in disk && disk[path].Fail? ==> r == Failed(PlainError(disk[path].message))
    ensures path in disk && disk[path].Ok? ==>
      var decoded := codec.decode(disk[path].value);
      && (decoded.Fail? ==> r == Failed(PlainError(decoded.message)))
      && (decoded.Ok? ==> r == Done(decoded.value))
  {
    var content := ReadFile(disk, path);
    if content.Fail? then Failed(PlainError(content.message))
    else
      var decoded := codec.decode(content.value);
      if decoded.Fail? then Failed(PlainError(decoded.message)) else Done(decoded.value)
  }

  /** AddSatisRepository, EnableSatisArchive and AddSatisRequire (and
      UpdateSatisStability once the stability is accepted): read, decode,
      change, encode, write back to the same path. Any error leaves the disk
      as it was. */
  function Update(disk: Disk, codec: Codec, path: string, e: Edit): (r: (Disk, Option<Error>))
    ensures Load(disk, codec, path).Failed? ==> r == (disk, Some(Load(disk, codec, path).error))
    ensures r.1.Some? ==> r.0 == disk
    ensures r.1.None? <==>
      Load(disk, codec, path).Done? && codec.encode(Apply(Load(disk, codec, path).value, e)).Ok?
    ensures r.1.None? ==>
      r.0 == disk[path := Ok(codec.encode(Apply(Load(disk, codec, path).value, e)).value)]
  {
    var loaded := Load(disk, codec, path);
    if loaded.Failed? then (disk, Some(loaded.error))
    else
      var content := codec.encode(Apply(loaded.value, e));
      if content.Fail? then (disk, Some(PlainError(content.message)))
      else (disk[path := Ok(content.value)], None)
  }

  function InvalidStability(stability: string): Error {
    PlainError("invalid stability: " + stability)
  }

  /** UpdateSatisStability: an unknown stability is refused before the file
      is read, so the refusal comes even when the file is missing. */
  function UpdateSatisStability(disk: Disk, codec: Codec, path: string, stability: string): (r: (Disk, Option<Error>))
    ensures stability !in ValidStabilities ==> r == (disk, Some(InvalidStability(stability)))
    ensures stability in ValidStabilities ==> r == Update(disk, codec, path, StabilityEdit(stability))
  {
    if stability !in ValidStabilities then (disk, Some(InvalidStability(stability)))
    else Update(disk, codec, path, StabilityEdit(stability))
  }

  /** After a successful update, loading the file again gives the changed
      configuration whenever decoding inverts encoding on it; other files
      are untouched. */
  lemma {:induction false} UpdateReadsBack(disk: Disk, codec: Codec, path: string, e: Edit, other: string)
    requires Update(disk, codec, path, e).1.None?
    ensures var changed := Apply(Load(disk, codec, path).value, e);
      codec.decode(codec.encode(changed).value) == Ok(changed) ==>
        Load(Update(disk, codec, path, e).0, codec, path) == Done(changed)
    ensures other != path ==> Load(Update(disk, codec, path, e).0, codec, other) == Load(disk, codec, other)
  {
    var disk' := Update(disk, codec, path, e).0;
    assert ReadFile(disk', path) == Ok(codec.encode(Apply(Load(disk, codec, path).value, e)).value);
    if other != path {
      assert ReadFile(disk', other) == ReadFile(disk, other);
    }
  }

  /** A created configuration loads back as the new configuration whenever
      decoding inverts encoding on it. */
  lemma CreateReadsBack(disk: Disk, codec: Codec, path: string, name: string, homepage: string)
    requires CreateSatisConfig(disk, codec, path, name, homepage).1.None?
    requires codec.decode(codec.encode(NewSatisConfig(name, homepage)).value) == Ok(NewSatisConfig(name, homepage))
    ensures Load(CreateSatisConfig(disk, codec, path, name, homepage).0, codec, path) == Done(NewSatisConfig(name, homepage))
  {
  }
}
