/** Reading, editing and writing composer.json (pkg/composer/composer_json.go).
    Every editing method of the source reads the document, changes one part
    of it in memory and writes it back; here each change is a pure function
    on `ComposerJSON` and `Mutate` is the shared read-change-write step over
    a `World` (the package-level mock, the file system and the current
    directory). JSON encoding and decoding are parameters (`Codec`). */
module ComposerJson {
  import opened Wrappers
  import opened Errors
  import opened Json
  import opened Store
  import GoMaps
  import Core

  /** The document. Go slices are sequences (nil and empty agree once
      encoded with omitempty); Go maps, which may be nil, are `Option`s. */
  datatype ComposerJSON = ComposerJSON(
    name: string,
    description: string,
    kind: string,                                     // "type"
    keywords: seq<string>,
    homepage: string,
    license: Value,
    authors: seq<map<string, string>>,
    support: Option<map<string, string>>,
    require: Option<map<string, string>>,
    requireDev: Option<map<string, string>>,
    suggest: Option<map<string, string>>,
    autoload: Option<map<string, Value>>,
    autoloadDev: Option<map<string, Value>>,
    repositories: Option<map<string, Value>>,
    config: Option<map<string, Value>>,
    scripts: Option<map<string, Value>>,
    scriptsDescriptions: Option<map<string, string>>,
    extra: Option<map<string, Value>>,
    bin: seq<string>,
    archive: Option<map<string, Value>>,
    nonFeatureBranches: seq<string>,
    minimumStability: string,
    preferStable: bool,
    replace: Option<map<string, string>>,
    conflict: Option<map<string, string>>,
    provide: Option<map<string, string>>)

  // ---------------------------------------------------------------------
  // The edits

  /** The require or require-dev section. */
  function Requires(d: ComposerJSON, dev: bool): Option<map<string, string>> {
    if dev then d.requireDev else d.require
  }

  /** AddRequire: the package maps to the version in the chosen section (made
      when nil); its other entries, the other section and the rest of the
      document stay. */
  function AddRequire(d: ComposerJSON, name: string, version: string, dev: bool): (d': ComposerJSON)
    ensures d'.(require := d.require, requireDev := d.requireDev) == d
    ensures Requires(d', !dev) == Requires(d, !dev)
    ensures Requires(d', dev) == Some(Requires(d, dev).GetOr(map[])[name := version])
  {
    if dev then d.(requireDev := GoMaps.Put(d.requireDev, name, version))
    else d.(require := GoMaps.Put(d.require, name, version))
  }

  /** RemoveRequire: the package is gone from the chosen section, a nil
      section stays nil, and everything else stays. */
  function RemoveRequire(d: ComposerJSON, name: string, dev: bool): (d': ComposerJSON)
    ensures d'.(require := d.require, requireDev := d.requireDev) == d
    ensures Requires(d', !dev) == Requires(d, !dev)
    ensures Requires(d', dev).None? <==> Requires(d, dev).None?
    ensures Requires(d', dev).Some? ==> Requires(d', dev).value == Requires(d, dev).value - {name}
  {
    if dev then d.(requireDev := GoMaps.Delete(d.requireDev, name))
    else d.(require := GoMaps.Delete(d.require, name))
  }

  /** Removing a package that was just added leaves the section as it was
      before, except that a nil section has become an empty one. */
  lemma RemoveAfterAdd(d: ComposerJSON, name: string, version: string, dev: bool)
    ensures Requires(RemoveRequire(AddRequire(d, name, version, dev), name, dev), dev)
      == Some(Requires(d, dev).GetOr(map[]) - {name})
    ensures RemoveRequire(AddRequire(d, name, version, dev), name, dev).(require := d.require, requireDev := d.requireDev) == d
  {
    var m := Requires(d, dev).GetOr(map[]);
    assert m[name := version] - {name} == m - {name};
  }

  /** Removing a package the section does not hold changes nothing. */
  lemma RemoveAbsent(d: ComposerJSON, name: string, dev: bool)
    requires Requires(d, dev).None? || name !in Requires(d, dev).value
    ensures RemoveRequire(d, name, dev) == d
  {
    GoMaps.DeleteAbsent(Requires(d, dev), name);
  }

  /** AddScript: the script under its name (scripts made when nil); the
      description under the same name only when it is not empty. */
  function AddScript(d: ComposerJSON, name: string, script: Value, description: string): (d': ComposerJSON)
    ensures d'.(scripts := d.scripts, scriptsDescriptions := d.scriptsDescriptions) == d
    ensures d'.scripts == Some(d.scripts.GetOr(map[])[name := script])
    ensures description == "" ==> d'.scriptsDescriptions == d.scriptsDescriptions
    ensures description != "" ==>
      d'.scriptsDescriptions == Some(d.scriptsDescriptions.GetOr(map[])[name := description])
  {
    var withScript := d.(scripts := GoMaps.Put(d.scripts, name, script));
    if description != "" then
      withScript.(scriptsDescriptions := GoMaps.Put(d.scriptsDescriptions, name, description))
    else withScript
  }

  /** RemoveScript: the script and its description are both gone; nil
      sections stay nil. */
  function RemoveScript(d: ComposerJSON, name: string): (d': ComposerJSON)
    ensures d'.(scripts := d.scripts, scriptsDescriptions := d.scriptsDescriptions) == d
    ensures d'.scripts.None? <==> d.scripts.None?
    ensures d'.scriptsDescriptions.None? <==> d.scriptsDescriptions.None?
    ensures d'.scripts.Some? ==> d'.scripts.value == d.scripts.value - {name}
    ensures d'.scriptsDescriptions.Some? ==> d'.scriptsDescriptions.value == d.scriptsDescriptions.value - {name}
  {
    d.(scripts := GoMaps.Delete(d.scripts, name),
       scriptsDescriptions := GoMaps.Delete(d.scriptsDescriptions, name))
  }

  /** After adding a script and removing it, the name is in neither section
      and every other script and description is the one the document had. */
  lemma RemoveScriptAfterAdd(d: ComposerJSON, name: string, script: Value, description: string)
    ensures var d' := RemoveScript(AddScript(d, name, script, description), name);
      && d'.(scripts := d.scripts, scriptsDescriptions := d.scriptsDescriptions) == d
      && d'.scripts == Some(d.scripts.GetOr(map[]) - {name})
      && (d'.scriptsDescriptions.Some? ==> d'.scriptsDescriptions.value == d.scriptsDescriptions.GetOr(map[]) - {name})
  {
    var s := d.scripts.GetOr(map[]);
    assert s[name := script] - {name} == s - {name};
    var t := d.scriptsDescriptions.GetOr(map[]);
    assert t[name := description] - {name} == t - {name};
  }

  /** The autoload or autoload-dev section. */
  function Autoloads(d: ComposerJSON, dev: bool): Option<map<string, Value>> {
    if dev then d.autoloadDev else d.autoload
  }

  const InvalidAutoloadText: string := "invalid autoload configuration"

  /** The entry for an autoload type can take a namespace: it is missing or
      null (a fresh map is put there), or it is a JSON object. */
  predicate TakesNamespaces(section: Option<map<string, Value>>, kind: string) {
    var entry := GoMaps.Get(section, kind, Null);
    entry.Null? || entry.Object?
  }

  /** AddAutoload: within the chosen section, the namespace maps to the paths
      in the entry for the autoload type, next to the namespaces that entry
      already had. An entry of any other shape is an error and the document
      is not changed. */
  function AddAutoload(d: ComposerJSON, kind: string, namespace: string, paths: Value, dev: bool): (r: Attempt<ComposerJSON>)
    ensures r.Failed? <==> !TakesNamespaces(Autoloads(d, dev), kind)
    ensures r.Failed? ==> r.error == PlainError(InvalidAutoloadText)
    ensures r.Done? ==>
      && r.value.(autoload := d.autoload, autoloadDev := d.autoloadDev) == d
      && Autoloads(r.value, !dev) == Autoloads(d, !dev)
      && Autoloads(r.value, dev).Some?
      && var before := Autoloads(d, dev).GetOr(map[]);
         var after := Autoloads(r.value, dev).value;
         && after.Keys == before.Keys + {kind}
         && (forall k :: k in after && k != kind ==> after[k] == before[k])
         && after[kind].Object?
         && after[kind].fields == (if kind in before && before[kind].Object? then before[kind].fields else map[])[namespace := paths]
  {
    var section := Autoloads(d, dev);
    var entry := GoMaps.Get(section, kind, Null);
    if entry.Null? || entry.Object? then
      var namespaces := if entry.Null? then map[] else entry.fields;
      var section' := GoMaps.Put(section, kind, Object(namespaces[namespace := paths]));
      Done(if dev then d.(autoloadDev := section') else d.(autoload := section'))
    else Failed(PlainError(InvalidAutoloadText))
  }

  /** SetConfig: the key maps to the value in the config section (made when
      nil). */
  function SetConfig(d: ComposerJSON, key: string, value: Value): (d': ComposerJSON)
    ensures d'.(config := d.config) == d
    ensures d'.config.Some? && key in d'.config.value
    ensures d'.config.value.Keys == d.config.GetOr(map[]).Keys + {key}
  {
    d.(config := GoMaps.Put(d.config, key, value))
  }

  /** GetConfig on a read document: nil (Null) when the section is nil or
      lacks the key. */
  function ConfigValue(d: ComposerJSON, key: string): (v: Value)
    ensures d.config.None? ==> v == Null
    ensures d.config.Some? && key !in d.config.value ==> v == Null
  {
    GoMaps.Get(d.config, key, Null)
  }

  /** A key reads back the value last set for it; other keys read as
      before. */
  lemma ConfigAfterSet(d: ComposerJSON, key: string, value: Value, other: string)
    ensures ConfigValue(SetConfig(d, key, value), key) == value
    ensures other != key ==> ConfigValue(SetConfig(d, key, value), other) == ConfigValue(d, other)
  {
  }

  /** The top-level properties SetProperty supports. */
  const SupportedProperties: seq<string> :=
    ["name", "description", "type", "keywords", "homepage", "license", "minimum-stability", "prefer-stable"]

  const UnsupportedPropertyText: string := "unsupported property"

  /** The value a supported property holds, as SetProperty would be given
      it; Null for any other name. */
  function Property(d: ComposerJSON, property: string): Value {
    match property
    case "name" => Str(d.name)
    case "description" => Str(d.description)
    case "type" => Str(d.kind)
    case "keywords" => Strs(d.keywords)
    case "homepage" => Str(d.homepage)
    case "license" => d.license
    case "minimum-stability" => Str(d.minimumStability)
    case "prefer-stable" => Bool(d.preferStable)
    case _ => Null
  }

  /** Whether a value has the Go type the property's case asserts: a string
      for the string properties, a []string for keywords, a bool for
      prefer-stable; license takes anything. */
  predicate Accepts(property: string, value: Value) {
    match property
    case "license" => true
    case "keywords" => value.Strs?
    case "prefer-stable" => value.Bool?
    case _ => value.Str?
  }

  /** The fields SetProperty can change, each replaced by `from`'s. */
  function WithPropertiesOf(d: ComposerJSON, from: ComposerJSON): ComposerJSON {
    d.(name := from.name, description := from.description, kind := from.kind,
       keywords := from.keywords, homepage := from.homepage, license := from.license,
       minimumStability := from.minimumStability, preferStable := from.preferStable)
  }

  /** SetProperty: an unsupported name is an error; a value of the wrong type
      is silently ignored (the document is still written back, unchanged);
      otherwise the property reads back as the value and no other property
      or field changes. */
  function SetProperty(d: ComposerJSON, property: string, value: Value): (r: Attempt<ComposerJSON>)
    ensures r.Failed? <==> property !in SupportedProperties
    ensures r.Failed? ==> r.error == PlainError(UnsupportedPropertyText)
    ensures r.Done? && !Accepts(property, value) ==> r.value == d
    ensures r.Done? && Accepts(property, value) ==> Property(r.value, property) == value
    ensures r.Done? ==> WithPropertiesOf(r.value, d) == d
    ensures r.Done? ==> forall p :: p != property ==> Property(r.value, p) == Property(d, p)
  {
    match property
    case "name" => Done(if value.Str? then d.(name := value.s) else d)
    case "description" => Done(if value.Str? then d.(description := value.s) else d)
    case "type" => Done(if value.Str? then d.(kind := value.s) else d)
    case "keywords" => Done(if value.Strs? then d.(keywords := value.items) else d)
    case "homepage" => Done(if value.Str? then d.(homepage := value.s) else d)
    case "license" => Done(d.(license := value))
    case "minimum-stability" => Done(if value.Str? then d.(minimumStability := value.s) else d)
    case "prefer-stable" => Done(if value.Bool? then d.(preferStable := value.b) else d)
    case _ => Failed(PlainError(UnsupportedPropertyText))
  }

  /** The editing methods, by their parameters. */
  datatype Edit =
    | AddRequireEdit(name: string, version: string, dev: bool)
    | RemoveRequireEdit(name: string, dev: bool)
    | AddScriptEdit(name: string, script: Value, description: string)
    | RemoveScriptEdit(name: string)
    | AddAutoloadEdit(kind: string, namespace: string, paths: Value, dev: bool)
    | SetConfigEdit(key: string, value: Value)
    | SetPropertyEdit(property: string, value: Value)

  /** The change an edit makes to a read document; only AddAutoload and
      SetProperty can refuse. */
  function Apply(d: ComposerJSON, e: Edit): (r: Attempt<ComposerJSON>)
    ensures r.Failed? ==> e.AddAutoloadEdit? || e.SetPropertyEdit?
  {
    match e
    case AddRequireEdit(name, version, dev) => Done(AddRequire(d, name, version, dev))
    case RemoveRequireEdit(name, dev) => Done(RemoveRequire(d, name, dev))
    case AddScriptEdit(name, script, description) => Done(AddScript(d, name, script, description))
    case RemoveScriptEdit(name) => Done(RemoveScript(d, name))
    case AddAutoloadEdit(kind, namespace, paths, dev) => AddAutoload(d, kind, namespace, paths, dev)
    case SetConfigEdit(key, value) => Done(SetConfig(d, key, value))
    case SetPropertyEdit(property, value) => SetProperty(d, property, value)
  }

  // ---------------------------------------------------------------------
  // Reading and writing

  /** What the helpers observe: the mock set by SetMockComposerJSON (None
      when cleared or set to nil), the files, and what os.Getwd returns. */
  datatype World = World(mock: Option<ComposerJSON>, disk: Disk, cwd: Result<string>)

  /** json.Unmarshal and json.MarshalIndent for the document. */
  datatype Codec = Codec(decode: string -> Result<ComposerJSON>, encode: ComposerJSON -> Result<string>)

  const FileName: string := "composer.json"

  /** The file both helpers use: composer.json in the working directory, or
      in the current directory when none is set. */
  function Location(c: Core.Composer, w: World): (r: Result<string>)
    ensures c.workingDir != "" ==> r == Ok(PathJoin(c.workingDir, FileName))
    ensures c.workingDir == "" && w.cwd.Fail? ==> r == w.cwd
  {
    if c.workingDir != "" then Ok(PathJoin(c.workingDir, FileName))
    else if w.cwd.Fail? then w.cwd
    else Ok(PathJoin(w.cwd.value, FileName))
  }

  /** ReadComposerJSON: the mock, when one is set, without looking at the
      files; otherwise ErrComposerJSONNotFound for a missing file, and the
      read or decoding error when those fail. */
  function ReadComposerJSON(c: Core.Composer, w: World, codec: Codec): (r: Attempt<ComposerJSON>)
    ensures w.mock.Some? ==> r == Done(w.mock.value)
    ensures r.Failed? && r.error.kind == ComposerJsonNotFound
      <==> w.mock.None? && Location(c, w).Ok? && Location(c, w).value !in w.disk
    ensures r.Failed? && r.error.kind == ComposerJsonNotFound ==> r.error.message == ComposerJsonNotFoundText
    ensures r.Done? && w.mock.None? ==>
      Location(c, w).Ok? && Location(c, w).value in w.disk
      && w.disk[Location(c, w).value].Ok?
      && codec.decode(w.disk[Location(c, w).value].value) == Ok(r.value)
    ensures w.mock.None? && Location(c, w).Fail? ==> r == Failed(PlainError(Location(c, w).message))
    ensures w.mock.None? && Location(c, w).Ok? && Location(c, w).value in w.disk ==>
      var content := w.disk[Location(c, w).value];
      && (content.Fail? ==> r == Failed(PlainError(content.message)))
      && (content.Ok? && codec.decode(content.value).Fail? ==> r == Failed(PlainError(codec.decode(content.value).message)))
      && (content.Ok? && codec.decode(content.value).Ok? ==> r == Done(codec.decode(content.value).value))
  {
    if w.mock.Some? then Done(w.mock.value)
    else
      var path := Location(c, w);
      if path.Fail? then Failed(PlainError(path.message))
      else if path.value !in w.disk then Failed(Error(ComposerJsonNotFound, ComposerJsonNotFoundText))
      else
        var content := ReadFile(w.disk, path.value);
        if content.Fail? then Failed(PlainError(content.message))
        else
          var decoded := codec.decode(content.value);
          if decoded.Fail? then Failed(PlainError(decoded.message)) else Done(decoded.value)
  }

  /** WriteComposerJSON: the encoded document replaces the file's content;
      the mock is not consulted. Nothing changes when the directory or the
      encoding fails. */
  function WriteComposerJSON(c: Core.Composer, w: World, codec: Codec, d: ComposerJSON): (r: (World, Option<Error>))
    ensures r.1.Some? ==> r.0 == w
    ensures r.1.Some? <==> Location(c, w).Fail? || codec.encode(d).Fail?
    ensures r.1.None? ==>
      r.0 == w.(disk := w.disk[Location(c, w).value := Ok(codec.encode(d).value)])
  {
    var path := Location(c, w);
    if path.Fail? then (w, Some(PlainError(path.message)))
    else
      var content := codec.encode(d);
      if content.Fail? then (w, Some(PlainError(content.message)))
      else (w.(disk := w.disk[path.value := Ok(content.value)]), None)
  }

  /** The document an edit produces from the current one, if any. */
  function Edited(c: Core.Composer, w: World, codec: Codec, e: Edit): Attempt<ComposerJSON> {
    var read := ReadComposerJSON(c, w, codec);
    if read.Failed? then read else Apply(read.value, e)
  }

  /** An editing method: read, change, write. A failed read or a refused edit
      changes nothing. Under a mock the edit lands in the mock itself (the
      source changes the mock through its pointer), whether or not the
      write then succeeds. */
  function Mutate(c: Core.Composer, w: World, codec: Codec, e: Edit): (r: (World, Option<Error>))
    ensures Edited(c, w, codec, e).Failed? ==> r == (w, Some(Edited(c, w, codec, e).error))
    ensures ReadComposerJSON(c, w, codec).Failed? ==> r.1 == Some(ReadComposerJSON(c, w, codec).error)
    ensures Edited(c, w, codec, e).Done? ==>
      && r.0.mock == (if w.mock.Some? then Some(Edited(c, w, codec, e).value) else None)
      && r.0.cwd == w.cwd
      && (r.1.None? <==> Location(c, w).Ok? && codec.encode(Edited(c, w, codec, e).value).Ok?)
      && (r.1.None? ==> r.0.disk == w.disk[Location(c, w).value := Ok(codec.encode(Edited(c, w, codec, e).value).value)])
      && (r.1.Some? ==> r.0.disk == w.disk)
  {
    var edited := Edited(c, w, codec, e);
    if edited.Failed? then (w, Some(edited.error))
    else
      var w' := if w.mock.Some? then w.(mock := Some(edited.value)) else w;
      WriteComposerJSON(c, w', codec, edited.value)
  }

  /** GetConfig: the read's error, or the config value (Null when absent). */
  function GetConfig(c: Core.Composer, w: World, codec: Codec, key: string): (r: Attempt<Value>)
    ensures ReadComposerJSON(c, w, codec).Failed? ==> r == Failed(ReadComposerJSON(c, w, codec).error)
    ensures ReadComposerJSON(c, w, codec).Done? ==> r == Done(ConfigValue(ReadComposerJSON(c, w, codec).value, key))
  {
    var read := ReadComposerJSON(c, w, codec);
    if read.Failed? then Failed(read.error) else Done(ConfigValue(read.value, key))
  }

  /** Under a mock, a successful edit is what the next read returns, even
      when writing the file failed. */
  lemma MockEditVisible(c: Core.Composer, w: World, codec: Codec, e: Edit)
    requires w.mock.Some? && Edited(c, w, codec, e).Done?
    ensures ReadComposerJSON(c, Mutate(c, w, codec, e).0, codec) == Edited(c, w, codec, e)
  {
  }

  /** Without a mock, after a successful edit the next read decodes what was
      written: the edited document whenever decoding inverts encoding on
      it. */
  lemma FileEditVisible(c: Core.Composer, w: World, codec: Codec, e: Edit)
    requires w.mock.None? && Mutate(c, w, codec, e).1.None?
    ensures Edited(c, w, codec, e).Done?
    ensures var written := codec.encode(Edited(c, w, codec, e).value);
      written.Ok? &&
      (codec.decode(written.value) == Ok(Edited(c, w, codec, e).value) ==>
        ReadComposerJSON(c, Mutate(c, w, codec, e).0, codec) == Edited(c, w, codec, e))
  {
    var w' := Mutate(c, w, codec, e).0;
    assert Location(c, w') == Location(c, w);
  }

  /** SetConfig followed by GetConfig of the same key gives the value back
      under a mock. */
  lemma GetConfigAfterSetConfig(c: Core.Composer, w: World, codec: Codec, key: string, value: Value)
    requires w.mock.Some?
    ensures GetConfig(c, Mutate(c, w, codec, SetConfigEdit(key, value)).0, codec, key) == Done(value)
  {
    MockEditVisible(c, w, codec, SetConfigEdit(key, value));
  }
}
