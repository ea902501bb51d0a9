/** Platform requirement and PHP environment queries
    (pkg/composer/platform.go). The JSON report is decoded by encoding/json,
    which the model receives as a parameter; Go's map iteration order, which
    is unspecified, is an arbitrary choice. */
module Platform {
  import opened Wrappers
  import opened Text
  import opened Errors
  import opened Core
  import Seqs
  import Args
  import Lines

  datatype PlatformInfo = PlatformInfo(name: string, version: string, available: bool, required: string)

  datatype PlatformRequirements = PlatformRequirements(
    platform: map<string, PlatformInfo>,
    lock: map<string, PlatformInfo>)

  /** json.Unmarshal into PlatformRequirements. */
  type Decoder = string -> Result<PlatformRequirements>

  /** CheckPlatform (lock false) and CheckPlatformWithLock (lock true). */
  function CheckArgv(lock: bool): (a: seq<string>)
    ensures |a| == (if lock then 3 else 2) && a[0] == "check-platform"
    ensures a[|a| - 1] == Args.ValueFlag("format", "json")
    ensures lock <==> "--lock" in a
  {
    assert Args.ValueFlag("format", "json")[0] == '-';
    ["check-platform"] + (if lock then ["--lock"] else []) + [Args.ValueFlag("format", "json")]
  }

  /** `r` lists the values of `m` along the keys `ks`: each key of `m`
      exactly once, and at each position the value of that position's key. */
  ghost predicate AlongKeys(r: seq<PlatformInfo>, m: map<string, PlatformInfo>, ks: seq<string>) {
    && |ks| == |r|
    && (forall i, j :: 0 <= i < j < |ks| ==> ks[i] != ks[j])
    && (forall i :: 0 <= i < |ks| ==> ks[i] in m && r[i] == m[ks[i]])
    && (forall k :: k in m ==> k in ks)
  }

  /** `r` is the image of some visiting order of the keys of `m`. */
  ghost predicate OnePerKey(r: seq<PlatformInfo>, m: map<string, PlatformInfo>) {
    exists ks :: AlongKeys(r, m, ks)
  }

  /** The values of `m`, one per key, in whatever order the keys are
      visited (`for _, info := range m`), with that order of keys. */
  method RangeValues(m: map<string, PlatformInfo>) returns (r: seq<PlatformInfo>, ks: seq<string>)
    ensures |r| == |m|
    ensures AlongKeys(r, m, ks)
    ensures forall k :: k in m ==> m[k] in r
    ensures forall x :: x in r ==> exists k :: k in m && m[k] == x
  {
    r := [];
    ks := [];
    var left := m.Keys;
    while left != {}
      invariant left <= m.Keys
      invariant |r| + |left| == |m|
      invariant |ks| == |r|
      invariant forall i, j :: 0 <= i < j < |ks| ==> ks[i] != ks[j]
      invariant forall i :: 0 <= i < |ks| ==> ks[i] in m && ks[i] !in left && r[i] == m[ks[i]]
      invariant forall k :: k in m && k !in left ==> k in ks
      decreases |left|
    {
      var k :| k in left;
      r := r + [m[k]];
      ks := ks + [k];
      left := left - {k};
    }
    assert AlongKeys(r, m, ks);
    forall k | k in m
      ensures m[k] in r
    {
      var i :| 0 <= i < |ks| && ks[i] == k;
      assert r[i] == m[k];
    }
  }

  /** CheckPlatform and CheckPlatformWithLock: Run's error, else the
      decoding error, else the entries of the "platform" map (the "lock"
      map for the lock variant), one per key. */
  method CheckPlatform(run: Runner, decode: Decoder, lock: bool) returns (r: Reply<seq<PlatformInfo>>)
    ensures r.issued == [CheckArgv(lock)]
    ensures r.err.Some? ==> r.value == []
    ensures run(CheckArgv(lock)).err.Some? ==> r.err == run(CheckArgv(lock)).err
    ensures run(CheckArgv(lock)).err.None? && decode(run(CheckArgv(lock)).output).Fail? ==>
      r.err == Some(PlainError(decode(run(CheckArgv(lock)).output).message))
    ensures run(CheckArgv(lock)).err.None? && decode(run(CheckArgv(lock)).output).Ok? ==>
      var reqs := decode(run(CheckArgv(lock)).output).value;
      var m := if lock then reqs.lock else reqs.platform;
      && r.err.None?
      && |r.value| == |m|
      && OnePerKey(r.value, m)
      && (forall k :: k in m ==> m[k] in r.value)
      && (forall x :: x in r.value ==> exists k :: k in m && m[k] == x)
  {
    var argv := CheckArgv(lock);
    var o := run(argv);
    if o.err.Some? {
      return Reply([], o.err, [argv]);
    }
    match decode(o.output)
    case Fail(message) =>
      return Reply([], Some(PlainError(message)), [argv]);
    case Ok(reqs) =>
      var values, _ := RangeValues(if lock then reqs.lock else reqs.platform);
      return Reply(values, None, [argv]);
  }

  /** The argument of the fallback check: `platform` or `platform:version`. */
  function FallbackArgv(platform: string, version: string): (a: seq<string>)
    ensures |a| == 2 && a[0] == "check-platform" && a[1] == Args.PackageSpec(platform, version, ':')
    ensures ':' !in platform ==> Args.SplitSpec(a[1], ':') == (platform, version)
  {
    Args.PackageSpecInverse(platform, version, ':');
    ["check-platform", Args.PackageSpec(platform, version, ':')]
  }

  /** Some entry of `m` carries the name `platform`. */
  ghost predicate Named(m: map<string, PlatformInfo>, platform: string) {
    exists k :: k in m && m[k].name == platform
  }

  /** The first entry named `platform`, as the source's loop finds it. */
  method FindNamed(infos: seq<PlatformInfo>, platform: string) returns (found: Option<PlatformInfo>)
    ensures found.Some? ==> found.value in infos && found.value.name == platform
    ensures found.Some? ==> exists i :: 0 <= i < |infos| && infos[i] == found.value
                                        && forall j :: 0 <= j < i ==> infos[j].name != platform
    ensures found.None? ==> forall x :: x in infos ==> x.name != platform
  {
    var i := 0;
    while i < |infos|
      invariant 0 <= i <= |infos|
      invariant forall j :: 0 <= j < i ==> infos[j].name != platform
    {
      if infos[i].name == platform {
        return Some(infos[i]);
      }
      i := i + 1;
    }
    return None;
  }

  /** The platform map of a successful, decodable check. */
  function Reported(run: Runner, decode: Decoder): Option<map<string, PlatformInfo>> {
    var o := run(CheckArgv(false));
    if o.err.None? && decode(o.output).Ok? then Some(decode(o.output).value.platform) else None
  }

  /** IsPlatformAvailable: when the platform map has an entry named
      `platform`, that entry's availability (the first one visited when
      several carry the name); otherwise a second check of
      `platform[:version]`, which is available unless its output says
      "is not available". Errors answer false, and a failing first check
      issues nothing more. */
  method IsPlatformAvailable(run: Runner, decode: Decoder, platform: string, version: string) returns (r: Reply<bool>)
    ensures |r.issued| >= 1 && r.issued[0] == CheckArgv(false)
    ensures r.err.Some? ==> !r.value
    ensures Reported(run, decode).None? ==> r.issued == [CheckArgv(false)] && r.err.Some?
    ensures Reported(run, decode).Some? && Named(Reported(run, decode).value, platform) ==>
      && r.issued == [CheckArgv(false)] && r.err.None?
      && exists k :: k in Reported(run, decode).value && Reported(run, decode).value[k].name == platform
                     && r.value == Reported(run, decode).value[k].available
    ensures Reported(run, decode).Some? && !Named(Reported(run, decode).value, platform) ==>
      && r.issued == [CheckArgv(false), FallbackArgv(platform, version)]
      && r.err == run(FallbackArgv(platform, version)).err
    ensures Reported(run, decode).Some? && !Named(Reported(run, decode).value, platform)
            && run(FallbackArgv(platform, version)).err.None? ==>
      (r.value <==> !Contains(run(FallbackArgv(platform, version)).output, "is not available"))
  {
    var reqs := CheckPlatform(run, decode, false);
    if reqs.err.Some? {
      return Reply(false, reqs.err, reqs.issued);
    }
    ghost var m := Reported(run, decode).value;
    var found := FindNamed(reqs.value, platform);
    if found.Some? {
      ghost var k :| k in m && m[k] == found.value;
      return Reply(found.value.available, None, reqs.issued);
    }
    forall k | k in m
      ensures m[k].name != platform
    {
      assert m[k] in reqs.value;
    }
    var argv := FallbackArgv(platform, version);
    var o := run(argv);
    if o.err.Some? {
      return Reply(false, o.err, reqs.issued + [argv]);
    }
    return Reply(!Contains(o.output, "is not available"), None, reqs.issued + [argv]);
  }

  /** GetPHPVersion. */
  const PHPVersionArgv: seq<string> := ["run", "--php-show-version"]

  /** Line `i` is the first of `lines` that starts with `prefix`. */
  predicate FirstWithPrefix(lines: seq<string>, i: int, prefix: string) {
    && 0 <= i < |lines|
    && HasPrefix(lines[i], prefix)
    && forall j :: 0 <= j < i ==> !HasPrefix(lines[j], prefix)
  }

  /** A line that starts with "PHP " splits into at least two words. */
  lemma PHPLineHasVersion(line: string)
    requires HasPrefix(line, "PHP ")
    ensures |Split(line, ' ')| > 1
  {
    assert line == "PHP" + [' '] + line[4..];
    SplitAfterPiece("PHP", ' ', line[4..]);
  }

  /** The second space-separated word of the first line that starts with
      "PHP "; "" when no line does. Such a line always has a second word,
      so the source's `len(parts) > 1` test never sends the loop on. */
  function VersionFromLines(lines: seq<string>): (v: string)
    ensures ' ' !in v
    ensures forall i :: FirstWithPrefix(lines, i, "PHP ") ==>
      |Split(lines[i], ' ')| > 1 && v == Split(lines[i], ' ')[1]
    ensures (forall i :: 0 <= i < |lines| ==> !HasPrefix(lines[i], "PHP ")) ==> v == ""
    decreases |lines|
  {
    if |lines| == 0 then ""
    else if HasPrefix(lines[0], "PHP ") then
      PHPLineHasVersion(lines[0]);
      assert forall i :: FirstWithPrefix(lines, i, "PHP ") ==> i == 0;
      Split(lines[0], ' ')[1]
    else
      assert forall i :: 1 <= i < |lines| ==> lines[1..][i - 1] == lines[i];
      assert forall i :: FirstWithPrefix(lines, i, "PHP ") ==> FirstWithPrefix(lines[1..], i - 1, "PHP ");
      VersionFromLines(lines[1..])
  }

  /** GetPHPVersion: "" with Run's error; otherwise the second word of the
      first output line that starts with "PHP ", or "" when there is none. */
  function GetPHPVersion(run: Runner): (r: Reply<string>)
    ensures r.issued == [PHPVersionArgv] && r.err == run(PHPVersionArgv).err
    ensures r.err.Some? ==> r.value == ""
    ensures r.err.None? ==>
      var lines := Split(run(PHPVersionArgv).output, '\n');
      && (forall i :: FirstWithPrefix(lines, i, "PHP ") ==>
            |Split(lines[i], ' ')| > 1 && r.value == Split(lines[i], ' ')[1])
      && ((forall i :: 0 <= i < |lines| ==> !HasPrefix(lines[i], "PHP ")) ==> r.value == "")
  {
    var o := run(PHPVersionArgv);
    if o.err.Some? then Reply("", o.err, [PHPVersionArgv])
    else Reply(VersionFromLines(Split(o.output, '\n')), None, [PHPVersionArgv])
  }

  /** A banner "PHP <version> <rest>" on the first line yields the version. */
  lemma PHPVersionOfBanner(version: string, rest: string, more: string)
    requires ' ' !in version && '\n' !in version && '\n' !in rest
    ensures VersionFromLines(Split("PHP " + version + " " + rest + "\n" + more, '\n')) == version
  {
    var line := "PHP " + version + " " + rest;
    assert '\n' !in "PHP " && '\n' !in " ";
    assert "PHP " + version + " " + rest + "\n" + more == line + ['\n'] + more;
    SplitAfterPiece(line, '\n', more);
    assert line[..4] == "PHP ";
    assert line == "PHP" + [' '] + (version + [' '] + rest);
    SplitAfterPiece("PHP", ' ', version + [' '] + rest);
    SplitAfterPiece(version, ' ', rest);
  }

  /** GetExtensions. */
  const ExtensionsArgv: seq<string> := ["run", "--show-extensions"]
  const ExtensionsHeader: string := "Loaded extensions:"

  /** GetExtensions: the listed lines under the extensions header, or Run's
      error with no extensions. */
  function GetExtensions(run: Runner): (r: Reply<seq<string>>)
    ensures r.issued == [ExtensionsArgv] && r.err == run(ExtensionsArgv).err
    ensures r.err.Some? ==> r.value == []
    ensures r.err.None? ==> r.value == Lines.Listed(run(ExtensionsArgv).output, ExtensionsHeader)
  {
    var o := run(ExtensionsArgv);
    if o.err.Some? then Reply([], o.err, [ExtensionsArgv])
    else Reply(Lines.Listed(o.output, ExtensionsHeader), None, [ExtensionsArgv])
  }

  /** HasExtension: true exactly when some output line, trimmed, is the
      extension, provided the extension is a name GetExtensions can list
      (not empty, not starting with the header). */
  function HasExtension(run: Runner, extension: string): (r: Reply<bool>)
    ensures r.issued == [ExtensionsArgv] && r.err == run(ExtensionsArgv).err
    ensures r.err.Some? ==> !r.value
    ensures r.err.None? ==>
      (r.value <==> Lines.Listable(extension, ExtensionsHeader)
                    && extension in Seqs.Map(TrimSpace, Split(run(ExtensionsArgv).output, '\n')))
  {
    var listed := GetExtensions(run);
    if listed.err.Some? then Reply(false, listed.err, listed.issued)
    else
      Lines.ListedOfSpec(Seqs.Map(TrimSpace, Split(run(ExtensionsArgv).output, '\n')), ExtensionsHeader);
      Reply(extension in listed.value, None, listed.issued)
  }
}
