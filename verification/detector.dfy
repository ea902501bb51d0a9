/** Locating the composer executable (pkg/detector). The file system, the
    environment variable and the `which`/`where` lookup are observed through
    a `Host` value; nothing here touches a real system. */
module Detector {
  import opened Wrappers
  import opened Text

  /** The candidate paths a detector tries, in order. */
  datatype Detector = Detector(possiblePaths: seq<string>)

  /** What os.Stat reports that matters here: whether the path is a regular
      file, and its permission bits (Mode().Perm()). */
  datatype FileInfo = FileInfo(regular: bool, perm: bv32)

  /** The host as Detect sees it: the COMPOSER_PATH variable (empty when
      unset), os.Stat (None when it fails), the standard output of
      `which composer` (`where composer` on Windows) when that command
      succeeds, and whether runtime.GOOS is "windows". */
  datatype Host = Host(
    composerPath: string,
    stat: string -> Option<FileInfo>,
    lookup: Option<string>,
    windows: bool)

  /** Paths tried after the platform-specific ones. */
  const LocalPaths: seq<string> := ["./composer", "./composer.phar"]

  /** NewDetector: the platform paths (an opaque list per operating system)
      followed by the two paths relative to the current directory. */
  function NewDetector(platformPaths: seq<string>): (d: Detector)
    ensures |d.possiblePaths| == |platformPaths| + |LocalPaths|
    ensures d.possiblePaths[..|platformPaths|] == platformPaths
    ensures d.possiblePaths[|platformPaths|..] == LocalPaths
  {
    Detector(platformPaths + LocalPaths)
  }

  /** SetPossiblePaths replaces the list, whatever it held. */
  function SetPossiblePaths(d: Detector, paths: seq<string>): (d': Detector)
    ensures d'.possiblePaths == paths
  {
    Detector(paths)
  }

  /** AddPossiblePath appends one path and keeps the earlier ones in place. */
  function AddPossiblePath(d: Detector, path: string): (d': Detector)
    ensures |d'.possiblePaths| == |d.possiblePaths| + 1
    ensures d'.possiblePaths[..|d.possiblePaths|] == d.possiblePaths
    ensures d'.possiblePaths[|d.possiblePaths|] == path
  {
    Detector(d.possiblePaths + [path])
  }

  /** Octal 0111: the execute bits for owner, group and others. */
  const ExecuteBits: bv32 := 0x49

  /** isExecutable: a regular file that, except on Windows, has at least one
      execute bit set. A failing stat means "not executable". */
  predicate IsExecutable(h: Host, path: string) {
    match h.stat(path)
    case None => false
    case Some(info) => info.regular && (h.windows || info.perm & ExecuteBits != 0)
  }

  /** COMPOSER_PATH, when set. */
  function FromEnvironment(h: Host): seq<string> {
    if h.composerPath != "" then [h.composerPath] else []
  }

  /** The trimmed output of the lookup command, when it succeeded. */
  function FromLookup(h: Host): seq<string> {
    if h.lookup.Some? then [TrimSpace(h.lookup.value)] else []
  }

  /** The priority list Detect works through: COMPOSER_PATH when set, the
      detector's paths in order, then the lookup result. */
  function Candidates(d: Detector, h: Host): seq<string> {
    FromEnvironment(h) + d.possiblePaths + FromLookup(h)
  }

  /** `c` is the first executable entry of `cs`. */
  ghost predicate FirstExecutable(h: Host, cs: seq<string>, c: string) {
    exists i :: 0 <= i < |cs| && cs[i] == c && IsExecutable(h, c)
      && forall j :: 0 <= j < i ==> !IsExecutable(h, cs[j])
  }

  /** The first path of `paths` that is executable. */
  function FirstIn(h: Host, paths: seq<string>): (r: Option<string>)
    ensures r.Some? ==> FirstExecutable(h, paths, r.value)
    ensures r.None? ==> forall j :: 0 <= j < |paths| ==> !IsExecutable(h, paths[j])
    decreases |paths|
  {
    if |paths| == 0 then None
    else if IsExecutable(h, paths[0]) then Some(paths[0])
    else
      var r := FirstIn(h, paths[1..]);
      assert forall j :: 1 <= j < |paths| ==> paths[j] == paths[1..][j - 1];
      if r.Some? then
        var i :| 0 <= i < |paths| - 1 && paths[1..][i] == r.value && IsExecutable(h, r.value)
          && forall j :: 0 <= j < i ==> !IsExecutable(h, paths[1..][j]);
        assert paths[i + 1] == r.value;
        r
      else r
  }

  /** Searching a concatenation searches the left part first. */
  lemma {:induction false} FirstInAppend(h: Host, a: seq<string>, b: seq<string>)
    ensures FirstIn(h, a + b) == if FirstIn(h, a).Some? then FirstIn(h, a) else FirstIn(h, b)
    decreases |a|
  {
    if |a| > 0 {
      assert (a + b)[0] == a[0];
      assert (a + b)[1..] == a[1..] + b;
      FirstInAppend(h, a[1..], b);
    } else {
      assert a + b == b;
    }
  }

  /** Detect, in the source's three stages: COMPOSER_PATH, the possible
      paths, the lookup command; each stage is tried only when the earlier
      ones found nothing. None stands for ErrExecutableNotFound. The contract
      says the stages amount to one search of the priority list. */
  function Detect(d: Detector, h: Host): (r: Option<string>)
    ensures r.Some? ==> FirstExecutable(h, Candidates(d, h), r.value)
    ensures r.None? <==> forall j :: 0 <= j < |Candidates(d, h)| ==> !IsExecutable(h, Candidates(d, h)[j])
  {
    var fromEnv := FirstIn(h, FromEnvironment(h));
    var fromPaths := FirstIn(h, d.possiblePaths);
    var fromLookup := FirstIn(h, FromLookup(h));
    var r := if fromEnv.Some? then fromEnv else if fromPaths.Some? then fromPaths else fromLookup;
    assert r == FirstIn(h, Candidates(d, h)) by {
      FirstInAppend(h, FromEnvironment(h), d.possiblePaths);
      FirstInAppend(h, FromEnvironment(h) + d.possiblePaths, FromLookup(h));
    }
    r
  }

  /** IsInstalled: some candidate is executable. */
  function IsInstalled(d: Detector, h: Host): (b: bool)
    ensures b <==> exists j :: 0 <= j < |Candidates(d, h)| && IsExecutable(h, Candidates(d, h)[j])
  {
    Detect(d, h).Some?
  }
}
