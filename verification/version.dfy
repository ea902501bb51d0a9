/** Composer's own version and self-update (pkg/composer/version.go). */
module Versions {
  import opened Wrappers
  import opened Text
  import opened Errors
  import opened Core

  const VersionArgv: seq<string> := ["--version"]

  /** SelfUpdate. */
  const SelfUpdateArgv: seq<string> := ["self-update"]

  /** The text of the error GetVersion returns for output it cannot read. */
  function UnparsableVersion(output: string): Error {
    PlainError("无法解析版本信息: " + output)
  }

  /** GetVersion: Run's error, else the third space-separated word of the
      output, else (fewer than three words) an error quoting the output. */
  function GetVersion(run: Runner): (r: Reply<string>)
    ensures r.issued == [VersionArgv]
    ensures r.err.Some? ==> r.value == ""
    ensures run(VersionArgv).err.Some? ==> r.err == run(VersionArgv).err
    ensures run(VersionArgv).err.None? ==>
      var words := Split(run(VersionArgv).output, ' ');
      && (|words| >= 3 ==> r.err.None? && r.value == words[2] && ' ' !in r.value)
      && (|words| < 3 ==> r.err == Some(UnparsableVersion(run(VersionArgv).output)))
  {
    var o := run(VersionArgv);
    if o.err.Some? then Reply("", o.err, [VersionArgv])
    else
      var parts := Split(o.output, ' ');
      if |parts| >= 3 then Reply(parts[2], None, [VersionArgv])
      else Reply("", Some(UnparsableVersion(o.output)), [VersionArgv])
  }

  /** The third word is recovered whatever the first two are: on output
      "<w0> <w1> <v> <rest>" (as in "Composer version 2.7.1 2024-02-09")
      GetVersion answers `v`. */
  lemma VersionOfBanner(run: Runner, w0: string, w1: string, v: string, rest: string)
    requires ' ' !in w0 && ' ' !in w1 && ' ' !in v && run(VersionArgv).err.None?
    requires run(VersionArgv).output == w0 + " " + w1 + " " + v + " " + rest
    ensures GetVersion(run) == Reply(v, None, [VersionArgv])
  {
    var output := run(VersionArgv).output;
    assert output == w0 + [' '] + (w1 + [' '] + (v + [' '] + rest));
    SplitAfterPiece(w0, ' ', w1 + [' '] + (v + [' '] + rest));
    SplitAfterPiece(w1, ' ', v + [' '] + rest);
    SplitAfterPiece(v, ' ', rest);
  }
}
