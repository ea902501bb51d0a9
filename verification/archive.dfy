/** Archive commands (pkg/composer/archive.go). Each method passes the
    command below to Run and returns Run's output and error unchanged
    (`Core.Invoke`). */
module Archive {
  import opened Wrappers
  import Args

  /** ArchiveWithFormat: the format flag, then the dir flag; both always
      present with a value, even an empty one. */
  function ArchiveWithFormatArgv(destination: string, format: string): (a: seq<string>)
    ensures |a| == 3 && a[0] == "archive"
    ensures a[1] == "--format=" + format && a[2] == "--dir=" + destination
    ensures Args.DecodeFlag(a[1]) == Some(("format", format))
    ensures Args.DecodeFlag(a[2]) == Some(("dir", destination))
  {
    Args.DecodeValueFlag("format", format);
    Args.DecodeValueFlag("dir", destination);
    ["archive", Args.ValueFlag("format", format), Args.ValueFlag("dir", destination)]
  }

  /** Archive is ArchiveWithFormat with the zip format. */
  function ArchiveArgv(destination: string): (a: seq<string>)
    ensures a == ArchiveWithFormatArgv(destination, "zip")
  {
    ["archive", Args.ValueFlag("format", "zip"), Args.ValueFlag("dir", destination)]
  }

  /** ArchiveWithOptions: the dir flag right after "archive", then one flag
      per option entry. */
  function ArchiveWithOptionsArgv(destination: string, opts: seq<(string, string)>): (a: seq<string>)
    ensures |a| == 2 + |opts| && a[0] == "archive"
    ensures a[1] == "--dir=" + destination
    ensures Args.DecodeFlag(a[1]) == Some(("dir", destination))
    ensures Args.HoldsOptions(a, 2, opts)
  {
    Args.DecodeValueFlag("dir", destination);
    Args.OptionsAtEnd(["archive", Args.ValueFlag("dir", destination)], opts);
    ["archive", Args.ValueFlag("dir", destination)] + Args.OptionFlags(opts)
  }

  /** ArchivePackage: the spec `name=version` (with "=", unlike require),
      then the dir flag. */
  function ArchivePackageArgv(name: string, version: string, destination: string): (a: seq<string>)
    ensures |a| == 3 && a[0] == "archive"
    ensures a[1] == Args.PackageSpec(name, version, '=')
    ensures '=' !in name ==> Args.SplitSpec(a[1], '=') == (name, version)
    ensures a[2] == "--dir=" + destination
    ensures Args.DecodeFlag(a[2]) == Some(("dir", destination))
  {
    Args.PackageSpecInverse(name, version, '=');
    Args.DecodeValueFlag("dir", destination);
    ["archive", Args.PackageSpec(name, version, '='), Args.ValueFlag("dir", destination)]
  }

  /** ArchivePackageWithOptions: ArchivePackage's words, then the option
      flags. */
  function ArchivePackageWithOptionsArgv(name: string, version: string, destination: string, opts: seq<(string, string)>)
    : (a: seq<string>)
    ensures |a| == 3 + |opts|
    ensures a[..3] == ArchivePackageArgv(name, version, destination)
    ensures Args.HoldsOptions(a, 3, opts)
  {
    var head := ["archive", Args.PackageSpec(name, version, '='), Args.ValueFlag("dir", destination)];
    Args.OptionsAtEnd(head, opts);
    head + Args.OptionFlags(opts)
  }
}
