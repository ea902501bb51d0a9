/** License listing commands (pkg/composer/licenses.go). Each method
    returns Run's output and error unchanged (`Core.Invoke`). */
module Licenses {
  import opened Wrappers
  import Args

  /** Licenses. */
  const LicensesArgv: seq<string> := ["licenses"]

  /** CheckLicenses. */
  const CheckArgv: seq<string> := ["licenses", "--check"]

  /** LicensesWithFormat: "--format=<format>" as one word. */
  function LicensesWithFormatArgv(format: string): (a: seq<string>)
    ensures |a| == 2 && a[..1] == LicensesArgv
    ensures a[1] == "--format=" + format
    ensures Args.DecodeFlag(a[1]) == Some(("format", format))
  {
    Args.DecodeValueFlag("format", format);
    ["licenses", Args.ValueFlag("format", format)]
  }

  /** LicensesWithOptions: one flag per option after "licenses". */
  function LicensesWithOptionsArgv(opts: seq<(string, string)>): (a: seq<string>)
    ensures |a| == 1 + |opts| && a[..1] == LicensesArgv
    ensures Args.HoldsOptions(a, 1, opts)
    ensures |opts| == 0 ==> a == LicensesArgv
  {
    Args.OptionsAtEnd(["licenses"], opts);
    ["licenses"] + Args.OptionFlags(opts)
  }
}
