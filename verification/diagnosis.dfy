/** Diagnostic commands (pkg/composer/diagnosis.go). Each method passes the
    command below to Run and returns Run's output and error unchanged
    (`Core.Invoke`). */
module Diagnosis {
  import opened Wrappers
  import Args

  /** The commands of this file that take no argument. */
  datatype Fixed = Status | Diagnose | Check

  function ParseFixed(a: seq<string>): Option<Fixed> {
    if a == ["status"] then Some(Status)
    else if a == ["diagnose"] then Some(Diagnose)
    else if a == ["check"] then Some(Check)
    else None
  }

  /** One word each, and distinct commands issue distinct words. */
  function FixedArgv(q: Fixed): (a: seq<string>)
    ensures |a| == 1
    ensures ParseFixed(a) == Some(q)
  {
    match q
    case Status => ["status"]
    case Diagnose => ["diagnose"]
    case Check => ["check"]
  }

  /** StatusWithOptions, DiagnoseWithOptions and CheckWithOptions: the
      command's word followed by one flag per option entry. */
  function WithOptionsArgv(q: Fixed, opts: seq<(string, string)>): (a: seq<string>)
    ensures |a| == 1 + |opts| && a[..1] == FixedArgv(q)
    ensures Args.HoldsOptions(a, 1, opts)
    ensures |opts| == 0 ==> a == FixedArgv(q)
  {
    Args.OptionsAtEnd(FixedArgv(q), opts);
    FixedArgv(q) + Args.OptionFlags(opts)
  }

  /** LocalExec: "exec", the command, then the arguments, with no "--"
      separator in between. */
  function LocalExecArgv(command: string, args: seq<string>): (a: seq<string>)
    ensures |a| == 2 + |args|
    ensures a[..2] == ["exec", command] && a[2..] == args
    ensures "--" !in args ==> "--" !in a[2..]
  {
    ["exec", command] + args
  }

  /** LocalExecWithOptions: "exec", the option flags, then the command and
      its arguments. */
  function LocalExecWithOptionsArgv(command: string, opts: seq<(string, string)>, args: seq<string>): (a: seq<string>)
    ensures |a| == 2 + |opts| + |args| && a[0] == "exec"
    ensures Args.HoldsOptions(a, 1, opts)
    ensures a[1 + |opts|] == command && a[2 + |opts|..] == args
    ensures |opts| == 0 ==> a == LocalExecArgv(command, args)
  {
    Args.OptionsBetween(["exec"], opts, [command] + args);
    ["exec"] + Args.OptionFlags(opts) + ([command] + args)
  }
}
