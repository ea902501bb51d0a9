/** Validation and outdated-package commands (pkg/composer/validate.go).
    Each method passes the command below to Run and returns Run's output and
    error unchanged (`Core.Invoke`). */
module Validation {
  import opened Wrappers
  import Args
  import Config

  /** CheckForOutdatedPackages: "--direct" iff direct, then "--minor-only"
      iff minor, then "--format" and the format as two separate words iff a
      format is given. */
  function CheckForOutdatedPackagesArgv(direct: bool, minor: bool, format: string): (a: seq<string>)
    ensures |a| >= 1 && a[0] == "outdated"
    ensures format == "" ==> Args.SwitchedOn(a[1..], ["--direct", "--minor-only"], [direct, minor])
    ensures format != "" ==>
      |a| >= 3 && a[|a| - 2..] == ["--format", format]
      && Args.SwitchedOn(a[1..|a| - 2], ["--direct", "--minor-only"], [direct, minor])
  {
    var flags := Args.Switches(["--direct", "--minor-only"], [direct, minor]);
    Args.SwitchesSwitchedOn(["--direct", "--minor-only"], [direct, minor]);
    var tail := if format != "" then ["--format", format] else [];
    var a := ["outdated"] + flags + tail;
    assert a[1..|a| - |tail|] == flags;
    assert format == "" ==> a[1..] == flags;
    a
  }

  /** ValidateWithOptions: "validate" followed by one flag per option. */
  function ValidateWithOptionsArgv(opts: seq<(string, string)>): (a: seq<string>)
    ensures |a| == 1 + |opts| && a[0] == "validate"
    ensures Args.HoldsOptions(a, 1, opts)
    ensures |opts| == 0 ==> a == Config.FixedArgv(Config.Validate)
  {
    Args.OptionsAtEnd(["validate"], opts);
    ["validate"] + Args.OptionFlags(opts)
  }

  /** The commands of this file that take no argument. */
  datatype Fixed =
    | ValidateStrict
    | ValidateWithNoCheck
    | ValidateWithNoCheckPublish
    | ValidateWithCheckVersion
    | CheckPlatformReqsLock
    | ValidateSchema

  function ParseFixed(a: seq<string>): Option<Fixed> {
    if a == ["validate", "--strict"] then Some(ValidateStrict)
    else if a == ["validate", "--no-check-all"] then Some(ValidateWithNoCheck)
    else if a == ["validate", "--no-check-publish"] then Some(ValidateWithNoCheckPublish)
    else if a == ["validate", "--with-dependencies"] then Some(ValidateWithCheckVersion)
    else if a == ["check-platform-reqs", "--lock"] then Some(CheckPlatformReqsLock)
    else if a == ["validate", "--no-check-all", "--no-check-publish", "--no-check-version"] then Some(ValidateSchema)
    else None
  }

  /** Distinct commands issue distinct words. */
  function FixedArgv(q: Fixed): (a: seq<string>)
    ensures ParseFixed(a) == Some(q)
  {
    match q
    case ValidateStrict => ["validate", "--strict"]
    case ValidateWithNoCheck => ["validate", "--no-check-all"]
    case ValidateWithNoCheckPublish => ["validate", "--no-check-publish"]
    case ValidateWithCheckVersion => ["validate", "--with-dependencies"]
    case CheckPlatformReqsLock => ["check-platform-reqs", "--lock"]
    case ValidateSchema => ["validate", "--no-check-all", "--no-check-publish", "--no-check-version"]
  }

  /** ValidateStrict and ValidateWithCheckVersion issue what
      ValidateComposerJson issues with only the matching switch on
      ("--with-dependencies" for the latter, despite its name). */
  lemma AgreesWithValidateComposerJson()
    ensures FixedArgv(ValidateStrict) == Config.ValidateComposerJsonArgv(true, false)
    ensures FixedArgv(ValidateWithCheckVersion) == Config.ValidateComposerJsonArgv(false, true)
  {
  }
}
