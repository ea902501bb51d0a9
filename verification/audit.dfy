/** Security audit commands (pkg/composer/audit.go). The JSON report is
    decoded by encoding/json, which the model receives as a parameter. */
module Audit {
  import opened Wrappers
  import opened Text
  import opened Errors
  import opened Core
  import Seqs
  import Args
  import Dependencies

  datatype Vulnerability = Vulnerability(
    package: string,
    version: string,
    title: string,
    link: string,
    cve: seq<string>,
    advisory: string,
    abandoned: bool,
    severity: string,
    source: string,
    affectedVersions: string)

  datatype AuditResult = AuditResult(
    vulnerabilities: seq<Vulnerability>,
    found: int,
    advisory: string,
    withoutDev: bool)

  /** json.Unmarshal into an AuditResult: the value, or the decoding
      error's text. */
  type Decoder = string -> Result<AuditResult>

  /** AuditWithFormat: "--format=<format>" as one word. */
  function AuditWithFormatArgv(format: string): (a: seq<string>)
    ensures |a| == 2 && a[0] == "audit"
    ensures a[1] == "--format=" + format
    ensures Args.DecodeFlag(a[1]) == Some(("format", format))
  {
    Args.DecodeValueFlag("format", format);
    ["audit", Args.ValueFlag("format", format)]
  }

  /** The command AuditWithJSON issues: AuditWithFormat with "json"
      (`JsonArgvIsFormat`). */
  const JsonArgv: seq<string> := ["audit", "--format=json"]

  /** Only connects the literal `JsonArgv` to `AuditWithFormatArgv("json")`. */
  lemma JsonArgvIsFormat(format: string)
    requires format == "json"
    ensures AuditWithFormatArgv(format) == JsonArgv
  {
    assert Args.ValueFlag("format", format) == "--format=json";
  }

  /** AuditWithJSON: Run's error, else the decoding error, else the
      decoded report. */
  function AuditWithJSON(run: Runner, decode: Decoder): (r: Reply<Option<AuditResult>>)
    ensures r.issued == [JsonArgv]
    ensures r.value.Some? <==> r.err.None?
    ensures run(JsonArgv).err.Some? ==> r.err == run(JsonArgv).err
    ensures run(JsonArgv).err.None? ==>
      match decode(run(JsonArgv).output)
      case Ok(result) => r.value == Some(result)
      case Fail(message) => r.err == Some(PlainError(message))
  {
    var o := run(JsonArgv);
    if o.err.Some? then Reply(None, o.err, [JsonArgv])
    else
      match decode(o.output)
      case Fail(message) => Reply(None, Some(PlainError(message)), [JsonArgv])
      case Ok(result) => Reply(Some(result), None, [JsonArgv])
  }

  /** The text composer prints when it finds advisories, as HasVulnerabilities
      recognises it inside an error. */
  predicate ReportsVulnerabilities(e: Error) {
    Contains(e.message, "Found") && Contains(e.message, "vulnerabilities")
  }

  /** HasVulnerabilities: a decoded report answers `found > 0`; an error
      whose text mentions "Found" and "vulnerabilities" (composer exits
      non-zero when it finds some) answers true without an error; any other
      error is returned with false. */
  function HasVulnerabilities(run: Runner, decode: Decoder): (r: Reply<bool>)
    ensures r.issued == [JsonArgv]
    ensures AuditWithJSON(run, decode).err.None? ==>
      r.err.None? && (r.value <==> AuditWithJSON(run, decode).value.value.found > 0)
    ensures AuditWithJSON(run, decode).err.Some? ==>
      if ReportsVulnerabilities(AuditWithJSON(run, decode).err.value) then r.err.None? && r.value
      else r.err == AuditWithJSON(run, decode).err && !r.value
  {
    var audit := AuditWithJSON(run, decode);
    if audit.err.Some? then
      if Contains(audit.err.value.message, "Found") && Contains(audit.err.value.message, "vulnerabilities") then
        Reply(true, None, audit.issued)
      else Reply(false, audit.err, audit.issued)
    else Reply(audit.value.value.found > 0, None, audit.issued)
  }

  predicate HighSeverity(v: Vulnerability) {
    v.severity == "high" || v.severity == "critical"
  }

  /** The vulnerabilities of a report that pass `keep`, in report order, each
      as often as it appears; an error leaves nothing. */
  function Selected(run: Runner, decode: Decoder, keep: Vulnerability -> bool): (r: Reply<seq<Vulnerability>>)
    ensures r.issued == [JsonArgv]
    ensures r.err == AuditWithJSON(run, decode).err
    ensures r.err.Some? ==> r.value == []
    ensures r.err.None? ==>
      var all := AuditWithJSON(run, decode).value.value.vulnerabilities;
      && (forall v :: v in r.value <==> v in all && keep(v))
      && (forall v :: multiset(r.value)[v] == if keep(v) then multiset(all)[v] else 0)
      && Seqs.IsSubseq(r.value, all)
  {
    var audit := AuditWithJSON(run, decode);
    if audit.err.Some? then Reply([], audit.err, audit.issued)
    else Reply(Seqs.Filter(keep, audit.value.value.vulnerabilities), None, audit.issued)
  }

  /** GetHighSeverityVulnerabilities keeps the "high" and "critical" ones. */
  function GetHighSeverityVulnerabilities(run: Runner, decode: Decoder): (r: Reply<seq<Vulnerability>>)
    ensures r == Selected(run, decode, HighSeverity)
    ensures forall v :: v in r.value ==> v.severity in {"high", "critical"}
  {
    Selected(run, decode, HighSeverity)
  }

  predicate Abandoned(v: Vulnerability) {
    v.abandoned
  }

  /** GetAbandonedPackages keeps the abandoned ones. */
  function GetAbandonedPackages(run: Runner, decode: Decoder): (r: Reply<seq<Vulnerability>>)
    ensures r == Selected(run, decode, Abandoned)
    ensures forall v :: v in r.value ==> v.abandoned
  {
    Selected(run, decode, Abandoned)
  }

  /** AuditWithOptions: one flag per option after "audit". */
  function AuditWithOptionsArgv(opts: seq<(string, string)>): (a: seq<string>)
    ensures |a| == 1 + |opts| && a[0] == "audit"
    ensures Args.HoldsOptions(a, 1, opts)
    ensures |opts| == 0 ==> a == Dependencies.FixedArgv(Dependencies.RunAudit)
  {
    Args.OptionsAtEnd(["audit"], opts);
    ["audit"] + Args.OptionFlags(opts)
  }

  /** AuditLock: the lock file path as a second word only when given;
      without one it is the plain audit (Audit, RunAudit). */
  function AuditLockArgv(lockFilePath: string): (a: seq<string>)
    ensures |a| == if lockFilePath == "" then 1 else 2
    ensures a[0] == "audit" && (lockFilePath != "" ==> a[1] == lockFilePath)
    ensures lockFilePath == "" ==> a == Dependencies.FixedArgv(Dependencies.RunAudit)
  {
    if lockFilePath == "" then ["audit"] else ["audit", lockFilePath]
  }

  /** AuditWithoutDev. */
  const WithoutDevArgv: seq<string> := ["audit", "--no-dev"]
}
