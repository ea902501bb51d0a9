/** Funding commands (pkg/composer/fund.go). The JSON listing is decoded by
    encoding/json, which the model receives as a parameter. */
module Fund {
  import opened Wrappers
  import opened Text
  import opened Errors
  import opened Core
  import Seqs
  import Args
  import Dependencies

  datatype FundingInfo = FundingInfo(name: string, urls: seq<string>, funding: bool)

  /** json.Unmarshal into []FundingInfo. */
  type Decoder = string -> Result<seq<FundingInfo>>

  /** FundWithJSON issues "--format=json", HasFunding "--format=text". */
  function FundWithFormatArgv(format: string): (a: seq<string>)
    ensures |a| == 2 && a[0] == "fund"
    ensures a[1] == "--format=" + format
    ensures Args.DecodeFlag(a[1]) == Some(("format", format))
  {
    Args.DecodeValueFlag("format", format);
    ["fund", Args.ValueFlag("format", format)]
  }

  const JsonArgv: seq<string> := ["fund", "--format=json"]
  const TextArgv: seq<string> := ["fund", "--format=text"]

  /** Only connects the literal constants to FundWithFormat's vectors for
      "json" and "text". */
  lemma FormatArgvs(format: string)
    ensures format == "json" ==> FundWithFormatArgv(format) == JsonArgv
    ensures format == "text" ==> FundWithFormatArgv(format) == TextArgv
  {
    if format == "json" {
      assert Args.ValueFlag("format", format) == "--format=json";
    } else if format == "text" {
      assert Args.ValueFlag("format", format) == "--format=text";
    }
  }

  /** FundWithJSON: Run's error, else the decoding error, else the list. */
  function FundWithJSON(run: Runner, decode: Decoder): (r: Reply<Option<seq<FundingInfo>>>)
    ensures r.issued == [JsonArgv]
    ensures r.value.Some? <==> r.err.None?
    ensures run(JsonArgv).err.Some? ==> r.err == run(JsonArgv).err
    ensures run(JsonArgv).err.None? ==>
      match decode(run(JsonArgv).output)
      case Ok(infos) => r.value == Some(infos)
      case Fail(message) => r.err == Some(PlainError(message))
  {
    var o := run(JsonArgv);
    if o.err.Some? then Reply(None, o.err, [JsonArgv])
    else
      match decode(o.output)
      case Fail(message) => Reply(None, Some(PlainError(message)), [JsonArgv])
      case Ok(infos) => Reply(Some(infos), None, [JsonArgv])
  }

  /** A package that GetFundingURLs reports: funding with at least one URL. */
  predicate Funded(info: FundingInfo) {
    info.funding && |info.urls| > 0
  }

  /** The entry the source's loop stores for one package, if any. */
  function FundingEntry(info: FundingInfo): Option<(string, seq<string>)> {
    if Funded(info) then Some((info.name, info.urls)) else None
  }

  /** `i` is the last funded entry with its name. */
  ghost predicate LastFunded(infos: seq<FundingInfo>, i: int)
    requires 0 <= i < |infos|
  {
    Funded(infos[i]) && forall j :: i < j < |infos| && Funded(infos[j]) ==> infos[j].name != infos[i].name
  }

  /** GetFundingURLs: FundWithJSON's error, or the funding map. */
  method GetFundingURLs(run: Runner, decode: Decoder) returns (r: Reply<Option<map<string, seq<string>>>>)
    ensures r.issued == [JsonArgv] && r.err == FundWithJSON(run, decode).err
    ensures r.value.Some? <==> r.err.None?
    ensures r.value.Some? ==>
      var infos := FundWithJSON(run, decode).value.value;
      && (forall k :: k in r.value.value <==> exists i :: 0 <= i < |infos| && Funded(infos[i]) && infos[i].name == k)
      && (forall i :: 0 <= i < |infos| && LastFunded(infos, i) ==> r.value.value[infos[i].name] == infos[i].urls)
  {
    var listed := FundWithJSON(run, decode);
    if listed.err.Some? {
      return Reply(None, listed.err, listed.issued);
    }
    var infos := listed.value.value;
    var urls := Seqs.StoreAll(FundingEntry, infos);
    Seqs.CollectLastWins(FundingEntry, infos);
    assert forall i :: 0 <= i < |infos| && LastFunded(infos, i) ==> Seqs.LastCollected(FundingEntry, infos, i);
    return Reply(Some(urls), None, listed.issued);
  }

  /** HasFunding: true unless the text listing mentions "No funding"; false
      with Run's error when the command fails. */
  function HasFunding(run: Runner): (r: Reply<bool>)
    ensures r.issued == [TextArgv] && r.err == run(TextArgv).err
    ensures r.err.Some? ==> !r.value
    ensures r.err.None? ==> (r.value <==> !Contains(run(TextArgv).output, "No funding"))
  {
    var o := run(TextArgv);
    if o.err.Some? then Reply(false, o.err, [TextArgv])
    else Reply(!Contains(o.output, "No funding"), None, [TextArgv])
  }

  /** FundWithPackage. */
  function FundWithPackageArgv(packageName: string): (a: seq<string>)
    ensures |a| == 2 && a[..1] == Dependencies.FixedArgv(Dependencies.FundPackages) && a[1] == packageName
  {
    ["fund", packageName]
  }

  /** FundWithOptions: one flag per option after "fund". */
  function FundWithOptionsArgv(opts: seq<(string, string)>): (a: seq<string>)
    ensures |a| == 1 + |opts| && a[0] == "fund"
    ensures Args.HoldsOptions(a, 1, opts)
    ensures |opts| == 0 ==> a == Dependencies.FixedArgv(Dependencies.FundPackages)
  {
    Args.OptionsAtEnd(["fund"], opts);
    ["fund"] + Args.OptionFlags(opts)
  }
}
