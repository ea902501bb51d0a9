/** GetEnvironmentInfo (pkg/composer/environment.go): the parser of
    `composer config --list` output. */
module Environment {
  import opened Wrappers
  import opened Text
  import opened Core
  import Seqs
  import Args

  const ListArgv: seq<string> := ["config", "--list"]

  /** One line: split at its first ':' only, both halves trimmed; a line
      without ':' yields nothing. */
  function Entry(line: string): (e: Option<(string, string)>)
    ensures e.None? <==> ':' !in line
  {
    match CutFirst(line, ':')
    case None => None
    case Some((key, value)) => Some((TrimSpace(key), TrimSpace(value)))
  }

  /** The map the listing shows: every line's entry, a later key
      overwriting an earlier one. */
  function Info(output: string): map<string, string> {
    Seqs.LastWins(Seqs.Collect(Entry, Split(output, '\n')))
  }

  /** The keys are exactly those of the lines that contain ':', and each is
      bound to the value of the last such line. */
  lemma InfoSpec(output: string)
    ensures forall k :: k in Info(output) <==>
      exists i :: 0 <= i < |Split(output, '\n')| && Entry(Split(output, '\n')[i]).Some?
                  && Entry(Split(output, '\n')[i]).value.0 == k
    ensures forall i :: 0 <= i < |Split(output, '\n')| && Seqs.LastCollected(Entry, Split(output, '\n'), i) ==>
      Info(output)[Entry(Split(output, '\n')[i]).value.0] == Entry(Split(output, '\n')[i]).value.1
  {
    Seqs.CollectLastWins(Entry, Split(output, '\n'));
  }

  /** Only the first ':' splits, so a value may itself contain ':'. */
  lemma EntryOfLine(key: string, value: string)
    requires ':' !in key
    ensures Entry(key + ":" + value) == Some((TrimSpace(key), TrimSpace(value)))
  {
    Args.CutFirstUnique(key + ":" + value, ':', key, value);
  }

  /** Empty output shows an empty map. */
  lemma EmptyOutput()
    ensures Info("") == map[]
  {
    assert Split("", '\n') == [""];
    assert Seqs.Collect(Entry, [""]) == [] by {
      assert [""][..0] == [];
    }
  }

  /** GetEnvironmentInfo: Run's error and no map, or the parsed map. */
  method GetEnvironmentInfo(run: Runner) returns (r: Reply<Option<map<string, string>>>)
    ensures r.issued == [ListArgv] && r.err == run(ListArgv).err
    ensures r.value.Some? <==> r.err.None?
    ensures r.value.Some? ==> r.value.value == Info(run(ListArgv).output)
  {
    var o := run(ListArgv);
    if o.err.Some? {
      return Reply(None, o.err, [ListArgv]);
    }
    var info := Seqs.StoreAll(Entry, Split(o.output, '\n'));
    return Reply(Some(info), None, [ListArgv]);
  }
}
