/** Building blocks every command builder of the client shares: the
    option-map rule (`--key` or `--key=value`), conditional switches emitted
    in a fixed order, and package specifications (`name:version`,
    `name=version`). Each comes with the decoder that takes it apart again. */
module Args {
  import opened Wrappers
  import opened Text
  import Seqs

  /** The rule every `...WithOptions` method applies to one entry of its
      option map: an empty value gives `--key`, any other `--key=value`. */
  function OptionFlag(opt: (string, string)): string {
    if opt.1 == "" then "--" + opt.0 else "--" + opt.0 + "=" + opt.1
  }

  /** The flags of an option map, one per entry, in the map's iteration
      order. The source ranges over a Go map, whose order is unspecified, so
      the model takes the entries as a sequence in one such order. */
  function OptionFlags(opts: seq<(string, string)>): (fs: seq<string>)
    ensures |fs| == |opts|
  {
    Seqs.Map(OptionFlag, opts)
  }

  /** Reads a flag back into (key, value): the text after `--`, cut at the
      first `=`; no `=` means an empty value. */
  function DecodeFlag(f: string): Option<(string, string)> {
    if !HasPrefix(f, "--") then None
    else
      match CutFirst(f[2..], '=')
      case None => Some((f[2..], ""))
      case Some(kv) => Some(kv)
  }

  function DecodeFlags(fs: seq<string>): Option<seq<(string, string)>>
    decreases |fs|
  {
    if |fs| == 0 then Some([])
    else
      match (DecodeFlag(fs[0]), DecodeFlags(fs[1..]))
      case (Some(kv), Some(rest)) => Some([kv] + rest)
      case _ => None
  }

  lemma CutFirstUnique(s: string, sep: char, a: string, b: string)
    requires s == a + [sep] + b && sep !in a
    ensures CutFirst(s, sep) == Some((a, b))
  {
    var p := CutFirst(s, sep).value;
    assert |p.0| == |a| by {
      assert s[|a|] == sep;
      assert s[|p.0|] == sep;
    }
    assert p.0 == s[..|a|] == a;
    assert p.1 == s[|a| + 1..] == b;
  }

  /** A flag whose key has no `=` decodes to the entry it was built from. */
  lemma DecodeOptionFlag(opt: (string, string))
    requires '=' !in opt.0
    ensures DecodeFlag(OptionFlag(opt)) == Some(opt)
  {
    var f := OptionFlag(opt);
    assert f[..2] == "--";
    if opt.1 == "" {
      assert f[2..] == opt.0;
    } else {
      assert f[2..] == opt.0 + "=" + opt.1;
      CutFirstUnique(f[2..], '=', opt.0, opt.1);
    }
  }

  ghost predicate KeysWithoutEquals(opts: seq<(string, string)>) {
    forall i :: 0 <= i < |opts| ==> '=' !in opts[i].0
  }

  /** The flags of an option map decode back to its entries, in the order
      they were emitted. */
  lemma {:induction false} DecodeOptionFlags(opts: seq<(string, string)>)
    requires KeysWithoutEquals(opts)
    ensures DecodeFlags(OptionFlags(opts)) == Some(opts)
    decreases |opts|
  {
    if |opts| > 0 {
      var fs := OptionFlags(opts);
      DecodeOptionFlag(opts[0]);
      assert fs[1..] == OptionFlags(opts[1..]);
      DecodeOptionFlags(opts[1..]);
      assert [opts[0]] + opts[1..] == opts;
    }
  }

  /** `opts` lists the entries of the Go map `m`, each once, in some order. */
  ghost predicate Enumerates(opts: seq<(string, string)>, m: map<string, string>) {
    && (forall i, j :: 0 <= i < j < |opts| ==> opts[i].0 != opts[j].0)
    && (forall i :: 0 <= i < |opts| ==> opts[i].0 in m && m[opts[i].0] == opts[i].1)
    && (forall k :: k in m ==> exists i :: 0 <= i < |opts| && opts[i].0 == k)
  }

  /** Whatever order the map is iterated in, the same flags are emitted, each
      as often: option flags are determined by the map up to permutation. */
  lemma FlagsDeterminedByMap(o1: seq<(string, string)>, o2: seq<(string, string)>, m: map<string, string>)
    requires Enumerates(o1, m) && Enumerates(o2, m)
    ensures multiset(OptionFlags(o1)) == multiset(OptionFlags(o2))
  {
    Seqs.NoDupMultiset(o1);
    Seqs.NoDupMultiset(o2);
    forall x | x in o1 ensures x in o2 {
      var i :| 0 <= i < |o1| && o1[i] == x;
      var j :| 0 <= j < |o2| && o2[j].0 == x.0;
      assert o2[j] == x;
    }
    forall x | x in o2 ensures x in o1 {
      var i :| 0 <= i < |o2| && o2[i] == x;
      var j :| 0 <= j < |o1| && o1[j].0 == x.0;
      assert o1[j] == x;
    }
    assert forall x :: multiset(o1)[x] == multiset(o2)[x];
    assert multiset(o1) == multiset(o2);
    Seqs.MapPermutation(OptionFlag, o1, o2);
  }

  /** Every entry of the map contributes its flag. */
  lemma FlagOfEveryEntry(opts: seq<(string, string)>, m: map<string, string>, k: string)
    requires Enumerates(opts, m) && k in m
    ensures OptionFlag((k, m[k])) in OptionFlags(opts)
  {
    var i :| 0 <= i < |opts| && opts[i].0 == k;
    assert OptionFlags(opts)[i] == OptionFlag((k, m[k]));
  }

  ghost predicate Distinct(names: seq<string>) {
    forall i, j :: 0 <= i < j < |names| ==> names[i] != names[j]
  }

  /** The names whose switch is on, in the order of `names`: the shape of
      `if b { args = append(args, "--flag") }` sequences. */
  function Switches(names: seq<string>, on: seq<bool>): (r: seq<string>)
    requires |names| == |on|
    ensures Seqs.IsSubseq(r, names)
    ensures forall x :: x in r ==> exists i :: 0 <= i < |names| && on[i] && names[i] == x
    ensures Distinct(names) ==> forall i :: 0 <= i < |names| ==> multiset(r)[names[i]] == if on[i] then 1 else 0
    decreases |names|
  {
    if |names| == 0 then []
    else
      var rest := Switches(names[1..], on[1..]);
      assert forall i :: 1 <= i < |names| ==> names[i] == names[1..][i - 1] && on[i] == on[1..][i - 1];
      assert Distinct(names) ==> Distinct(names[1..]) && names[0] !in rest;
      if on[0] then [names[0]] + rest else rest
  }

  /** `a` holds the switches of `names` that are on, each exactly once, and
      no other word, in the order of `names`. */
  ghost predicate SwitchedOn(a: seq<string>, names: seq<string>, on: seq<bool>)
    requires |names| == |on|
  {
    && Seqs.IsSubseq(a, names)
    && forall i :: 0 <= i < |names| ==> multiset(a)[names[i]] == if on[i] then 1 else 0
  }

  lemma SwitchesSwitchedOn(names: seq<string>, on: seq<bool>)
    requires |names| == |on| && Distinct(names)
    ensures SwitchedOn(Switches(names, on), names, on)
  {
  }

  /** From position `at`, `a` holds the flags of `opts`, one per entry in
      the entries' order: `--key` for an empty value and `--key=value` for
      any other, and together they decode back to the entries. */
  ghost predicate HoldsOptions(a: seq<string>, at: int, opts: seq<(string, string)>) {
    && 0 <= at && at + |opts| <= |a|
    && (forall i :: at <= i < at + |opts| ==>
          && (opts[i - at].1 == "" ==> a[i] == "--" + opts[i - at].0)
          && (opts[i - at].1 != "" ==> a[i] == "--" + opts[i - at].0 + "=" + opts[i - at].1))
    && (KeysWithoutEquals(opts) ==> DecodeFlags(a[at..at + |opts|]) == Some(opts))
  }

  lemma OptionsBetween(before: seq<string>, opts: seq<(string, string)>, after: seq<string>)
    ensures HoldsOptions(before + OptionFlags(opts) + after, |before|, opts)
  {
    var a := before + OptionFlags(opts) + after;
    assert a[|before|..|before| + |opts|] == OptionFlags(opts);
    forall i | |before| <= i < |before| + |opts|
      ensures a[i] == OptionFlag(opts[i - |before|])
    {
      assert a[i] == OptionFlag(opts[i - |before|]);
    }
    if KeysWithoutEquals(opts) {
      DecodeOptionFlags(opts);
    }
  }

  /** The same when the flags end the vector. */
  lemma OptionsAtEnd(before: seq<string>, opts: seq<(string, string)>)
    ensures HoldsOptions(before + OptionFlags(opts), |before|, opts)
  {
    OptionsBetween(before, opts, []);
    assert before + OptionFlags(opts) + [] == before + OptionFlags(opts);
  }

  /** A flag that always carries a value, `--key=value`, even an empty one. */
  function ValueFlag(key: string, value: string): string {
    "--" + key + "=" + value
  }

  lemma DecodeValueFlag(key: string, value: string)
    ensures '=' !in key ==> DecodeFlag(ValueFlag(key, value)) == Some((key, value))
  {
    var f := ValueFlag(key, value);
    assert f[..2] == "--";
    assert f[2..] == key + "=" + value;
    if '=' !in key {
      CutFirstUnique(f[2..], '=', key, value);
    }
  }

  /** The one-entry field list for a named argument, empty when the
      argument is: the flags a method emits only for arguments that were
      given. */
  function IfGiven(key: string, value: string): (r: seq<(string, string)>)
    ensures r == [] <==> value == ""
    ensures r != [] ==> r == [(key, value)]
  {
    if value != "" then [(key, value)] else []
  }

  /** `name:version` (require, create-project) or `name=version` (archive);
      the bare name when the version is empty. */
  function PackageSpec(name: string, version: string, sep: char): string {
    if version != "" then name + [sep] + version else name
  }

  /** Takes a package spec apart at the first separator. */
  function SplitSpec(spec: string, sep: char): (string, string) {
    match CutFirst(spec, sep)
    case None => (spec, "")
    case Some(nv) => nv
  }

  /** A spec built from a name without the separator splits back into the
      name and the version. */
  lemma PackageSpecInverse(name: string, version: string, sep: char)
    ensures sep !in name ==> SplitSpec(PackageSpec(name, version, sep), sep) == (name, version)
  {
    if version != "" && sep !in name {
      CutFirstUnique(name + [sep] + version, sep, name, version);
    }
  }
}
