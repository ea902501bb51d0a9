/** The line-listing parser two client methods share: ExecWithList
    (pkg/composer/exec.go) lists binaries under "Available binaries:",
    GetExtensions (pkg/composer/platform.go) lists extensions under
    "Loaded extensions:". */
module Lines {
  import opened Text
  import Seqs

  /** A trimmed line is listed when it is not empty and is not the header. */
  predicate Listable(line: string, header: string) {
    line != "" && !HasPrefix(line, header)
  }

  /** The listable entries of `trimmed`, in order. */
  function ListedOf(trimmed: seq<string>, header: string): seq<string>
    decreases |trimmed|
  {
    if |trimmed| == 0 then []
    else
      var rest := ListedOf(trimmed[..|trimmed| - 1], header);
      var line := trimmed[|trimmed| - 1];
      if Listable(line, header) then rest + [line] else rest
  }

  /** The listing an output shows. */
  function Listed(output: string, header: string): seq<string> {
    ListedOf(Seqs.Map(TrimSpace, Split(output, '\n')), header)
  }

  /** Exactly the listable lines are listed, in their order, each as often
      as it occurs. */
  lemma {:induction false} ListedOfSpec(trimmed: seq<string>, header: string)
    ensures forall x :: x in ListedOf(trimmed, header) <==> x in trimmed && Listable(x, header)
    ensures forall x :: multiset(ListedOf(trimmed, header))[x] == if Listable(x, header) then multiset(trimmed)[x] else 0
    ensures Seqs.IsSubseq(ListedOf(trimmed, header), trimmed)
    decreases |trimmed|
  {
    if |trimmed| > 0 {
      var n := |trimmed| - 1;
      ListedOfSpec(trimmed[..n], header);
      assert trimmed == trimmed[..n] + [trimmed[n]];
      SubseqAppend(ListedOf(trimmed[..n], header), trimmed[..n], trimmed[n]);
    }
  }

  /** Extending both sides by the same element keeps a subsequence, and so
      does extending only the larger one. */
  lemma {:induction false} SubseqAppend(r: seq<string>, s: seq<string>, x: string)
    requires Seqs.IsSubseq(r, s)
    ensures Seqs.IsSubseq(r + [x], s + [x])
    ensures Seqs.IsSubseq(r, s + [x])
    decreases |s|
  {
    if |s| == 0 {
      assert |r| == 0;
      assert r + [x] == [x];
      assert Seqs.IsSubseq([x][1..], [x][1..]);
    } else if |r| > 0 && r[0] == s[0] && Seqs.IsSubseq(r[1..], s[1..]) {
      SubseqAppend(r[1..], s[1..], x);
      assert (r + [x])[1..] == r[1..] + [x];
      assert (s + [x])[1..] == s[1..] + [x];
    } else if |r| > 0 {
      SubseqAppend(r, s[1..], x);
      assert (s + [x])[1..] == s[1..] + [x];
    } else {
      SubseqAppend(r, s[1..], x);
      assert (s + [x])[1..] == s[1..] + [x];
      assert r + [x] == [x];
    }
  }

  /** The loop of the source: trim each line and append the listable ones. */
  method ListLines(output: string, header: string) returns (items: seq<string>)
    ensures items == Listed(output, header)
  {
    var lines := Split(output, '\n');
    items := [];
    var i := 0;
    while i < |lines|
      invariant 0 <= i <= |lines|
      invariant items == ListedOf(Seqs.Map(TrimSpace, lines[..i]), header)
    {
      var line := TrimSpace(lines[i]);
      Seqs.MapSnoc(TrimSpace, lines, i);
      assert (Seqs.Map(TrimSpace, lines[..i]) + [line])[..i] == Seqs.Map(TrimSpace, lines[..i]);
      if line != "" && !HasPrefix(line, header) {
        items := items + [line];
      }
      i := i + 1;
    }
    assert lines[..|lines|] == lines;
  }
}
