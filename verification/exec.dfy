/** Running project binaries (pkg/composer/exec.go). */
module Exec {
  import opened Wrappers
  import opened Errors
  import opened Core
  import Seqs
  import Lines
  import Diagnosis

  /** Exec: "exec", the binary, then "--" even when there are no arguments;
      it is LocalExec with the separator as first argument. */
  function ExecArgv(binary: string, args: seq<string>): (a: seq<string>)
    ensures |a| == 3 + |args|
    ensures a[..3] == ["exec", binary, "--"] && a[3..] == args
    ensures a == Diagnosis.LocalExecArgv(binary, ["--"] + args)
  {
    ["exec", binary, "--"] + args
  }

  /** ExecPHP: "--php=<php>" right after "exec"; the rest is Exec's. */
  function ExecPHPArgv(php: string, binary: string, args: seq<string>): (a: seq<string>)
    ensures |a| == 4 + |args| && a[0] == "exec" && a[1] == "--php=" + php
    ensures a[2..] == ExecArgv(binary, args)[1..]
  {
    ["exec", "--php=" + php, binary, "--"] + args
  }

  /** ExecCommand: any command word, then its arguments. */
  function ExecCommandArgv(command: string, args: seq<string>): (a: seq<string>)
    ensures |a| == 1 + |args| && a[0] == command && a[1..] == args
  {
    [command] + args
  }

  const ListArgv: seq<string> := ["exec", "--list"]
  const ListHeader: string := "Available binaries:"

  /** ExecWithList: the binaries the listing shows; nil with the error when
      the command fails. */
  function ExecWithList(run: Runner): (r: Reply<Option<seq<string>>>)
    ensures r.issued == [ListArgv]
    ensures run(ListArgv).err.Some? ==> r.value.None? && r.err == run(ListArgv).err
    ensures run(ListArgv).err.None? ==>
      r.err.None? && r.value == Some(Lines.Listed(run(ListArgv).output, ListHeader))
  {
    var o := run(ListArgv);
    if o.err.Some? then Reply(None, o.err, [ListArgv])
    else Reply(Some(Lines.Listed(o.output, ListHeader)), None, [ListArgv])
  }

  /** ExecWithWorkingDir: runs Exec with the given working directory; the
      client it leaves behind is the one it was given. */
  function ExecWithWorkingDir(c: Composer, mocks: Mocks, proc: Process, binary: string, workingDir: string, args: seq<string>)
    : (r: (RunResult, Composer))
    ensures r.1 == c
    ensures r.0 == Run(SetWorkingDir(c, workingDir), mocks, proc, ExecArgv(binary, args))
    ensures r.0.spawned.Some? ==>
      (r.0.spawned.value.dir.Some? <==> workingDir != "")
      && (workingDir != "" ==> r.0.spawned.value.dir == Some(workingDir))
  {
    var during := SetWorkingDir(c, workingDir);
    var result := Run(during, mocks, proc, ExecArgv(binary, args));
    (result, SetWorkingDir(during, GetWorkingDir(c)))
  }

  /** What ExecAll records for one binary: the output, or "Error: " and the
      error text. */
  function BinaryResult(run: Runner, binary: string, args: seq<string>): string {
    var o := run(ExecArgv(binary, args));
    if o.err.Some? then "Error: " + o.err.value.message else o.output
  }

  /** ExecAll: lists the binaries, then runs each with the same arguments.
      A failing listing is returned at once and nothing is executed;
      otherwise the result maps exactly the listed binaries, and one
      binary's failure does not stop the others. */
  function ExecAll(run: Runner, args: seq<string>): (r: Reply<Option<map<string, string>>>)
    ensures |r.issued| >= 1 && r.issued[0] == ListArgv
    ensures run(ListArgv).err.Some? ==> r.value.None? && r.err == run(ListArgv).err && |r.issued| == 1
    ensures run(ListArgv).err.None? ==>
      var binaries := Lines.Listed(run(ListArgv).output, ListHeader);
      && r.err.None? && r.value.Some?
      && r.issued[1..] == Seqs.Map(b => ExecArgv(b, args), binaries)
      && (forall b :: b in r.value.value <==> b in binaries)
      && (forall b :: b in binaries ==> r.value.value[b] == BinaryResult(run, b, args))
  {
    var listed := ExecWithList(run);
    if listed.err.Some? then Reply(None, listed.err, listed.issued)
    else
      var binaries := listed.value.value;
      var pairs := Seqs.Map(b => (b, BinaryResult(run, b, args)), binaries);
      var results := Seqs.LastWins(pairs);
      assert forall b :: b in binaries ==> pairs[IndexOf(binaries, b)] == (b, BinaryResult(run, b, args));
      assert forall b :: b in results ==> b in binaries by {
        Seqs.LastWinsSpec(pairs);
      }
      assert forall b :: b in binaries ==> b in results && results[b] == BinaryResult(run, b, args) by {
        forall b | b in binaries ensures b in results && results[b] == BinaryResult(run, b, args) {
          assert pairs[IndexOf(binaries, b)].0 == b;
          Seqs.LastWinsAgreeing(pairs, b, BinaryResult(run, b, args));
        }
      }
      Reply(Some(results), None, listed.issued + Seqs.Map(b => ExecArgv(b, args), binaries))
  }

  /** A position of `x` in `s`. */
  function IndexOf(s: seq<string>, x: string): (i: nat)
    requires x in s
    ensures i < |s| && s[i] == x
  {
    if s[0] == x then 0 else 1 + IndexOf(s[1..], x)
  }
}
