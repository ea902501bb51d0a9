/** Shell completion and help commands (pkg/composer/completion.go). Each
    method returns Run's output and error unchanged (`Core.Invoke`). */
module Completion {
  import opened Wrappers
  import Args

  /** ShellType is a string type: the three constants are the documented
      values, but any string is passed through. */
  const BashShell: string := "bash"
  const ZshShell: string := "zsh"
  const FishShell: string := "fish"

  /** GenerateCompletion. */
  function GenerateCompletionArgv(shell: string): (a: seq<string>)
    ensures |a| == 2 && a[0] == "completion" && a[1] == shell
  {
    ["completion", shell]
  }

  /** GenerateCompletionWithOptions: the shell, then one flag per option. */
  function GenerateCompletionWithOptionsArgv(shell: string, opts: seq<(string, string)>): (a: seq<string>)
    ensures |a| == 2 + |opts| && a[..2] == GenerateCompletionArgv(shell)
    ensures Args.HoldsOptions(a, 2, opts)
    ensures |opts| == 0 ==> a == GenerateCompletionArgv(shell)
  {
    Args.OptionsAtEnd(["completion", shell], opts);
    ["completion", shell] + Args.OptionFlags(opts)
  }

  /** ListCommands. */
  const ListCommandsArgv: seq<string> := ["list"]

  /** GetCommandHelp. */
  function GetCommandHelpArgv(command: string): (a: seq<string>)
    ensures |a| == 2 && a[0] == "help" && a[1] == command
  {
    ["help", command]
  }
}
