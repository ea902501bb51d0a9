/** The client's error values. `kind` records which sentinel error the value
    wraps (what `errors.Is` would report); `message` is the full text that
    `err.Error()` returns, since some callers inspect it. */
module Errors {

  datatype Kind =
    | CommandExecution      // ErrCommandExecution
    | ComposerNotFound      // ErrComposerNotFound
    | ComposerInstallation  // ErrComposerInstallation
    | ExecutableNotFound    // detector.ErrExecutableNotFound
    | ComposerJsonNotFound  // ErrComposerJSONNotFound
    | InvalidAuthType       // ErrInvalidAuthType
    | Plain                 // any other error (errors.New, fmt.Errorf, encoding/json)

  datatype Error = Error(kind: Kind, message: string)

  const CommandExecutionText: string := "执行composer命令失败"
  const ComposerNotFoundText: string := "未找到composer可执行文件"
  const ComposerInstallationText: string := "安装composer失败"
  const ExecutableNotFoundText: string := "未找到composer可执行文件"
  const ComposerJsonNotFoundText: string := "composer.json not found"
  const InvalidAuthTypeText: string := "invalid authentication type"

  /** fmt.Errorf("%w: %v", sentinel, cause) */
  function Wrap(kind: Kind, sentinelText: string, cause: string): Error {
    Error(kind, sentinelText + ": " + cause)
  }

  /** errors.New(text) or an error returned by a library call. */
  function PlainError(text: string): Error {
    Error(Plain, text)
  }
}
