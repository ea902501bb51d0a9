# Composer SDK for Go: a Dafny model

This project models the core of a Go client library for PHP Composer. The
core is the package `pkg/composer` and the executable detector in
`pkg/detector`. Nearly every public method of the client builds an argument
vector and hands it to `Run`; a few read the command's output back, and a
few edit `composer.json`, `auth.json` or a Satis `satis.json` on disk.

The model keeps the deterministic part of that behaviour:

- **Argument vectors.** Every `...Argv` function gives the exact words a
  method passes to `Run`. Option maps are a `seq<(string, string)>` in one of
  the map's iteration orders. `Args.HoldsOptions` states that a stretch of
  the vector holds one flag per entry, in the entries' order and in the
  shared form (`--key` for an empty value, `--key=value` otherwise), and
  that each flag decodes back to its entry. Value flags such as
  `--format=<format>` are pinned word for word, "=" included.
- **Running a command.** `Core.Runner` is an oracle from a vector to
  `(output, error)`. A client method returns a `Core.Reply`: its value, its
  error, and the list of vectors it issued. "A refused value issues no
  command" is therefore a statement about `issued`. `Core.RunWithContext`
  models the mock lookup, the process set-up and the error shaping, with
  the process itself as a `Process` oracle.
- **Output parsers.** These are the version banner, the PHP banner, the
  line listings of binaries and extensions, `config --list`, the audit and
  funding filters, and the platform-availability decision.
- **Configuration documents.** `composer.json`, `auth.json` and `satis.json`
  are records whose Go maps are `Option<map<..>>`, where `None` is a nil
  map. The file system is a `Store.Disk` (a map from path to contents or a
  read error). JSON encoding and decoding are oracle parameters (`Codec`).
- **Executable detection.** The host (`COMPOSER_PATH`, `os.Stat`, the
  `which`/`where` lookup, the OS) is a `Detector.Host` value.

Modules follow the source files: `Core` (composer.go), `Dependencies`,
`Packages`, `Project`, `Archive`, `Global`, `Exec`, `Diagnosis`, `Config`,
`Validation`, `Repositories`, `Audit`, `Fund`, `Platform`, `Versions`,
`VersionConstraints`, `Environment`, `ComposerJson`, `OAuth`, `Satis`,
`Licenses`, `Completion` and `Detector`.

The shared helpers are `Wrappers`, `Text` (the Go `strings` functions
used), `Seqs`, `Args`, `Lines`, `Errors`, `Json`, `GoMaps` and `Store`.

Where a test file and the code disagree (for example tests that expect
errors for empty arguments the code never raises), the model follows the
code.

## Model

| member | source | states |
|---|---|---|
| Core.DefaultOptions | pkg/composer/composer.go:178-184 | empty working dir and executable path, auto-install on, a ten-minute timeout, no detector and no environment |
| Core.New | pkg/composer/composer.go:209-260 | a configured path is used as given and the detector is never asked (only the existence check, skipped in test mode); without a path the first detection wins, otherwise auto-install runs and a second detection decides; installer failure gives ErrComposerInstallation, every other failure ErrComposerNotFound; success iff no error |
| Core.SetWorkingDir | pkg/composer/composer.go:275-277 | the getter returns exactly the directory set (including "") and no other field changes |
| Core.SetEnv | pkg/composer/composer.go:297-299 | the getter returns exactly the environment set (including nil) and no other field changes |
| Core.IsInstalled | pkg/composer/composer.go:493-495 | installed iff the executable path is non-empty |
| Core.SetupMockOutput | pkg/composer/composer.go:65-76 | test mode is switched on, the command string is bound to the output and error, other bindings are kept |
| Core.ClearMockOutputs | pkg/composer/composer.go:88-96 | no binding is left and test mode stays on |
| Core.GetMockOutput | pkg/composer/composer.go:99-123 | empty arguments find nothing; the space-joined command wins over its first word alone; neither bound means not found |
| Core.MockKeyInjective | pkg/composer/composer.go:108-111 | commands whose words hold no space have distinct lookup keys, so a whole-command mock answers only that command |
| Core.RunWithContext | pkg/composer/composer.go:394-420 | a mock answers verbatim and spawns nothing; otherwise one process runs with the client's path and the arguments as given, the directory set iff the working dir is non-empty, the environment set iff non-empty; a failure returns the output with a CommandExecution error whose text holds the cause and the output |
| Core.Run | pkg/composer/composer.go:327-329 | Run is RunWithTimeout with the client's default timeout |
| Core.Bind | pkg/composer/composer.go:327-329 | the runner the client methods call answers each vector as Run does: a bound mock verbatim; otherwise the prepared process's output unchanged, failing exactly when the process fails, with a CommandExecution error naming the cause |
| Core.Invoke | pkg/composer/packages.go:103-105 | a pass-through method issues exactly its vector and returns Run's output and error unchanged |
| Args.OptionFlags | pkg/composer/dependencies.go:74-80 | one flag per option entry |
| Args.DecodeOptionFlag | pkg/composer/dependencies.go:74-80 | an entry with an empty value becomes `--key`, any other `--key=value`, and either decodes back to the entry when the key has no `=` |
| Args.DecodeOptionFlags | pkg/composer/dependencies.go:74-80 | the flags of an option list decode back to its entries, in order |
| Args.FlagsDeterminedByMap | pkg/composer/dependencies.go:74-80 | any two iteration orders of the same map emit the same multiset of flags |
| Args.FlagOfEveryEntry | pkg/composer/dependencies.go:74-80 | every map entry contributes its flag |
| Args.Switches | pkg/composer/dependencies.go:30-43 | the switched-on names in their fixed order, a subsequence of the names, each switched-on name exactly once when names are distinct |
| Args.SwitchesSwitchedOn | pkg/composer/dependencies.go:30-43 | the switches vector holds exactly the names that are on, once each, in order |
| Args.OptionsBetween | pkg/composer/packages.go:310-330 | flags placed between a fixed prefix and suffix sit at the prefix's length, one per entry in order: `--key` for an empty value, `--key=value` otherwise, decoding back to the entries |
| Args.OptionsAtEnd | pkg/composer/dependencies.go:70-84 | the same placement when the option flags end the vector |
| Args.DecodeValueFlag | pkg/composer/audit.go:140-142 | `--key=value` always carries the value, even an empty one, and decodes back |
| Args.IfGiven | pkg/composer/project.go:154-181 | a named field is emitted iff its value is non-empty |
| Args.PackageSpecInverse | pkg/composer/packages.go:28-43 | `name:version` (or the bare name when version is "") splits back into name and version |
| Dependencies.InstallArgv | pkg/composer/dependencies.go:30-43 | "install", then "--no-dev" iff noDev, then "--optimize-autoloader" iff optimize, each once, in that order |
| Dependencies.InstallWithOptionsArgv | pkg/composer/dependencies.go:70-84 | "install" followed by exactly one flag per option; no options gives plain install; each option flag is `--key` for an empty value and `--key=value` otherwise, in the entries' order, and decodes back to its entry |
| Dependencies.UpdateArgv | pkg/composer/dependencies.go:119-130 | "update", "--no-dev" iff noDev, then the packages in input order |
| Dependencies.UpdateWithOptionsArgv | pkg/composer/dependencies.go:158-174 | every option flag comes before every package name; each option flag is `--key` for an empty value and `--key=value` otherwise, in the entries' order, and decodes back to its entry |
| Dependencies.DumpAutoloadArgv | pkg/composer/dependencies.go:202-211 | "dump-autoload" then "--optimize" iff optimize |
| Dependencies.DumpAutoloadWithOptionsArgv | pkg/composer/dependencies.go:238-252 | "dump-autoload" followed by one flag per option; each option flag is `--key` for an empty value and `--key=value` otherwise, in the entries' order, and decodes back to its entry |
| Dependencies.FixedArgv | pkg/composer/dependencies.go:272-339 | check, suggests, fund and audit are one word each and are told apart by their word |
| Packages.RequirePackageArgv | pkg/composer/packages.go:28-43 | "require", "--dev" iff dev, then the spec as last word, which splits back into name and version |
| Packages.RemoveArgv | pkg/composer/packages.go:69-80 | "remove", "--dev" iff dev, then the name as last word |
| Packages.ShowDependencyTreeArgv | pkg/composer/packages.go:183-188 | "show --tree", with the name as a third word only when non-empty |
| Packages.RequirePackageWithOptionsArgv | pkg/composer/packages.go:310-330 | all option flags before the spec, which is the last word; each option flag is `--key` for an empty value and `--key=value` otherwise, in the entries' order, and decodes back to its entry |
| Packages.BumpPackagesArgv | pkg/composer/packages.go:358-363 | "bump" followed by the packages in order |
| Packages.BumpPackagesWithOptionsArgv | pkg/composer/packages.go:390-405 | the option flags come before the packages; each option flag is `--key` for an empty value and `--key=value` otherwise, in the entries' order, and decodes back to its entry |
| Packages.BrowsePackageWithOptionsArgv | pkg/composer/packages.go:495-509 | the name comes before the option flags; each option flag is `--key` for an empty value and `--key=value` otherwise, in the entries' order, and decodes back to its entry |
| Packages.Reinstall | pkg/composer/packages.go:426-435 | remove (not dev) first; a failed removal is returned and nothing else runs; otherwise require without version and its error |
| Packages.SimpleArgv | pkg/composer/packages.go:103-282 | show, search, depends, why, browse, outdated and why-not vectors decode back to the call, parameters included, with no check of empty input; why-not always has three words |
| Project.CreateProjectArgv | pkg/composer/project.go:32-43 | "create-project", the spec (splitting back into name and version), then the directory last |
| Project.CreateProjectWithOptionsArgv | pkg/composer/project.go:78-98 | the option flags sit between "create-project" and the spec and directory; each option flag is `--key` for an empty value and `--key=value` otherwise, in the entries' order, and decodes back to its entry |
| Project.InitProjectWithOptionsArgv | pkg/composer/project.go:154-181 | name, description and author flags only for non-empty inputs, in that order, before the other options; each option flag is `--key` for an empty value and `--key=value` otherwise, in the entries' order, and decodes back to its entry |
| Project.RunScriptArgv | pkg/composer/project.go:206-209 | "run-script", the script, then the arguments, with no "--" |
| Project.ArchiveProjectArgv | pkg/composer/project.go:258-271 | "--dir=" iff a directory is given, then "--format=" iff a format is given |
| Project.GetProjectInfo | pkg/composer/project.go:302-315 | the decoded info iff no error; a run failure or a decode failure gives an error and no info |
| Project.SimpleArgv | pkg/composer/project.go:116-338 | init, `run <script>` and `run-script --list` decode back to the call |
| Archive.ArchiveWithFormatArgv | pkg/composer/archive.go:51-53 | "archive", then exactly `--format=<format>` and `--dir=<destination>`, each with "=" even for an empty value, decoding back to their values |
| Archive.ArchiveArgv | pkg/composer/archive.go:24-26 | Archive is ArchiveWithFormat with "zip" |
| Archive.ArchiveWithOptionsArgv | pkg/composer/archive.go:82-94 | the dir flag right after "archive", then one flag per option; each option flag is `--key` for an empty value and `--key=value` otherwise, in the entries' order, and decodes back to its entry |
| Archive.ArchivePackageArgv | pkg/composer/archive.go:126-138 | the spec uses "=" and splits back, followed by exactly `--dir=<destination>`, "=" included for an empty destination |
| Archive.ArchivePackageWithOptionsArgv | pkg/composer/archive.go:173-193 | ArchivePackage's words, then one flag per option; each option flag is `--key` for an empty value and `--key=value` otherwise, in the entries' order, and decodes back to its entry |
| Global.Globally | pkg/composer/global.go:4-69 | "global" in front of the local command's words |
| Global.GlobalRequireArgv | pkg/composer/global.go:4-15 | "global" plus a non-dev require of the spec |
| Global.GlobalUpdateArgv | pkg/composer/global.go:18-24 | "global update" then the packages in order |
| Global.GlobalRemoveArgv | pkg/composer/global.go:27-30 | "global remove <name>" |
| Global.GlobalInstallArgv | pkg/composer/global.go:33-36 | "global install" |
| Global.GlobalListArgv | pkg/composer/global.go:39-41 | "global show" |
| Global.GlobalStatusArgv | pkg/composer/global.go:55-57 | "global status" |
| Global.GlobalExecuteArgv | pkg/composer/global.go:49-52 | "global exec <command>" then the arguments, no "--" |
| Global.GlobalDumpAutoloadArgv | pkg/composer/global.go:60-69 | "global dump-autoload" then "--optimize" iff optimize |
| Exec.ExecArgv | pkg/composer/exec.go:8-11 | "exec", the binary, then "--" even with no arguments, then the arguments |
| Exec.ExecPHPArgv | pkg/composer/exec.go:35-38 | "--php=<php>" right after "exec", the rest as Exec |
| Exec.ExecCommandArgv | pkg/composer/exec.go:81-84 | the command word followed by its arguments |
| Exec.ExecWithList | pkg/composer/exec.go:14-32 | the trimmed non-empty lines not starting with the header, in order; nil with Run's error on failure |
| Exec.ExecWithWorkingDir | pkg/composer/exec.go:41-53 | runs Exec with the given directory and leaves the client's directory as it was |
| Exec.ExecAll | pkg/composer/exec.go:57-77 | a failing listing is returned and nothing runs; otherwise each listed binary runs once and the result's keys are exactly the listed binaries, each with its output or "Error: " and the message |
| Lines.ListLines | pkg/composer/exec.go:22-30 | the loop builds exactly the listing of the output |
| Lines.ListedOfSpec | pkg/composer/platform.go:244-250 | a line is listed iff it is listable, as often as it occurs, in order |
| Diagnosis.FixedArgv | pkg/composer/diagnosis.go:4-73 | status, diagnose and check are one word each and told apart by it |
| Diagnosis.WithOptionsArgv | pkg/composer/diagnosis.go:9-89 | the command followed by one flag per option; each option flag is `--key` for an empty value and `--key=value` otherwise, in the entries' order, and decodes back to its entry |
| Diagnosis.LocalExecArgv | pkg/composer/diagnosis.go:46-49 | "exec", the command, then the arguments with no added "--" |
| Diagnosis.LocalExecWithOptionsArgv | pkg/composer/diagnosis.go:52-68 | "exec", the option flags, the command, then the arguments; each option flag is `--key` for an empty value and `--key=value` otherwise, in the entries' order, and decodes back to its entry |
| Config.ConfigArgv | pkg/composer/config.go:29-57 | "config", "--global" iff global, then the action's words; a well-formed command parses back |
| Config.GetConfigWithGlobal | pkg/composer/config.go:29-43 | the trimmed output, or "" with Run's error |
| Config.GetComposerHome | pkg/composer/config.go:14-20 | issues "config --global home" and reads it as GetConfigWithGlobal does |
| Config.SetConfigWithGlobalArgv | pkg/composer/config.go:46-57 | "config", "--global" iff global, then the setting and the value last |
| Config.ValidateComposerJsonArgv | pkg/composer/config.go:60-73 | "validate", "--strict" iff strict, then "--with-dependencies" iff requested, in that order |
| Config.FixedArgv | pkg/composer/config.go:8-78 | validate, clear-cache and check-platform-reqs are one word each and told apart by it |
| Validation.CheckForOutdatedPackagesArgv | pkg/composer/validate.go:29-45 | "outdated", "--direct" iff direct, "--minor-only" iff minor, then "--format" and the format as two words iff a format is given |
| Validation.ValidateWithOptionsArgv | pkg/composer/validate.go:53-65 | "validate" followed by one flag per option; each option flag is `--key` for an empty value and `--key=value` otherwise, in the entries' order, and decodes back to its entry |
| Validation.FixedArgv | pkg/composer/validate.go:4-50 | the strict, no-check, no-check-publish, check-version, platform-lock and schema variants decode back to themselves |
| Validation.AgreesWithValidateComposerJson | pkg/composer/validate.go:4-21 | ValidateStrict is ValidateComposerJson with only strict on, and ValidateWithCheckVersion is it with only with-dependencies on |
| Repositories.RepositoryKey | pkg/composer/repository.go:61-62 | the key "repositories.<name>" never looks like a flag |
| Repositories.AddRepository | pkg/composer/repository.go:59-68 | a marshalling failure is returned and nothing runs; otherwise one config write of the JSON under the key, "--global" iff global, and Run's error |
| Repositories.PresetRepository | pkg/composer/repository.go:143-282 | the helpers fill in the type and URL and leave the name empty; only the path helper carries options |
| Repositories.AddPreset | pkg/composer/repository.go:143-437 | each helper is AddRepository under its fixed or given name |
| Repositories.SetPreferredInstall | pkg/composer/repository.go:329-337 | only dist, source and auto are accepted; any other value gives an error naming it and issues nothing |
| Repositories.SetPreferStableArgv | pkg/composer/repository.go:641-650 | a config write of prefer-stable with "1" iff true and "0" otherwise |
| Repositories.RequestArgv | pkg/composer/repository.go:90-618 | the remove, list, enable, disable, get, set and unset methods issue the config command they stand for, global variants with "--global" right after "config" |
| Audit.AuditWithFormatArgv | pkg/composer/audit.go:140-142 | "audit" and exactly `--format=<format>`, with no validation and "=" even for an empty format, decoding back to the format |
| Audit.JsonArgvIsFormat | pkg/composer/audit.go:75-76 | AuditWithJSON's vector is AuditWithFormat with "json" |
| Audit.AuditWithJSON | pkg/composer/audit.go:75-87 | a result iff no error; Run's error, else the decoding error, else the decoded report |
| Audit.HasVulnerabilities | pkg/composer/audit.go:167-178 | true iff the decoded count is positive; an error mentioning "Found" and "vulnerabilities" answers true with no error; any other error gives false and that error |
| Audit.Selected | pkg/composer/audit.go:208-222 | exactly the vulnerabilities that pass the filter, in report order with multiplicities; nothing on error |
| Audit.GetHighSeverityVulnerabilities | pkg/composer/audit.go:208-222 | the filter keeps the "high" and "critical" entries |
| Audit.GetAbandonedPackages | pkg/composer/audit.go:328-342 | the filter keeps the abandoned entries |
| Audit.AuditWithOptionsArgv | pkg/composer/audit.go:250-262 | "audit" followed by one flag per option; each option flag is `--key` for an empty value and `--key=value` otherwise, in the entries' order, and decodes back to its entry |
| Audit.AuditLockArgv | pkg/composer/audit.go:293-298 | plain "audit" for an empty path, else the path as second word |
| Fund.FundWithFormatArgv | pkg/composer/fund.go:61-62 | "fund" and exactly `--format=<format>`, "=" included for an empty format, decoding back to the format |
| Fund.FormatArgvs | pkg/composer/fund.go:61-173 | FundWithJSON and HasFunding issue FundWithFormat with "json" and "text" |
| Fund.FundWithJSON | pkg/composer/fund.go:61-74 | a list iff no error; Run's error, else the decoding error, else the list |
| Fund.GetFundingURLs | pkg/composer/fund.go:131-147 | the keys are exactly the names of funded entries with URLs; a later entry with the same name wins |
| Fund.HasFunding | pkg/composer/fund.go:172-180 | true iff the text listing does not contain "No funding"; false with Run's error |
| Fund.FundWithPackageArgv | pkg/composer/fund.go:98-100 | "fund" and the package name |
| Fund.FundWithOptionsArgv | pkg/composer/fund.go:207-219 | "fund" followed by one flag per option; each option flag is `--key` for an empty value and `--key=value` otherwise, in the entries' order, and decodes back to its entry |
| Seqs.StoreAll | pkg/composer/fund.go:140-144 | storing extracted pairs one after the other gives the last-wins map |
| Seqs.CollectLastWins | pkg/composer/environment.go:136-144 | the stored map's keys are exactly the extracted keys and each holds the last value extracted for it |
| Platform.CheckArgv | pkg/composer/platform.go:49-110 | "check-platform", "--lock" iff the lock variant, then "--format=json" |
| Platform.RangeValues | pkg/composer/platform.go:61-63 | the values of the map along the visiting order of its keys it returns: each key exactly once, each position holding its key's value |
| Platform.CheckPlatform | pkg/composer/platform.go:49-110 | Run's error or the decoding error with no entries, else the values of the platform (or lock) section, one per key in some key order |
| Platform.FallbackArgv | pkg/composer/platform.go:162-168 | "check-platform" and `platform` or `platform:version`, which splits back |
| Platform.FindNamed | pkg/composer/platform.go:156-160 | the first entry with the name (no earlier entry has it), else none has it |
| Platform.IsPlatformAvailable | pkg/composer/platform.go:150-175 | a listed entry with the name answers its flag with no second command; otherwise the fallback check runs and answers true iff its output lacks "is not available"; failures give false and the error |
| Platform.VersionFromLines | pkg/composer/platform.go:202-210 | the second space-separated word of the first line starting with "PHP " (which always has one), and "" when no line starts so |
| Platform.GetPHPVersion | pkg/composer/platform.go:195-213 | "" with Run's error; else the second word of the first output line starting with "PHP ", or "" when there is none |
| Platform.PHPVersionOfBanner | pkg/composer/platform.go:203-208 | a banner "PHP <version> ..." on the first line yields the version |
| Platform.GetExtensions | pkg/composer/platform.go:236-253 | the listing under "Loaded extensions:", or nothing with Run's error |
| Platform.HasExtension | pkg/composer/platform.go:280-293 | true iff the extension is exactly one of the listed lines; false with Run's error |
| Versions.GetVersion | pkg/composer/version.go:26-40 | Run's error, else the third space-separated word, else an error quoting the output |
| Versions.VersionOfBanner | pkg/composer/version.go:34-37 | the third word is recovered whatever the first two are |
| VersionConstraints.FirstDigit | pkg/composer/version_constraints.go:45-46 | the first digit's position, with no digit before it |
| VersionConstraints.LeadingDigits | pkg/composer/version_constraints.go:48-50 | the longest run of digits at the front |
| VersionConstraints.MajorDigits | pkg/composer/version_constraints.go:45-50 | the major number's digit run is a non-empty run of digits |
| VersionConstraints.Decimal | pkg/composer/version_constraints.go:41 | decimal digits of n without leading zeros (only "0" starts with '0') |
| VersionConstraints.DecimalRoundTrip | pkg/composer/version_constraints.go:41 | reading back the decimal digits of n gives n |
| VersionConstraints.WrapInt64 | pkg/composer/version_constraints.go:49 | Go int arithmetic stays within 64 bits |
| VersionConstraints.TruncInt32 | pkg/composer/version_constraints.go:51 | rune() keeps 32 bits |
| VersionConstraints.RuneString | pkg/composer/version_constraints.go:51 | string(rune) is one character, the rune itself when it is a scalar value |
| VersionConstraints.IncrementMajorVersionAsWritten | pkg/composer/version_constraints.go:42-55 | the code as written returns one character, never the decimal text |
| VersionConstraints.AsWrittenCounterexample | pkg/composer/version_constraints.go:51 | "1.2" gives U+0002 as written and "2" as documented |
| VersionConstraints.DecimalValuePrefix | pkg/composer/version_constraints.go:48-50 | a prefix of a digit run never denotes more |
| VersionConstraints.WrappedValueSmall | pkg/composer/version_constraints.go:49 | while the number fits in an int, no step wraps |
| VersionConstraints.AsWrittenDisagrees | pkg/composer/version_constraints.go:51 | for every major number below 0xD7FF the as-written result differs from the documented one |
| VersionConstraints.IncrementMajorVersion | pkg/composer/version_constraints.go:40-55 | decimal text, without leading zeros, of the major number plus one, and "1" when there is no digit |
| VersionConstraints.FormatVersionConstraint | pkg/composer/version_constraints.go:21-38 | caret, tilde and wildcard decorate the version; range gives ">=v.0 <next.0.0"; exact and any unknown type keep it |
| VersionConstraints.UpdatePackageVersionArgv | pkg/composer/version_constraints.go:58-62 | a non-dev require of the formatted constraint |
| VersionConstraints.LockPackageVersionArgv | pkg/composer/version_constraints.go:65-67 | the exact type, so the version as given |
| VersionConstraints.GetPackageVersionsArgv | pkg/composer/version_constraints.go:70-72 | "show --all <package>" |
| Environment.Entry | pkg/composer/environment.go:137-142 | a line gives an entry iff it contains ':' |
| Environment.InfoSpec | pkg/composer/environment.go:136-144 | the keys are exactly those of lines with ':', and a repeated key keeps its last value |
| Environment.EntryOfLine | pkg/composer/environment.go:137-142 | only the first ':' splits, both halves trimmed, so values may contain ':' |
| Environment.EmptyOutput | pkg/composer/environment.go:135-146 | empty output gives an empty map |
| Environment.GetEnvironmentInfo | pkg/composer/environment.go:128-147 | no map with Run's error, else the parsed map |
| GoMaps.Put | pkg/composer/composer_json.go:191-198 | a nil map is made before the store; the key is set and all other keys are kept |
| GoMaps.Delete | pkg/composer/composer_json.go:236-244 | a nil map stays nil; otherwise only the key goes |
| ComposerJson.AddRequire | pkg/composer/composer_json.go:184-203 | the chosen section (made if nil) maps the package to the version; the other section and all other fields are unchanged |
| ComposerJson.RemoveRequire | pkg/composer/composer_json.go:229-246 | only the package leaves only the chosen section; a nil section stays nil |
| ComposerJson.RemoveAfterAdd | pkg/composer/composer_json.go:184-246 | removing what was added leaves the section without the package and every other field as before |
| ComposerJson.RemoveAbsent | pkg/composer/composer_json.go:229-246 | removing an absent package changes nothing |
| ComposerJson.AddScript | pkg/composer/composer_json.go:277-298 | the script is set; its description only when non-empty, else existing descriptions stay |
| ComposerJson.RemoveScript | pkg/composer/composer_json.go:318-335 | the name leaves both scripts and descriptions; nil maps stay nil |
| ComposerJson.RemoveScriptAfterAdd | pkg/composer/composer_json.go:277-335 | after add then remove, neither map holds the name |
| ComposerJson.AddAutoload | pkg/composer/composer_json.go:363-396 | refused with "invalid autoload configuration" iff the existing entry is not a map; otherwise the namespace maps to the paths in the chosen section |
| ComposerJson.SetConfig | pkg/composer/composer_json.go:421-433 | the config map (made if nil) gains the key; other fields unchanged |
| ComposerJson.ConfigValue | pkg/composer/composer_json.go:468-478 | null when config is nil or the key is absent |
| ComposerJson.ConfigAfterSet | pkg/composer/composer_json.go:421-478 | a set key reads back its value and other keys read as before |
| ComposerJson.SetProperty | pkg/composer/composer_json.go:532-575 | refused iff the property is not one of the eight supported; a wrong-typed value changes nothing; an accepted value reads back; other properties and fields are unchanged |
| ComposerJson.Apply | pkg/composer/composer_json.go:184-575 | only the autoload and property edits can fail |
| ComposerJson.Location | pkg/composer/composer_json.go:84-96 | composer.json under the working dir, else under the current directory |
| ComposerJson.ReadComposerJSON | pkg/composer/composer_json.go:78-113 | the mock is returned when set; otherwise a location error is returned as is, a missing file is ErrComposerJsonNotFound, an unreadable file gives its read error, an undecodable one its decoding error, and a readable, decodable file gives exactly the decoded document |
| ComposerJson.WriteComposerJSON | pkg/composer/composer_json.go:136-157 | fails iff the location or encoding fails, leaving the world unchanged; otherwise the file holds the encoding |
| ComposerJson.Mutate | pkg/composer/composer_json.go:184-203 | a failed read or edit returns its error and writes nothing; otherwise the edited document is written |
| ComposerJson.GetConfig | pkg/composer/composer_json.go:468-478 | the read error, or the config value |
| ComposerJson.MockEditVisible | pkg/composer/composer_json.go:80-82 | with a mock set, an edit is visible to the next read |
| ComposerJson.FileEditVisible | pkg/composer/composer_json.go:78-157 | after a successful file edit, reading gives the edited document when decoding inverts encoding |
| ComposerJson.GetConfigAfterSetConfig | pkg/composer/composer_json.go:421-478 | SetConfig then GetConfig returns the value |
| OAuth.AuthTypeNames | pkg/composer/oauth.go:170-193 | the five type names parse back to their types and nothing else parses |
| OAuth.WithSection | pkg/composer/oauth.go:12-20 | replacing one section leaves the others and the unreachable fields unchanged |
| OAuth.StoredValue | pkg/composer/oauth.go:114-161 | bitbucket stores consumer:token and http-basic username:password, both split back at the first ':'; the others store the token |
| OAuth.AddTo | pkg/composer/oauth.go:82-161 | one domain is set in the credential's section (made if nil); other sections unchanged |
| OAuth.RemoveFrom | pkg/composer/oauth.go:170-190 | only the domain leaves only that section; a nil section stays nil |
| OAuth.TokenOf | pkg/composer/oauth.go:205-230 | the stored string, or "" for a nil section or an absent domain |
| OAuth.TokenAfterAdd | pkg/composer/oauth.go:82-231 | after adding, the domain reads back the stored value and every other token reads as before |
| OAuth.TokenAfterRemove | pkg/composer/oauth.go:164-231 | after removing, the domain reads "" |
| OAuth.GetAuthConfig | pkg/composer/oauth.go:26-54 | the home lookup's error, an empty config when auth.json is absent; otherwise the read error or the decoding error with no config, and for a readable, decodable file exactly the decoded config with no error |
| OAuth.SaveAuthConfig | pkg/composer/oauth.go:57-79 | succeeds iff the home lookup and the encoding succeed, writing auth.json under the home; an error writes nothing |
| OAuth.AddCredential | pkg/composer/oauth.go:82-161 | the read error is returned unsaved; otherwise the config with the credential added is saved |
| OAuth.RemoveToken | pkg/composer/oauth.go:164-196 | the read error first; an unknown type is ErrInvalidAuthType and saves nothing; otherwise the config without the domain is saved |
| OAuth.GetToken | pkg/composer/oauth.go:199-231 | the read error, ErrInvalidAuthType for an unknown type, else the stored token or "" |
| OAuth.ReadAfterSave | pkg/composer/oauth.go:26-79 | reading after a save gives a config with the same tokens |
| OAuth.GetTokenAfterAdd | pkg/composer/oauth.go:82-231 | GetToken after a successful Add returns the stored string |
| OAuth.GetTokenAfterRemove | pkg/composer/oauth.go:164-231 | GetToken after a successful RemoveToken returns "" |
| Satis.NewSatisConfig | pkg/composer/satis.go:30-38 | name and homepage as given, no repositories, output "public", require-all on, the rest zero |
| Satis.CreateSatisConfig | pkg/composer/satis.go:30-54 | fails iff encoding fails, writing nothing; otherwise the file holds the new configuration |
| Satis.InitSatisPath | pkg/composer/satis.go:96-109 | satis.json in the directory, "satis/satis.json" when none is given |
| Satis.InitSatis | pkg/composer/satis.go:96-109 | fails, writing nothing, iff encoding the new configuration fails; otherwise only `<dir>/satis.json` ("satis" when dir is empty) changes and loads back as the new configuration when decoding inverts encoding |
| Satis.BuildSatisArgv | pkg/composer/satis.go:88-93 | "satis build <config>" and the output dir iff non-empty |
| Satis.BuildSatis | pkg/composer/satis.go:88-93 | Run's output and error as they are |
| Satis.AddRepository | pkg/composer/satis.go:70-75 | one {type, url} entry appended and the earlier entries kept in order |
| Satis.WithStability | pkg/composer/satis.go:138 | only the minimum stability changes |
| Satis.WithArchive | pkg/composer/satis.go:163-176 | directory "dist", the format or "zip", skip-dev false, the archive's other entries kept |
| Satis.WithRequire | pkg/composer/satis.go:202-207 | the package maps to the version and require-all is off |
| Satis.Load | pkg/composer/satis.go:58-67 | a missing file is a no-such-file error, an unreadable file gives its read error, an undecodable one its decoding error, and a readable, decodable file gives exactly the decoded configuration |
| Satis.Update | pkg/composer/satis.go:57-217 | a load or encoding error writes nothing; otherwise the edited configuration is written back |
| Satis.UpdateSatisStability | pkg/composer/satis.go:112-148 | an unknown stability is refused before the file is read; a known one is written |
| Satis.UpdateReadsBack | pkg/composer/satis.go:57-217 | after an update, the file loads back as the edited configuration and other files are untouched |
| Satis.CreateReadsBack | pkg/composer/satis.go:30-54 | a created file loads back as the new configuration |
| Licenses.LicensesWithFormatArgv | pkg/composer/licenses.go:9-11 | "licenses" and exactly `--format=<format>`, with no validation and "=" even for an empty format |
| Licenses.LicensesWithOptionsArgv | pkg/composer/licenses.go:14-27 | "licenses" followed by one flag per option; no options gives plain "licenses"; each option flag is `--key` for an empty value and `--key=value` otherwise, in the entries' order, and decodes back to its entry |
| Completion.GenerateCompletionArgv | pkg/composer/completion.go:16-18 | "completion" and the shell |
| Completion.GenerateCompletionWithOptionsArgv | pkg/composer/completion.go:21-34 | "completion", the shell, then one flag per option; each option flag is `--key` for an empty value and `--key=value` otherwise, in the entries' order, and decodes back to its entry |
| Completion.GetCommandHelpArgv | pkg/composer/completion.go:42-44 | "help" and the command |
| Detector.NewDetector | pkg/detector/detector.go:23-27 | the platform paths followed by ./composer and ./composer.phar |
| Detector.SetPossiblePaths | pkg/detector/detector.go:30-32 | the list is replaced exactly |
| Detector.AddPossiblePath | pkg/detector/detector.go:35-37 | the path is appended and the earlier paths stay in place |
| Detector.FirstIn | pkg/detector/detector.go:49-54 | the first executable path of a list, or none is executable |
| Detector.FirstInAppend | pkg/detector/detector.go:41-74 | searching a concatenation searches the left part first |
| Detector.Detect | pkg/detector/detector.go:41-74 | the first executable of COMPOSER_PATH, the possible paths in order, then the trimmed lookup output; none found iff no candidate is executable |
| Detector.IsInstalled | pkg/detector/detector.go:77-80 | installed iff some candidate is executable |

## Left out

- Process execution: `exec.CommandContext`, `CombinedOutput` and context deadlines are a `Process` oracle; timeouts and cancellation are not modelled, only the deadline value passed along.
- `RunWithTimeout` and `RunWithContext` with a caller's context: the context is only the deadline value.
- JSON encoding and decoding are oracle parameters (`Codec`, `Decoder`, `Encoder`). Their `omitempty` effects (for example require-all false being dropped from satis.json) are not modelled.
- File writes: `os.MkdirAll` and `os.WriteFile` are taken to succeed, so a write error is never produced.
- `filepath.Join` is modelled as joining with "/" without cleaning the path.
- The process-environment setters and `GetComposerPath` in pkg/composer/environment.go:46-125 change global process state (`os.Setenv`, `exec.LookPath`) and are not modelled.
- The per-OS path lists of pkg/detector are an opaque `platformPaths` parameter.
- Go map iteration order: option maps are sequences in one iteration order; facts that hold for every order are stated as multisets of flags.
- The mutex around the mock table is concurrency plumbing; the table is a plain map.
- `SetMockComposerJSON` and `ClearMockComposerJSON` are the `mock` field of `ComposerJson.World`.
- `gitlab-token` and `aws-access-key` in auth.json: no method reads or writes them, so `OAuth` only carries them along unchanged.
- The pass-through methods that return Run's result unchanged (for example `Audit`, `Fund`, `Licenses`, `ListCommands`, `SelfUpdate`, `GlobalHome`, `ListRepositories`) are `Core.Invoke` on a constant vector such as `Audit.WithoutDevArgv` or `Licenses.CheckArgv`; constants carry no contract of their own.
- `VersionConstraints.FormatVersionConstraint` uses the corrected `IncrementMajorVersion`; the code as written is `IncrementMajorVersionAsWritten` (see Findings).

## Findings

| source | as written | input that shows it | evidently intended | confidence | as-written member | corrected member |
|---|---|---|---|---|---|---|
| pkg/composer/version_constraints.go:51 | `string(rune(major + 1))` turns the incremented major number into the single character with that code point | `incrementMajorVersion("1.2")` gives U+0002, so the range constraint for "1.2" is `>=1.2.0 <\u0002.0.0` | the decimal text of major + 1 ("1.2" gives "2"), as the function's doc comment shows | not executed | VersionConstraints.IncrementMajorVersionAsWritten | VersionConstraints.IncrementMajorVersion |
