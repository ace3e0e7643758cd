# cargo-flatpak: verified model of the CLI harness and home-relative paths

`cargo-flatpak` is meant to become a cargo subcommand. Today it has a small
command-line harness and a few path helpers. It parses its global flags; a
parse error is handed to `clap`, which exits before logging is set up.
Otherwise it gives the logger a default filter chosen by the `-v` count,
which a set `RUST_LOG` overrides, and runs the command. A failing command
would print its labelled report and exit with that report's code. This
binary's command is empty and never fails, so a run that parses its
arguments prints no report and exits with status 0. The `--version` text
may name the commit recorded in `~/.cargo-flatpak/commit`.

This Dafny project models that behaviour as datatypes and total functions,
with lemmas about them:

- `Cli` (src/util/cli.rs). Labels (`error`, `action request`, `victory`) with
  their colours and exit codes. Reports and their smart constructors. Which
  stream `print` writes to. The default log filter for a verbosity. The long version string.
  The `Exit` lifecycle: `report`, `do_the_thing`, `main` and the generic `exec`.
- `CargoFlatpak` (src/bin/cargo-flatpak.rs). The binary's `Error` type and its
  reports. Its `Exec` implementation and the run of the binary.
- `Paths` (src/util/path.rs). `expand_home`, `contract_home`, `install_dir`,
  `checkouts_dir` and `tools_dir`. The home directory is a parameter
  (`home::home_dir()` is an `Option`), and so is the build target
  (Unix or Windows).
- `Util` (src/util/mod.rs). `installed_commit_msg`, over a file-system oracle
  (`is_file`, `read_to_string`), and `format_commit_msg`.
- Rust standard-library behaviour these rely on is modelled beside them:
  - `RustStd`: platform strings whose units are characters or invalid bytes,
    `to_str`, paths as component sequences, `join`, and `io::Error` as its text.
  - `StrReplace`: `str::replace`.
  - `DebugFmt`: the `{:?}` quoting of `String` and `PathBuf`, with a reader
    that undoes it.

With no `-v`, the default log filter is `warn`.

A parse error never becomes `Exit::Clap` on the way through `exec`.
`E::parse()` hands it to `clap`, which exits at once, before logging is set
up. `Cli.Exec` models exactly that.

The `Report` field that Rust calls `label` is called `kind` here, because
`label` is a reserved word in Dafny.

## Model

| member | source | states |
|---|---|---|
| `Cli.BinName` | src/util/cli.rs:7-9 | the binary name is `cargo ` followed by the given name, which can be read back from it |
| `Cli.VersionShort` | src/util/cli.rs:11 | the short version is `v` followed by the package version |
| `Cli.VersionLong` | src/util/cli.rs:13-20 | the long version starts with the short one; it is longer exactly when a commit message was found, and then the rest is a newline and that formatted message |
| `Cli.VersionWithoutCommitFile` | src/util/cli.rs:13-15 | with no commit file (or no home directory), `--version` shows the short version unchanged |
| `Cli.Label.Color` | src/util/cli.rs:71-94 | Error is bright red, ActionRequest bright magenta, Victory bright green; no label uses the warning colour |
| `Cli.Label.ExitCode` | src/util/cli.rs:96-101 | the exit code is 0 exactly for Victory, and 1 otherwise |
| `Cli.Label.AsStr` | src/util/cli.rs:103-109 | the names are `error`, `action request` and `victory` |
| `Cli.LabelsDistinguishable` | src/util/cli.rs:88-109 | two labels have the same name, or the same colour, only when they are the same label |
| `Cli.Report.New` | src/util/cli.rs:120-126 | the report stores the label, message and details it is given |
| `Cli.Report.Error` | src/util/cli.rs:128-130 | the report is labelled Error, keeps message and details, and has exit code 1 |
| `Cli.Report.ActionRequest` | src/util/cli.rs:132-134 | the report is labelled ActionRequest, keeps message and details, and has exit code 1 |
| `Cli.Report.Victory` | src/util/cli.rs:136-138 | the report is labelled Victory, keeps message and details, and has exit code 0 |
| `Cli.Report.ExitCode` | src/util/cli.rs:140-142 | the report's exit code is its label's, so it is 0 exactly for a victory |
| `Cli.Report.Head` | src/util/cli.rs:158 | the uncoloured head line is the label's name, `: ` and the message |
| `Cli.Report.Format` | src/util/cli.rs:144-165 | the text is the wrapped head line, a newline, the details wrapped with the four-space indent, and a final newline |
| `Cli.Report.Print` | src/util/cli.rs:167-174 | the formatted report goes to standard error exactly when the label is Error, and to standard output otherwise |
| `Cli.InitLogging` | src/util/cli.rs:189-195 | the default filter is `warn` for a count of 0, the info-level filter for 1, and the debug-level filter for 2 and more |
| `Cli.LoggingTiers` | src/util/cli.rs:191-195 | two counts select the same default filter exactly when they are equal or both at least 2 (three tiers, the last one saturating) |
| `Cli.ExitReport` | src/util/cli.rs:207-210 | `Exit::report` carries the report the error produces |
| `Cli.DoTheThing` | src/util/cli.rs:212-220 | a report is printed (stream chosen by its label) and the process exits with the label's code; a clap error is left to clap, and no report is printed |
| `Cli.Main` | src/util/cli.rs:222-228 | nothing happens when the inner step succeeds; otherwise its `Exit` is carried out with the same wrapping options |
| `Cli.Exec` | src/util/cli.rs:231-238 | a parse error ends the run before logging is set up; otherwise the logger's default filter is the one chosen by the `-v` count, and the run ends early exactly when the command fails, printing the error's report with its exit code |
| `Cli.ExecStatus` | src/util/cli.rs:212-238 | a run that reaches the command exits with 0 exactly when the command succeeds or reports a victory; an error report exits with 1 on standard error |
| `CargoFlatpak.Error.Report` | src/bin/cargo-flatpak.rs:41-62 | every error becomes an Error-labelled report with exit code 1 and the I/O error's text as details; the message is `Failed to create directory ` or `Failed to change current directory ` followed by the quoted path, which reads back to the path's text |
| `CargoFlatpak.ReportDistinguishesErrors` | src/bin/cargo-flatpak.rs:45-51 | two errors with the same report agree on the operation, the path's text and the I/O error |
| `CargoFlatpak.GlobalFlags` | src/bin/cargo-flatpak.rs:67-69 | the parsed flags are returned unchanged |
| `CargoFlatpak.Exec` | src/bin/cargo-flatpak.rs:71-73 | execution always succeeds |
| `CargoFlatpak.Main` | src/bin/cargo-flatpak.rs:64-78 | a run of the binary never prints a report: after a successful parse it gives the logger the default filter chosen by `-v` and exits with 0, otherwise clap ends it |
| `Paths.HomeDir` | src/util/path.rs:12-14 | the home directory when there is one, `NoHomeDir` otherwise |
| `Paths.ExpandHome` | src/util/path.rs:16-24 | fails with `NoHomeDir` whenever there is no home directory, even without `~`; a first component exactly `~` becomes home joined with the rest; any other path is returned unchanged |
| `Paths.ExpandHomeTilde` | src/util/path.rs:19-20 | for a well-formed path starting with `~`, the result is home followed by the remaining components |
| `Paths.ExpandHomeKeepsTildePrefixedName` | src/util/path.rs:19-22 | a first component that only begins with `~` (such as `~foo`) is not expanded |
| `Paths.ContractHome` | src/util/path.rs:36-51 | a path that is not valid UTF-8 fails with `PathInvalidUtf8` before home is consulted; on Windows the text is returned unchanged; on Unix a missing home gives `NoHomeDir` and a non-UTF-8 home gives `HomeInvalidUtf8` |
| `Paths.ContractHomeUnix` | src/util/path.rs:41-46 | on Unix, a UTF-8 path with a UTF-8 home contracts to its text with home replaced by `~` throughout |
| `Paths.ContractHomeReplacesEveryOccurrence` | src/util/path.rs:43-45 | on Unix the result is the path's gaps between the matches of home found left to right, joined by `~`; no copied gap holds the start of a match |
| `Paths.ContractExpandedHome` | src/util/path.rs:16-46 | expanding `~/rest` and contracting the result gives back `~/rest` when the text of `/rest` holds no occurrence of home |
| `Paths.ContractHomeRewritesSibling` | src/util/path.rs:43-45 | with home `/h`, the path `/hx`, which is not under home, contracts to `~x` |
| `Paths.ContractHomePrefix` | src/util/path.rs:36-51 | intended contraction: a path under home has the home components replaced by `~`, any other path is kept |
| `Paths.ExpandContractHomePrefix` | src/util/path.rs:16-24 | for absolute paths and an absolute home, `expand_home` undoes the intended contraction |
| `Paths.InstallDir` | src/util/path.rs:53-55 | fails exactly when home is missing; otherwise it is home joined with `.cargo-flatpak` |
| `Paths.CheckoutsDir` | src/util/path.rs:57-59 | fails exactly when home is missing; otherwise it is the install directory joined with `checkouts` |
| `Paths.ToolsDir` | src/util/path.rs:61-63 | fails exactly when home is missing; otherwise it is the install directory joined with `tools` |
| `Paths.InstallLayout` | src/util/path.rs:53-63 | the install directory is one level below home, and the checkouts and tools directories are distinct children of it |
| `Util.InstalledCommitMsgError.Message` | src/util/mod.rs:14-20 | the error texts: the home message, or the read-failure message: the prefix, the quoted path (which reads back to the path's text), `: ` and the I/O error's text, and nothing else |
| `Util.InstalledCommitMsg` | src/util/mod.rs:22-31 | no home gives `NoHomeDir`; if the commit file is not a file the result is `Ok(None)`; a successful read gives `Ok(Some(contents))`; a failed read gives `ReadFailed` carrying the commit file's path |
| `Util.CommitPathLayout` | src/util/mod.rs:23 | the commit file is `commit` inside `.cargo-flatpak` inside home |
| `Util.InstalledCommitMsgLooksOnlyAtCommitFile` | src/util/mod.rs:23-30 | two file systems that agree on the commit file give the same result |
| `Util.FormatCommitMsg` | src/util/mod.rs:33-35 | the text is `Contains commits up to ` followed by the quoted message, which reads back to the message |
| `Util.FormatCommitMsgInjective` | src/util/mod.rs:33-35 | distinct commit messages are formatted differently |
| `StrReplace.Replace` | src/util/path.rs:45 | replacing the pattern by text of the same length keeps the length, and replacing it by itself changes nothing |
| `StrReplace.ReplaceSpec` | src/util/path.rs:45 | `replace` with a non-empty pattern splits the input into gaps between matches found left to right without overlap; no gap holds a match start; the result is the gaps joined by the replacement |
| `StrReplace.GapsUnique` | src/util/path.rs:45 | the gaps are determined by the two facts `ReplaceSpec` states: any gaps that splice back to the input and hold no match start are its gaps |
| `StrReplace.ReplaceNoMatch` | src/util/path.rs:45 | text with no occurrence of the pattern is returned unchanged |
| `StrReplace.ReplaceLeadingMatch` | src/util/path.rs:45 | text that starts with the pattern starts with the replacement, and the scan continues after the match |
| `StrReplace.ReplaceEmptyGaps` | src/util/path.rs:44-45 | with an empty pattern (an empty home text) the result is an empty gap, each character as a gap of its own and a final empty gap, joined by the replacement |
| `DebugFmt.QuoteStr` | src/util/mod.rs:34 | the Debug form of a `String` reads back to that string |
| `DebugFmt.QuotePath` | src/bin/cargo-flatpak.rs:46 | the Debug form of a path reads back to the path's text |
| `DebugFmt.Quote` | src/bin/cargo-flatpak.rs:46-49 | the Debug form is a double-quoted literal that reads back to the platform string, in both the `String` and the `OsStr` style |
| `DebugFmt.QuoteStrInjective` | src/util/mod.rs:34 | distinct strings have distinct Debug forms |
| `RustStd.ToStr` | src/util/path.rs:37-40 | `to_str` succeeds exactly when every unit is a character, and then gives back the same text |
| `RustStd.ToStrFromStr` | src/util/path.rs:44 | converting a string to a platform string and back gives the same string |
| `RustStd.Join` | src/util/path.rs:20 | joining an absolute path replaces the base; joining a relative path appends its components |
| `RustStd.RenderAppend` | src/util/path.rs:20 | the text of a path with components appended is the path's text, `/`, and the appended components' text |

## Findings

| source | as written | input that shows it | evidently intended | confidence | as-written member | corrected member |
|---|---|---|---|---|---|---|
| src/util/path.rs:43-45 | `contract_home` replaces every occurrence of the home directory's text with `~`, wherever it occurs, even inside a longer component | home `/h`, path `/hx` (a sibling of home) gives `~x` | replace home only when it is a leading run of whole components, so that `expand_home` undoes it | medium, not executed | `Paths.ContractHomeRewritesSibling` | `Paths.ContractHomePrefix`, with `Paths.ExpandContractHomePrefix` |

Nothing calls `contract_home` in this repository, so the corrected definition
stands alone.

## Left out

- Colour (`colored` and the `SHOULD_COLORIZE` probe) is not modelled. `Cli.Report.Format` is the plain-text branch of `Report::format`.
- Text wrapping (`textwrap`, the terminal width) is the parameter `Wrap`, a `fill(text, indent)` function.
- Logger set-up (`env_logger`) and the `log::` lines are left out. `Cli.Exec` returns the default filter it would give the logger.
- Cli.Exec: a set `RUST_LOG` replaces the default filter (`default_filter_or`); that override is not modelled, so the run's filter is only its default.
- The error that `VERSION_LONG` logs is left out too. `Cli.VersionLong` is a function of the lookup result, and the `Lazy` cell is not modelled.
- Argument parsing by `clap` is left out: `GlobalFlags`, `SkipDevTools`, `ReinstallDeps` and the `#[arg]`/`#[command]` attributes. `clap` also caps the `-v` count.
- A parse error is a `Cli.ClapError` value: what `clap` prints and the status it exits with.
- `print!`, `eprint!` and `std::process::exit` are returned values (`Cli.Output`, `Cli.Termination`).
- `home::home_dir()` is a parameter. The file system is an oracle (`Util.FileSystem`). The build target (`#[cfg(windows)]`) is a parameter.
- `CARGO_PKG_VERSION` is a parameter. `CARGO_PKG_NAME` is taken to be `cargo-flatpak`, the binary's name; Cargo.toml is not part of this model.
- Paths are component sequences without Windows prefixes. `RustStd.Render` writes them with single `/` separators and no trailing separator, so the text of a home directory given with a trailing `/` is not modelled. Nor is the trailing `/` that `expand_home("~")` gets from `home.join("")`: the model's text for that result is home's text without it. The two paths are equal as Rust compares paths, component by component, but their texts differ when the result is quoted or contracted.
- `colored::Color` has more colours than the four the labels use. Only those four are modelled.
- DebugFmt.QuoteStr: it does not escape characters that Rust's Debug writes as `\u{…}` (non-printable and grapheme-extending characters). It writes them as they are.
- DebugFmt.QuotePath: the same limitation as `QuoteStr`.
- DebugFmt.Quote: the same limitation. It is the member that writes those characters unescaped, in both styles. `DebugFmt.Unquote` does not read Rust's `\u{…}` form either.
- `io::Error` is modelled by its `Display` text only.
- A platform string is a sequence of characters and stray bytes. Only values in which no run of `Invalid` units forms valid UTF-8 stand for real byte strings. The bytes of `é`, for example, must be written `Char('é')`, not as two `Invalid` units; `ToStr` and `Quote` treat the latter as invalid bytes.
- Commented-out code (other subcommands, error variants, `Profile`, `Filter`) has no behaviour and is not modelled.
