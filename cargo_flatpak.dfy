/**
 * The `cargo-flatpak` binary (src/bin/cargo-flatpak.rs): its input, its
 * error type and how each error is reported, run through the harness.
 */
module CargoFlatpak {
  import opened Wrappers
  import opened RustStd
  import opened DebugFmt
  import Cli

  /** The parsed command line: only the global flags. */
  datatype Input = Input(flags: Cli.GlobalFlags)

  const CreateFailedPrefix: string := "Failed to create directory "
  const ChangeFailedPrefix: string := "Failed to change current directory "

  /** The errors a command of this binary can fail with. */
  datatype Error =
    | DirCreationFailed(path: PathBuf, source: IoError)
    | DirChangeFailed(path: PathBuf, source: IoError)
  {
    /** `Reportable::report`: an error-labelled report whose message names
        the operation and the quoted path, and whose details are the I/O
        error's text. */
    function Report(): (r: Cli.Report)
      ensures r.kind == Cli.Label.Error && r.ExitCode() == 1
      ensures r.details == source.message
      ensures DirCreationFailed? ==>
        && |r.msg| > |CreateFailedPrefix| && r.msg[..|CreateFailedPrefix|] == CreateFailedPrefix
        && Unquote(r.msg[|CreateFailedPrefix|..]) == Some(Render(path))
      ensures DirChangeFailed? ==>
        && |r.msg| > |ChangeFailedPrefix| && r.msg[..|ChangeFailedPrefix|] == ChangeFailedPrefix
        && Unquote(r.msg[|ChangeFailedPrefix|..]) == Some(Render(path))
    {
      match this
      case DirCreationFailed(path, source) =>
        var msg := CreateFailedPrefix + QuotePath(path);
        assert msg[|CreateFailedPrefix|..] == QuotePath(path);
        Cli.Report.Error(msg, source.message)
      case DirChangeFailed(path, source) =>
        var msg := ChangeFailedPrefix + QuotePath(path);
        assert msg[|ChangeFailedPrefix|..] == QuotePath(path);
        Cli.Report.Error(msg, source.message)
    }
  }

  /** The report says which operation failed, on which path text and why:
      two errors with the same report agree on all three. */
  lemma {:induction false} ReportDistinguishesErrors(a: Error, b: Error)
    requires a.Report() == b.Report()
    ensures a.DirCreationFailed? <==> b.DirCreationFailed?
    ensures Render(a.path) == Render(b.path) && a.source == b.source
  {
  }

  /** `Exec::global_flags`: the parsed flags, unchanged. */
  function GlobalFlags(input: Input): (f: Cli.GlobalFlags)
    ensures f == input.flags
  {
    input.flags
  }

  /** `Exec::exec`: no command is implemented, so execution always succeeds. */
  function Exec(input: Input, wrap: Cli.Wrap): (r: Result<Unit, Error>)
    ensures r.Success?
  {
    Success(Unit)
  }

  /** `main`: the harness run over this binary's input. The binary never
      prints a report: after a successful parse it gives the logger the
      default filter for the `-v` count and exits with status 0; otherwise
      `clap` ends it. */
  function Main(parsed: Result<Input, Cli.ClapError>, wrap: Cli.Wrap): (run: Cli.Run)
    ensures parsed.Success? ==>
      && run.defaultFilter == Some(Cli.InitLogging(parsed.value.flags.verbose))
      && run.end.None? && run.Status() == 0
    ensures parsed.Failure? ==> run.defaultFilter.None? && run.end == Some(Cli.ParserExited(parsed.error))
    ensures run.end.None? || !run.end.value.Reported?
  {
    Cli.Exec(parsed, GlobalFlags, Exec, (e: Error) => e.Report(), wrap)
  }
}
