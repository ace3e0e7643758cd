/**
 * The command-line harness (src/util/cli.rs): outcome labels, reports, the
 * verbosity filter, the long version string and the run-and-exit
 * lifecycle. Printing and exiting are returned as values; text wrapping is
 * the parameter `wrap`.
 */
module Cli {
  import opened Wrappers
  import Util
  import RustStd

  /** `bin_name`: the name the binary is invoked by, as a cargo subcommand. */
  function BinName(name: string): (r: string)
    ensures |r| == |name| + 6 && r[..6] == "cargo " && r[6..] == name
  {
    "cargo " + name
  }

  /** `VERSION_SHORT`: `v` followed by the package version. */
  function VersionShort(pkgVersion: string): (r: string)
    ensures |r| == |pkgVersion| + 1 && r[0] == 'v' && r[1..] == pkgVersion
  {
    "v" + pkgVersion
  }

  /** `VERSION_LONG`: it always begins with the short version, and it is
      longer exactly when the lookup found an installed commit message; then
      a newline follows, and after it the formatted message. When there is
      no commit file, or the lookup failed, it is the short version alone. */
  function VersionLong(pkgVersion: string, lookup: Result<Option<string>, Util.InstalledCommitMsgError>): (r: string)
    ensures var short := VersionShort(pkgVersion);
      && |r| >= |short| && r[..|short|] == short
      && (|r| > |short| <==> lookup.Success? && lookup.value.Some?)
      && (lookup.Success? && lookup.value.Some? ==>
            r[|short|] == '\n' && r[|short| + 1..] == Util.FormatCommitMsg(lookup.value.value))
  {
    match lookup
    case Success(Some(msg)) =>
      NewlineJoin(VersionShort(pkgVersion), Util.FormatCommitMsg(msg));
      VersionShort(pkgVersion) + "\n" + Util.FormatCommitMsg(msg)
    case Success(None) => VersionShort(pkgVersion)
    case Failure(_) => VersionShort(pkgVersion)
  }

  /** Where the two lines of `a + "\n" + b` lie. */
  lemma {:induction false} NewlineJoin(a: string, b: string)
    ensures var m := a + "\n" + b;
      && |m| == |a| + 1 + |b|
      && m[..|a|] == a && m[|a|] == '\n' && m[|a| + 1..] == b
  {
    var m := a + "\n" + b;
    assert m == a + ("\n" + b);
  }

  /** With no commit file under the install directory, or no home directory,
      `--version` prints the short version unchanged. */
  lemma {:induction false} VersionWithoutCommitFile(pkgVersion: string, home: Option<RustStd.PathBuf>, fs: Util.FileSystem)
    requires home.None? || !fs.isFile(Util.CommitPath(home.value))
    ensures VersionLong(pkgVersion, Util.InstalledCommitMsg(home, fs)) == VersionShort(pkgVersion)
  {
  }

  /** An unsigned 8-bit integer. */
  type U8 = x: int | 0 <= x < 256

  /** `GlobalFlags`: the `-v` count and `-y`. */
  datatype GlobalFlags = GlobalFlags(verbose: U8, nonInteractive: bool)

  /** The colours of `colored` that the labels use. */
  datatype Color = BrightRed | BrightYellow | BrightMagenta | BrightGreen

  const ErrorColor: Color := BrightRed
  const WarningColor: Color := BrightYellow
  const ActionRequestColor: Color := BrightMagenta
  const VictoryColor: Color := BrightGreen

  /** The kind of outcome a report announces. */
  datatype Label = Error | ActionRequest | Victory {

    /** `Label::color`. No label is shown in the warning colour. */
    function Color(): (c: Color)
      ensures c != WarningColor
      ensures Error? ==> c == ErrorColor
      ensures ActionRequest? ==> c == ActionRequestColor
      ensures Victory? ==> c == VictoryColor
    {
      match this
      case Error => ErrorColor
      case ActionRequest => ActionRequestColor
      case Victory => VictoryColor
    }

    /** `Label::exit_code`: 0 exactly for a victory, 1 otherwise. */
    function ExitCode(): (code: int)
      ensures code == 0 <==> Victory?
      ensures code == 0 || code == 1
    {
      match this
      case Victory => 0
      case _ => 1
    }

    /** `Label::as_str`. */
    function AsStr(): (s: string)
      ensures Error? ==> s == "error"
      ensures ActionRequest? ==> s == "action request"
      ensures Victory? ==> s == "victory"
    {
      match this
      case Error => "error"
      case ActionRequest => "action request"
      case Victory => "victory"
    }
  }

  /** Different labels have different names and different colours. */
  lemma {:induction false} LabelsDistinguishable(a: Label, b: Label)
    ensures a.AsStr() == b.AsStr() <==> a == b
    ensures a.Color() == b.Color() <==> a == b
  {
    if a != b {
      assert |a.AsStr()| != |b.AsStr()|;
    }
  }

  /** Where a report is written. */
  datatype Stream = Stdout | Stderr

  /** One write to an output stream. */
  datatype Output = Output(stream: Stream, text: string)

  /** The text-wrapping options (`textwrap::Options`): `fill(text, indent)`
      wraps `text` to the terminal width, indenting every line by `indent`. */
  datatype Wrap = Wrap(fill: (string, string) -> string)

  const Indent: string := "    "

  /** A labelled message with details: the outcome a command reports. */
  datatype Report = Report(kind: Label, msg: string, details: string) {

    /** `Report::new`: the message and details are their display texts. */
    static function New(kind: Label, msg: string, details: string): (r: Report)
      ensures r.kind == kind && r.msg == msg && r.details == details
    {
      Report(kind, msg, details)
    }

    /** `Report::error`. */
    static function Error(msg: string, details: string): (r: Report)
      ensures r.kind == Label.Error && r.msg == msg && r.details == details
      ensures r.ExitCode() == 1
    {
      New(Label.Error, msg, details)
    }

    /** `Report::action_request`. */
    static function ActionRequest(msg: string, details: string): (r: Report)
      ensures r.kind == Label.ActionRequest && r.msg == msg && r.details == details
      ensures r.ExitCode() == 1
    {
      New(Label.ActionRequest, msg, details)
    }

    /** `Report::victory`. */
    static function Victory(msg: string, details: string): (r: Report)
      ensures r.kind == Label.Victory && r.msg == msg && r.details == details
      ensures r.ExitCode() == 0
    {
      New(Label.Victory, msg, details)
    }

    /** `Report::exit_code`: the label's exit code. */
    function ExitCode(): (code: int)
      ensures code == kind.ExitCode()
      ensures code == 0 <==> kind == Label.Victory
    {
      kind.ExitCode()
    }

    /** The head line before wrapping: the label's name, a colon and the message. */
    function Head(): (h: string)
      ensures |h| == |kind.AsStr()| + 2 + |msg|
      ensures h[..|kind.AsStr()|] == kind.AsStr() && h[|kind.AsStr()|..|kind.AsStr()| + 2] == ": "
      ensures h[|kind.AsStr()| + 2..] == msg
    {
      var a := kind.AsStr();
      assert (a + ": " + msg)[|a|..|a| + 2] == ": ";
      assert (a + ": " + msg)[|a| + 2..] == msg;
      a + ": " + msg
    }

    /** `Report::format` without colour: the wrapped head line, a newline,
        the details wrapped with every line indented, and a final newline. */
    function Format(wrap: Wrap): (text: string)
      ensures var head := wrap.fill(Head(), "");
        var body := wrap.fill(details, Indent);
        && |text| == |head| + |body| + 2
        && text[..|head|] == head && text[|head|] == '\n'
        && text[|head| + 1..|text| - 1] == body && text[|text| - 1] == '\n'
    {
      var head := wrap.fill(Head(), "");
      var body := wrap.fill(details, Indent);
      NewlineJoin(head, body + "\n");
      assert (body + "\n")[..|body|] == body;
      head + "\n" + (body + "\n")
    }

    /** `Report::print`: the formatted report, to standard error for an
        error and to standard output otherwise. */
    function Print(wrap: Wrap): (out: Output)
      ensures out.stream == Stderr <==> kind == Label.Error
      ensures out.text == Format(wrap)
    {
      if kind == Label.Error then Output(Stderr, Format(wrap)) else Output(Stdout, Format(wrap))
    }
  }

  /** The filter for the tool's own crates at one level. */
  const InfoFilter: string := "cargo_mobile=info,cargo_android=info,cargo_apple=info,bossy=info,hit=info"
  const DebugFilter: string := "info,cargo_mobile=debug,cargo_android=debug,cargo_apple=debug,bossy=debug,hit=debug"

  /** `init_logging`: the default log filter for a `-v` count: warnings only
      for 0, the info level for 1, the debug level for 2 and more. */
  function InitLogging(noiseLevel: U8): (filter: string)
    ensures noiseLevel == 0 ==> filter == "warn"
    ensures noiseLevel == 1 ==> filter == InfoFilter
    ensures noiseLevel >= 2 ==> filter == DebugFilter
  {
    match noiseLevel
    case 0 => "warn"
    case 1 => InfoFilter
    case _ => DebugFilter
  }

  /** Two `-v` counts select the same filter exactly when they are equal or
      both at least 2: there are three tiers and the last one saturates. */
  lemma {:induction false} LoggingTiers(a: U8, b: U8)
    ensures InitLogging(a) == InitLogging(b) <==> (if a < 2 then a else 2) == (if b < 2 then b else 2)
  {
    assert |"warn"| != |InfoFilter| && |"warn"| != |DebugFilter| && |InfoFilter| != |DebugFilter|;
  }

  /** A parse error from `clap`: what its own exit routine writes and the
      status it exits with. */
  datatype ClapError = ClapError(output: Output, code: int)

  /** `Exit`: the two ways a run can end early. */
  datatype Exit = ReportExit(report: Report) | Clap(err: ClapError)

  /** How the process ended: a printed report and its exit code, or `clap`'s
      own exit. */
  datatype Termination = Reported(output: Output, code: int) | ParserExited(err: ClapError) {
    /** The process exit status. */
    function Status(): int {
      match this
      case Reported(_, code) => code
      case ParserExited(err) => err.code
    }
  }

  /** `Exit::report`: the report the error produces. */
  function ExitReport<E>(err: E, report: E -> Report): (x: Exit)
    ensures x.ReportExit? && x.report == report(err)
  {
    ReportExit(report(err))
  }

  /** `Exit::do_the_thing`: a report is printed and the process exits with
      its label's exit code; a parse error is left to `clap`, and no report
      is printed. */
  function DoTheThing(exit: Exit, wrap: Wrap): (t: Termination)
    ensures exit.ReportExit? <==> t.Reported?
    ensures exit.ReportExit? ==> t.output == exit.report.Print(wrap) && t.code == exit.report.kind.ExitCode()
    ensures exit.Clap? ==> t == ParserExited(exit.err)
  {
    match exit
    case ReportExit(report) => Reported(report.Print(wrap), report.kind.ExitCode())
    case Clap(err) => ParserExited(err)
  }

  /** `Exit::main`: runs `inner` with the wrapping options; nothing happens
      when it succeeds, and its `Exit` is carried out when it fails. */
  function Main(inner: Wrap -> Result<Unit, Exit>, wrap: Wrap): (t: Option<Termination>)
    ensures inner(wrap).Success? <==> t.None?
    ensures inner(wrap).Failure? ==> t == Some(DoTheThing(inner(wrap).error, wrap))
  {
    match inner(wrap)
    case Success(_) => None
    case Failure(exit) => Some(DoTheThing(exit, wrap))
  }

  /** One run of the harness: the default log filter it gave the logger, if
      it got that far, and how it ended, if it ended early. */
  datatype Run = Run(defaultFilter: Option<string>, end: Option<Termination>) {
    /** The process exit status: 0 when the run was not ended early. */
    function Status(): int {
      match end
      case None => 0
      case Some(t) => t.Status()
    }
  }

  /** `exec`: parse the arguments (a parse error makes `clap` exit before
      anything else), give the logger the default filter for the `-v` count,
      execute the command, and turn its error, if any, into a printed report. */
  function Exec<I, E>(parsed: Result<I, ClapError>, flags: I -> GlobalFlags,
                      exec: (I, Wrap) -> Result<Unit, E>, report: E -> Report, wrap: Wrap): (run: Run)
    ensures parsed.Failure? ==> run == Run(None, Some(ParserExited(parsed.error)))
    ensures parsed.Success? ==> run.defaultFilter == Some(InitLogging(flags(parsed.value).verbose))
    ensures parsed.Success? ==> (run.end.None? <==> exec(parsed.value, wrap).Success?)
    ensures parsed.Success? && exec(parsed.value, wrap).Failure? ==>
      var r := report(exec(parsed.value, wrap).error);
      run.end == Some(Reported(r.Print(wrap), r.ExitCode()))
  {
    match parsed
    case Failure(err) => Run(None, Some(ParserExited(err)))
    case Success(input) =>
      var filter := InitLogging(flags(input).verbose);
      var inner := (w: Wrap) =>
        match exec(input, w)
        case Success(u) => Success(u)
        case Failure(e) => Failure(ExitReport(e, report));
      Run(Some(filter), Main(inner, wrap))
  }

  /** A run that reaches the command exits with 0 exactly when the command
      succeeds or reports a victory; an error report always exits with 1. */
  lemma {:induction false} ExecStatus<I, E>(input: I, flags: I -> GlobalFlags,
                                           exec: (I, Wrap) -> Result<Unit, E>, report: E -> Report, wrap: Wrap)
    ensures var run := Exec(Success(input), flags, exec, report, wrap);
      && (run.Status() == 0 <==>
            exec(input, wrap).Success? || report(exec(input, wrap).error).kind == Label.Victory)
      && (exec(input, wrap).Failure? && report(exec(input, wrap).error).kind == Label.Error ==>
            run.Status() == 1 && run.end.value.output.stream == Stderr)
  {
    var run := Exec(Success(input), flags, exec, report, wrap);
    if exec(input, wrap).Failure? {
      var r := report(exec(input, wrap).error);
      assert run.end == Some(Reported(r.Print(wrap), r.ExitCode()));
    }
  }
}
