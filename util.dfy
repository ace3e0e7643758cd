/**
 * The installed-commit lookup (src/util/mod.rs). The file system is an
 * oracle: whether a path names a file, and what reading it returns.
 */
module Util {
  import opened Wrappers
  import opened RustStd
  import opened DebugFmt
  import Paths

  /** The file system as the lookup sees it: `Path::is_file` and
      `fs::read_to_string`. */
  datatype FileSystem = FileSystem(isFile: PathBuf -> bool, read: PathBuf -> Result<string, IoError>)

  datatype InstalledCommitMsgError =
    | HomeMissing(Paths.NoHomeDir)
    | ReadFailed(path: PathBuf, source: IoError)
  {
    /** The `Display` text of the error. */
    function Message(): (m: string)
      ensures HomeMissing? ==> m == "Failed to get user's home directory!"
      ensures ReadFailed? ==> var q := QuotePath(path);
        && |m| == |ReadFailedPrefix| + |q| + 2 + |source.message|
        && m[..|ReadFailedPrefix|] == ReadFailedPrefix
        && Unquote(m[|ReadFailedPrefix|..|ReadFailedPrefix| + |q|]) == Some(Render(path))
        && m[|ReadFailedPrefix| + |q|..|ReadFailedPrefix| + |q| + 2] == ": "
        && m[|m| - |source.message|..] == source.message
    {
      match this
      case HomeMissing(_) => "Failed to get user's home directory!"
      case ReadFailed(path, source) =>
        var q := QuotePath(path);
        ConcatSlices(ReadFailedPrefix, q, ": ", source.message);
        ReadFailedPrefix + q + ": " + source.message
    }
  }

  /** Where each part of a four-part concatenation lies. */
  lemma {:induction false} ConcatSlices(a: string, b: string, c: string, d: string)
    ensures var m := a + b + c + d;
      && |m| == |a| + |b| + |c| + |d|
      && m[..|a|] == a
      && m[|a|..|a| + |b|] == b
      && m[|a| + |b|..|a| + |b| + |c|] == c
      && m[|m| - |d|..] == d
  {
    var m := a + b + c + d;
    assert m == a + (b + (c + d));
    assert (b + (c + d))[..|b|] == b;
    assert m[|a| + |b|..] == c + d;
    assert (c + d)[..|c|] == c;
    assert m[|m| - |d|..] == (c + d)[|c|..];
  }

  const ReadFailedPrefix: string := "Failed to read version info from "

  /** The file holding the installed commit message: `~/.cargo-flatpak/commit`. */
  function CommitPath(home: PathBuf): PathBuf {
    Join(Paths.InstallDir(Some(home)).value, Named("commit"))
  }

  /** `installed_commit_msg`: no message when the commit file is not a file,
      its contents when reading it succeeds, and `ReadFailed` carrying the
      file's path when reading it fails. A missing home directory is
      reported as such. */
  function InstalledCommitMsg(home: Option<PathBuf>, fs: FileSystem): (r: Result<Option<string>, InstalledCommitMsgError>)
    ensures home.None? <==> r == Failure(HomeMissing(Paths.NoHomeDir))
    ensures home.Some? && !fs.isFile(CommitPath(home.value)) ==> r == Success(None)
    ensures home.Some? && fs.isFile(CommitPath(home.value)) ==>
      match fs.read(CommitPath(home.value))
      case Success(contents) => r == Success(Some(contents))
      case Failure(e) => r == Failure(ReadFailed(CommitPath(home.value), e))
  {
    match Paths.InstallDir(home)
    case Failure(e) => Failure(HomeMissing(e))
    case Success(dir) =>
      var path := Join(dir, Named("commit"));
      if fs.isFile(path) then
        match fs.read(path)
        case Success(contents) => Success(Some(contents))
        case Failure(source) => Failure(ReadFailed(path, source))
      else Success(None)
  }

  /** The commit file lies in the install directory, under the home directory. */
  lemma {:induction false} CommitPathLayout(home: PathBuf)
    ensures CommitPath(home) == home + Named("." + Paths.PkgName) + Named("commit")
  {
  }

  /** The lookup depends on the file system only at the commit file: two file
      systems that agree there give the same result. */
  lemma {:induction false} InstalledCommitMsgLooksOnlyAtCommitFile(home: PathBuf, fs1: FileSystem, fs2: FileSystem)
    requires fs1.isFile(CommitPath(home)) == fs2.isFile(CommitPath(home))
    requires fs1.isFile(CommitPath(home)) ==> fs1.read(CommitPath(home)) == fs2.read(CommitPath(home))
    ensures InstalledCommitMsg(Some(home), fs1) == InstalledCommitMsg(Some(home), fs2)
  {
  }

  const CommitMsgPrefix: string := "Contains commits up to "

  /** `format_commit_msg`: the prefix followed by the message's Debug form,
      from which the message can be read back. */
  function FormatCommitMsg(msg: string): (r: string)
    ensures |r| > |CommitMsgPrefix| && r[..|CommitMsgPrefix|] == CommitMsgPrefix
    ensures Unquote(r[|CommitMsgPrefix|..]) == Some(FromStr(msg))
  {
    var r := CommitMsgPrefix + QuoteStr(msg);
    assert r[|CommitMsgPrefix|..] == QuoteStr(msg);
    r
  }

  /** Distinct commit messages are formatted differently. */
  lemma {:induction false} FormatCommitMsgInjective(a: string, b: string)
    requires FormatCommitMsg(a) == FormatCommitMsg(b)
    ensures a == b
  {
    FromStrInjective(a, b);
  }
}
