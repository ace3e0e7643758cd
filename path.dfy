/**
 * Home-relative paths (src/util/path.rs). The user's home directory, as
 * `home::home_dir()` finds it, is the parameter `home`; the platform the
 * tool was built for is the parameter `target`.
 */
module Paths {
  import opened Wrappers
  import opened RustStd
  import StrReplace

  /** The package name the build embeds (`CARGO_PKG_NAME`). */
  const PkgName: string := "cargo-flatpak"

  /** The home directory could not be determined. */
  datatype NoHomeDir = NoHomeDir

  datatype ContractHomeError = HomeMissing(NoHomeDir) | HomeInvalidUtf8 | PathInvalidUtf8

  /** Whether the tool is built for Windows (`#[cfg(windows)]`). */
  datatype Target = Unix | Windows

  /** The path component `~`. */
  const Tilde: Component := Normal(FromStr("~"))

  /** `home_dir`: the home directory, or `NoHomeDir` when there is none. */
  function HomeDir(home: Option<PathBuf>): (r: Result<PathBuf, NoHomeDir>)
    ensures r.Success? <==> home.Some?
    ensures r.Success? ==> r.value == home.value
  {
    match home
    case None => Failure(NoHomeDir)
    case Some(h) => Success(h)
  }

  /** `expand_home`: a path whose first component is exactly `~` is the home
      directory joined with the remaining components; any other path is
      returned as it is. The home directory is looked up first, so a missing
      one fails even for paths without `~`. */
  function ExpandHome(path: PathBuf, home: Option<PathBuf>): (r: Result<PathBuf, NoHomeDir>)
    ensures home.None? <==> r == Failure(NoHomeDir)
    ensures home.Some? && |path| > 0 && path[0] == Tilde ==> r == Success(Join(home.value, path[1..]))
    ensures home.Some? && (|path| == 0 || path[0] != Tilde) ==> r == Success(path)
  {
    match HomeDir(home)
    case Failure(e) => Failure(e)
    case Success(h) =>
      if |path| > 0 && path[0] == Tilde then Success(Join(h, path[1..])) else Success(path)
  }

  /** For a well-formed path that starts with `~`, expansion puts the home
      directory in place of `~` and keeps every other component. */
  lemma {:induction false} ExpandHomeTilde(path: PathBuf, home: PathBuf)
    requires WellFormed(path) && |path| > 0 && path[0] == Tilde
    ensures ExpandHome(path, Some(home)) == Success(home + path[1..])
  {
    assert |path| == 1 || path[1] != RootDir;
  }

  /** A first component that merely begins with `~`, such as `~foo`, is not expanded. */
  lemma {:induction false} ExpandHomeKeepsTildePrefixedName(name: string, rest: PathBuf, home: PathBuf)
    requires |name| > 1 && name[0] == '~'
    ensures ExpandHome([Normal(FromStr(name))] + rest, Some(home)) == Success([Normal(FromStr(name))] + rest)
  {
    if FromStr(name) == FromStr("~") {
      FromStrInjective(name, "~");
    }
  }

  /** `contract_home`: the path's text with every occurrence of the home
      directory's text replaced by `~` (Unix), or the path's text unchanged
      (Windows). The path must be valid UTF-8, which is checked before the
      home directory is consulted. */
  function ContractHome(path: OsStr, home: Option<PathBuf>, target: Target): (r: Result<string, ContractHomeError>)
    ensures !IsUtf8(path) ==> r == Failure(PathInvalidUtf8)
    ensures IsUtf8(path) && target == Windows ==> r.Success? && FromStr(r.value) == path
    ensures IsUtf8(path) && target == Unix && home.None? ==> r == Failure(HomeMissing(NoHomeDir))
    ensures IsUtf8(path) && target == Unix && home.Some? && !IsUtf8(Render(home.value)) ==> r == Failure(HomeInvalidUtf8)
    ensures r.Success? ==> IsUtf8(path)
  {
    match ToStr(path)
    case None => Failure(PathInvalidUtf8)
    case Some(p) =>
      if target == Windows then Success(p)
      else match HomeDir(home)
        case Failure(e) => Failure(HomeMissing(e))
        case Success(h) =>
          match ToStr(Render(h))
          case None => Failure(HomeInvalidUtf8)
          case Some(hs) => Success(StrReplace.Replace(p, hs, "~"))
  }

  /** On Unix, the result of `contract_home` is the path's text cut into gaps
      at the occurrences of home a left-to-right scan finds, with `~` between
      the gaps; no copied gap holds the start of an occurrence of home. */
  lemma {:induction false} ContractHomeReplacesEveryOccurrence(p: string, home: PathBuf, hs: string)
    requires ToStr(Render(home)) == Some(hs) && hs != []
    ensures var g := StrReplace.Gaps(p, hs);
      && StrReplace.Splice(g, hs) == p
      && StrReplace.Leftmost(g, hs)
      && ContractHome(FromStr(p), Some(home), Unix) == Success(StrReplace.Splice(g, "~"))
  {
    ToStrFromStr(p);
    StrReplace.ReplaceSpec(p, hs, "~");
  }

  /** On Unix, a valid UTF-8 path contracts to its text with home replaced by `~`. */
  lemma {:induction false} ContractHomeUnix(p: string, home: PathBuf, hs: string)
    requires ToStr(Render(home)) == Some(hs)
    ensures ContractHome(FromStr(p), Some(home), Unix) == Success(StrReplace.Replace(p, hs, "~"))
  {
    ToStrFromStr(p);
  }

  /** On Unix, a path under the home directory whose remaining text holds no
      occurrence of home contracts to `~` followed by that remaining text:
      contraction undoes the expansion of `~`. */
  lemma {:induction false} ContractExpandedHome(path: PathBuf, home: PathBuf, hs: string, rest: string)
    requires WellFormed(path) && |path| > 1 && path[0] == Tilde
    requires home != [] && home != [RootDir]
    requires ToStr(Render(home)) == Some(hs) && hs != []
    requires ToStr(Separator + JoinNames(path[1..])) == Some(rest)
    requires StrReplace.NoMatchBefore(rest, hs, |rest|)
    ensures ExpandHome(path, Some(home)) == Success(home + path[1..])
    ensures ContractHome(Render(home + path[1..]), Some(home), Unix) == Success("~" + rest)
    ensures FromStr("~" + rest) == Render(path)
  {
    ExpandHomeTilde(path, home);
    ContractUnderHome(home, path[1..], hs, rest);
    TildeText(path, rest);
  }

  /** The text of a path that starts with `~` is `~` followed by the text of
      the rest of the path. */
  lemma {:induction false} TildeText(path: PathBuf, rest: string)
    requires |path| > 1 && path[0] == Tilde
    requires ToStr(Separator + JoinNames(path[1..])) == Some(rest)
    ensures FromStr("~" + rest) == Render(path)
  {
    RenderTilde(path);
    FromStrAppend("~", rest);
  }

  /** Contracting home followed by more components whose text holds no
      occurrence of home gives `~` followed by that text. */
  lemma {:induction false} ContractUnderHome(home: PathBuf, tail: PathBuf, hs: string, rest: string)
    requires tail != [] && home != [] && home != [RootDir]
    requires ToStr(Render(home)) == Some(hs) && hs != []
    requires ToStr(Separator + JoinNames(tail)) == Some(rest)
    requires StrReplace.NoMatchBefore(rest, hs, |rest|)
    ensures ContractHome(Render(home + tail), Some(home), Unix) == Success("~" + rest)
  {
    var text := hs + rest;
    assert Render(home + tail) == FromStr(text) by {
      RenderAppend(home, tail);
      FromStrAppend(hs, rest);
    }
    assert StrReplace.Replace(text, hs, "~") == "~" + rest by {
      StrReplace.ReplaceLeadingMatch(hs, rest, "~");
      StrReplace.ReplaceNoMatch(rest, hs, "~");
    }
    ContractHomeUnix(text, home, hs);
  }

  lemma {:induction false} RenderTilde(path: PathBuf)
    requires |path| > 1 && path[0] == Tilde
    ensures Render(path) == FromStr("~") + Separator + JoinNames(path[1..])
  {
    assert path == [Tilde] + path[1..];
    JoinNamesAppend([Tilde], path[1..]);
  }

  /** As written, `contract_home` also rewrites a path that is not under the
      home directory: with home `/h`, the sibling `/hx` becomes `~x`, which
      names neither `/hx` nor anything under home. */
  lemma {:induction false} ContractHomeRewritesSibling()
    ensures var home := [RootDir, Normal(FromStr("h"))];
      var path := [RootDir, Normal(FromStr("hx"))];
      && !UnderHome(path, home)
      && ContractHome(Render(path), Some(home), Unix) == Success("~x")
  {
    var home := [RootDir, Normal(FromStr("h"))];
    var path := [RootDir, Normal(FromStr("hx"))];
    assert path[1] != home[1] by {
      assert |FromStr("hx")| != |FromStr("h")|;
    }
    assert path[..2] != home;
    assert Render(home) == FromStr("/h") by {
      FromStrAppend("/", "h");
    }
    assert Render(path) == FromStr("/hx") by {
      FromStrAppend("/", "hx");
    }
    ToStrFromStr("/h");
    ContractHomeUnix("/hx", home, "/h");
    calc {
      StrReplace.Replace("/hx", "/h", "~");
      { assert "/hx" == "/h" + "x"; StrReplace.ReplaceLeadingMatch("/h", "x", "~"); }
      "~" + StrReplace.Replace("x", "/h", "~");
      { assert "x"[1..] == []; }
      "~" + "x";
      "~x";
    }
    assert ContractHome(Render(path), Some(home), Unix) == Success("~x");
  }

  /** `path` is the home directory or lies below it. */
  predicate UnderHome(path: PathBuf, home: PathBuf) {
    home != [] && |home| <= |path| && path[..|home|] == home
  }

  /** Contraction as `contract_home` evidently intends it: a path under the
      home directory has the home components replaced by `~`; any other
      path is kept. */
  function ContractHomePrefix(path: PathBuf, home: Option<PathBuf>): (r: Result<PathBuf, NoHomeDir>)
    ensures home.None? <==> r.Failure?
    ensures home.Some? && !UnderHome(path, home.value) ==> r == Success(path)
    ensures home.Some? && UnderHome(path, home.value) ==>
      r.Success? && |r.value| > 0 && r.value[0] == Tilde && r.value[1..] == path[|home.value|..]
  {
    match HomeDir(home)
    case Failure(e) => Failure(e)
    case Success(h) => if UnderHome(path, h) then Success([Tilde] + path[|h|..]) else Success(path)
  }

  /** For absolute paths and an absolute home directory, expanding `~` undoes
      the intended contraction, and the sibling that `contract_home` rewrites
      is left alone. */
  lemma {:induction false} ExpandContractHomePrefix(path: PathBuf, home: PathBuf)
    requires WellFormed(path) && |path| > 0 && path[0] == RootDir
    requires |home| > 0 && home[0] == RootDir
    ensures ContractHomePrefix(path, Some(home)).Success?
    ensures ExpandHome(ContractHomePrefix(path, Some(home)).value, Some(home)) == Success(path)
  {
    var c := ContractHomePrefix(path, Some(home)).value;
    if UnderHome(path, home) {
      var tail := path[|home|..];
      assert c == [Tilde] + tail;
      assert |tail| == 0 || tail[0] != RootDir by {
        if |tail| > 0 { assert tail[0] == path[|home|]; }
      }
      assert Join(home, tail) == path by {
        assert path == path[..|home|] + tail;
      }
    } else {
      assert c == path;
    }
  }

  /** `install_dir`: `~/.cargo-flatpak`. */
  function InstallDir(home: Option<PathBuf>): (r: Result<PathBuf, NoHomeDir>)
    ensures r.Success? <==> home.Some?
    ensures r.Success? ==> r.value == home.value + Named("." + PkgName)
  {
    match HomeDir(home)
    case Failure(e) => Failure(e)
    case Success(h) => Success(Join(h, Named("." + PkgName)))
  }

  /** `checkouts_dir`: `~/.cargo-flatpak/checkouts`. */
  function CheckoutsDir(home: Option<PathBuf>): (r: Result<PathBuf, NoHomeDir>)
    ensures r.Success? <==> home.Some?
    ensures r.Success? ==> r.value == InstallDir(home).value + Named("checkouts")
  {
    match InstallDir(home)
    case Failure(e) => Failure(e)
    case Success(d) => Success(Join(d, Named("checkouts")))
  }

  /** `tools_dir`: `~/.cargo-flatpak/tools`. */
  function ToolsDir(home: Option<PathBuf>): (r: Result<PathBuf, NoHomeDir>)
    ensures r.Success? <==> home.Some?
    ensures r.Success? ==> r.value == InstallDir(home).value + Named("tools")
  {
    match InstallDir(home)
    case Failure(e) => Failure(e)
    case Success(d) => Success(Join(d, Named("tools")))
  }

  /** The checkouts and tools directories are distinct children of the
      install directory, which is itself a child of the home directory. */
  lemma {:induction false} InstallLayout(home: PathBuf)
    ensures var install := InstallDir(Some(home)).value;
      && |install| == |home| + 1 && install[..|home|] == home
      && CheckoutsDir(Some(home)).value[..|install|] == install
      && ToolsDir(Some(home)).value[..|install|] == install
      && CheckoutsDir(Some(home)).value != ToolsDir(Some(home)).value
  {
    var install := InstallDir(Some(home)).value;
    var c := CheckoutsDir(Some(home)).value;
    var t := ToolsDir(Some(home)).value;
    assert c[|install|] == Normal(FromStr("checkouts"));
    assert t[|install|] == Normal(FromStr("tools"));
    assert |FromStr("checkouts")| != |FromStr("tools")|;
  }
}
