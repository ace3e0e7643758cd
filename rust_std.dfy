/**
 * The parts of Rust's standard library that the model's paths and errors are
 * made of: platform strings (`OsStr`), paths as sequences of components
 * (`Path`/`PathBuf`), `Path::join`, `Path::to_str`, and `io::Error`.
 */
module RustStd {
  import opened Wrappers

  /** A byte with its high bit set: the only bytes that can be left over when a
      platform string is not valid UTF-8. */
  type HighByte = b: int | 0x80 <= b < 0x100 witness 0x80

  /** One unit of a platform string: a Unicode scalar value, or a byte that is
      not part of any valid UTF-8 sequence. */
  datatype OsUnit = Char(c: char) | Invalid(b: HighByte)

  /** A platform string (`OsStr`/`OsString`). It stands for a real byte
      string only when no run of `Invalid` units forms valid UTF-8; such
      bytes are written as the `Char` they encode. */
  type OsStr = seq<OsUnit>

  /** The platform string of a Rust `&str`. */
  function FromStr(s: string): (r: OsStr)
    ensures |r| == |s|
    ensures forall i :: 0 <= i < |s| ==> r[i] == Char(s[i])
  {
    if s == [] then [] else [Char(s[0])] + FromStr(s[1..])
  }

  /** A platform string is valid UTF-8 when every unit is a character. */
  predicate IsUtf8(s: OsStr) {
    forall i :: 0 <= i < |s| ==> s[i].Char?
  }

  /** `OsStr::to_str`: the string, when the platform string is valid UTF-8. */
  function ToStr(s: OsStr): (r: Option<string>)
    ensures r.Some? <==> IsUtf8(s)
    ensures r.Some? ==> FromStr(r.value) == s
  {
    if s == [] then Some([])
    else match s[0]
      case Invalid(_) => None
      case Char(c) =>
        match ToStr(s[1..])
        case None => None
        case Some(t) => Some([c] + t)
  }

  lemma {:induction false} FromStrInjective(a: string, b: string)
    requires FromStr(a) == FromStr(b)
    ensures a == b
  {
    assert |a| == |b|;
    forall i | 0 <= i < |a| ensures a[i] == b[i] {
      assert FromStr(a)[i] == Char(a[i]);
    }
  }

  /** Converting concatenated text converts each part. */
  lemma {:induction false} FromStrAppend(a: string, b: string)
    ensures FromStr(a + b) == FromStr(a) + FromStr(b)
  {
    assert |FromStr(a + b)| == |FromStr(a) + FromStr(b)|;
    forall i | 0 <= i < |a + b| ensures FromStr(a + b)[i] == (FromStr(a) + FromStr(b))[i] {
      if i >= |a| { assert (a + b)[i] == b[i - |a|]; }
    }
  }

  /** Converting a `&str` to a platform string and back gives the same text. */
  lemma {:induction false} ToStrFromStr(s: string)
    ensures ToStr(FromStr(s)) == Some(s)
  {
    var r := ToStr(FromStr(s));
    assert r.Some?;
    FromStrInjective(r.value, s);
  }

  /** One component of a path (`std::path::Component`, without Windows prefixes). */
  datatype Component = RootDir | CurDir | ParentDir | Normal(name: OsStr)

  /** A path, as the sequence of its components. */
  type PathBuf = seq<Component>

  /** The path of a single normal component named by a `&str`. */
  function Named(s: string): PathBuf {
    [Normal(FromStr(s))]
  }

  /** `Path::join`: joining an absolute path replaces the base; joining a
      relative path appends its components. */
  function Join(base: PathBuf, p: PathBuf): (r: PathBuf)
    ensures |p| > 0 && p[0] == RootDir ==> r == p
    ensures (|p| == 0 || p[0] != RootDir) ==> |r| == |base| + |p| && r[..|base|] == base && r[|base|..] == p
  {
    if |p| > 0 && p[0] == RootDir then p else base + p
  }

  /** The root directory appears, if at all, only as the first component. */
  predicate WellFormed(p: PathBuf) {
    forall i :: 0 < i < |p| ==> p[i] != RootDir
  }

  const Separator: OsStr := [Char('/')]

  /** The text of one component. */
  function ComponentText(c: Component): OsStr {
    match c
    case RootDir => Separator
    case CurDir => FromStr(".")
    case ParentDir => FromStr("..")
    case Normal(name) => name
  }

  /** Components separated by `/`. */
  function JoinNames(p: PathBuf): OsStr {
    if p == [] then []
    else if |p| == 1 then ComponentText(p[0])
    else ComponentText(p[0]) + Separator + JoinNames(p[1..])
  }

  /** The text of a path on a Unix platform (`Path::as_os_str` of the
      path written without repeated or trailing separators). */
  function Render(p: PathBuf): OsStr {
    if p == [] then []
    else if p[0] == RootDir then Separator + JoinNames(p[1..])
    else JoinNames(p)
  }

  lemma {:induction false} JoinNamesAppend(a: PathBuf, b: PathBuf)
    requires a != [] && b != []
    ensures JoinNames(a + b) == JoinNames(a) + Separator + JoinNames(b)
  {
    if |a| == 1 {
      assert (a + b)[1..] == b;
    } else {
      assert (a + b)[1..] == a[1..] + b;
      JoinNamesAppend(a[1..], b);
    }
  }

  /** The text of a path with more components appended is the text of the
      path, a separator, and the text of the appended components. */
  lemma {:induction false} RenderAppend(a: PathBuf, b: PathBuf)
    requires a != [] && a != [RootDir] && b != []
    ensures Render(a + b) == Render(a) + Separator + JoinNames(b)
  {
    var ab := a + b;
    assert ab[0] == a[0];
    if a[0] == RootDir {
      assert |a| > 1;
      assert ab[1..] == a[1..] + b;
      JoinNamesAppend(a[1..], b);
      calc {
        Render(ab);
        Separator + JoinNames(a[1..] + b);
        Separator + (JoinNames(a[1..]) + Separator + JoinNames(b));
        Render(a) + Separator + JoinNames(b);
      }
    } else {
      JoinNamesAppend(a, b);
    }
  }

  /** `std::io::Error`, represented by the text its `Display` writes. */
  datatype IoError = IoError(message: string)
}
