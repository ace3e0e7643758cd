/**
 * Rust's `{:?}` (Debug) form of strings and paths: the text between double
 * quotes, with `"`, `\`, newline, carriage return, tab and NUL escaped by a
 * backslash. A `String` leaves `'` as it is; a Unix `OsStr` or `Path` escapes
 * it too and writes each byte that is not valid UTF-8 as `\xNN`, in upper-case
 * hexadecimal.
 *
 * `Unquote` reads such a literal back, so quoting loses nothing.
 */
module DebugFmt {
  import opened Wrappers
  import opened RustStd

  /** How a string kind is quoted. */
  datatype Style = StrStyle | OsStyle

  function Backslashed(c: char): string {
    ['\\', c]
  }

  /** The escape of one character. */
  function EscapeChar(c: char, style: Style): (r: string)
    ensures |r| >= 1
  {
    if c == '"' then Backslashed('"')
    else if c == '\\' then Backslashed('\\')
    else if c == '\n' then Backslashed('n')
    else if c == '\r' then Backslashed('r')
    else if c == '\t' then Backslashed('t')
    else if c == '\0' then Backslashed('0')
    else if c == '\'' && style == OsStyle then Backslashed('\'')
    else [c]
  }

  /** An upper-case hexadecimal digit. */
  function HexDigit(d: nat): (c: char)
    requires d < 16
  {
    if d < 10 then ('0' as int + d) as char else ('A' as int + d - 10) as char
  }

  predicate IsHexDigit(c: char) {
    '0' <= c <= '9' || 'A' <= c <= 'F'
  }

  function HexValue(c: char): (d: nat)
    requires IsHexDigit(c)
    ensures d < 16 && HexDigit(d) == c
  {
    if c <= '9' then c as int - '0' as int else c as int - 'A' as int + 10
  }

  /** The escape of one unit of a platform string. */
  function EscapeUnit(u: OsUnit, style: Style): (r: string)
    ensures |r| >= 1
  {
    match u
    case Char(c) => EscapeChar(c, style)
    case Invalid(b) => ['\\', 'x', HexDigit(b / 16), HexDigit(b % 16)]
  }

  function Escape(s: OsStr, style: Style): string {
    if s == [] then [] else EscapeUnit(s[0], style) + Escape(s[1..], style)
  }

  /** `format!("{:?}", s)` of a platform string in the given style: a
      double-quoted literal that reads back as `s`, so quoting loses nothing. */
  function Quote(s: OsStr, style: Style): (r: string)
    ensures |r| >= 2 && r[0] == '"' && r[|r| - 1] == '"'
    ensures Unquote(r) == Some(s)
  {
    var q := ['"'] + Escape(s, style) + ['"'];
    assert q[1..|q| - 1] == Escape(s, style);
    UnescapeEscape(s, style);
    q
  }

  /** `format!("{:?}", s)` of a `String`. */
  function QuoteStr(s: string): (r: string)
    ensures Unquote(r) == Some(FromStr(s))
  {
    Quote(FromStr(s), StrStyle)
  }

  /** `format!("{:?}", p)` of a `PathBuf`. */
  function QuotePath(p: PathBuf): (r: string)
    ensures Unquote(r) == Some(Render(p))
  {
    Quote(Render(p), OsStyle)
  }

  function Prepend(u: OsUnit, rest: Option<OsStr>): Option<OsStr> {
    match rest
    case None => None
    case Some(s) => Some([u] + s)
  }

  /** The character a backslash followed by `c` stands for, if any. */
  function Unescaped(c: char): Option<char> {
    if c == '"' || c == '\\' || c == '\'' then Some(c)
    else if c == 'n' then Some('\n')
    else if c == 'r' then Some('\r')
    else if c == 't' then Some('\t')
    else if c == '0' then Some('\0')
    else None
  }

  /** Reads the escaped text between the quotes of a Debug literal. */
  function Unescape(t: string): Option<OsStr>
    decreases |t|
  {
    if t == [] then Some([])
    else if t[0] == '"' then None
    else if t[0] != '\\' then Prepend(Char(t[0]), Unescape(t[1..]))
    else if |t| < 2 then None
    else if t[1] == 'x' then
      if |t| >= 4 && IsHexDigit(t[2]) && IsHexDigit(t[3]) && HexValue(t[2]) >= 8 then
        Prepend(Invalid(HexValue(t[2]) * 16 + HexValue(t[3])), Unescape(t[4..]))
      else None
    else match Unescaped(t[1])
      case None => None
      case Some(c) => Prepend(Char(c), Unescape(t[2..]))
  }

  /** Reads a Debug literal back into the platform string it quotes. */
  function Unquote(t: string): Option<OsStr> {
    if |t| >= 2 && t[0] == '"' && t[|t| - 1] == '"' then Unescape(t[1..|t| - 1]) else None
  }

  /** Reading the escape of one unit consumes exactly that escape. */
  lemma {:induction false} UnescapeUnit(u: OsUnit, style: Style, rest: string)
    ensures Unescape(EscapeUnit(u, style) + rest) == Prepend(u, Unescape(rest))
  {
    var e := EscapeUnit(u, style);
    var t := e + rest;
    match u
    case Char(c) =>
      if |e| == 1 {
        assert t[0] == c && t[1..] == rest;
      } else {
        assert t[2..] == rest;
      }
    case Invalid(b) =>
      assert t[4..] == rest;
      assert HexValue(t[2]) == b / 16 && HexValue(t[3]) == b % 16;
  }

  /** Escaped text reads back as the platform string it came from. */
  lemma {:induction false} UnescapeEscape(s: OsStr, style: Style)
    ensures Unescape(Escape(s, style)) == Some(s)
    decreases |s|
  {
    if s != [] {
      UnescapeUnit(s[0], style, Escape(s[1..], style));
      UnescapeEscape(s[1..], style);
      assert [s[0]] + s[1..] == s;
    }
  }

  /** Distinct strings have distinct Debug forms. */
  lemma {:induction false} QuoteStrInjective(a: string, b: string)
    requires QuoteStr(a) == QuoteStr(b)
    ensures a == b
  {
    FromStrInjective(a, b);
  }

  /** Distinct path texts have distinct Debug forms. */
  lemma {:induction false} QuotePathInjective(p: PathBuf, q: PathBuf)
    requires QuotePath(p) == QuotePath(q)
    ensures Render(p) == Render(q)
  {
  }
}
