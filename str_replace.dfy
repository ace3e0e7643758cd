/**
 * Rust's `str::replace(from, to)`: matches of `from` are found from left to
 * right without overlapping, each is replaced by `to`, and the text between
 * them is copied. An empty `from` matches at every character boundary.
 *
 * `Replace` follows that scan. The lemmas characterise it independently: the
 * input splits into "gaps" separated by the pattern, no gap contains the start
 * of a match, and the result is the same gaps separated by the replacement.
 */
module StrReplace {

  /** `pat` occurs in `s` starting at index `i`. */
  predicate OccursAt(s: string, pat: string, i: nat) {
    i + |pat| <= |s| && s[i..i + |pat|] == pat
  }

  /** No match of `pat` in `s` starts before index `n`. */
  predicate NoMatchBefore(s: string, pat: string, n: nat) {
    forall i: nat :: i < n ==> !OccursAt(s, pat, i)
  }

  /** `s.replace(pat, rep)`. Replacing the pattern by text of the same
      length keeps the length, and replacing it by itself changes nothing. */
  function Replace(s: string, pat: string, rep: string): (r: string)
    ensures pat != [] && |rep| == |pat| ==> |r| == |s|
    ensures pat != [] && rep == pat ==> r == s
    decreases |s|
  {
    if pat == [] then ReplaceEmpty(s, rep)
    else if |pat| <= |s| && s[..|pat|] == pat then
      assert s == pat + s[|pat|..];
      rep + Replace(s[|pat|..], pat, rep)
    else if s == [] then []
    else
      assert s == [s[0]] + s[1..];
      [s[0]] + Replace(s[1..], pat, rep)
  }

  /** `s.replace("", rep)`: `rep` before every character and once at the end. */
  function ReplaceEmpty(s: string, rep: string): string {
    if s == [] then rep else rep + [s[0]] + ReplaceEmpty(s[1..], rep)
  }

  /** The one-character strings of `s`, in order. */
  function Singles(s: string): (g: seq<string>)
    ensures |g| == |s| && forall k :: 0 <= k < |s| ==> g[k] == [s[k]]
  {
    if s == [] then [] else [[s[0]]] + Singles(s[1..])
  }

  /** With an empty pattern every character boundary is a match: the result
      is an empty gap, each character of `s` as a gap of its own, and a
      final empty gap, separated by `rep`. */
  lemma {:induction false} ReplaceEmptyGaps(s: string, rep: string)
    ensures Replace(s, [], rep) == Splice([[]] + Singles(s) + [[]], rep)
  {
    var g := [[]] + Singles(s) + [[]];
    assert g[1..] == Singles(s) + [[]];
    ReplaceEmptyTail(s, rep);
  }

  lemma {:induction false} ReplaceEmptyTail(s: string, rep: string)
    ensures ReplaceEmpty(s, rep) == rep + Splice(Singles(s) + [[]], rep)
    decreases |s|
  {
    if s == [] {
      assert Singles(s) + [[]] == [[]];
    } else {
      var g := Singles(s) + [[]];
      var h := Singles(s[1..]) + [[]];
      assert g == [[s[0]]] + h;
      assert g[1..] == h;
      ReplaceEmptyTail(s[1..], rep);
    }
  }

  /** The gaps `gaps[0]`, `gaps[1]`, ... with `sep` between each two. */
  function Splice(gaps: seq<string>, sep: string): string
    requires |gaps| >= 1
  {
    if |gaps| == 1 then gaps[0] else gaps[0] + sep + Splice(gaps[1..], sep)
  }

  /** The gaps are those a left-to-right scan for `pat` leaves: no match
      starts inside a gap, neither within the gap and the match after it,
      nor within the last gap. */
  predicate Leftmost(gaps: seq<string>, pat: string) {
    && |gaps| >= 1
    && (forall k :: 0 <= k < |gaps| - 1 ==> NoMatchBefore(gaps[k] + pat, pat, |gaps[k]|))
    && NoMatchBefore(gaps[|gaps| - 1], pat, |gaps[|gaps| - 1]|)
  }

  /** The gaps the scan finds in `s`. */
  function Gaps(s: string, pat: string): (g: seq<string>)
    requires pat != []
    ensures |g| >= 1
    decreases |s|
  {
    if |pat| <= |s| && s[..|pat|] == pat then [[]] + Gaps(s[|pat|..], pat)
    else if s == [] then [[]]
    else
      var g := Gaps(s[1..], pat);
      [[s[0]] + g[0]] + g[1..]
  }

  /** An occurrence that ends within a prefix is an occurrence in that prefix. */
  lemma {:induction false} OccursInPrefix(x: string, y: string, pat: string, i: nat)
    requires i + |pat| <= |x|
    ensures OccursAt(x + y, pat, i) <==> OccursAt(x, pat, i)
  {
    assert (x + y)[i..i + |pat|] == x[i..i + |pat|];
  }

  /** Occurrences in `s[1..]` are the occurrences in `s` shifted by one. */
  lemma {:induction false} OccursInTail(s: string, pat: string, i: nat)
    requires s != []
    ensures OccursAt(s[1..], pat, i) <==> OccursAt(s, pat, i + 1)
  {
    if i + 1 + |pat| <= |s| {
      assert s[1..][i..i + |pat|] == s[i + 1..i + 1 + |pat|];
    }
  }

  /** Where no match starts, the scan copies one character and moves on. */
  lemma {:induction false} ReplaceCopiesChar(u: string, t: string, pat: string, rep: string)
    requires pat != [] && u != []
    requires NoMatchBefore(u + t, pat, |u|)
    ensures Replace(u + t, pat, rep) == [u[0]] + Replace(u[1..] + t, pat, rep)
  {
    var s := u + t;
    assert !OccursAt(s, pat, 0);
    assert !(|pat| <= |s| && s[..|pat|] == pat);
    assert s[1..] == u[1..] + t;
  }

  /** No match starting in the tail of a gap. */
  lemma {:induction false} GapTailFree(u: string, t: string, pat: string)
    requires u != [] && NoMatchBefore(u + t, pat, |u|)
    ensures NoMatchBefore(u[1..] + t, pat, |u| - 1)
  {
    var s := u + t;
    assert s[1..] == u[1..] + t;
    forall i: nat | i < |u| - 1 ensures !OccursAt(u[1..] + t, pat, i) {
      OccursInTail(s, pat, i);
    }
  }

  /** A gap in which no match starts is copied unchanged. */
  lemma {:induction false} ReplaceCopiesGap(u: string, t: string, pat: string, rep: string)
    requires pat != []
    requires NoMatchBefore(u + t, pat, |u|)
    ensures Replace(u + t, pat, rep) == u + Replace(t, pat, rep)
    decreases |u|
  {
    if u == [] {
      assert u + t == t;
    } else {
      ReplaceCopiesChar(u, t, pat, rep);
      GapTailFree(u, t, pat);
      ReplaceCopiesGap(u[1..], t, pat, rep);
      var r := Replace(t, pat, rep);
      assert [u[0]] + (u[1..] + r) == ([u[0]] + u[1..]) + r;
      assert [u[0]] + u[1..] == u;
    }
  }

  /** Replacing in the spliced gaps puts the replacement between the gaps. */
  lemma {:induction false} ReplaceSplice(gaps: seq<string>, pat: string, rep: string)
    requires pat != [] && Leftmost(gaps, pat)
    ensures Replace(Splice(gaps, pat), pat, rep) == Splice(gaps, rep)
    decreases |gaps|
  {
    var u := gaps[0];
    if |gaps| == 1 {
      assert u + [] == u;
      ReplaceCopiesGap(u, [], pat, rep);
    } else {
      var more := gaps[1..];
      var rest := Splice(more, pat);
      assert Splice(gaps, pat) == u + (pat + rest);
      assert NoMatchBefore(gaps[0] + pat, pat, |gaps[0]|);
      forall i: nat | i < |u| ensures !OccursAt(u + (pat + rest), pat, i) {
        OccursInPrefix(u + pat, rest, pat, i);
        assert u + (pat + rest) == (u + pat) + rest;
      }
      ReplaceCopiesGap(u, pat + rest, pat, rep);
      assert (pat + rest)[..|pat|] == pat && (pat + rest)[|pat|..] == rest;
      assert Replace(pat + rest, pat, rep) == rep + Replace(rest, pat, rep);
      assert Leftmost(more, pat) by {
        forall k | 0 <= k < |more| - 1
          ensures NoMatchBefore(more[k] + pat, pat, |more[k]|)
        {
          assert more[k] == gaps[k + 1];
        }
      }
      ReplaceSplice(more, pat, rep);
    }
  }

  /** The gaps of `s` splice back to `s` and are those of a left-to-right scan. */
  lemma {:induction false} GapsSplice(s: string, pat: string)
    requires pat != []
    ensures Splice(Gaps(s, pat), pat) == s
    ensures Leftmost(Gaps(s, pat), pat)
    decreases |s|
  {
    if |pat| <= |s| && s[..|pat|] == pat {
      GapsSplice(s[|pat|..], pat);
      GapsSpliceAtMatch(s, pat);
    } else if s != [] {
      GapsSplice(s[1..], pat);
      if |Gaps(s[1..], pat)| == 1 {
        GapsSpliceLastGap(s, pat);
      } else {
        GapsSpliceInnerGap(s, pat);
      }
    }
  }

  /** Step of GapsSplice where `s` starts with a match: an empty gap comes first. */
  lemma {:induction false} GapsSpliceAtMatch(s: string, pat: string)
    requires pat != [] && |pat| <= |s| && s[..|pat|] == pat
    requires Splice(Gaps(s[|pat|..], pat), pat) == s[|pat|..]
    requires Leftmost(Gaps(s[|pat|..], pat), pat)
    ensures Splice(Gaps(s, pat), pat) == s
    ensures Leftmost(Gaps(s, pat), pat)
  {
    var t := s[|pat|..];
    var h := Gaps(t, pat);
    assert Gaps(s, pat) == [[]] + h;
    assert Splice(Gaps(s, pat), pat) == s by {
      assert ([[]] + h)[1..] == h;
      assert s == [] + pat + t;
    }
    LeftmostAfterEmptyGap(h, pat);
  }

  /** An empty gap in front of leftmost gaps keeps them leftmost. */
  lemma {:induction false} LeftmostAfterEmptyGap(h: seq<string>, pat: string)
    requires pat != [] && Leftmost(h, pat)
    ensures Leftmost([[]] + h, pat)
  {
    var g := [[]] + h;
    assert NoMatchBefore(g[0] + pat, pat, 0);
    forall k | 1 <= k < |g| - 1 ensures NoMatchBefore(g[k] + pat, pat, |g[k]|) {
      assert g[k] == h[k - 1];
    }
    assert g[|g| - 1] == h[|h| - 1];
  }

  /** Step of GapsSplice where no match starts at 0 and none is found later:
      `s` is the only gap. */
  lemma {:induction false} GapsSpliceLastGap(s: string, pat: string)
    requires pat != [] && s != [] && !(|pat| <= |s| && s[..|pat|] == pat)
    requires Splice(Gaps(s[1..], pat), pat) == s[1..]
    requires Leftmost(Gaps(s[1..], pat), pat)
    requires |Gaps(s[1..], pat)| == 1
    ensures Splice(Gaps(s, pat), pat) == s
    ensures Leftmost(Gaps(s, pat), pat)
  {
    var g := Gaps(s, pat);
    var h := Gaps(s[1..], pat);
    assert g == [[s[0]] + h[0]];
    assert h[0] == s[1..];
    assert g[0] == s;
    forall i: nat | i < |s| ensures !OccursAt(s, pat, i) {
      if i == 0 {
        assert !(|pat| <= |s| && s[..|pat|] == pat);
      } else {
        OccursInTail(s, pat, i - 1);
      }
    }
  }

  /** Step of GapsSplice where no match starts at 0 but one is found later:
      the first character joins the first gap. */
  lemma {:induction false} GapsSpliceInnerGap(s: string, pat: string)
    requires pat != [] && s != [] && !(|pat| <= |s| && s[..|pat|] == pat)
    requires Splice(Gaps(s[1..], pat), pat) == s[1..]
    requires Leftmost(Gaps(s[1..], pat), pat)
    requires |Gaps(s[1..], pat)| > 1
    ensures Splice(Gaps(s, pat), pat) == s
    ensures Leftmost(Gaps(s, pat), pat)
  {
    var h := Gaps(s[1..], pat);
    var u := [s[0]] + h[0];
    GapsNoMatchAtStart(s, pat);
    InnerGapText(s, pat, h);
    FirstGapFree(s, pat, h[0], Splice(h[1..], pat));
    ConsGap(u, h, pat);
  }

  /** Where no match starts at 0, the first character joins the first gap of the rest. */
  lemma {:induction false} GapsNoMatchAtStart(s: string, pat: string)
    requires pat != [] && s != [] && !(|pat| <= |s| && s[..|pat|] == pat)
    ensures var h := Gaps(s[1..], pat); Gaps(s, pat) == [[s[0]] + h[0]] + h[1..]
  {
  }

  /** The rest of `s` spliced from its gaps, with the first character put back. */
  lemma {:induction false} InnerGapText(s: string, pat: string, h: seq<string>)
    requires s != [] && |h| > 1 && Splice(h, pat) == s[1..]
    ensures s[1..] == h[0] + pat + Splice(h[1..], pat)
    ensures s == ([s[0]] + h[0] + pat) + Splice(h[1..], pat)
  {
    assert s == [s[0]] + s[1..];
  }

  /** When no match starts at 0 of `s`, and `s[1..]` is a gap free of
      match starts followed by `pat` and more, the gap extended by `s[0]`
      is free of match starts too. */
  lemma {:induction false} FirstGapFree(s: string, pat: string, v: string, rest: string)
    requires pat != [] && s != [] && !(|pat| <= |s| && s[..|pat|] == pat)
    requires s[1..] == v + pat + rest
    requires NoMatchBefore(v + pat, pat, |v|)
    ensures NoMatchBefore([s[0]] + v + pat, pat, |v| + 1)
  {
    var u := [s[0]] + v;
    assert s == (u + pat) + rest;
    forall i: nat | i < |u| ensures !OccursAt(u + pat, pat, i) {
      OccursInPrefix(u + pat, rest, pat, i);
      if i == 0 {
        assert !OccursAt(s, pat, 0);
      } else {
        OccursInTail(s, pat, i - 1);
        OccursInPrefix(v + pat, rest, pat, i - 1);
        assert (v + pat) + rest == s[1..];
      }
    }
  }

  /** Replacing the first gap by one free of match starts keeps the gaps leftmost. */
  lemma {:induction false} ConsGap(u: string, h: seq<string>, pat: string)
    requires |h| > 1 && Leftmost(h, pat)
    requires NoMatchBefore(u + pat, pat, |u|)
    ensures Leftmost([u] + h[1..], pat)
    ensures Splice([u] + h[1..], pat) == u + pat + Splice(h[1..], pat)
  {
    var g := [u] + h[1..];
    assert g[1..] == h[1..];
    forall k | 0 <= k < |g| - 1 ensures NoMatchBefore(g[k] + pat, pat, |g[k]|) {
      if k > 0 { assert g[k] == h[k]; }
    }
    assert g[|g| - 1] == h[|h| - 1];
  }

  /** `s.replace(pat, rep)` with a non-empty pattern: the input is its gaps
      separated by `pat`, no match starts inside a gap, and the result is the
      same gaps separated by `rep`. */
  lemma {:induction false} ReplaceSpec(s: string, pat: string, rep: string)
    requires pat != []
    ensures Splice(Gaps(s, pat), pat) == s
    ensures Leftmost(Gaps(s, pat), pat)
    ensures Replace(s, pat, rep) == Splice(Gaps(s, pat), rep)
  {
    GapsSplice(s, pat);
    ReplaceSplice(Gaps(s, pat), pat, rep);
  }

  /** The two facts `ReplaceSpec` states about the gaps determine them: any
      gaps that splice back to `s` and are leftmost are the gaps of `s`. */
  lemma {:induction false} GapsUnique(s: string, pat: string, g: seq<string>)
    requires pat != [] && |g| >= 1 && Splice(g, pat) == s && Leftmost(g, pat)
    ensures g == Gaps(s, pat)
    decreases |s|
  {
    if |g| == 1 {
      NoMatchGaps(s, pat);
    } else {
      var rest := Splice(g[1..], pat);
      LeftmostTail(g, pat);
      if g[0] == [] {
        assert s == pat + rest;
        assert s[..|pat|] == pat && s[|pat|..] == rest;
        GapsUnique(rest, pat, g[1..]);
        assert g == [[]] + g[1..];
      } else {
        var u := g[0][1..];
        assert s == (g[0] + pat) + rest;
        assert !(|pat| <= |s| && s[..|pat|] == pat) by {
          OccursInPrefix(g[0] + pat, rest, pat, 0);
          assert !OccursAt(g[0] + pat, pat, 0);
        }
        GapTailFree(g[0], pat, pat);
        assert g[0][1..] + pat == u + pat;
        ConsGap(u, g, pat);
        assert s[1..] == u + pat + rest;
        GapsUnique(s[1..], pat, [u] + g[1..]);
        assert [g[0][0]] + u == g[0];
        assert g == [g[0]] + g[1..];
      }
    }
  }

  /** Text in which no match starts is a single gap. */
  lemma {:induction false} NoMatchGaps(s: string, pat: string)
    requires pat != [] && NoMatchBefore(s, pat, |s|)
    ensures Gaps(s, pat) == [s]
    decreases |s|
  {
    if s != [] {
      assert !OccursAt(s, pat, 0);
      assert !(|pat| <= |s| && s[..|pat|] == pat) by {
        if |pat| <= |s| { assert s[..|pat|] == s[0..|pat|]; }
      }
      forall i: nat | i < |s| - 1 ensures !OccursAt(s[1..], pat, i) {
        OccursInTail(s, pat, i);
      }
      NoMatchGaps(s[1..], pat);
      assert [s[0]] + s[1..] == s;
    }
  }

  /** Dropping the first of several leftmost gaps leaves leftmost gaps. */
  lemma {:induction false} LeftmostTail(g: seq<string>, pat: string)
    requires |g| > 1 && Leftmost(g, pat)
    ensures Leftmost(g[1..], pat)
  {
    var more := g[1..];
    forall k | 0 <= k < |more| - 1 ensures NoMatchBefore(more[k] + pat, pat, |more[k]|) {
      assert more[k] == g[k + 1];
    }
    assert more[|more| - 1] == g[|g| - 1];
  }

  /** Text without any occurrence of the pattern comes back unchanged. */
  lemma {:induction false} ReplaceNoMatch(s: string, pat: string, rep: string)
    requires pat != [] && NoMatchBefore(s, pat, |s|)
    ensures Replace(s, pat, rep) == s
  {
    ReplaceSplice([s], pat, rep);
  }

  /** Text that starts with the pattern starts with the replacement. */
  lemma {:induction false} ReplaceLeadingMatch(pat: string, t: string, rep: string)
    requires pat != []
    ensures Replace(pat + t, pat, rep) == rep + Replace(t, pat, rep)
  {
    assert (pat + t)[..|pat|] == pat && (pat + t)[|pat|..] == t;
  }
}
