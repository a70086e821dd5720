/** JavaScript's global `String.prototype.replace` for the two kinds of
    regular expression the compositor uses: a literal text (`/id="wax-/g`)
    and an opener followed by everything up to a closing character
    (`/fill="[^"]*"/g`, `/<\/?svg[^>]*>/g`). Neither kind can match the
    empty string and each has at most one match at a given position, so a
    global replace scans left to right, replacing each match and resuming
    after it. */
module Replace {
  import opened Text

  datatype Pattern =
    | Literal(text: string)
      /** One of `openers`, then any characters other than `close`, then `close`. */
    | Span(openers: seq<string>, close: char)

  /** Openers are non-empty and none is a prefix of another, so at most one
      applies at any position. */
  predicate ValidPattern(pat: Pattern) {
    match pat
    case Literal(t) => |t| > 0
    case Span(os, _) =>
      && (forall i :: 0 <= i < |os| ==> |os[i]| > 0)
      && (forall i, j :: 0 <= i < |os| && 0 <= j < |os| && i != j ==> !StartsWith(os[i], os[j]))
  }

  function FirstOpener(s: string, os: seq<string>): (r: Option<string>)
    ensures r.Some? ==> r.value in os && StartsWith(s, r.value)
    ensures r.None? ==> forall i :: 0 <= i < |os| ==> !StartsWith(s, os[i])
    decreases |os|
  {
    if |os| == 0 then None
    else if StartsWith(s, os[0]) then Some(os[0])
    else
      var r := FirstOpener(s, os[1..]);
      assert forall i :: 1 <= i < |os| ==> os[i] == os[1..][i - 1];
      r
  }

  /** The length of the match starting at the head of `s`, if any. */
  function MatchAt(s: string, pat: Pattern): (r: Option<nat>)
    requires ValidPattern(pat)
    ensures r.Some? ==> 0 < r.value <= |s|
  {
    match pat
    case Literal(t) => if StartsWith(s, t) then Some(|t|) else None
    case Span(os, c) =>
      match FirstOpener(s, os)
      case None => None
      case Some(o) =>
        assert o in os;
        match IndexOf(s[|o|..], c)
        case None => None
        case Some(k) => Some(|o| + k + 1)
  }

  /** `s.replace(pattern, rep)` with the global flag. */
  function ReplaceAll(s: string, pat: Pattern, rep: string): string
    requires ValidPattern(pat)
    decreases |s|
  {
    if |s| == 0 then []
    else
      match MatchAt(s, pat)
      case Some(n) => rep + ReplaceAll(s[n..], pat, rep)
      case None => [s[0]] + ReplaceAll(s[1..], pat, rep)
  }

  // ---------------------------------------------------------------
  // The specification: unmatched pieces alternating with matches
  // ---------------------------------------------------------------

  /** `s` cut at the leftmost non-overlapping matches: the pieces between
      them, and the matched texts. */
  function Decompose(s: string, pat: Pattern): (r: (seq<string>, seq<string>))
    requires ValidPattern(pat)
    ensures |r.0| == |r.1| + 1
    decreases |s|
  {
    if |s| == 0 then ([[]], [])
    else
      match MatchAt(s, pat)
      case Some(n) =>
        var d := Decompose(s[n..], pat);
        ([[]] + d.0, [s[..n]] + d.1)
      case None =>
        var d := Decompose(s[1..], pat);
        ([[s[0]] + d.0[0]] + d.0[1..], d.1)
  }

  /** `ps[0] + ms[0] + ps[1] + ... + ms[n-1] + ps[n]`. */
  function Interleave(ps: seq<string>, ms: seq<string>): string
    requires |ps| == |ms| + 1
    decreases |ms|
  {
    if |ms| == 0 then ps[0] else ps[0] + ms[0] + Interleave(ps[1..], ms[1..])
  }

  function Repeat(x: string, n: nat): (r: seq<string>)
    ensures |r| == n && forall i :: 0 <= i < n ==> r[i] == x
  {
    seq(n, _ => x)
  }

  lemma InterleaveConsFirst(c: char, ps: seq<string>, ms: seq<string>)
    requires |ps| == |ms| + 1
    ensures Interleave([[c] + ps[0]] + ps[1..], ms) == [c] + Interleave(ps, ms)
  {
    var ps' := [[c] + ps[0]] + ps[1..];
    assert ps'[1..] == ps[1..];
  }

  /** The pieces and matches give `s` back. */
  lemma {:induction false} DecomposeRebuilds(s: string, pat: Pattern)
    requires ValidPattern(pat)
    ensures Interleave(Decompose(s, pat).0, Decompose(s, pat).1) == s
    decreases |s|
  {
    if |s| > 0 {
      match MatchAt(s, pat)
      case Some(n) =>
        DecomposeRebuilds(s[n..], pat);
        var d := Decompose(s[n..], pat);
        CutAtJoin([[]], d.0);
        CutAtJoin([s[..n]], d.1);
        SplitJoin(s, n, s[..n], s[n..]);
        assert [] + s[..n] == s[..n];
      case None =>
        DecomposeRebuilds(s[1..], pat);
        var d := Decompose(s[1..], pat);
        InterleaveConsFirst(s[0], d.0, d.1);
        HeadTail(s);
    }
  }

  /** A global replace writes `rep` in place of every match and keeps every
      piece between matches. */
  lemma {:induction false} ReplaceAllReplacesMatches(s: string, pat: Pattern, rep: string)
    requires ValidPattern(pat)
    ensures var d := Decompose(s, pat);
      ReplaceAll(s, pat, rep) == Interleave(d.0, Repeat(rep, |d.1|))
    decreases |s|
  {
    if |s| > 0 {
      match MatchAt(s, pat)
      case Some(n) =>
        ReplaceAllReplacesMatches(s[n..], pat, rep);
        var d := Decompose(s[n..], pat);
        assert ([[]] + d.0)[1..] == d.0;
        assert Repeat(rep, |d.1| + 1)[1..] == Repeat(rep, |d.1|);
        assert [] + rep == rep;
      case None =>
        ReplaceAllReplacesMatches(s[1..], pat, rep);
        var d := Decompose(s[1..], pat);
        InterleaveConsFirst(s[0], d.0, Repeat(rep, |d.1|));
    }
  }

  lemma IndexOfPrefixStable(t: string, u: string, c: char)
    requires IndexOf(t, c).Some?
    ensures IndexOf(t + u, c) == IndexOf(t, c)
  {
    var k := IndexOf(t, c).value;
    assert (t + u)[..k] == t[..k];
    assert (t + u)[k] == c;
  }

  /** Two prefixes of one text are prefixes of each other. */
  lemma PrefixesComparable(s: string, a: string, b: string)
    requires StartsWith(s, a) && StartsWith(s, b)
    ensures StartsWith(a, b) || StartsWith(b, a)
  {
    if |a| <= |b| {
      assert b[..|a|] == s[..|a|];
    } else {
      assert a[..|b|] == s[..|b|];
    }
  }

  lemma FirstOpenerUnique(s: string, os: seq<string>, o: string)
    requires ValidPattern(Span(os, ' ')) && o in os && StartsWith(s, o)
    ensures FirstOpener(s, os) == Some(o)
  {
    var i :| 0 <= i < |os| && os[i] == o;
    var r := FirstOpener(s, os);
    assert r.Some?;
    var j :| 0 <= j < |os| && os[j] == r.value;
    PrefixesComparable(s, os[i], os[j]);
    assert i == j;
  }

  /** A match only looks at the text it covers, so text after it changes nothing. */
  lemma MatchAtPrefixStable(t: string, u: string, pat: Pattern)
    requires ValidPattern(pat) && MatchAt(t, pat).Some?
    ensures MatchAt(t + u, pat) == MatchAt(t, pat)
  {
    match pat
    case Literal(x) =>
      TakeOfJoin(t, u, |x|);
    case Span(os, c) =>
      SpanPrefixStable(t, u, os, c);
  }

  lemma SpanPrefixStable(t: string, u: string, os: seq<string>, c: char)
    requires ValidPattern(Span(os, c)) && MatchAt(t, Span(os, c)).Some?
    ensures MatchAt(t + u, Span(os, c)) == MatchAt(t, Span(os, c))
  {
    var o := FirstOpener(t, os).value;
    TakeOfJoin(t, u, |o|);
    FirstOpenerUnique(t + u, os, o);
    DropOfJoin(t, u, |o|);
    IndexOfPrefixStable(t[|o|..], u, c);
    assert IndexOf((t + u)[|o|..], c) == IndexOf(t[|o|..], c);
  }

  /** A matched text matches as a whole. */
  lemma MatchAtTruncate(t: string, pat: Pattern)
    requires ValidPattern(pat) && MatchAt(t, pat).Some?
    ensures MatchAt(t[..MatchAt(t, pat).value], pat) == MatchAt(t, pat)
  {
    var n := MatchAt(t, pat).value;
    match pat
    case Literal(x) =>
      TakeTake(t, n, |x|);
    case Span(os, c) =>
      var o := FirstOpener(t, os).value;
      var k := IndexOf(t[|o|..], c).value;
      var front := t[..n];
      TakeTake(t, n, |o|);
      FirstOpenerUnique(front, os, o);
      SplitJoin(t, n, front, t[n..]);
      DropOfJoin(front, t[n..], |o|);
      PrefixIndex(front[|o|..], t[n..], k);
      TakeOfJoin(front[|o|..], t[n..], k);
  }

  /** Each text in `ms` is one whole match. */
  predicate WholeMatches(ms: seq<string>, pat: Pattern)
    requires ValidPattern(pat)
  {
    forall i :: 0 <= i < |ms| ==> MatchAt(ms[i], pat) == Some(|ms[i]|)
  }

  /** No position of `p` starts a match that ends within `p`. */
  predicate MatchFree(p: string, pat: Pattern)
    requires ValidPattern(pat)
  {
    forall k :: 0 <= k < |p| ==> MatchAt(p[k..], pat).None?
  }

  lemma WholeMatchesCons(m: string, ms: seq<string>, pat: Pattern)
    requires ValidPattern(pat) && MatchAt(m, pat) == Some(|m|) && WholeMatches(ms, pat)
    ensures WholeMatches([m] + ms, pat)
  {
    assert forall i :: 1 <= i <= |ms| ==> ([m] + ms)[i] == ms[i - 1];
  }

  /** Every recorded match is one whole match. */
  lemma {:induction false} MatchesAreMatches(s: string, pat: Pattern)
    requires ValidPattern(pat)
    ensures WholeMatches(Decompose(s, pat).1, pat)
    decreases |s|
  {
    if |s| > 0 {
      match MatchAt(s, pat)
      case Some(n) =>
        MatchesAreMatches(s[n..], pat);
        MatchAtTruncate(s, pat);
        WholeMatchesCons(s[..n], Decompose(s[n..], pat).1, pat);
      case None =>
        MatchesAreMatches(s[1..], pat);
        assert Decompose(s, pat).1 == Decompose(s[1..], pat).1;
    }
  }

  /** The first piece is a prefix of the text. */
  lemma {:induction false} FirstPieceIsPrefix(s: string, pat: Pattern)
    requires ValidPattern(pat)
    ensures StartsWith(s, Decompose(s, pat).0[0])
    decreases |s|
  {
    if |s| > 0 && MatchAt(s, pat).None? {
      FirstPieceIsPrefix(s[1..], pat);
      var p := Decompose(s[1..], pat).0[0];
      assert Decompose(s, pat).0[0] == [s[0]] + p;
      assert s[..|p| + 1] == [s[0]] + s[1..][..|p|];
    }
  }

  /** No piece between matches contains a match: the scan missed nothing. */
  lemma {:induction false} PiecesHoldNoMatch(s: string, pat: Pattern)
    requires ValidPattern(pat)
    ensures forall i :: 0 <= i < |Decompose(s, pat).0| ==> MatchFree(Decompose(s, pat).0[i], pat)
    decreases |s|
  {
    var ps := Decompose(s, pat).0;
    if |s| == 0 {
      assert ps == [[]];
    } else {
      match MatchAt(s, pat)
      case Some(n) =>
        PiecesHoldNoMatch(s[n..], pat);
        var d := Decompose(s[n..], pat).0;
        assert ps == [[]] + d;
        forall i | 0 <= i < |ps|
          ensures MatchFree(ps[i], pat)
        {
          if i > 0 {
            assert ps[i] == d[i - 1];
          }
        }
      case None =>
        PiecesHoldNoMatch(s[1..], pat);
        FirstPieceIsPrefix(s, pat);
        var d := Decompose(s[1..], pat).0;
        assert ps == [[s[0]] + d[0]] + d[1..];
        assert MatchFree(d[0], pat);
        FirstPieceHoldsNoMatch(s, pat, ps[0], d[0]);
        forall i | 0 <= i < |ps|
          ensures MatchFree(ps[i], pat)
        {
          if i > 0 {
            assert ps[i] == d[i];
          }
        }
    }
  }

  /** Helper: the first piece when the text does not start with a match. */
  lemma FirstPieceHoldsNoMatch(s: string, pat: Pattern, p0: string, p: string)
    requires ValidPattern(pat) && |s| > 0 && MatchAt(s, pat).None?
    requires p0 == [s[0]] + p && StartsWith(s, p0)
    requires MatchFree(p, pat)
    ensures MatchFree(p0, pat)
  {
    forall k | 0 <= k < |p0|
      ensures MatchAt(p0[k..], pat).None?
    {
      if k == 0 {
        assert s == p0 + s[|p0|..];
        if MatchAt(p0, pat).Some? {
          MatchAtPrefixStable(p0, s[|p0|..], pat);
          assert p0[0..] == p0;
        }
      } else {
        assert p0[k..] == p[k - 1..];
      }
    }
  }

  /** With no match anywhere, a global replace changes nothing. */
  lemma {:induction false} ReplaceAllWithoutMatch(s: string, pat: Pattern, rep: string)
    requires ValidPattern(pat)
    requires forall k :: 0 <= k < |s| ==> MatchAt(s[k..], pat).None?
    ensures ReplaceAll(s, pat, rep) == s
    decreases |s|
  {
    if |s| > 0 {
      assert s[0..] == s;
      assert forall k :: 0 <= k < |s| - 1 ==> s[1..][k..] == s[k + 1..];
      ReplaceAllWithoutMatch(s[1..], pat, rep);
    }
  }

  /** A literal that does not occur in `s` matches nowhere in it. */
  lemma LiteralAbsentNoMatch(s: string, t: string)
    requires |t| > 0 && !Contains(s, t)
    ensures forall k :: 0 <= k < |s| ==> MatchAt(s[k..], Literal(t)).None?
  {
    forall k | 0 <= k < |s|
      ensures MatchAt(s[k..], Literal(t)).None?
    {
      if StartsWith(s[k..], t) {
        assert s[k..k + |t|] == s[k..][..|t|];
        ContainsAt(s, t, k);
      }
    }
  }

  /** A literal global replace: `s` is pieces free of `t` joined by `t`,
      and the result is the same pieces joined by `rep`. */
  lemma LiteralReplace(s: string, t: string, rep: string) returns (ps: seq<string>)
    requires |t| > 0
    ensures |ps| > 0
    ensures s == Interleave(ps, Repeat(t, |ps| - 1))
    ensures ReplaceAll(s, Literal(t), rep) == Interleave(ps, Repeat(rep, |ps| - 1))
    ensures forall i :: 0 <= i < |ps| ==> !Contains(ps[i], t)
  {
    var pat := Literal(t);
    var d := Decompose(s, pat);
    ps := d.0;
    DecomposeRebuilds(s, pat);
    ReplaceAllReplacesMatches(s, pat, rep);
    MatchesAreMatches(s, pat);
    PiecesHoldNoMatch(s, pat);
    assert d.1 == Repeat(t, |ps| - 1) by {
      forall i | 0 <= i < |d.1|
        ensures d.1[i] == t
      {
        assert MatchAt(d.1[i], pat) == Some(|d.1[i]|);
        assert d.1[i] == d.1[i][..|t|];
      }
    }
    forall i | 0 <= i < |ps|
      ensures !Contains(ps[i], t)
    {
      MatchFreeExcludesLiteral(ps[i], t);
    }
  }

  lemma {:induction false} MatchFreeExcludesLiteral(p: string, t: string)
    requires |t| > 0 && MatchFree(p, Literal(t))
    ensures !Contains(p, t)
    decreases |p|
  {
    if |p| > 0 {
      assert p[0..] == p;
      assert forall k :: 0 <= k < |p| - 1 ==> p[1..][k..] == p[k + 1..];
      MatchFreeExcludesLiteral(p[1..], t);
    }
  }

  /** A whole `opener ... close` match: one opener, then no `close` until the last character. */
  predicate SpanShaped(m: string, os: seq<string>, c: char) {
    exists o :: o in os && StartsWith(m, o) && |o| < |m| && m[|m| - 1] == c && c !in m[|o|..|m| - 1]
  }

  lemma WholeSpanIsShaped(m: string, os: seq<string>, c: char)
    requires ValidPattern(Span(os, c)) && MatchAt(m, Span(os, c)) == Some(|m|)
    ensures SpanShaped(m, os, c)
  {
    var o := FirstOpener(m, os).value;
    var k := IndexOf(m[|o|..], c).value;
    assert m[|o|..][..k] == m[|o|..|m| - 1];
  }

  /** A global replace of a span pattern: `s` is pieces alternating with
      whole spans, and the result has `rep` in place of each span. */
  lemma SpanReplace(s: string, os: seq<string>, c: char, rep: string) returns (ps: seq<string>, ms: seq<string>)
    requires ValidPattern(Span(os, c))
    ensures |ps| == |ms| + 1
    ensures s == Interleave(ps, ms)
    ensures ReplaceAll(s, Span(os, c), rep) == Interleave(ps, Repeat(rep, |ms|))
    ensures forall i :: 0 <= i < |ms| ==> SpanShaped(ms[i], os, c)
    ensures forall i :: 0 <= i < |ps| ==> MatchFree(ps[i], Span(os, c))
  {
    var pat := Span(os, c);
    ps, ms := Decompose(s, pat).0, Decompose(s, pat).1;
    DecomposeRebuilds(s, pat);
    ReplaceAllReplacesMatches(s, pat, rep);
    MatchesAreMatches(s, pat);
    PiecesHoldNoMatch(s, pat);
    forall i | 0 <= i < |ms|
      ensures SpanShaped(ms[i], os, c)
    {
      WholeSpanIsShaped(ms[i], os, c);
    }
  }

  /** Text holding none of the openers has no span match anywhere. */
  lemma SpanAbsentNoMatch(s: string, os: seq<string>, c: char)
    requires ValidPattern(Span(os, c))
    requires forall i :: 0 <= i < |os| ==> !Contains(s, os[i])
    ensures forall k :: 0 <= k < |s| ==> MatchAt(s[k..], Span(os, c)).None?
  {
    forall k | 0 <= k < |s|
      ensures MatchAt(s[k..], Span(os, c)).None?
    {
      var r := FirstOpener(s[k..], os);
      if r.Some? {
        var o := r.value;
        assert s[k..k + |o|] == s[k..][..|o|];
        ContainsAt(s, o, k);
      }
    }
  }
  // ---------------------------------------------------------------
  // Replacement patterns
  // ---------------------------------------------------------------

  /** A character that `$` turns into a replacement pattern when the
      regular expression has no capture groups. */
  predicate PatternChar(c: char) {
    c == '$' || c == '&' || c == '`' || c == '\''
  }

  /** `GetSubstitution` for a regular expression without capture groups:
      in the replacement text `$$` stands for `$`, `$&` for the match,
      `` $` `` for the text before it and `$'` for the text after it; any
      other `$` is kept as it is. */
  function Substitute(r: string, matched: string, before: string, after: string): (x: string)
    ensures '$' !in r ==> x == r
    decreases |r|
  {
    if |r| == 0 then ""
    else if r[0] == '$' && |r| >= 2 && PatternChar(r[1]) then
      var expansion := if r[1] == '$' then "$" else if r[1] == '&' then matched
                       else if r[1] == '`' then before else after;
      expansion + Substitute(r[2..], matched, before, after)
    else
      assert '$' !in r ==> '$' !in r[1..];
      [r[0]] + Substitute(r[1..], matched, before, after)
  }

  /** Text without `$` that does not start with a pattern character is
      copied through after whatever precedes it. */
  lemma {:induction false} SubstituteAppendPlain(r: string, t: string, matched: string, before: string, after: string)
    requires '$' !in t && (|t| == 0 || !PatternChar(t[0]))
    ensures Substitute(r + t, matched, before, after) == Substitute(r, matched, before, after) + t
    decreases |r|
  {
    if |r| == 0 {
      assert r + t == t;
    } else if r[0] == '$' && |r| >= 2 && PatternChar(r[1]) {
      assert (r + t)[2..] == r[2..] + t;
      SubstituteAppendPlain(r[2..], t, matched, before, after);
      Associate(if r[1] == '$' then "$" else if r[1] == '&' then matched
                else if r[1] == '`' then before else after,
                Substitute(r[2..], matched, before, after), t);
    } else {
      assert (r + t)[1..] == r[1..] + t;
      SubstituteAppendPlain(r[1..], t, matched, before, after);
      Associate([r[0]], Substitute(r[1..], matched, before, after), t);
    }
  }

  /** `$&` after plain text brings the match in at that point. */
  lemma SubstituteMatchPattern(u: string, v: string, matched: string, before: string, after: string)
    requires '$' !in u && '$' !in v
    ensures Substitute(u + "$&" + v, matched, before, after) == u + matched + v
  {
    SubstitutePlainPrefix(u, "$&" + v, matched, before, after);
    assert ("$&" + v)[2..] == v;
    Associate(u, "$&", v);
  }

  /** A `$`-free prefix is copied through. */
  lemma {:induction false} SubstitutePlainPrefix(u: string, t: string, matched: string, before: string, after: string)
    requires '$' !in u
    ensures Substitute(u + t, matched, before, after) == u + Substitute(t, matched, before, after)
    decreases |u|
  {
    if |u| == 0 {
      assert u + t == t;
    } else {
      assert (u + t)[1..] == u[1..] + t;
      SubstitutePlainPrefix(u[1..], t, matched, before, after);
      HeadTail(u);
      Associate([u[0]], u[1..], Substitute(t, matched, before, after));
    }
  }
}
