/** String helpers shared by the model: prefixes, substring search, the
    ASCII lower-casing the source relies on, and decimal formatting of
    natural numbers. */
module Text {

  datatype Option<+T> = None | Some(value: T) {
    function GetOr(default: T): T {
      match this
      case Some(v) => v
      case None => default
    }
    /** JavaScript's `a ?? b` on an optional value. */
    function Or(other: Option<T>): Option<T> {
      if Some? then this else other
    }
  }

  predicate StartsWith(s: string, p: string) {
    |p| <= |s| && s[..|p|] == p
  }

  predicate EndsWith(s: string, p: string) {
    |p| <= |s| && s[|s| - |p|..] == p
  }

  /** `s.includes(p)`: some position of `s` starts an occurrence of `p`. */
  predicate Contains(s: string, p: string)
    decreases |s|
  {
    StartsWith(s, p) || (|s| > 0 && Contains(s[1..], p))
  }

  lemma {:induction false} ContainsAt(s: string, p: string, i: nat)
    requires i + |p| <= |s| && s[i..i + |p|] == p
    ensures Contains(s, p)
    decreases i
  {
    if i > 0 {
      assert s[1..][i - 1..i - 1 + |p|] == s[i..i + |p|];
      ContainsAt(s[1..], p, i - 1);
    } else {
      assert s[..|p|] == s[0..|p|];
    }
  }

  lemma {:induction false} ContainsWitness(s: string, p: string) returns (i: nat)
    requires Contains(s, p)
    ensures i + |p| <= |s| && s[i..i + |p|] == p
    decreases |s|
  {
    if StartsWith(s, p) {
      i := 0;
    } else {
      var j := ContainsWitness(s[1..], p);
      i := j + 1;
      assert s[i..i + |p|] == s[1..][j..j + |p|];
    }
  }

  /** A character of JavaScript's `\s` class (white space and line terminators). */
  predicate IsSpace(c: char) {
    c == ' ' || c == '\t' || c == '\n' || c == '\r' || c == '\U{000B}' || c == '\U{000C}'
    || c == '\U{00A0}' || c == '\U{1680}' || ('\U{2000}' <= c <= '\U{200A}')
    || c == '\U{2028}' || c == '\U{2029}' || c == '\U{202F}' || c == '\U{205F}'
    || c == '\U{3000}' || c == '\U{FEFF}'
  }

  predicate AllSpace(s: string) {
    forall i :: 0 <= i < |s| ==> IsSpace(s[i])
  }

  /** A character of the regular-expression class `\w`. */
  predicate IsWordChar(c: char) {
    ('a' <= c <= 'z') || ('A' <= c <= 'Z') || ('0' <= c <= '9') || c == '_'
  }

  function LowerChar(c: char): char {
    if 'A' <= c <= 'Z' then (c as int + 32) as char else c
  }

  /** `toLowerCase()`, restricted to the ASCII letters. */
  function ToLower(s: string): (r: string)
    ensures |r| == |s|
    ensures forall i :: 0 <= i < |s| ==> r[i] == LowerChar(s[i])
  {
    seq(|s|, i requires 0 <= i < |s| => LowerChar(s[i]))
  }

  /** The UTF-16 code units of one character: one unit in the Basic
      Multilingual Plane, else a high and a low surrogate. */
  function Utf16Units(c: char): (r: seq<int>)
    ensures |r| == (if c as int < 0x1_0000 then 1 else 2)
    ensures |r| == 2 ==> 0xD800 <= r[0] && r[0] == 0xD800 + (c as int - 0x1_0000) / 0x400
  {
    var v := c as int;
    if v < 0x1_0000 then [v]
    else [0xD800 + (v - 0x1_0000) / 0x400, 0xDC00 + (v - 0x1_0000) % 0x400]
  }

  /** A JavaScript string's code units: what `length` counts and `slice` cuts. */
  function Utf16(s: string): (r: seq<int>)
    ensures |s| <= |r| <= 2 * |s|
    decreases |s|
  {
    if |s| == 0 then [] else Utf16Units(s[0]) + Utf16(s[1..])
  }

  lemma {:induction false} Utf16Append(a: string, b: string)
    ensures Utf16(a + b) == Utf16(a) + Utf16(b)
    decreases |a|
  {
    if |a| == 0 {
      assert a + b == b;
    } else {
      assert (a + b)[1..] == a[1..] + b;
      Utf16Append(a[1..], b);
      Associate(Utf16Units(a[0]), Utf16(a[1..]), Utf16(b));
    }
  }

  function TrimStartSpace(s: string): (r: string)
    ensures |r| <= |s| && r == s[|s| - |r|..]
    ensures r == [] || !IsSpace(r[0])
    decreases |s|
  {
    if |s| > 0 && IsSpace(s[0]) then TrimStartSpace(s[1..]) else s
  }

  function TrimEndSpace(s: string): (r: string)
    ensures |r| <= |s| && r == s[..|r|]
    ensures AllSpace(s[|r|..])
    ensures r == [] || !IsSpace(r[|r| - 1])
    decreases |s|
  {
    if |s| > 0 && IsSpace(s[|s| - 1]) then
      var r := TrimEndSpace(s[..|s| - 1]);
      TakeTake(s, |s| - 1, |r|);
      DropOfFront(s, |r|);
      r
    else s
  }

  /** Index of the first `c` in `s`, if any. */
  function IndexOf(s: string, c: char): (r: Option<nat>)
    ensures r.None? <==> c !in s
    ensures r.Some? ==> r.value < |s| && s[r.value] == c && c !in s[..r.value]
    decreases |s|
  {
    if |s| == 0 then None
    else if s[0] == c then Some(0)
    else
      match IndexOf(s[1..], c)
      case None => None
      case Some(k) =>
        assert s[..k + 1] == [s[0]] + s[1..][..k];
        Some(k + 1)
  }

  /** `lastIndexOf(c)`: the last position of `c`, or -1. */
  function LastIndexOf(s: string, c: char): (r: int)
    ensures -1 <= r < |s|
    ensures r >= 0 ==> s[r] == c
    ensures forall j :: r < j < |s| ==> s[j] != c
    decreases |s|
  {
    if |s| == 0 then -1
    else if s[|s| - 1] == c then |s| - 1
    else LastIndexOf(s[..|s| - 1], c)
  }

  predicate IsDigit(c: char) {
    '0' <= c <= '9'
  }

  predicate AllDigits(s: string) {
    forall i :: 0 <= i < |s| ==> IsDigit(s[i])
  }

  function DigitChar(d: nat): char
    requires d < 10
  {
    ('0' as int + d) as char
  }

  /** The decimal form JavaScript prints for a non-negative integer. */
  function NatToString(n: nat): (r: string)
    ensures |r| > 0 && AllDigits(r)
    decreases n
  {
    if n < 10 then [DigitChar(n)] else NatToString(n / 10) + [DigitChar(n % 10)]
  }

  /** The value of a string of decimal digits (`parseInt(d, 10)`). */
  function DigitsValue(s: string): nat
    requires AllDigits(s)
    decreases |s|
  {
    if |s| == 0 then 0 else 10 * DigitsValue(s[..|s| - 1]) + (s[|s| - 1] as int - '0' as int)
  }

  lemma {:induction false} DigitsValueOfNatToString(n: nat)
    ensures DigitsValue(NatToString(n)) == n
    decreases n
  {
    if n >= 10 {
      var s := NatToString(n);
      assert s[..|s| - 1] == NatToString(n / 10);
      DigitsValueOfNatToString(n / 10);
    }
  }

  /** The longest all-digit prefix of `s`. */
  function DigitPrefix(s: string): (r: string)
    ensures AllDigits(r) && StartsWith(s, r)
    ensures |r| < |s| ==> !IsDigit(s[|r|])
    decreases |s|
  {
    if |s| > 0 && IsDigit(s[0]) then [s[0]] + DigitPrefix(s[1..]) else []
  }

  lemma {:induction false} DigitPrefixOfDigitsThen(d: string, rest: string)
    requires AllDigits(d)
    requires rest == [] || !IsDigit(rest[0])
    ensures DigitPrefix(d + rest) == d
    decreases |d|
  {
    if |d| > 0 {
      assert (d + rest)[1..] == d[1..] + rest;
      DigitPrefixOfDigitsThen(d[1..], rest);
    } else {
      assert d + rest == rest;
    }
  }

  function Join(parts: seq<string>, sep: string): string
  {
    if |parts| == 0 then []
    else if |parts| == 1 then parts[0]
    else parts[0] + sep + Join(parts[1..], sep)
  }

  /** `p` occurs in any text that has it as a middle piece. */
  lemma ContainsInfix(a: string, p: string, b: string)
    ensures Contains(a + p + b, p)
  {
    assert (a + p + b)[|a|..|a| + |p|] == p;
    ContainsAt(a + p + b, p, |a|);
  }

  /** An occurrence in a piece is an occurrence in the whole. */
  lemma ContainsConcat(a: string, b: string, p: string)
    requires Contains(a, p) || Contains(b, p)
    ensures Contains(a + b, p)
  {
    if Contains(a, p) {
      var i := ContainsWitness(a, p);
      assert (a + b)[i..i + |p|] == a[i..i + |p|];
      ContainsAt(a + b, p, i);
    } else {
      var i := ContainsWitness(b, p);
      assert (a + b)[|a| + i..|a| + i + |p|] == b[i..i + |p|];
      ContainsAt(a + b, p, |a| + i);
    }
  }

  /** An occurrence in one part of a join is an occurrence in the join. */
  lemma {:induction false} JoinContains(parts: seq<string>, sep: string, i: nat, p: string)
    requires i < |parts| && Contains(parts[i], p)
    ensures Contains(Join(parts, sep), p)
    decreases |parts|
  {
    if |parts| > 1 {
      if i == 0 {
        ContainsConcat(parts[0], sep, p);
        ContainsConcat(parts[0] + sep, Join(parts[1..], sep), p);
      } else {
        JoinContains(parts[1..], sep, i - 1, p);
        ContainsConcat(parts[0] + sep, Join(parts[1..], sep), p);
      }
    }
  }

  /** Trailing white space after a non-space end is exactly what is trimmed. */
  lemma {:induction false} TrimEndSpaceOfSpaces(x: string, ws: string)
    requires AllSpace(ws) && (x == [] || !IsSpace(x[|x| - 1]))
    ensures TrimEndSpace(x + ws) == x
    decreases |ws|
  {
    if |ws| > 0 {
      assert (x + ws)[..|x + ws| - 1] == x + ws[..|ws| - 1];
      assert IsSpace(ws[|ws| - 1]);
      TrimEndSpaceOfSpaces(x, ws[..|ws| - 1]);
    } else {
      assert x + ws == x;
    }
  }

  /** Text in front of a non-blank string is left alone by trimming its end. */
  lemma TrimEndSpaceAppend(u: string, w: string)
    requires TrimEndSpace(w) != []
    ensures TrimEndSpace(u + w) == u + TrimEndSpace(w)
  {
    var t := TrimEndSpace(w);
    assert w == t + w[|t|..];
    assert u + w == (u + t) + w[|t|..];
    TrimEndSpaceOfSpaces(u + t, w[|t|..]);
  }

  // ---------------------------------------------------------------
  // Sequence algebra, stated once so that proofs about recursive
  // string functions need not prove it inline
  // ---------------------------------------------------------------

  /** Concatenation regrouped to the left. */
  lemma Associate<T>(a: seq<T>, b: seq<T>, c: seq<T>)
    ensures a + (b + c) == (a + b) + c
  {
  }

  /** `(a + b + c) + r` regrouped to the right. */
  lemma Associate3<T>(a: seq<T>, b: seq<T>, c: seq<T>, r: seq<T>)
    ensures (a + b + c) + r == a + (b + (c + r))
  {
  }

  /** Cutting a join where it was made gives back its two sides. */
  lemma CutAtJoin<T>(a: seq<T>, b: seq<T>)
    ensures (a + b)[..|a|] == a && (a + b)[|a|..] == b
  {
  }

  /** Dropping `m` and then `k` elements is dropping `m + k`. */
  lemma DropDrop<T>(x: seq<T>, m: nat, k: nat)
    requires m + k <= |x|
    ensures x[m..][k..] == x[m + k..]
  {
  }

  /** The two sides of a cut put back together. */
  lemma SplitJoin<T>(s: seq<T>, n: nat, front: seq<T>, back: seq<T>)
    requires n <= |s| && front == s[..n] && back == s[n..]
    ensures front + back == s
  {
    assert s == s[..n] + s[n..];
  }

  /** Moving a middle piece from the tail onto the prefix. */
  lemma Regroup<T>(whole: seq<T>, prefix: seq<T>, middle: seq<T>, tail: seq<T>, rest: seq<T>)
    requires whole == prefix + tail && tail == middle + rest
    ensures whole == (prefix + middle) + rest
  {
  }

  /** Indexing a join within its left side. */
  lemma PrefixIndex<T>(a: seq<T>, b: seq<T>, i: nat)
    requires i < |a|
    ensures (a + b)[i] == a[i]
  {
  }

  /** The suffixes of the tail are the later suffixes of the whole. */
  lemma DropShift<T>(s: seq<T>)
    requires |s| > 0
    ensures forall j :: 1 <= j <= |s| ==> s[1..][j - 1..] == s[j..]
  {
    forall j | 1 <= j <= |s|
      ensures s[1..][j - 1..] == s[j..]
    {
      DropDrop(s, 1, j - 1);
    }
  }

  /** A non-empty sequence is its head followed by its tail. */
  lemma HeadTail<T>(s: seq<T>)
    requires |s| > 0
    ensures [s[0]] + s[1..] == s
  {
  }

  /** A prefix of a prefix is a prefix. */
  lemma TakeTake<T>(s: seq<T>, m: nat, k: nat)
    requires k <= m <= |s|
    ensures s[..m][..k] == s[..k]
  {
  }

  /** A suffix reaching the end is the suffix of the front part plus the last element. */
  lemma DropOfFront<T>(s: seq<T>, k: nat)
    requires k < |s|
    ensures s[k..] == s[..|s| - 1][k..] + [s[|s| - 1]]
  {
  }

  /** A prefix of a join that ends within its left side. */
  lemma TakeOfJoin<T>(a: seq<T>, b: seq<T>, k: nat)
    requires k <= |a|
    ensures (a + b)[..k] == a[..k]
  {
  }

  /** A suffix of a join that starts within its left side. */
  lemma DropOfJoin<T>(a: seq<T>, b: seq<T>, k: nat)
    requires k <= |a|
    ensures (a + b)[k..] == a[k..] + b
  {
  }

  /** A suffix splits at any later position. */
  lemma SliceJoin<T>(s: seq<T>, i: nat, j: nat)
    requires i <= j <= |s|
    ensures s[i..] == s[i..j] + s[j..]
  {
  }
}
