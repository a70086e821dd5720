/** The markup compositor of the view component (`renderedSvg`): it chooses
    between the engine's precomposed emboss markup (namespaced, and for wax
    with the icon block spliced in) and a direct build from the clip path,
    and it resolves transform origins for animations. */
module View {
  import opened Text
  import opened Types
  import opened IconCraftConfig
  import opened Replace
  import opened Instance

  // ---------------------------------------------------------------
  // Transform origins
  // ---------------------------------------------------------------

  /** A custom origin coordinate: a number or CSS text. */
  datatype Coordinate = CoordNum(n: Num) | CoordText(s: string)

  /** `TransformOriginValue`: a preset name or an `{x, y}` object. */
  datatype TransformOrigin = Preset(name: string) | Custom(x: Coordinate, y: Coordinate)

  /** `formatCoordinate`: the number 0 is bare, other numbers get `px`, text passes. */
  function FormatCoordinate(v: Coordinate): (r: string)
    ensures v.CoordText? ==> r == v.s
    ensures v.CoordNum? ==> (r == "0" <==> v.n.text == "0")
    ensures v.CoordNum? && v.n.text != "0" ==> r == v.n.text + "px" && EndsWith(r, "px")
  {
    match v
    case CoordNum(n) => if n.text == "0" then "0" else n.text + "px"
    case CoordText(s) => s
  }

  /** The presets with a pair of their own; everything else is centred. */
  const PresetOrigins: map<string, string> := map[
    "top" := "50% 0%", "bottom" := "50% 100%", "left" := "0% 50%", "right" := "100% 50%",
    "top-left" := "0% 0%", "top-right" := "100% 0%",
    "bottom-left" := "0% 100%", "bottom-right" := "100% 100%"]

  /** `resolveTransformOrigin`. */
  function ResolveTransformOrigin(v: TransformOrigin): string {
    match v
    case Custom(x, y) => FormatCoordinate(x) + " " + FormatCoordinate(y)
    case Preset(p) =>
      if p == "center" || p == "icon" then "center center"
      else if p == "top" then "50% 0%"
      else if p == "bottom" then "50% 100%"
      else if p == "left" then "0% 50%"
      else if p == "right" then "100% 50%"
      else if p == "top-left" then "0% 0%"
      else if p == "top-right" then "100% 0%"
      else if p == "bottom-left" then "0% 100%"
      else if p == "bottom-right" then "100% 100%"
      else "center center"
  }

  /** A preset resolves to its table entry; any other name (including
      `center`, `icon` and unknown names) to `center center`, and only
      those do. A custom origin is its two formatted coordinates. */
  lemma ResolveTransformOriginTable(v: TransformOrigin)
    ensures v.Preset? ==> (ResolveTransformOrigin(v) ==
      (if v.name in PresetOrigins then PresetOrigins[v.name] else "center center"))
    ensures v.Preset? ==> (ResolveTransformOrigin(v) == "center center" <==> v.name !in PresetOrigins)
    ensures v.Custom? ==> ResolveTransformOrigin(v) == FormatCoordinate(v.x) + " " + FormatCoordinate(v.y)
  {
  }

  // ---------------------------------------------------------------
  // Id namespacing of the emboss markup
  // ---------------------------------------------------------------

  /** The prefixes whose ids and references are namespaced. */
  const NamespacedModes: seq<string> := ["wax", "jelly", "droplet"]

  function IdPrefix(m: string): string { "id=\"" + m + "-" }
  function UrlPrefix(m: string): string { "url(#" + m + "-" }

  /** One round of the loop: ids, then references, of prefix `m`. */
  function NamespaceMode(svg: string, iid: string, m: string): string {
    var a := ReplaceAll(svg, Literal(IdPrefix(m)), IdPrefix(iid + "-" + m));
    ReplaceAll(a, Literal(UrlPrefix(m)), UrlPrefix(iid + "-" + m))
  }

  /** The markup after the first `k` rounds of the loop. */
  function NamespaceRounds(svg: string, iid: string, k: nat): string
    requires k <= |NamespacedModes|
  {
    if k == 0 then svg else NamespaceMode(NamespaceRounds(svg, iid, k - 1), iid, NamespacedModes[k - 1])
  }

  function Namespaced(svg: string, iid: string): string {
    NamespaceRounds(svg, iid, |NamespacedModes|)
  }

  /** The loop over the three prefixes, reassigning the markup. */
  method NamespaceIds(svg: string, iid: string) returns (r: string)
    ensures r == Namespaced(svg, iid)
  {
    r := svg;
    for k := 0 to |NamespacedModes|
      invariant r == NamespaceRounds(svg, iid, k)
    {
      var m := NamespacedModes[k];
      r := ReplaceAll(r, Literal(IdPrefix(m)), IdPrefix(iid + "-" + m));
      r := ReplaceAll(r, Literal(UrlPrefix(m)), UrlPrefix(iid + "-" + m));
    }
  }

  /** One round rewrites every `id="m-` into `id="<iid>-m-` and then every
      `url(#m-` into `url(#<iid>-m-`; the pieces between occurrences are
      kept as they are. */
  lemma NamespaceModeRewrites(svg: string, iid: string, m: string) returns (ps: seq<string>, qs: seq<string>)
    ensures var a := ReplaceAll(svg, Literal(IdPrefix(m)), IdPrefix(iid + "-" + m));
      && |ps| > 0 && |qs| > 0
      && svg == Interleave(ps, Repeat(IdPrefix(m), |ps| - 1))
      && a == Interleave(ps, Repeat(IdPrefix(iid + "-" + m), |ps| - 1))
      && (forall i :: 0 <= i < |ps| ==> !Contains(ps[i], IdPrefix(m)))
      && a == Interleave(qs, Repeat(UrlPrefix(m), |qs| - 1))
      && NamespaceMode(svg, iid, m) == Interleave(qs, Repeat(UrlPrefix(iid + "-" + m), |qs| - 1))
      && (forall i :: 0 <= i < |qs| ==> !Contains(qs[i], UrlPrefix(m)))
  {
    ps := LiteralReplace(svg, IdPrefix(m), IdPrefix(iid + "-" + m));
    var a := ReplaceAll(svg, Literal(IdPrefix(m)), IdPrefix(iid + "-" + m));
    qs := LiteralReplace(a, UrlPrefix(m), UrlPrefix(iid + "-" + m));
  }

  /** Text without `p` holds no text that starts with `p`. */
  lemma {:induction false} NotContainsLonger(s: string, p: string, q: string)
    requires !Contains(s, p)
    ensures !Contains(s, p + q)
    decreases |s|
  {
    assert (p + q)[..|p|] == p;
    assert |p + q| <= |s| ==> s[..|p + q|][..|p|] == s[..|p|];
    if |s| > 0 {
      NotContainsLonger(s[1..], p, q);
    }
  }

  lemma NamespaceModeWithoutReferences(svg: string, iid: string, m: string)
    requires !Contains(svg, "id=\"") && !Contains(svg, "url(#")
    ensures NamespaceMode(svg, iid, m) == svg
  {
    NotContainsLonger(svg, "id=\"", m + "-");
    assert IdPrefix(m) == "id=\"" + (m + "-");
    LiteralAbsentNoMatch(svg, IdPrefix(m));
    ReplaceAllWithoutMatch(svg, Literal(IdPrefix(m)), IdPrefix(iid + "-" + m));
    NotContainsLonger(svg, "url(#", m + "-");
    assert UrlPrefix(m) == "url(#" + (m + "-");
    LiteralAbsentNoMatch(svg, UrlPrefix(m));
    ReplaceAllWithoutMatch(svg, Literal(UrlPrefix(m)), UrlPrefix(iid + "-" + m));
  }

  /** Markup with no ids and no `url(#` references comes back unchanged. */
  lemma {:induction false} NamespaceWithoutReferences(svg: string, iid: string, k: nat)
    requires k <= |NamespacedModes|
    requires !Contains(svg, "id=\"") && !Contains(svg, "url(#")
    ensures NamespaceRounds(svg, iid, k) == svg
  {
    if k > 0 {
      NamespaceWithoutReferences(svg, iid, k - 1);
      NamespaceModeWithoutReferences(svg, iid, NamespacedModes[k - 1]);
    }
  }

  // ---------------------------------------------------------------
  // Icon markup taken from the source SVG
  // ---------------------------------------------------------------

  /** `/<\/?svg[^>]*>/g`. */
  const SvgTagPattern := Span(["<svg", "</svg"], '>')

  /** `svgContent.replace(/<\/?svg[^>]*>/g, '')`: the content without its
      `<svg ...>` and `</svg>` tags. */
  function StripSvgTags(s: string): string {
    SvgTagPatternValid();
    ReplaceAll(s, SvgTagPattern, "")
  }

  lemma SvgTagPatternValid()
    ensures ValidPattern(SvgTagPattern)
  {
    assert !StartsWith("</svg", "<svg") by {
      assert "</svg"[..4][1] == '/';
    }
  }

  /** `/<name>="[^"]*"/g`. */
  function AttrPattern(name: string): Pattern { Span([name + "=\""], '"') }

  /** `s.replace(/<name>="[^"]*"/g, '')`. */
  function RemoveAttr(s: string, name: string): string {
    ReplaceAll(s, AttrPattern(name), "")
  }

  /** Removing an attribute deletes exactly the `name="..."` spans found
      left to right and keeps everything between them. */
  lemma RemoveAttrDeletesSpans(s: string, name: string) returns (ps: seq<string>, ms: seq<string>)
    ensures |ps| == |ms| + 1 && s == Interleave(ps, ms)
    ensures RemoveAttr(s, name) == Interleave(ps, Repeat("", |ms|))
    ensures forall i :: 0 <= i < |ms| ==> SpanShaped(ms[i], [name + "=\""], '"')
    ensures forall i :: 0 <= i < |ps| ==> MatchFree(ps[i], AttrPattern(name))
  {
    ps, ms := SpanReplace(s, [name + "=\""], '"', "");
  }

  /** Without the attribute, removal changes nothing. */
  lemma RemoveAttrAbsent(s: string, name: string)
    requires !Contains(s, name + "=\"")
    ensures RemoveAttr(s, name) == s
  {
    SpanAbsentNoMatch(s, [name + "=\""], '"');
    ReplaceAllWithoutMatch(s, AttrPattern(name), "");
  }

  /** Stripping deletes exactly the `<svg...>` / `</svg...>` tags found left
      to right; content without such tags passes unchanged. */
  lemma StripSvgTagsDeletesTags(s: string) returns (ps: seq<string>, ms: seq<string>)
    ensures |ps| == |ms| + 1 && s == Interleave(ps, ms)
    ensures StripSvgTags(s) == Interleave(ps, Repeat("", |ms|))
    ensures forall i :: 0 <= i < |ms| ==> SpanShaped(ms[i], ["<svg", "</svg"], '>')
    ensures !Contains(s, "<svg") && !Contains(s, "</svg") ==> StripSvgTags(s) == s
  {
    SvgTagPatternValid();
    ps, ms := SpanReplace(s, ["<svg", "</svg"], '>', "");
    if !Contains(s, "<svg") && !Contains(s, "</svg") {
      SpanAbsentNoMatch(s, ["<svg", "</svg"], '>');
      ReplaceAllWithoutMatch(s, SvgTagPattern, "");
    }
  }

  /** The first match of `pat` at or after the start: its position and length. */
  function FirstMatch(s: string, pat: Pattern): (r: Option<(nat, nat)>)
    requires ValidPattern(pat)
    ensures r.Some? ==> r.value.0 + r.value.1 <= |s| && MatchAt(s[r.value.0..], pat) == Some(r.value.1)
    ensures r.Some? ==> forall j :: 0 <= j < r.value.0 ==> MatchAt(s[j..], pat).None?
    ensures r.None? ==> forall j :: 0 <= j < |s| ==> MatchAt(s[j..], pat).None?
    decreases |s|
  {
    if |s| == 0 then None
    else
      match MatchAt(s, pat)
      case Some(n) =>
        assert s[0..] == s;
        Some((0, n))
      case None =>
        var later := FirstMatch(s[1..], pat);
        FirstMatchShift(s, pat, later);
        if later.None? then None else Some((later.value.0 + 1, later.value.1))
  }

  /** No match at the head: a match in the tail is a match one further on. */
  lemma FirstMatchShift(s: string, pat: Pattern, later: Option<(nat, nat)>)
    requires |s| > 0 && ValidPattern(pat) && MatchAt(s, pat).None?
    requires later.Some? ==> later.value.0 + later.value.1 <= |s| - 1 && MatchAt(s[1..][later.value.0..], pat) == Some(later.value.1)
    requires later.Some? ==> forall j :: 0 <= j < later.value.0 ==> MatchAt(s[1..][j..], pat).None?
    requires later.None? ==> forall j :: 0 <= j < |s| - 1 ==> MatchAt(s[1..][j..], pat).None?
    ensures later.Some? ==> MatchAt(s[later.value.0 + 1..], pat) == Some(later.value.1)
    ensures later.Some? ==> forall j :: 0 <= j < later.value.0 + 1 ==> MatchAt(s[j..], pat).None?
    ensures later.None? ==> forall j :: 0 <= j < |s| ==> MatchAt(s[j..], pat).None?
  {
    assert s[0..] == s;
    DropShift(s);
    if later.Some? {
      assert s[1..][later.value.0..] == s[later.value.0 + 1..];
      forall j | 0 <= j < later.value.0 + 1
        ensures MatchAt(s[j..], pat).None?
      {
        if j > 0 {
          assert MatchAt(s[1..][j - 1..], pat).None?;
        }
      }
    } else {
      forall j | 0 <= j < |s|
        ensures MatchAt(s[j..], pat).None?
      {
        if j > 0 {
          assert MatchAt(s[1..][j - 1..], pat).None?;
        }
      }
    }
  }

  const ViewBoxOpener := "viewBox=\""

  /** A whole match of a one-opener span: the opener, a value without the
      closing character, and the closing character. */
  lemma SpanMatchValue(t: string, o: string, c: char)
    requires |o| > 0 && MatchAt(t, Span([o], c)).Some?
    ensures var n := MatchAt(t, Span([o], c)).value;
      |o| < n && t[..n] == o + t[|o|..n - 1] + [c] && c !in t[|o|..n - 1]
  {
    var n := MatchAt(t, Span([o], c)).value;
    var k := IndexOf(t[|o|..], c).value;
    assert t[|o|..][..k] == t[|o|..n - 1];
    assert t[..n] == t[..|o|] + t[|o|..n - 1] + [t[n - 1]];
  }

  /** `svgContent.match(/viewBox="([^"]*)"/)`: the value of the first
      `viewBox="..."` (no earlier position matches), else `default`. */
  function ViewBoxOf(s: string, default: string): (r: string)
    ensures FirstMatch(s, Span([ViewBoxOpener], '"')).None? ==> r == default
    ensures FirstMatch(s, Span([ViewBoxOpener], '"')).Some? ==>
      '"' !in r && StartsWith(s[FirstMatch(s, Span([ViewBoxOpener], '"')).value.0..], ViewBoxOpener + r + "\"")
  {
    match FirstMatch(s, Span([ViewBoxOpener], '"'))
    case None => default
    case Some(m) =>
      var t := s[m.0..];
      SpanMatchValue(t, ViewBoxOpener, '"');
      t[|ViewBoxOpener|..m.1 - 1]
  }

  /** The icon markup for a style: `fill` drops every fill attribute and
      wraps the icon in a group of the icon colour; `stroke` also drops the
      stroke attributes and wraps it in an unfilled 1.5-wide stroke group;
      `original` (and `emboss`) keep the markup as it is. */
  function IconContent(style: IconStyle, inner: string, color: string): (r: string)
    ensures style == Original || style == Emboss ==> r == inner
    ensures style == Fill ==> StartsWith(r, "<g fill=\"" + color + "\">") && EndsWith(r, "</g>")
    ensures style == Stroke ==>
      StartsWith(r, "<g fill=\"none\" stroke=\"" + color + "\" stroke-width=\"1.5\">") && EndsWith(r, "</g>")
  {
    match style
    case Fill =>
      var open := "<g fill=\"" + color + "\">";
      var r := open + RemoveAttr(inner, "fill") + "</g>";
      assert r[..|open|] == open;
      r
    case Stroke =>
      var open := "<g fill=\"none\" stroke=\"" + color + "\" stroke-width=\"1.5\">";
      var r := open + RemoveAttr(RemoveAttr(RemoveAttr(inner, "fill"), "stroke"), "stroke-width") + "</g>";
      assert r[..|open|] == open;
      r
    case _ => inner
  }

  /** With no attributes to remove, recolouring only wraps the markup. */
  lemma IconContentOfPlainMarkup(style: IconStyle, inner: string, color: string)
    requires !Contains(inner, "fill=\"") && !Contains(inner, "stroke=\"") && !Contains(inner, "stroke-width=\"")
    ensures style == Fill ==> IconContent(style, inner, color) == "<g fill=\"" + color + "\">" + inner + "</g>"
    ensures style == Stroke ==> (IconContent(style, inner, color) ==
      "<g fill=\"none\" stroke=\"" + color + "\" stroke-width=\"1.5\">" + inner + "</g>")
  {
    assert "fill" + "=\"" == "fill=\"";
    assert "stroke" + "=\"" == "stroke=\"";
    assert "stroke-width" + "=\"" == "stroke-width=\"";
    RemoveAttrAbsent(inner, "fill");
    RemoveAttrAbsent(inner, "stroke");
    RemoveAttrAbsent(inner, "stroke-width");
  }

  /** The direct build's own recolouring, written with its flags. */
  function DirectIcon(style: IconStyle, inner: string, color: string): string {
    var isStroke := style == Stroke;
    var useOriginalColors := style != Fill && style != Stroke;
    var iconFill := if style == Fill then color else if isStroke then "none" else "currentColor";
    var a := if style == Fill || style == Stroke then RemoveAttr(inner, "fill") else inner;
    var b := if isStroke then RemoveAttr(RemoveAttr(a, "stroke"), "stroke-width") else a;
    if useOriginalColors then b
    else if isStroke then "<g fill=\"none\" stroke=\"" + color + "\" stroke-width=\"1.5\">" + b + "</g>"
    else "<g fill=\"" + iconFill + "\">" + b + "</g>"
  }

  /** The direct build and the wax splice recolour the icon identically. */
  lemma DirectIconIsIconContent(style: IconStyle, inner: string, color: string)
    ensures DirectIcon(style, inner, color) == IconContent(style, inner, color)
  {
  }

  /** Where the icon sits inside the 100x100 shape, in percent. */
  datatype IconBox = IconBox(x: string, y: string, width: string, height: string)

  /** `layout?.left_percent ?? 28` and its siblings. */
  function IconBoxOf(layout: Option<IconLayout>): (b: IconBox)
    ensures layout.None? ==> b == IconBox("28", "28", "44", "44")
    ensures layout.Some? ==> b.x == layout.value.leftPercent.text && b.y == layout.value.topPercent.text
    ensures layout.Some? ==> b.width == layout.value.widthPercent.text && b.height == layout.value.heightPercent.text
  {
    match layout
    case None => IconBox("28", "28", "44", "44")
    case Some(l) => IconBox(l.leftPercent.text, l.topPercent.text, l.widthPercent.text, l.heightPercent.text)
  }

  // ---------------------------------------------------------------
  // The wax splice
  // ---------------------------------------------------------------

  const IconGroupOpen := "<g filter=\"none\">"

  /** The new icon block written over the engine's icon group. */
  function IconBlock(box: IconBox, viewBox: string, icon: string): string {
    IconGroupOpen + "\n    <svg x=\"" + box.x + "\" y=\"" + box.y + "\" width=\"" + box.width
    + "\" height=\"" + box.height + "\" viewBox=\"" + viewBox + "\" overflow=\"visible\">\n      "
    + icon + "\n    </svg>\n  </g>"
  }

  /** `[\s\S]*?<\/g>\s*<\/svg>$`: the text ends with `</g>`, white space, `</svg>`. */
  predicate ClosesAtEnd(t: string) {
    EndsWith(t, "</svg>") && EndsWith(TrimEndSpace(t[..|t| - 6]), "</g>")
  }

  /** `ClosesAtEnd` is the regular expression's tail, read as a decomposition. */
  lemma ClosesAtEndMeans(t: string, mid: string, ws: string)
    ensures t == mid + "</g>" + ws + "</svg>" && AllSpace(ws) ==> ClosesAtEnd(t)
    ensures ClosesAtEnd(t) ==> var w := TrimEndSpace(t[..|t| - 6]);
      t == w[..|w| - 4] + "</g>" + t[|w|..|t| - 6] + "</svg>" && AllSpace(t[|w|..|t| - 6])
  {
    if t == mid + "</g>" + ws + "</svg>" && AllSpace(ws) {
      assert t[..|t| - 6] == (mid + "</g>") + ws;
      TrimEndSpaceOfSpaces(mid + "</g>", ws);
      assert (mid + "</g>")[|mid + "</g>"| - 4..] == "</g>";
    }
    if ClosesAtEnd(t) {
      var w := TrimEndSpace(t[..|t| - 6]);
      assert t == t[..|t| - 6] + "</svg>";
      assert t[..|t| - 6] == w + t[..|t| - 6][|w|..];
      assert w == w[..|w| - 4] + "</g>";
      assert t[..|t| - 6][|w|..] == t[|w|..|t| - 6];
    }
  }

  /** A closing tail stays a closing tail with more text in front. */
  lemma ClosesAtEndExtend(u: string, t: string)
    requires ClosesAtEnd(t)
    ensures ClosesAtEnd(u + t)
  {
    assert (u + t)[..|u + t| - 6] == u + t[..|t| - 6];
    assert (u + t)[|u + t| - 6..] == t[|t| - 6..];
    TrimEndSpaceAppend(u, t[..|t| - 6]);
    var w := TrimEndSpace(t[..|t| - 6]);
    assert (u + w)[|u + w| - 4..] == w[|w| - 4..];
  }

  predicate SpliceAt(s: string, k: nat)
    requires k <= |s|
  {
    StartsWith(s[k..], IconGroupOpen) && ClosesAtEnd(s[k + |IconGroupOpen|..])
  }

  /** The leftmost position from `k` on where the splice expression matches. */
  function SpliceStartFrom(s: string, k: nat): (r: Option<nat>)
    requires k <= |s|
    ensures r.Some? ==> k <= r.value <= |s| && SpliceAt(s, r.value)
    ensures r.Some? ==> forall i :: k <= i < r.value ==> !SpliceAt(s, i)
    ensures r.None? ==> forall i :: k <= i <= |s| ==> !SpliceAt(s, i)
    decreases |s| - k
  {
    if SpliceAt(s, k) then Some(k)
    else if k == |s| then None
    else SpliceStartFrom(s, k + 1)
  }

  /** `svg.replace(/<g filter="none">[\s\S]*?<\/g>\s*<\/svg>$/, block + '\n</svg>')`.
      The match runs to the end of the markup, so nothing follows it, and
      the replacement's `$` patterns are expanded against it. */
  function Splice(s: string, block: string): string {
    match SpliceStartFrom(s, 0)
    case None => s
    case Some(k) => s[..k] + Substitute(block + "\n</svg>", s[k..], s[..k], "")
  }

  /** The splice starts at the first `<g filter="none">` when that one's
      tail closes at the end; otherwise there is no match at all. */
  lemma SpliceStartsAtFirstGroup(s: string, k: nat)
    requires k + |IconGroupOpen| <= |s| && s[k..k + |IconGroupOpen|] == IconGroupOpen
    requires forall i :: 0 <= i < k ==> !StartsWith(s[i..], IconGroupOpen)
    ensures ClosesAtEnd(s[k + |IconGroupOpen|..]) ==> SpliceStartFrom(s, 0) == Some(k)
    ensures !ClosesAtEnd(s[k + |IconGroupOpen|..]) ==> SpliceStartFrom(s, 0).None?
  {
    if ClosesAtEnd(s[k + |IconGroupOpen|..]) {
      SpliceAtGroup(s, k);
      var r := SpliceStartFrom(s, 0);
      assert r.Some? && r.value <= k;
    } else {
      NoSpliceAtAll(s, k);
    }
  }

  lemma NoSpliceAtAll(s: string, k: nat)
    requires k + |IconGroupOpen| <= |s| && !ClosesAtEnd(s[k + |IconGroupOpen|..])
    requires forall i :: 0 <= i < k ==> !StartsWith(s[i..], IconGroupOpen)
    ensures SpliceStartFrom(s, 0).None?
  {
    forall j | 0 <= j <= |s|
      ensures !SpliceAt(s, j)
    {
      if k < j {
        NoSpliceAfter(s, k, j);
      }
    }
  }

  lemma SpliceAtGroup(s: string, k: nat)
    requires k + |IconGroupOpen| <= |s| && s[k..k + |IconGroupOpen|] == IconGroupOpen
    requires ClosesAtEnd(s[k + |IconGroupOpen|..])
    ensures SpliceAt(s, k)
  {
    assert s[k..][..|IconGroupOpen|] == s[k..k + |IconGroupOpen|];
  }

  /** A tail that does not close at the end has no later start that does. */
  lemma NoSpliceAfter(s: string, k: nat, j: nat)
    requires k < j <= |s| && k + |IconGroupOpen| <= |s| && !ClosesAtEnd(s[k + |IconGroupOpen|..])
    ensures !SpliceAt(s, j)
  {
    if j + |IconGroupOpen| <= |s| && ClosesAtEnd(s[j + |IconGroupOpen|..]) {
      SliceJoin(s, k + |IconGroupOpen|, j + |IconGroupOpen|);
      ClosesAtEndExtend(s[k + |IconGroupOpen|..j + |IconGroupOpen|], s[j + |IconGroupOpen|..]);
    }
  }

  /** From the first `<g filter="none">`, when its tail closes at the end,
      everything from it on becomes the block, with its `$` patterns
      expanded against that text, and `\n</svg>`; otherwise (and when there
      is no such group) the markup is unchanged. */
  lemma SpliceAtFirstGroup(s: string, block: string, k: nat)
    requires k + |IconGroupOpen| <= |s| && s[k..k + |IconGroupOpen|] == IconGroupOpen
    requires forall i :: 0 <= i < k ==> !StartsWith(s[i..], IconGroupOpen)
    ensures ClosesAtEnd(s[k + |IconGroupOpen|..]) ==>
      Splice(s, block) == s[..k] + Substitute(block, s[k..], s[..k], "") + "\n</svg>"
    ensures ClosesAtEnd(s[k + |IconGroupOpen|..]) && '$' !in block ==>
      Splice(s, block) == s[..k] + block + "\n</svg>"
    ensures !ClosesAtEnd(s[k + |IconGroupOpen|..]) ==> Splice(s, block) == s
  {
    SpliceStartsAtFirstGroup(s, k);
    SubstituteAppendPlain(block, "\n</svg>", s[k..], s[..k], "");
    Associate(s[..k], Substitute(block, s[k..], s[..k], ""), "\n</svg>");
  }

  /** A `$&` in the icon block brings back the whole replaced group there:
      the old group and its closing tail reappear inside the new block. */
  lemma SpliceExpandsMatch(s: string, k: nat, u: string, v: string)
    requires k + |IconGroupOpen| <= |s| && s[k..k + |IconGroupOpen|] == IconGroupOpen
    requires forall i :: 0 <= i < k ==> !StartsWith(s[i..], IconGroupOpen)
    requires ClosesAtEnd(s[k + |IconGroupOpen|..]) && '$' !in u && '$' !in v
    ensures Splice(s, u + "$&" + v) == s[..k] + u + s[k..] + v + "\n</svg>"
  {
    SpliceAtFirstGroup(s, u + "$&" + v, k);
    SubstituteMatchPattern(u, v, s[k..], s[..k], "");
    Associate(s[..k], u + s[k..], v);
    Associate(s[..k], u, s[k..]);
  }

  /** Markup without a `<g filter="none">` is not spliced. */
  lemma SpliceWithoutGroup(s: string, block: string)
    requires !Contains(s, IconGroupOpen)
    ensures Splice(s, block) == s
  {
    var r := SpliceStartFrom(s, 0);
    if r.Some? {
      var k := r.value;
      assert s[k..k + |IconGroupOpen|] == s[k..][..|IconGroupOpen|];
      ContainsAt(s, IconGroupOpen, k);
    }
  }

  // ---------------------------------------------------------------
  // The direct build
  // ---------------------------------------------------------------

  /** A gradient stop; the first gradient of the non-jelly shapes has no opacity. */
  datatype Stop = Stop(offset: string, color: string, opacity: Option<string>)

  /** A linear gradient: id, the two end points, the stops. */
  datatype Gradient = Gradient(id: string, x1: string, y1: string, x2: string, y2: string, stops: seq<Stop>)

  /** A shape path: its outline and the gradient that fills it. */
  datatype ShapePath = ShapePath(d: string, gradient: string)

  function IsJellyOrDroplet(mode: ShapeMode): bool { mode == Jelly || mode == Droplet }

  function Stops(color: string, pairs: seq<(string, string)>): seq<Stop> {
    seq(|pairs|, i requires 0 <= i < |pairs| => Stop(pairs[i].0, color, Some(pairs[i].1)))
  }

  /** An id namespaced by the instance: `<iid>-<name>`. */
  function Ns(iid: string, name: string): string { iid + "-" + name }

  lemma NsPrefixed(iid: string, name: string)
    ensures StartsWith(Ns(iid, name), iid + "-")
  {
    assert Ns(iid, name)[..|iid + "-"|] == iid + "-";
  }

  lemma NsInjective(iid: string, a: string, b: string)
    requires a != b
    ensures Ns(iid, a) != Ns(iid, b)
  {
    assert Ns(iid, a)[|iid| + 1..] == a;
    assert Ns(iid, b)[|iid| + 1..] == b;
  }

  /** The names of the gradients, in `<defs>` order. */
  function GradientNames(jelly: bool): seq<string> {
    if jelly then ["bg-grad", "top-highlight", "bottom-shadow", "edge-highlight"]
    else ["bg-grad", "wax-top-highlight", "wax-bottom-shadow"]
  }

  /** The gradients of the `<defs>`: four for jelly and droplet, three otherwise. */
  function GradientsFor(iid: string, color: string, jelly: bool): seq<Gradient> {
    if jelly then [
      Gradient(Ns(iid, "bg-grad"), "0%", "0%", "100%", "100%",
        Stops(color, [("0%", "0.35"), ("50%", "0.4"), ("100%", "0.5")])),
      Gradient(Ns(iid, "top-highlight"), "50%", "0%", "50%", "100%",
        Stops("#fff", [("0%", "0.6"), ("30%", "0.3"), ("60%", "0.1"), ("100%", "0")])),
      Gradient(Ns(iid, "bottom-shadow"), "50%", "0%", "50%", "100%",
        Stops("#000", [("0%", "0"), ("40%", "0.05"), ("70%", "0.15"), ("100%", "0.3")])),
      Gradient(Ns(iid, "edge-highlight"), "0%", "0%", "100%", "100%",
        Stops("#fff", [("0%", "0.85"), ("50%", "0.5"), ("100%", "0")]))]
    else [
      Gradient(Ns(iid, "bg-grad"), "0%", "0%", "100%", "100%",
        [Stop("0%", color, None), Stop("100%", color, None)]),
      Gradient(Ns(iid, "wax-top-highlight"), "50%", "0%", "50%", "100%",
        Stops("#fff", [("0%", "0.4"), ("40%", "0.15"), ("100%", "0")])),
      Gradient(Ns(iid, "wax-bottom-shadow"), "50%", "0%", "50%", "100%",
        Stops("#000", [("0%", "0"), ("60%", "0.1"), ("100%", "0.25")]))]
  }

  /** The paths of the shape group: three over the clip outline, and for
      jelly and droplet a fourth over the highlight outline when there is one. */
  function ShapePathsFor(iid: string, clip: string, highlight: Option<string>, jelly: bool): seq<ShapePath> {
    if jelly then
      [ShapePath(clip, Ns(iid, "bg-grad")), ShapePath(clip, Ns(iid, "top-highlight")),
       ShapePath(clip, Ns(iid, "bottom-shadow"))]
      + (if Truthy(highlight) then [ShapePath(highlight.value, Ns(iid, "edge-highlight"))] else [])
    else
      [ShapePath(clip, Ns(iid, "bg-grad")), ShapePath(clip, Ns(iid, "wax-top-highlight")),
       ShapePath(clip, Ns(iid, "wax-bottom-shadow"))]
  }

  lemma GradientIdsAreNames(iid: string, color: string, jelly: bool)
    ensures var gs := GradientsFor(iid, color, jelly);
      |gs| == |GradientNames(jelly)| && forall i :: 0 <= i < |gs| ==> gs[i].id == Ns(iid, GradientNames(jelly)[i])
  {
  }

  /** Every gradient id is namespaced by the instance; jelly and droplet get
      four gradients and the other shapes three, under distinct ids; every
      shape path is filled by a gradient the `<defs>` define; the
      edge-highlight path is there exactly when the shape is jelly or
      droplet and a highlight outline is given. */
  /** The path is filled by one of the gradients. */
  predicate FilledFrom(p: ShapePath, gs: seq<Gradient>) {
    exists j :: 0 <= j < |gs| && gs[j].id == p.gradient
  }

  lemma DirectBuildIds(iid: string, color: string, clip: string, highlight: Option<string>, mode: ShapeMode)
    ensures var gs := GradientsFor(iid, color, IsJellyOrDroplet(mode));
      && |gs| == (if IsJellyOrDroplet(mode) then 4 else 3)
      && (forall i :: 0 <= i < |gs| ==> StartsWith(gs[i].id, iid + "-"))
      && (forall i, j :: 0 <= i < j < |gs| ==> gs[i].id != gs[j].id)
    ensures var ps := ShapePathsFor(iid, clip, highlight, IsJellyOrDroplet(mode));
      var gs := GradientsFor(iid, color, IsJellyOrDroplet(mode));
      && (forall i :: 0 <= i < |ps| ==> FilledFrom(ps[i], gs))
      && (|ps| == 4 <==> IsJellyOrDroplet(mode) && Truthy(highlight))
      && |ps| >= 3
  {
    GradientIdsDistinct(iid, color, IsJellyOrDroplet(mode));
    ShapePathsUseGradients(iid, color, clip, highlight, IsJellyOrDroplet(mode));
  }

  lemma GradientNamesDistinct(jelly: bool)
    ensures forall i, j :: 0 <= i < j < |GradientNames(jelly)| ==> GradientNames(jelly)[i] != GradientNames(jelly)[j]
  {
    var names := GradientNames(jelly);
    forall i, j | 0 <= i < j < |names|
      ensures names[i] != names[j]
    {
      assert names[i][0] != names[j][0] || |names[i]| != |names[j]| || names[i][4] != names[j][4];
    }
  }

  lemma GradientIdsDistinct(iid: string, color: string, jelly: bool)
    ensures var gs := GradientsFor(iid, color, jelly);
      && |gs| == (if jelly then 4 else 3)
      && (forall i :: 0 <= i < |gs| ==> StartsWith(gs[i].id, iid + "-"))
      && (forall i, j :: 0 <= i < j < |gs| ==> gs[i].id != gs[j].id)
  {
    var gs := GradientsFor(iid, color, jelly);
    var names := GradientNames(jelly);
    GradientIdsAreNames(iid, color, jelly);
    GradientNamesDistinct(jelly);
    forall i | 0 <= i < |gs|
      ensures StartsWith(gs[i].id, iid + "-")
    {
      NsPrefixed(iid, names[i]);
    }
    forall i, j | 0 <= i < j < |gs|
      ensures gs[i].id != gs[j].id
    {
      NsInjective(iid, names[i], names[j]);
    }
  }

  lemma ShapePathsUseGradients(iid: string, color: string, clip: string, highlight: Option<string>, jelly: bool)
    ensures |ShapePathsFor(iid, clip, highlight, jelly)| >= 3
    ensures |ShapePathsFor(iid, clip, highlight, jelly)| == 4 <==> jelly && Truthy(highlight)
    ensures var ps := ShapePathsFor(iid, clip, highlight, jelly);
      var gs := GradientsFor(iid, color, jelly);
      forall i :: 0 <= i < |ps| ==> FilledFrom(ps[i], gs)
  {
    var gs := GradientsFor(iid, color, jelly);
    var ps := ShapePathsFor(iid, clip, highlight, jelly);
    if jelly {
      assert |ps| == 4 <==> Truthy(highlight);
    }
    forall i | 0 <= i < |ps|
      ensures FilledFrom(ps[i], gs)
    {
      assert i < |gs| && gs[i].id == ps[i].gradient;
    }
  }

  function RenderStop(st: Stop): string {
    match st.opacity
    case Some(o) => "<stop offset=\"" + st.offset + "\" stop-color=\"" + st.color + "\" stop-opacity=\"" + o + "\"/>"
    case None => "<stop offset=\"" + st.offset + "\" stop-color=\"" + st.color + "\"/>"
  }

  function RenderStops(stops: seq<Stop>): string {
    if |stops| == 0 then [] else "\n          " + RenderStop(stops[0]) + RenderStops(stops[1..])
  }

  function GradientOpenTag(g: Gradient): string {
    "<linearGradient " + ("id=\"" + g.id + "\"") + " x1=\"" + g.x1 + "\" y1=\"" + g.y1
    + "\" x2=\"" + g.x2 + "\" y2=\"" + g.y2 + "\">"
  }

  function RenderGradient(g: Gradient): string {
    GradientOpenTag(g) + RenderStops(g.stops) + "\n        </linearGradient>"
  }

  function RenderGradients(gs: seq<Gradient>): string {
    Join(seq(|gs|, i requires 0 <= i < |gs| => RenderGradient(gs[i])), "\n        ")
  }

  function RenderPath(p: ShapePath): string {
    "<path d=\"" + p.d + "\" fill=\"" + ("url(#" + p.gradient + ")") + "\"/>"
  }

  /** The shape group's content; jelly and droplet keep a separator line
      where the optional edge-highlight path goes. */
  function RenderShape(ps: seq<ShapePath>, jelly: bool): string
    requires |ps| >= 3
  {
    var three := Join([RenderPath(ps[0]), RenderPath(ps[1]), RenderPath(ps[2])], "\n        ");
    if jelly then three + "\n        " + (if |ps| > 3 then RenderPath(ps[3]) else "")
    else three
  }

  /** The direct build, for a result with a clip outline and ready content. */
  function DirectSvg(iid: string, c: Config, clip: string, highlight: Option<string>,
                     layout: Option<IconLayout>, content: string): string
  {
    DirectBuildIds(iid, c.shapeColor, clip, highlight, c.mode);
    Join(DirectSvgLines(iid, c, clip, ShapePathsFor(iid, clip, highlight, IsJellyOrDroplet(c.mode)),
                        IsJellyOrDroplet(c.mode), IconBoxOf(layout), ViewBoxOf(content, "0 0 24 24"),
                        StripSvgTags(content)), "\n")
  }

  function ClipOpenTag(iid: string): string {
    "        <clipPath " + ("id=\"" + Ns(iid, "clip") + "\"") + ">"
  }

  function ShadowFilterTag(iid: string): string {
    "        <filter " + ("id=\"" + Ns(iid, "shadow") + "\"")
    + " x=\"-50%\" y=\"-50%\" width=\"200%\" height=\"200%\">"
  }

  function DirectSvgLines(iid: string, c: Config, clip: string, ps: seq<ShapePath>, jelly: bool,
                          box: IconBox, viewBox: string, inner: string): seq<string>
    requires |ps| >= 3
  {
    DefsLines(iid, c.shapeColor, clip, jelly) + ShapeGroupLines(iid, ps, jelly) + IconSvgLines(c, box, viewBox, inner)
  }

  /** The outer tag and the `<defs>` block: gradients, clip path, shadow filter. */
  function DefsLines(iid: string, shapeColor: string, clip: string, jelly: bool): seq<string> {
    [ "<svg viewBox=\"0 0 100 100\" xmlns=\"http://www.w3.org/2000/svg\">",
      "      <defs>",
      "        " + RenderGradients(GradientsFor(iid, shapeColor, jelly)),
      ClipOpenTag(iid),
      "          <path d=\"" + clip + "\"/>",
      "        </clipPath>",
      ShadowFilterTag(iid),
      "          <feDropShadow dx=\"2\" dy=\"6\" stdDeviation=\"8\" flood-opacity=\"0.25\"/>",
      "        </filter>",
      "      </defs>" ]
  }

  /** The shadowed shape group. */
  function ShapeGroupLines(iid: string, ps: seq<ShapePath>, jelly: bool): seq<string>
    requires |ps| >= 3
  {
    [ "      <!-- \U{30b7}\U{30a7}\U{30a4}\U{30d7}\U{80cc}\U{666f} -->",
      "      <g filter=\"url(#" + Ns(iid, "shadow") + ")\">",
      "        " + RenderShape(ps, jelly),
      "      </g>" ]
  }

  /** The nested `<svg>` holding the icon, and the closing tag. */
  function IconSvgLines(c: Config, box: IconBox, viewBox: string, inner: string): seq<string> {
    [ "      <!-- \U{30a2}\U{30a4}\U{30b3}\U{30f3}\U{ff08}\U{30b7}\U{30a7}\U{30a4}\U{30d7}\U{306e}\U{4e0a}\U{306b}\U{91cd}\U{306d}\U{308b}\U{ff09} -->",
      "      <svg x=\"" + box.x + "\" y=\"" + box.y + "\"",
      "           width=\"" + box.width + "\" height=\"" + box.height + "\"",
      "           viewBox=\"" + viewBox + "\" overflow=\"visible\">",
      "        " + DirectIcon(c.iconStyle, inner, c.iconColor),
      "      </svg>",
      "    </svg>" ]
  }

  lemma GradientDefinesId(g: Gradient)
    ensures Contains(RenderGradient(g), "id=\"" + g.id + "\"")
  {
    var rest := " x1=\"" + g.x1 + "\" y1=\"" + g.y1 + "\" x2=\"" + g.x2 + "\" y2=\"" + g.y2 + "\">";
    assert GradientOpenTag(g) == "<linearGradient " + ("id=\"" + g.id + "\"") + rest;
    ContainsInfix("<linearGradient ", "id=\"" + g.id + "\"", rest);
    ContainsConcat(GradientOpenTag(g), RenderStops(g.stops) + "\n        </linearGradient>", "id=\"" + g.id + "\"");
    assert RenderGradient(g) == GradientOpenTag(g) + (RenderStops(g.stops) + "\n        </linearGradient>");
  }

  /** Every gradient is written under its own id. */
  lemma RenderGradientsDefineIds(gs: seq<Gradient>)
    ensures forall g :: g in gs ==> Contains(RenderGradients(gs), "id=\"" + g.id + "\"")
  {
    var rendered := seq(|gs|, j requires 0 <= j < |gs| => RenderGradient(gs[j]));
    forall g | g in gs
      ensures Contains(RenderGradients(gs), "id=\"" + g.id + "\"")
    {
      var i :| 0 <= i < |gs| && gs[i] == g;
      GradientDefinesId(g);
      JoinContains(rendered, "\n        ", i, "id=\"" + g.id + "\"");
    }
  }

  /** The direct build defines the clip path and the shadow filter under the
      instance's ids, and every gradient under its own id. */
  lemma DirectSvgDefinesIds(iid: string, c: Config, clip: string, highlight: Option<string>,
                            layout: Option<IconLayout>, content: string)
    ensures var r := DirectSvg(iid, c, clip, highlight, layout, content);
      && Contains(r, "id=\"" + Ns(iid, "clip") + "\"")
      && Contains(r, "id=\"" + Ns(iid, "shadow") + "\"")
      && forall g :: g in GradientsFor(iid, c.shapeColor, IsJellyOrDroplet(c.mode)) ==> Contains(r, "id=\"" + g.id + "\"")
  {
    DirectBuildIds(iid, c.shapeColor, clip, highlight, c.mode);
    DirectSvgLinesDefineIds(iid, c, clip, ShapePathsFor(iid, clip, highlight, IsJellyOrDroplet(c.mode)),
                            IsJellyOrDroplet(c.mode), IconBoxOf(layout), ViewBoxOf(content, "0 0 24 24"),
                            StripSvgTags(content));
  }

  lemma DirectSvgLinesDefineIds(iid: string, c: Config, clip: string, ps: seq<ShapePath>, jelly: bool,
                                box: IconBox, viewBox: string, inner: string)
    requires |ps| >= 3
    ensures var r := Join(DirectSvgLines(iid, c, clip, ps, jelly, box, viewBox, inner), "\n");
      && Contains(r, "id=\"" + Ns(iid, "clip") + "\"")
      && Contains(r, "id=\"" + Ns(iid, "shadow") + "\"")
      && forall g :: g in GradientsFor(iid, c.shapeColor, jelly) ==> Contains(r, "id=\"" + g.id + "\"")
  {
    var lines := DirectSvgLines(iid, c, clip, ps, jelly, box, viewBox, inner);
    var gs := GradientsFor(iid, c.shapeColor, jelly);
    DirectSvgLinesShape(iid, c, clip, ps, jelly, box, viewBox, inner);
    DefinesClipAndShadow(iid, lines);
    RenderGradientsDefineIds(gs);
    forall g | g in gs
      ensures Contains(Join(lines, "\n"), "id=\"" + g.id + "\"")
    {
      ContainsConcat("        ", RenderGradients(gs), "id=\"" + g.id + "\"");
      JoinContains(lines, "\n", 2, "id=\"" + g.id + "\"");
    }
  }

  lemma DirectSvgLinesShape(iid: string, c: Config, clip: string, ps: seq<ShapePath>, jelly: bool,
                            box: IconBox, viewBox: string, inner: string)
    requires |ps| >= 3
    ensures var lines := DirectSvgLines(iid, c, clip, ps, jelly, box, viewBox, inner);
      && |lines| > 6 && lines[3] == ClipOpenTag(iid) && lines[6] == ShadowFilterTag(iid)
      && lines[2] == "        " + RenderGradients(GradientsFor(iid, c.shapeColor, jelly))
  {
    var defs := DefsLines(iid, c.shapeColor, clip, jelly);
    var rest := ShapeGroupLines(iid, ps, jelly) + IconSvgLines(c, box, viewBox, inner);
    Associate(defs, ShapeGroupLines(iid, ps, jelly), IconSvgLines(c, box, viewBox, inner));
    DefsLinesShape(iid, c.shapeColor, clip, jelly);
    PrefixIndex(defs, rest, 2);
    PrefixIndex(defs, rest, 3);
    PrefixIndex(defs, rest, 6);
  }

  lemma DefsLinesShape(iid: string, shapeColor: string, clip: string, jelly: bool)
    ensures var defs := DefsLines(iid, shapeColor, clip, jelly);
      && |defs| == 10 && defs[3] == ClipOpenTag(iid) && defs[6] == ShadowFilterTag(iid)
      && defs[2] == "        " + RenderGradients(GradientsFor(iid, shapeColor, jelly))
  {
  }

  lemma DefinesClipAndShadow(iid: string, lines: seq<string>)
    requires |lines| > 6 && lines[3] == ClipOpenTag(iid) && lines[6] == ShadowFilterTag(iid)
    ensures Contains(Join(lines, "\n"), "id=\"" + Ns(iid, "clip") + "\"")
    ensures Contains(Join(lines, "\n"), "id=\"" + Ns(iid, "shadow") + "\"")
  {
    ContainsInfix("        <clipPath ", "id=\"" + Ns(iid, "clip") + "\"", ">");
    JoinContains(lines, "\n", 3, "id=\"" + Ns(iid, "clip") + "\"");
    ContainsInfix("        <filter ", "id=\"" + Ns(iid, "shadow") + "\"", " x=\"-50%\" y=\"-50%\" width=\"200%\" height=\"200%\">");
    JoinContains(lines, "\n", 6, "id=\"" + Ns(iid, "shadow") + "\"");
  }

  /** The direct branch: nothing without a result with a non-empty clip
      outline, nothing without ready non-empty content. */
  function DirectMarkup(iid: string, c: Config, result: Option<IconCraftResult>, content: Option<string>): (r: string)
    ensures r == "" <== result.None? || result.value.svgPaths.None? || !Truthy(result.value.svgPaths.value.clip) || !Truthy(content)
  {
    if result.None? || result.value.svgPaths.None? || !Truthy(result.value.svgPaths.value.clip) then ""
    else if !Truthy(content) then ""
    else
      var paths := result.value.svgPaths.value;
      DirectSvg(iid, c, paths.clip.value, paths.highlight, result.value.iconLayout, content.value)
  }

  /** The emboss-markup branch for wax: namespaced, and for the icon styles
      other than emboss with ready content, the icon block spliced in. */
  function WaxMarkup(iid: string, c: Config, layout: Option<IconLayout>, emboss: string, content: Option<string>): string {
    var svg := Namespaced(emboss, iid);
    if c.iconStyle != Emboss && Truthy(content) then
      var vb := ViewBoxOf(content.value, "0 0 36 36");
      var icon := IconContent(c.iconStyle, StripSvgTags(content.value), c.iconColor);
      Splice(svg, IconBlock(IconBoxOf(layout), vb, icon))
    else svg
  }

  function EmbossOf(result: Option<IconCraftResult>): Option<string> {
    if result.Some? then result.value.embossSvg else None
  }

  /** `renderedSvg`: the markup the view shows. With the emboss icon style
      and emboss markup, every shape shows the namespaced markup as it is; a
      wax shape with emboss markup never takes the direct build, shows the
      namespaced markup when the content is not ready and otherwise splices
      the icon block into it; without emboss markup the direct build is taken. */
  function RenderedSvg(iid: string, c: Config, result: Option<IconCraftResult>, content: Option<string>): (r: string)
    ensures var e := EmbossOf(result);
      c.iconStyle == Emboss && Truthy(e) ==> r == Namespaced(e.value, iid)
    ensures var e := EmbossOf(result);
      c.mode == Wax && Truthy(e) && !Truthy(content) ==> r == Namespaced(e.value, iid)
    ensures var e := EmbossOf(result);
      c.mode == Wax && Truthy(e) && c.iconStyle != Emboss && Truthy(content) ==>
        r == Splice(Namespaced(e.value, iid),
                    IconBlock(IconBoxOf(result.value.iconLayout), ViewBoxOf(content.value, "0 0 36 36"),
                              IconContent(c.iconStyle, StripSvgTags(content.value), c.iconColor)))
    ensures !Truthy(EmbossOf(result)) ==> r == DirectMarkup(iid, c, result, content)
  {
    var emboss := EmbossOf(result);
    if c.mode == Wax && Truthy(emboss) then
      WaxMarkup(iid, c, result.value.iconLayout, emboss.value, content)
    else if c.iconStyle == Emboss && Truthy(emboss) then
      Namespaced(emboss.value, iid)
    else
      DirectMarkup(iid, c, result, content)
  }

  /** The `useMemo` body for an instance: the same choices, with the
      namespacing loop run on the instance's emboss markup. */
  method RenderSvg(inst: IconCraftInstance) returns (svg: string)
    ensures svg == RenderedSvg(inst.id, inst.config, inst.Result(), inst.SvgContent())
  {
    var result := inst.Result();
    var content := inst.SvgContent();
    var emboss := inst.EmbossSvg();
    assert emboss == EmbossOf(result);
    var c := inst.config;
    if c.mode == Wax && Truthy(emboss) {
      svg := NamespaceIds(emboss.value, inst.id);
      if c.iconStyle != Emboss && Truthy(content) {
        var vb := ViewBoxOf(content.value, "0 0 36 36");
        var inner := StripSvgTags(content.value);
        var icon := IconContent(c.iconStyle, inner, c.iconColor);
        svg := Splice(svg, IconBlock(IconBoxOf(result.value.iconLayout), vb, icon));
      }
    } else if c.iconStyle == Emboss && Truthy(emboss) {
      svg := NamespaceIds(emboss.value, inst.id);
    } else {
      svg := DirectMarkup(inst.id, c, result, content);
    }
  }
}
