/** The SVG sanitiser: a walk over a parsed element tree that drops the
    dangerous elements with their subtrees, the `on*` attributes and the
    `javascript:` URLs, and the `<image>` placeholder round-trip that
    shields SVG image tags from the HTML parser. The tree is a value here;
    parsing and serialisation are parameters. */
module Sanitize {
  import opened Text

  datatype Attr = Attr(name: string, value: string)

  /** The DOM nodes the walk distinguishes: elements and everything else. */
  datatype Node =
    | Element(tag: string, attrs: seq<Attr>, children: seq<Node>)
    | TextNode(text: string)
    | Comment(text: string)

  const DangerousElements: set<string> :=
    {"script", "iframe", "object", "embed", "applet", "form", "input", "textarea", "button", "select"}

  const DangerousAttrPrefix := "on"

  const UrlAttributes: set<string> := {"href", "xlink:href", "src", "action", "formaction"}

  predicate IsDangerous(n: Node) {
    n.Element? && ToLower(n.tag) in DangerousElements
  }

  /** `/^\s*javascript\s*:/i`: leading white space, the word in any case,
      white space, then a colon. */
  predicate DangerousUrl(v: string) {
    var t := TrimStartSpace(v);
    |t| >= 10 && ToLower(t[..10]) == "javascript"
    && var u := TrimStartSpace(t[10..]); |u| > 0 && u[0] == ':'
  }

  /** An attribute the attribute loop leaves in place. */
  predicate KeepAttr(a: Attr) {
    var name := ToLower(a.name);
    !StartsWith(name, DangerousAttrPrefix) && !(name in UrlAttributes && DangerousUrl(a.value))
  }

  /** The attributes that survive, in their original order. */
  function FilterAttrs(attrs: seq<Attr>): (r: seq<Attr>)
    ensures |r| <= |attrs|
  {
    if |attrs| == 0 then []
    else (if KeepAttr(attrs[0]) then [attrs[0]] else []) + FilterAttrs(attrs[1..])
  }

  /** An attribute survives iff it was there and the rules keep it. */
  lemma {:induction false} FilterAttrsMembers(attrs: seq<Attr>)
    ensures forall a :: a in FilterAttrs(attrs) <==> a in attrs && KeepAttr(a)
    decreases |attrs|
  {
    if |attrs| > 0 {
      FilterAttrsMembers(attrs[1..]);
      assert attrs == [attrs[0]] + attrs[1..];
    }
  }

  /** What a node becomes in its parent's child list: nothing for a
      dangerous element, the element with its attributes filtered and its
      children cleaned otherwise, any other node unchanged. */
  function CleanNode(n: Node): (r: seq<Node>)
    ensures |r| <= 1
    ensures r == [] <==> IsDangerous(n)
    decreases n, 1
  {
    match n
    case Element(tag, attrs, children) =>
      if ToLower(tag) in DangerousElements then []
      else [Element(tag, FilterAttrs(attrs), CleanNodes(children))]
    case _ => [n]
  }

  /** A child list after the walk: every child cleaned, survivors in order. */
  function CleanNodes(ns: seq<Node>): (r: seq<Node>)
    ensures |r| <= |ns|
    decreases ns, 0
  {
    if |ns| == 0 then [] else CleanNode(ns[0]) + CleanNodes(ns[1..])
  }

  lemma {:induction false} CleanNodesAppend(a: seq<Node>, b: seq<Node>)
    ensures CleanNodes(a + b) == CleanNodes(a) + CleanNodes(b)
    decreases |a|
  {
    if |a| == 0 {
      assert a + b == b;
    } else {
      assert (a + b)[1..] == a[1..] + b;
      CleanNodesAppend(a[1..], b);
    }
  }

  /** No dangerous element, `on*` attribute or `javascript:` URL anywhere. */
  predicate SafeNode(n: Node)
    decreases n, 1
  {
    match n
    case Element(tag, attrs, children) =>
      ToLower(tag) !in DangerousElements
      && (forall a :: a in attrs ==> KeepAttr(a))
      && SafeNodes(children)
    case _ => true
  }

  predicate SafeNodes(ns: seq<Node>)
    decreases ns, 0
  {
    |ns| == 0 || (SafeNode(ns[0]) && SafeNodes(ns[1..]))
  }

  /** The walk leaves nothing dangerous at any depth. */
  lemma {:induction false} CleanNodesIsSafe(ns: seq<Node>)
    ensures SafeNodes(CleanNodes(ns))
    decreases ns, 0
  {
    if |ns| > 0 {
      CleanNodeIsSafe(ns[0]);
      CleanNodesIsSafe(ns[1..]);
      SafeNodesAppend(CleanNode(ns[0]), CleanNodes(ns[1..]));
    }
  }

  lemma {:induction false} CleanNodeIsSafe(n: Node)
    ensures SafeNodes(CleanNode(n))
    decreases n, 1
  {
    match n
    case Element(tag, attrs, children) =>
      if ToLower(tag) !in DangerousElements {
        FilterAttrsMembers(attrs);
        CleanNodesIsSafe(children);
        var r := CleanNode(n);
        assert SafeNode(r[0]);
        assert r[1..] == [] && SafeNodes(r[1..]);
      }
    case _ =>
      var r := CleanNode(n);
      assert r == [n] && SafeNode(n);
      assert r[1..] == [] && SafeNodes(r[1..]);
  }

  lemma {:induction false} SafeNodesAppend(a: seq<Node>, b: seq<Node>)
    requires SafeNodes(a) && SafeNodes(b)
    ensures SafeNodes(a + b)
    decreases |a|
  {
    if |a| == 0 {
      assert a + b == b;
    } else {
      assert (a + b)[1..] == a[1..] + b;
      SafeNodesAppend(a[1..], b);
    }
  }

  /** Attributes are only ever removed when the rules say so. */
  lemma {:induction false} FilterKeepsSafeAttrs(attrs: seq<Attr>)
    requires forall a :: a in attrs ==> KeepAttr(a)
    ensures FilterAttrs(attrs) == attrs
    decreases |attrs|
  {
    if |attrs| > 0 {
      assert attrs[0] in attrs;
      assert forall a :: a in attrs[1..] ==> a in attrs;
      FilterKeepsSafeAttrs(attrs[1..]);
      HeadTail(attrs);
    }
  }

  /** A tree the rules have nothing against comes out unchanged: text,
      comments, other attributes and the order of children all survive. */
  lemma {:induction false} CleanNodesOfSafe(ns: seq<Node>)
    requires SafeNodes(ns)
    ensures CleanNodes(ns) == ns
    decreases ns, 0
  {
    if |ns| > 0 {
      CleanNodeOfSafe(ns[0]);
      CleanNodesOfSafe(ns[1..]);
      HeadTail(ns);
    }
  }

  lemma {:induction false} CleanNodeOfSafe(n: Node)
    requires SafeNode(n)
    ensures CleanNode(n) == [n]
    decreases n, 1
  {
    match n
    case Element(tag, attrs, children) =>
      FilterKeepsSafeAttrs(attrs);
      CleanNodesOfSafe(children);
    case _ =>
  }

  /** Sanitising twice is sanitising once. */
  lemma CleanNodesIdempotent(ns: seq<Node>)
    ensures CleanNodes(CleanNodes(ns)) == CleanNodes(ns)
  {
    CleanNodesIsSafe(ns);
    CleanNodesOfSafe(CleanNodes(ns));
  }

  /** A dangerous element goes with its whole subtree, whatever it holds. */
  lemma DangerousChildDropped(before: seq<Node>, n: Node, after: seq<Node>)
    requires IsDangerous(n)
    ensures CleanNodes(before + [n] + after) == CleanNodes(before) + CleanNodes(after)
  {
    CleanNodesAppend(before + [n], after);
    CleanNodesAppend(before, [n]);
    assert [n][1..] == [];
    assert CleanNodes([n]) == CleanNode(n) + CleanNodes([]) == [];
    assert CleanNodes(before + [n]) == CleanNodes(before);
  }

  /** The walk over one more child of a prefix. */
  lemma CleanNodesPrefixStep(ns: seq<Node>, k: nat)
    requires k < |ns|
    ensures CleanNodes(ns[..k + 1]) == CleanNodes(ns[..k]) + CleanNode(ns[k])
  {
    CleanNodesAppend(ns[..k], [ns[k]]);
    assert ns[..k + 1] == ns[..k] + [ns[k]];
    assert [ns[k]][1..] == [];
    assert CleanNodes([ns[k]]) == CleanNode(ns[k]) + CleanNodes([]);
  }

  /** The attribute filter over one more attribute of a suffix. */
  lemma FilterAttrsStep(attrs: seq<Attr>, i: nat)
    requires i < |attrs|
    ensures FilterAttrs(attrs[i..]) == (if KeepAttr(attrs[i]) then [attrs[i]] else []) + FilterAttrs(attrs[i + 1..])
  {
    assert attrs[i..][1..] == attrs[i + 1..];
    assert attrs[i..][0] == attrs[i];
  }

  /** The two tests the attribute loop makes of one attribute: an event
      handler goes, and so does a `javascript:` URL in a URL attribute. */
  method AttributeVerdict(attr: Attr) returns (keep: bool)
    ensures keep <==> KeepAttr(attr)
  {
    var name := ToLower(attr.name);
    if StartsWith(name, DangerousAttrPrefix) {
      return false;
    }
    if name in UrlAttributes && DangerousUrl(attr.value) {
      return false;
    }
    return true;
  }

  /** The attribute loop: each attribute of the snapshot is looked at once
      and removed when the rules say so. */
  method SanitizeAttributes(attrs: seq<Attr>) returns (kept: seq<Attr>)
    ensures kept == FilterAttrs(attrs)
  {
    kept := [];
    var i := 0;
    while i < |attrs|
      invariant 0 <= i <= |attrs|
      invariant FilterAttrs(attrs) == kept + FilterAttrs(attrs[i..])
    {
      var attr := attrs[i];
      var keep := AttributeVerdict(attr);
      FilterAttrsStep(attrs, i);
      ghost var rest := FilterAttrs(attrs[i + 1..]);
      if keep {
        assert kept + ([attr] + rest) == (kept + [attr]) + rest;
        kept := kept + [attr];
      } else {
        assert [] + rest == rest;
      }
      i := i + 1;
    }
    assert attrs[i..] == [];
  }

  /** `sanitizeNode` on a node's child list: the first loop cleans the
      element children and marks the dangerous ones, the second takes the
      marked ones out. */
  method SanitizeChildren(children: seq<Node>) returns (result: seq<Node>)
    ensures result == CleanNodes(children)
    decreases children, 0
  {
    var nodes := children;
    var toRemove: set<nat> := {};
    var i := 0;
    while i < |children|
      invariant 0 <= i <= |children| && |nodes| == |children|
      invariant forall j :: 0 <= j < |children| ==> (j in toRemove <==> j < i && IsDangerous(children[j]))
      invariant forall j :: 0 <= j < i && !IsDangerous(children[j]) ==> [nodes[j]] == CleanNode(children[j])
      invariant forall j :: i <= j < |children| ==> nodes[j] == children[j]
    {
      var child := children[i];
      if child.Element? {
        var tagName := ToLower(child.tag);
        if tagName in DangerousElements {
          toRemove := toRemove + {i};
          i := i + 1;
          continue;
        }
        var cleaned := SanitizeElement(child);
        nodes := nodes[i := cleaned];
      }
      i := i + 1;
    }
    result := RemoveMarked(children, nodes, toRemove);
  }

  /** `sanitizeNode` on a safe element child: its attributes are filtered
      and its own children are walked. */
  method SanitizeElement(child: Node) returns (cleaned: Node)
    requires child.Element? && !IsDangerous(child)
    ensures [cleaned] == CleanNode(child)
    decreases child, 1
  {
    var attrs := SanitizeAttributes(child.attrs);
    var children := SanitizeChildren(child.children);
    cleaned := Element(child.tag, attrs, children);
  }

  /** The second loop of `sanitizeNode`: the marked children leave, the
      others stay in order. */
  method RemoveMarked(children: seq<Node>, nodes: seq<Node>, toRemove: set<nat>) returns (result: seq<Node>)
    requires |nodes| == |children|
    requires forall j :: 0 <= j < |children| ==> (j in toRemove <==> IsDangerous(children[j]))
    requires forall j :: 0 <= j < |children| && !IsDangerous(children[j]) ==> [nodes[j]] == CleanNode(children[j])
    ensures result == CleanNodes(children)
  {
    result := [];
    var k := 0;
    while k < |nodes|
      invariant 0 <= k <= |nodes|
      invariant result == CleanNodes(children[..k])
    {
      CleanNodesPrefixStep(children, k);
      if k !in toRemove {
        result := result + [nodes[k]];
      }
      k := k + 1;
    }
    assert children[..k] == children;
  }

  // The <image> placeholders.

  const ImageOpen := "<!--__IMAGE_"
  const ImageClose := "__-->"

  /** The comment that stands for the `i`-th image tag. */
  function Placeholder(i: nat): (r: string)
    ensures StartsWith(r, ImageOpen) && r[0] == '<'
  {
    ImageOpen + NatToString(i) + ImageClose
  }

  /** `s` begins with `<image`, the letters in any case. */
  predicate OpensImage(s: string) {
    && |s| >= 6 && s[0] == '<' && LowerChar(s[1]) == 'i' && LowerChar(s[2]) == 'm'
    && LowerChar(s[3]) == 'a' && LowerChar(s[4]) == 'g' && LowerChar(s[5]) == 'e'
  }

  /** The length of the `/<image\b[^>]*\/?\s*>/i` match at the head of `s`:
      `<image` in any case, no word character after it, and everything up
      to the first `>`. */
  function ImageTagAt(s: string): (r: Option<nat>)
    ensures r.Some? ==> 6 < r.value <= |s| && s[r.value - 1] == '>'
    ensures r.Some? ==> OpensImage(s) && '>' !in s[6..r.value - 1]
    ensures r.None? ==> !(OpensImage(s) && (|s| == 6 || !IsWordChar(s[6])) && '>' in s[6..])
  {
    if OpensImage(s) && (|s| == 6 || !IsWordChar(s[6])) then
      match FindFrom(s, '>', 6)
      case Some(k) => Some(k + 1)
      case None => None
    else None
  }

  /** The first position from `k` on that holds `c`. */
  function FindFrom(s: string, c: char, k: nat): (r: Option<nat>)
    requires k <= |s|
    ensures r.Some? ==> k <= r.value < |s| && s[r.value] == c && c !in s[k..r.value]
    ensures r.None? ==> c !in s[k..]
    decreases |s| - k
  {
    if k == |s| then None
    else if s[k] == c then Some(k)
    else
      var r := FindFrom(s, c, k + 1);
      assert r.Some? ==> s[k..r.value] == [s[k]] + s[k + 1..r.value];
      assert s[k..] == [s[k]] + s[k + 1..];
      r
  }

  /** The global replace: each image tag, left to right, becomes the
      placeholder numbered from `count` on and is recorded in order. */
  function Protect(s: string, count: nat): (r: (string, seq<string>))
    decreases |s|
  {
    if |s| == 0 then ("", [])
    else match ImageTagAt(s)
      case Some(n) =>
        var rest := Protect(s[n..], count + 1);
        (Placeholder(count) + rest.0, [s[..n]] + rest.1)
      case None =>
        var rest := Protect(s[1..], count);
        ([s[0]] + rest.0, rest.1)
  }

  /** The index and length of a `/<!--__IMAGE_(\d+)__-->/` match at the head
      of `s`. */
  function PlaceholderAt(s: string): (r: Option<(nat, nat)>)
    ensures r.Some? ==> StartsWith(s, ImageOpen) && 0 < r.value.1 <= |s|
    ensures !StartsWith(s, ImageOpen) ==> r.None?
  {
    if StartsWith(s, ImageOpen) then
      var d := DigitPrefix(s[|ImageOpen|..]);
      if |d| > 0 && StartsWith(s[|ImageOpen| + |d|..], ImageClose) then
        Some((DigitsValue(d), |ImageOpen| + |d| + |ImageClose|))
      else None
    else None
  }

  /** The restoring replace: each placeholder becomes its recorded tag, or
      nothing when no tag has that number. */
  function Restore(s: string, tags: seq<string>): string
    decreases |s|
  {
    if |s| == 0 then ""
    else match PlaceholderAt(s)
      case Some((i, n)) => (if i < |tags| then tags[i] else "") + Restore(s[n..], tags)
      case None => [s[0]] + Restore(s[1..], tags)
  }

  /** A placeholder is read back as the tag of its number, or as nothing. */
  lemma RestorePlaceholder(i: nat, rest: string, tags: seq<string>)
    ensures Restore(Placeholder(i) + rest, tags) == (if i < |tags| then tags[i] else "") + Restore(rest, tags)
  {
    var s := Placeholder(i) + rest;
    PlaceholderAtPlaceholder(i, rest);
    assert s[|Placeholder(i)|..] == rest;
  }

  /** The placeholder scan reads the number back from the placeholder. */
  lemma PlaceholderAtPlaceholder(i: nat, rest: string)
    ensures PlaceholderAt(Placeholder(i) + rest) == Some((i, |Placeholder(i)|))
  {
    var d := NatToString(i);
    var tail := ImageClose + rest;
    var s := Placeholder(i) + rest;
    Associate3(ImageOpen, d, ImageClose, rest);
    CutAtJoin(ImageOpen, d + tail);
    CutAtJoin(d, tail);
    CutAtJoin(ImageClose, rest);
    DropDrop(s, |ImageOpen|, |d|);
    DigitPrefixOfDigitsThen(d, tail);
    DigitsValueOfNatToString(i);
  }

  /** Text that does not start with `w` (a string without `<`) cannot
      start with it once its image tags are replaced: placeholders start
      with `<`. */
  lemma {:induction false} ProtectKeepsNonPrefix(t: string, count: nat, w: string)
    requires '<' !in w
    requires !StartsWith(t, w)
    ensures !StartsWith(Protect(t, count).0, w)
    decreases |t|
  {
    if |t| > 0 && |w| > 0 {
      match ImageTagAt(t)
      case Some(n) =>
        assert Protect(t, count).0[0] == '<';
      case None =>
        var q := Protect(t[1..], count).0;
        var p := Protect(t, count).0;
        assert p == [t[0]] + q;
        if t[0] == w[0] {
          if |w| <= |t| {
            assert t[..|w|] == [t[0]] + t[1..][..|w| - 1];
            assert w == [w[0]] + w[1..];
          }
          assert forall c :: c in w[1..] ==> c in w;
          ProtectKeepsNonPrefix(t[1..], count, w[1..]);
          if |w| <= |p| {
            assert p[..|w|] == [t[0]] + q[..|w| - 1];
          }
        } else {
          assert p[0] != w[0];
        }
    }
  }

  /** One step of the replace. */
  lemma ProtectStep(s: string, count: nat)
    requires |s| > 0
    ensures ImageTagAt(s).Some? ==>
      var n := ImageTagAt(s).value;
      (Protect(s, count).0 == Placeholder(count) + Protect(s[n..], count + 1).0
       && Protect(s, count).1 == [s[..n]] + Protect(s[n..], count + 1).1)
    ensures ImageTagAt(s).None? ==>
      (Protect(s, count).0 == [s[0]] + Protect(s[1..], count).0
       && Protect(s, count).1 == Protect(s[1..], count).1)
  {
  }

  /** Text without the placeholder opener reads back as itself: every image
      tag returns verbatim, at its place. */
  lemma {:induction false} ProtectRestore(s: string, count: nat, tags: seq<string>)
    requires !Contains(s, ImageOpen)
    requires count + |Protect(s, count).1| <= |tags|
    requires tags[count..count + |Protect(s, count).1|] == Protect(s, count).1
    ensures Restore(Protect(s, count).0, tags) == s
    decreases |s|, 1
  {
    if |s| > 0 {
      if ImageTagAt(s).Some? {
        ProtectRestoreTag(s, count, tags);
      } else {
        ProtectRestoreChar(s, count, tags);
      }
    }
  }

  lemma {:induction false} ProtectRestoreTag(s: string, count: nat, tags: seq<string>)
    requires |s| > 0 && ImageTagAt(s).Some? && !Contains(s, ImageOpen)
    requires count + |Protect(s, count).1| <= |tags|
    requires tags[count..count + |Protect(s, count).1|] == Protect(s, count).1
    ensures Restore(Protect(s, count).0, tags) == s
    decreases |s|, 0
  {
    var n := ImageTagAt(s).value;
    var rest := Protect(s[n..], count + 1);
    ProtectStepTag(s, count, n);
    var whole := Protect(s, count);
    WindowSplit(tags, count, whole.1, s[..n], rest.1);
    SuffixLacks(s, n, ImageOpen);
    ProtectRestore(s[n..], count + 1, tags);
    RestoreTagJoin(s, n, count, tags, rest.0);
  }

  /** The stored tag in front of the restored remainder is the whole text. */
  lemma RestoreTagJoin(s: string, n: nat, count: nat, tags: seq<string>, rest: string)
    requires n <= |s| && count < |tags| && tags[count] == s[..n] && Restore(rest, tags) == s[n..]
    ensures Restore(Placeholder(count) + rest, tags) == s
  {
    RestorePlaceholder(count, rest, tags);
    SplitJoin(s, n, tags[count], Restore(rest, tags));
  }


  /** A window of `tags` that holds `[first] + later` holds `first` at its
      start and `later` right after. */
  lemma WindowSplit(tags: seq<string>, count: nat, window: seq<string>, first: string, later: seq<string>)
    requires count + |window| <= |tags| && tags[count..count + |window|] == window
    requires window == [first] + later
    ensures count < |tags| && tags[count] == first
    ensures count + 1 + |later| <= |tags| && tags[count + 1..count + 1 + |later|] == later
  {
    assert tags[count] == window[0];
    assert tags[count + 1..count + 1 + |later|] == window[1..];
  }

  lemma {:induction false} ProtectRestoreChar(s: string, count: nat, tags: seq<string>)
    requires |s| > 0 && ImageTagAt(s).None? && !Contains(s, ImageOpen)
    requires count + |Protect(s, count).1| <= |tags|
    requires tags[count..count + |Protect(s, count).1|] == Protect(s, count).1
    ensures Restore(Protect(s, count).0, tags) == s
    decreases |s|, 0
  {
    ProtectStep(s, count);
    var rest := Protect(s[1..], count);
    var p := [s[0]] + rest.0;
    assert !Contains(s[1..], ImageOpen);
    assert !StartsWith(s, ImageOpen);
    FirstCharKeepsNoOpener(s, count);
    assert p[1..] == rest.0;
    ProtectRestore(s[1..], count, tags);
    HeadTail(s);
  }

  /** A character kept as it is cannot begin a placeholder unless the text
      itself began with the opener. */
  lemma FirstCharKeepsNoOpener(s: string, count: nat)
    requires |s| > 0 && !StartsWith(s, ImageOpen)
    ensures !StartsWith([s[0]] + Protect(s[1..], count).0, ImageOpen)
  {
    var q := Protect(s[1..], count).0;
    var p := [s[0]] + q;
    if s[0] == '<' {
      if |ImageOpen| <= |s| {
        assert s[..|ImageOpen|] == [s[0]] + s[1..][..|ImageOpen| - 1];
      }
      assert ImageOpen[1..] == "!--__IMAGE_";
      ProtectKeepsNonPrefix(s[1..], count, ImageOpen[1..]);
      if |ImageOpen| <= |p| {
        assert p[..|ImageOpen|] == [s[0]] + q[..|ImageOpen| - 1];
      }
    } else {
      assert p[0] != ImageOpen[0];
    }
  }

  lemma SuffixLacks(s: string, n: nat, w: string)
    requires n <= |s| && !Contains(s, w)
    ensures !Contains(s[n..], w)
  {
    if Contains(s[n..], w) {
      var j := ContainsWitness(s[n..], w);
      assert s[n + j..n + j + |w|] == s[n..][j..j + |w|];
      ContainsAt(s, w, n + j);
    }
  }

  /** The round trip of `sanitizeSvg` when the serialised tree is the
      protected text: the output is the input. */
  lemma ImagesRoundTrip(html: string)
    requires !Contains(html, ImageOpen)
    ensures Restore(Protect(html, 0).0, Protect(html, 0).1) == html
  {
    var tags := Protect(html, 0).1;
    assert tags[0..|tags|] == tags;
    ProtectRestore(html, 0, tags);
  }

  /** Every recorded entry is a whole `<image ...>` tag: the word in any
      case, up to and including the first `>`. */
  /** Text that is a whole `<image ...>` tag: the opener, no `>` inside, `>` at the end. */
  predicate IsImageTag(t: string) {
    |t| > 6 && OpensImage(t) && t[|t| - 1] == '>' && '>' !in t[6..|t| - 1]
  }

  lemma {:induction false} CapturedAreImageTags(s: string, count: nat)
    ensures forall t :: t in Protect(s, count).1 ==> IsImageTag(t)
    decreases |s|
  {
    if |s| > 0 {
      ProtectStep(s, count);
      match ImageTagAt(s)
      case Some(n) =>
        CapturedAreImageTags(s[n..], count + 1);
        MatchedTagIsImageTag(s, n);
      case None =>
        CapturedAreImageTags(s[1..], count);
    }
  }

  /** The text `ImageTagAt` measures is an image tag. */
  lemma MatchedTagIsImageTag(s: string, n: nat)
    requires ImageTagAt(s) == Some(n)
    ensures IsImageTag(s[..n])
  {
    var t := s[..n];
    assert t[..6] == s[..6] && t[6..|t| - 1] == s[6..n - 1];
  }

  /** A placeholder-shaped comment already in the input is not kept: with no
      image tag it reads back as nothing. */
  lemma LiteralPlaceholderVanishes()
    ensures Restore(Protect(Placeholder(0), 0).0, Protect(Placeholder(0), 0).1) == ""
  {
    var s := Placeholder(0);
    PlaceholderIsNoImage(0);
    RestorePlaceholder(0, "", []);
    assert s + "" == s;
  }

  /** A placeholder holds no image tag: its only `<` opens the comment. */
  lemma PlaceholderIsNoImage(i: nat)
    ensures Protect(Placeholder(i), i) == (Placeholder(i), [])
  {
    var s := Placeholder(i);
    var d := NatToString(i);
    assert s[1..] == ImageOpen[1..] + d + ImageClose;
    assert ImageOpen[1..] == "!--__IMAGE_";
    assert forall k :: 0 <= k < |d| ==> IsDigit(d[k]);
    assert '<' !in s[1..];
    assert ImageTagAt(s).None? by {
      if |s| >= 6 {
        assert LowerChar(s[1]) == '!';
      }
    }
    ProtectStep(s, i);
    ProtectOfNoImage(s[1..], i);
    HeadTail(s);
  }

  /** Text without `<` has no image tags. */
  lemma {:induction false} ProtectOfNoImage(s: string, count: nat)
    requires '<' !in s
    ensures Protect(s, count) == (s, [])
    decreases |s|
  {
    if |s| > 0 {
      assert s[0] != '<';
      assert ImageTagAt(s).None? by {
        assert !OpensImage(s);
      }
      assert forall c :: c in s[1..] ==> c in s;
      ProtectOfNoImage(s[1..], count);
      HeadTail(s);
    }
  }

  /** `sanitizeSvg`: empty input gives the empty string; otherwise the image
      tags are set aside, the parsed body's children are sanitised, and the
      serialised result has the tags put back. */
  method SanitizeSvg(html: string, parse: string -> seq<Node>, serialize: seq<Node> -> string) returns (r: string)
    ensures html == "" ==> r == ""
    ensures html != "" ==> r == Restore(serialize(CleanNodes(parse(Protect(html, 0).0))), Protect(html, 0).1)
  {
    if html == "" {
      return "";
    }
    var preserved, imagePlaceholders := ProtectImages(html);
    var body := SanitizeChildren(parse(preserved));
    r := Restore(serialize(body), imagePlaceholders);
  }

  /** The replace with a callback that pushes each match onto the list. */
  method ProtectImages(html: string) returns (preserved: string, imagePlaceholders: seq<string>)
    ensures (preserved, imagePlaceholders) == Protect(html, 0)
  {
    preserved := "";
    imagePlaceholders := [];
    var i := 0;
    assert html[i..] == html;
    assert "" + Protect(html, 0).0 == Protect(html, 0).0 && [] + Protect(html, 0).1 == Protect(html, 0).1;
    while i < |html|
      invariant 0 <= i <= |html|
      invariant ProtectedUpTo(html, i, preserved, imagePlaceholders)
      decreases |html| - i
    {
      ghost var i0, preserved0, found0 := i, preserved, imagePlaceholders;
      var tag := ImageTagAt(html[i..]);
      if tag.Some? {
        var n := tag.value;
        ProtectTagBound(html, i, n);
        preserved := preserved + Placeholder(|imagePlaceholders|);
        imagePlaceholders := imagePlaceholders + [html[i..i + n]];
        i := i + n;
        ProtectAdvanceTag(html, i0, n, preserved0, found0, i, preserved, imagePlaceholders);
      } else {
        preserved := preserved + [html[i]];
        i := i + 1;
        ProtectAdvanceChar(html, i0, preserved0, found0, i, preserved);
      }
    }
    ProtectDone(html, preserved, imagePlaceholders);
  }

  lemma ProtectDone(html: string, preserved: string, found: seq<string>)
    requires ProtectedUpTo(html, |html|, preserved, found)
    ensures (preserved, found) == Protect(html, 0)
  {
    assert html[|html|..] == [];
    assert preserved + "" == preserved && found + [] == found;
  }

  /** The replace has produced `preserved` and `found` from `html[..i]`. */
  predicate ProtectedUpTo(html: string, i: nat, preserved: string, found: seq<string>)
    requires i <= |html|
  {
    Protect(html, 0).0 == preserved + Protect(html[i..], |found|).0
    && Protect(html, 0).1 == found + Protect(html[i..], |found|).1
  }

  lemma ProtectTagBound(html: string, i: nat, n: nat)
    requires i < |html| && ImageTagAt(html[i..]) == Some(n)
    ensures i + n <= |html|
  {
  }

  lemma ProtectAdvanceTag(html: string, i: nat, n: nat, preserved: string, found: seq<string>,
                          i': nat, preserved': string, found': seq<string>)
    requires i < |html| && ProtectedUpTo(html, i, preserved, found)
    requires ImageTagAt(html[i..]) == Some(n)
    requires i' == i + n <= |html|
    requires preserved' == preserved + Placeholder(|found|) && found' == found + [html[i..i + n]]
    ensures i' <= |html| && ProtectedUpTo(html, i', preserved', found')
  {
    var count := |found|;
    ProtectTailTag(html, i, n, count);
    assert |found'| == count + 1 && html[i'..] == html[i + n..];
    var next := Protect(html[i + n..], count + 1);
    Regroup(Protect(html, 0).0, preserved, Placeholder(count), Protect(html[i..], count).0, next.0);
    Regroup(Protect(html, 0).1, found, [html[i..i + n]], Protect(html[i..], count).1, next.1);
  }

  /** The replace at an image tag inside `html`. */
  lemma ProtectTailTag(html: string, i: nat, n: nat, count: nat)
    requires i < |html| && ImageTagAt(html[i..]) == Some(n)
    ensures i + n <= |html|
    ensures Protect(html[i..], count).0 == Placeholder(count) + Protect(html[i + n..], count + 1).0
    ensures Protect(html[i..], count).1 == [html[i..i + n]] + Protect(html[i + n..], count + 1).1
  {
    var rest := html[i..];
    ProtectStepTag(rest, count, n);
    assert rest[n..] == html[i + n..] && rest[..n] == html[i..i + n];
  }

  lemma ProtectStepTag(s: string, count: nat, n: nat)
    requires |s| > 0 && ImageTagAt(s) == Some(n)
    ensures n <= |s|
    ensures Protect(s, count).0 == Placeholder(count) + Protect(s[n..], count + 1).0
    ensures Protect(s, count).1 == [s[..n]] + Protect(s[n..], count + 1).1
  {
  }

  lemma ProtectAdvanceChar(html: string, i: nat, preserved: string, found: seq<string>, i': nat, preserved': string)
    requires i < |html| && ProtectedUpTo(html, i, preserved, found)
    requires ImageTagAt(html[i..]).None?
    requires i' == i + 1 && preserved' == preserved + [html[i]]
    ensures i' <= |html| && ProtectedUpTo(html, i', preserved', found)
  {
    var rest := html[i..];
    ProtectStep(rest, |found|);
    assert rest[1..] == html[i'..] && rest[0] == html[i];
    var next := Protect(html[i'..], |found|);
    Regroup(Protect(html, 0).0, preserved, [html[i]], Protect(rest, |found|).0, next.0);
  }
}
