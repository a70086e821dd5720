/** Animation lookup: built-in tables that take precedence over a registry
    of custom animations, the CSS `animation` shorthand, and keyframe
    injection that appends each type's `<style>` at most once. The
    registry and the injected set are module-level state in the source;
    here they are the fields of one `AnimationRegistry` object. The text
    of the built-in keyframe rules is data handed to the constructor. */
module Animations {
  import opened Text
  import opened Types
  import opened View

  /** The built-in animation types. */
  const BuiltInNames: seq<string> := [
    "none", "shake", "bounce", "pulse", "swing", "wobble", "jello", "heartbeat", "float",
    "spin", "rubberBand", "squish", "tada", "flip", "drop", "pop", "wiggle", "breathe"]

  function Builtin(duration: string, iterations: Iterations, timing: string): AnimationDefaults {
    AnimationDefaults(None, Some(Num(duration)), None, Some(iterations), Some(timing), None)
  }

  /** `builtInAnimationDefaults`. */
  const BuiltInDefaults: map<string, AnimationDefaults> := map[
    "none" := NoDefaults,
    "shake" := Builtin("0.6", Times(Num("1")), "ease"),
    "bounce" := Builtin("1", Infinite, "ease"),
    "pulse" := Builtin("1.5", Infinite, "ease-in-out"),
    "swing" := Builtin("1", Times(Num("1")), "ease-in-out"),
    "wobble" := Builtin("1", Times(Num("1")), "ease-in-out"),
    "jello" := Builtin("0.9", Times(Num("1")), "ease"),
    "heartbeat" := Builtin("1.3", Infinite, "ease-in-out"),
    "float" := Builtin("2", Infinite, "ease-in-out"),
    "spin" := Builtin("1.5", Infinite, "linear"),
    "rubberBand" := Builtin("1", Times(Num("1")), "ease"),
    "squish" := Builtin("0.6", Infinite, "ease-in-out"),
    "tada" := Builtin("1", Times(Num("1")), "ease"),
    "flip" := Builtin("1.2", Times(Num("1")), "ease-in-out"),
    "drop" := Builtin("0.8", Times(Num("1")), "ease-out"),
    "pop" := Builtin("0.5", Times(Num("1")), "ease-out"),
    "wiggle" := Builtin("0.5", Infinite, "ease-in-out"),
    "breathe" := Builtin("3", Infinite, "ease-in-out")]

  /** The fallback of `getAnimationDefaults`. */
  const FallbackDefaults := Builtin("1", Times(Num("1")), "ease")

  /** The built-in keyframe table: one rule per built-in type, empty for `none` only. */
  ghost predicate BuiltInKeyframesShape(k: map<string, string>) {
    && (forall t :: t in k <==> t in BuiltInNames)
    && "none" in k && k["none"] == ""
    && (forall t :: t in k && t != "none" ==> k[t] != "")
  }

  /** `CustomAnimationDefinition`. */
  datatype CustomAnimation = CustomAnimation(
    keyframes: string, defaults: Option<AnimationDefaults>, transformOrigin: Option<TransformOrigin>)

  /** One `<style>` element appended to the document head. */
  datatype StyleElement = StyleElement(kind: string, css: string)

  /** `getAnimationName(type)`. */
  function AnimationName(kind: string): (r: string)
    ensures kind == "none" <==> r == "none"
    ensures kind != "none" ==> StartsWith(r, "iconcraft-") && r[|"iconcraft-"|..] == kind
  {
    if kind == "none" then "none" else "iconcraft-" + kind
  }

  /** Different types get different animation names. */
  lemma AnimationNameInjective(a: string, b: string)
    requires AnimationName(a) == AnimationName(b)
    ensures a == b
  {
    if a != "none" && b != "none" {
      assert a == AnimationName(a)[|"iconcraft-"|..];
    }
  }

  /** `{ ...defaults, ...options }` with the type of `options`. */
  function Overlay(d: AnimationDefaults, o: AnimationOptions): (r: AnimationOptions)
    ensures r.kind == o.kind
    ensures o.target.Some? ==> r.target == o.target
    ensures o.target.None? ==> r.target == d.target
    ensures o.duration.Some? ==> r.duration == o.duration
    ensures o.duration.None? ==> r.duration == d.duration
    ensures o.delay.Some? ==> r.delay == o.delay
    ensures o.delay.None? ==> r.delay == d.delay
    ensures o.iterationCount.Some? ==> r.iterationCount == o.iterationCount
    ensures o.iterationCount.None? ==> r.iterationCount == d.iterationCount
    ensures o.timingFunction.Some? ==> r.timingFunction == o.timingFunction
    ensures o.timingFunction.None? ==> r.timingFunction == d.timingFunction
    ensures o.playState.Some? ==> r.playState == o.playState
    ensures o.playState.None? ==> r.playState == d.playState
  {
    AnimationOptions(o.kind, o.target.Or(d.target), o.duration.Or(d.duration), o.delay.Or(d.delay),
      o.iterationCount.Or(d.iterationCount), o.timingFunction.Or(d.timingFunction), o.playState.Or(d.playState))
  }

  /** `{ type, ...defaults }`. */
  function WithDefaults(kind: string, d: AnimationDefaults): AnimationOptions {
    AnimationOptions(kind, d.target, d.duration, d.delay, d.iterationCount, d.timingFunction, d.playState)
  }

  /** Options that give only a type take every other field from the
      defaults, as the string form does. */
  lemma OverlayOfBareType(kind: string, d: AnimationDefaults)
    ensures Overlay(d, AnimationOptions(kind, None, None, None, None, None, None)) == WithDefaults(kind, d)
  {
  }

  function IterationsText(it: Iterations): string {
    match it
    case Times(n) => n.text
    case Infinite => "infinite"
  }

  /** `getAnimationStyle(options)`: `none`, or the five parts of the CSS
      `animation` shorthand with their defaults. */
  function AnimationStyle(options: Option<AnimationOptions>): (r: string)
    ensures r == "none" <==> options.None? || options.value.kind == "none"
    ensures options.Some? && options.value.kind != "none" ==>
      StartsWith(r, AnimationName(options.value.kind) + " ")
  {
    if options.None? || options.value.kind == "none" then "none"
    else
      var o := options.value;
      var name := AnimationName(o.kind);
      var r := name + " " + o.duration.GetOr(Num("1")).text + "s " + o.timingFunction.GetOr("ease")
        + " " + o.delay.GetOr(Num("0")).text + "s " + IterationsText(o.iterationCount.GetOr(Times(Num("1"))));
      assert r[..|name| + 1] == name + " ";
      assert r[|name|] == ' ';
      assert ' ' !in "none";
      r
  }

  /** For every type but `none`, options that give only the type take the
      defaults `1s`, `ease`, `0s` and one iteration. */
  lemma AnimationStyleOfBareType(kind: string)
    requires kind != "none"
    ensures AnimationStyle(Some(AnimationOptions(kind, None, None, None, None, None, None)))
      == AnimationName(kind) + " 1s ease 0s 1"
  {
    var n := AnimationName(kind);
    assert n + " " + "1" + "s " + "ease" + " " + "0" + "s " + "1" == n + " 1s ease 0s 1";
  }

  /** The types that have a `<style>` element. */
  function Kinds(styles: seq<StyleElement>): set<string> {
    set i | 0 <= i < |styles| :: styles[i].kind
  }

  lemma KindsAppend(styles: seq<StyleElement>, e: StyleElement)
    ensures Kinds(styles + [e]) == Kinds(styles) + {e.kind}
  {
    var s := styles + [e];
    assert s[|styles|] == e;
    forall k | k in Kinds(styles)
      ensures k in Kinds(s)
    {
      var i :| 0 <= i < |styles| && styles[i].kind == k;
      assert s[i] == styles[i];
    }
  }

  class AnimationRegistry {
    const builtInKeyframes: map<string, string>
    /** `customAnimationRegistry`. */
    var custom: map<string, CustomAnimation>
    /** `injectedKeyframes`. */
    var injected: set<string>
    /** The `<style>` elements appended so far, in order. */
    var styles: seq<StyleElement>

    ghost predicate Valid()
      reads this
    {
      && BuiltInKeyframesShape(builtInKeyframes)
      && injected == Kinds(styles)
      && (forall i, j :: 0 <= i < j < |styles| ==> styles[i].kind != styles[j].kind)
      && (forall i :: 0 <= i < |styles| ==> styles[i].kind != "none" && styles[i].css != "")
    }

    constructor(keyframes: map<string, string>)
      requires BuiltInKeyframesShape(keyframes)
      ensures Valid() && builtInKeyframes == keyframes
      ensures custom == map[] && injected == {} && styles == []
    {
      builtInKeyframes := keyframes;
      custom := map[];
      injected := {};
      styles := [];
    }

    /** `registerAnimation(name, definition)`: overwrites any earlier
        definition of that name; built-in types keep their own tables. */
    method RegisterAnimation(name: string, definition: CustomAnimation)
      requires Valid()
      modifies this
      ensures Valid() && injected == old(injected) && styles == old(styles)
      ensures custom == old(custom)[name := definition]
      ensures name !in BuiltInDefaults ==> AnimationDefaults(name) == definition.defaults.GetOr(FallbackDefaults)
      ensures name !in builtInKeyframes ==> Keyframes(name) == definition.keyframes
      ensures forall t :: t in BuiltInDefaults ==> AnimationDefaults(t) == BuiltInDefaults[t]
    {
      custom := custom[name := definition];
    }

    /** `getCustomAnimation(name)`. */
    function CustomAnimationOf(name: string): (r: Option<CustomAnimation>)
      reads this
      ensures r.Some? <==> name in custom
      ensures r.Some? ==> r.value == custom[name]
    {
      if name in custom then Some(custom[name]) else None
    }

    /** `getTransformOrigin(type)`: only the custom registry is consulted. */
    function TransformOriginOf(kind: string): (r: TransformOrigin)
      reads this
      ensures kind in custom && custom[kind].transformOrigin.Some? ==> r == custom[kind].transformOrigin.value
      ensures kind !in custom || custom[kind].transformOrigin.None? ==> r == Preset("center")
    {
      match CustomAnimationOf(kind)
      case None => Preset("center")
      case Some(c) => c.transformOrigin.GetOr(Preset("center"))
    }

    /** `getAnimationDefaults(type)`: built-in, then custom, then the fallback. */
    function AnimationDefaults(kind: string): (r: AnimationDefaults)
      reads this
      ensures kind in BuiltInDefaults ==> r == BuiltInDefaults[kind]
      ensures kind !in BuiltInDefaults && kind in custom && custom[kind].defaults.Some? ==> r == custom[kind].defaults.value
      ensures kind !in BuiltInDefaults && (kind !in custom || custom[kind].defaults.None?) ==> r == FallbackDefaults
    {
      if kind in BuiltInDefaults then BuiltInDefaults[kind]
      else
        match CustomAnimationOf(kind)
        case Some(c) => c.defaults.GetOr(FallbackDefaults)
        case None => FallbackDefaults
    }

    /** `getKeyframes(type)`: built-in, then custom, else empty. */
    function Keyframes(kind: string): (r: string)
      reads this
      ensures kind in builtInKeyframes ==> r == builtInKeyframes[kind]
      ensures kind !in builtInKeyframes && kind in custom ==> r == custom[kind].keyframes
      ensures kind !in builtInKeyframes && kind !in custom ==> r == ""
    {
      if kind in builtInKeyframes then builtInKeyframes[kind]
      else
        match CustomAnimationOf(kind)
        case Some(c) => c.keyframes
        case None => ""
    }

    /** `parseAnimationOptions(animation)`. Only the string forms `''` and
        `'none'` give null; an options object with type `none` does not. */
    function ParseAnimationOptions(animation: Option<Animation>): (r: Option<AnimationOptions>)
      reads this
      ensures animation.None? ==> r.None?
      ensures animation.Some? && animation.value.NamedAnimation? ==>
        var n := animation.value.name;
        (r.None? <==> n == "" || n == "none")
        && (r.Some? ==> r.value == WithDefaults(n, AnimationDefaults(n)))
      ensures animation.Some? && animation.value.OptionsAnimation? ==>
        r == Some(Overlay(AnimationDefaults(animation.value.options.kind), animation.value.options))
    {
      match animation
      case None => None
      case Some(NamedAnimation(n)) =>
        if n == "" || n == "none" then None else Some(WithDefaults(n, AnimationDefaults(n)))
      case Some(OptionsAnimation(o)) => Some(Overlay(AnimationDefaults(o.kind), o))
    }

    /** `injectKeyframes(type)`. Without a document, or with no keyframes
        for the type, nothing happens and the type is not recorded. */
    method InjectKeyframes(kind: string, hasDocument: bool)
      requires Valid()
      modifies this
      ensures Valid() && custom == old(custom)
      ensures kind == "none" || kind in old(injected) || !hasDocument || Keyframes(kind) == "" ==>
        injected == old(injected) && styles == old(styles)
      ensures kind != "none" && kind !in old(injected) && hasDocument && Keyframes(kind) != "" ==>
        injected == old(injected) + {kind} && styles == old(styles) + [StyleElement(kind, Keyframes(kind))]
    {
      if kind == "none" || kind in injected {
        return;
      }
      if !hasDocument {
        return;
      }
      var css := Keyframes(kind);
      if css == "" {
        return;
      }
      KindsAppend(styles, StyleElement(kind, css));
      forall i | 0 <= i < |styles|
        ensures styles[i].kind != kind
      {
        assert styles[i].kind in Kinds(styles);
      }
      styles := styles + [StyleElement(kind, css)];
      injected := injected + {kind};
    }
  }

  /** Parsing is stable: parsing an already-parsed options object again
      gives it back. */
  lemma ParseIsStable(reg: AnimationRegistry, animation: Option<Animation>)
    requires reg.ParseAnimationOptions(animation).Some?
    ensures reg.ParseAnimationOptions(Some(OptionsAnimation(reg.ParseAnimationOptions(animation).value)))
      == reg.ParseAnimationOptions(animation)
  {
  }

  /** `animation="spin"` gives `iconcraft-spin 1.5s linear 0s infinite`. */
  lemma SpinStyle(reg: AnimationRegistry)
    ensures AnimationStyle(reg.ParseAnimationOptions(Some(NamedAnimation("spin"))))
      == "iconcraft-spin 1.5s linear 0s infinite"
  {
    assert BuiltInDefaults["spin"] == Builtin("1.5", Infinite, "linear");
    SpinStyleOfDefaults();
  }

  lemma SpinStyleOfDefaults()
    ensures AnimationStyle(Some(WithDefaults("spin", Builtin("1.5", Infinite, "linear"))))
      == "iconcraft-spin 1.5s linear 0s infinite"
  {
    var a := AnimationName("spin");
    assert a == "iconcraft-spin";
    var b := a + " " + "1.5" + "s ";
    assert b == "iconcraft-spin 1.5s ";
    var c := b + "linear" + " " + "0" + "s ";
    assert c == "iconcraft-spin 1.5s linear 0s ";
    assert c + "infinite" == "iconcraft-spin 1.5s linear 0s infinite";
  }

  /** Injection appends a type's keyframes at most once, whatever is
      registered in between. */
  method InjectTwiceAppendsOnce(reg: AnimationRegistry, kind: string, def: CustomAnimation)
    requires reg.Valid()
    modifies reg
  {
    reg.InjectKeyframes(kind, true);
    var afterFirst, wasInjected := reg.styles, kind in reg.injected;
    reg.RegisterAnimation(kind, def);
    reg.InjectKeyframes(kind, true);
    assert wasInjected ==> reg.styles == afterFirst;
  }
}
