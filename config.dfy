/** The immutable configuration value (`IconCraftConfig`): construction from
    partial options filled from `DEFAULT_CONFIG`, structural clone with
    overrides, and the two derived views (engine parameters, CSS size). */
module IconCraftConfig {
  import opened Text
  import opened Types

  /** `IconCraftConfigOptions`: every field optional. `None` stands for both
      `undefined` and `null`, the two values `??` skips. */
  datatype ConfigOptions = ConfigOptions(
    mode: Option<ShapeMode>,
    shapeColor: Option<string>,
    iconStyle: Option<IconStyle>,
    iconColor: Option<string>,
    shadow: Option<bool>,
    highlight: Option<bool>,
    offset: Option<Num>,
    resolution: Option<Num>,
    simplify: Option<Num>,
    size: Option<Length>,
    width: Option<Length>,
    height: Option<Length>,
    animation: Option<Animation>,
    animateOnHover: Option<bool>)

  const NoOptions := ConfigOptions(None, None, None, None, None, None, None, None, None, None, None, None, None, None)

  datatype Config = Config(
    mode: ShapeMode,
    shapeColor: string,
    iconStyle: IconStyle,
    iconColor: string,
    shadow: bool,
    highlight: bool,
    offset: Num,
    resolution: Num,
    simplify: Num,
    size: Length,
    width: Option<Length>,
    height: Option<Length>,
    animation: Option<Animation>,
    animateOnHover: bool)

  /** `DEFAULT_CONFIG`; width, height and animation have no default. */
  const DefaultConfig := Config(
    Wax, "#6366f1", Emboss, "#1d1d1f", true, true,
    Num("20"), Num("256"), Num("2"), PxLength(Num("120")),
    None, None, None, false)

  /** `new IconCraftConfig(options)`. */
  function NewConfig(o: ConfigOptions): Config {
    Config(
      o.mode.GetOr(DefaultConfig.mode),
      o.shapeColor.GetOr(DefaultConfig.shapeColor),
      o.iconStyle.GetOr(DefaultConfig.iconStyle),
      o.iconColor.GetOr(DefaultConfig.iconColor),
      o.shadow.GetOr(DefaultConfig.shadow),
      o.highlight.GetOr(DefaultConfig.highlight),
      o.offset.GetOr(DefaultConfig.offset),
      o.resolution.GetOr(DefaultConfig.resolution),
      o.simplify.GetOr(DefaultConfig.simplify),
      o.size.GetOr(DefaultConfig.size),
      o.width,
      o.height,
      o.animation,
      o.animateOnHover.GetOr(DefaultConfig.animateOnHover))
  }

  /** `config.clone(overrides)`: every field is `overrides.field ?? config.field`,
      passed through the constructor. */
  function Clone(c: Config, o: ConfigOptions): Config {
    NewConfig(ConfigOptions(
      o.mode.Or(Some(c.mode)),
      o.shapeColor.Or(Some(c.shapeColor)),
      o.iconStyle.Or(Some(c.iconStyle)),
      o.iconColor.Or(Some(c.iconColor)),
      o.shadow.Or(Some(c.shadow)),
      o.highlight.Or(Some(c.highlight)),
      o.offset.Or(Some(c.offset)),
      o.resolution.Or(Some(c.resolution)),
      o.simplify.Or(Some(c.simplify)),
      o.size.Or(Some(c.size)),
      o.width.Or(c.width),
      o.height.Or(c.height),
      o.animation.Or(c.animation),
      o.animateOnHover.Or(Some(c.animateOnHover))))
  }

  /** Options `a` overlaid by `b`: the present fields of `b` win. */
  function Overlay(a: ConfigOptions, b: ConfigOptions): ConfigOptions {
    ConfigOptions(
      b.mode.Or(a.mode), b.shapeColor.Or(a.shapeColor), b.iconStyle.Or(a.iconStyle),
      b.iconColor.Or(a.iconColor), b.shadow.Or(a.shadow), b.highlight.Or(a.highlight),
      b.offset.Or(a.offset), b.resolution.Or(a.resolution), b.simplify.Or(a.simplify),
      b.size.Or(a.size), b.width.Or(a.width), b.height.Or(a.height),
      b.animation.Or(a.animation), b.animateOnHover.Or(a.animateOnHover))
  }

  /** A field given in the options is taken; an absent defaulted field takes
      `DEFAULT_CONFIG`'s value; width, height and animation stay absent. */
  lemma NewConfigFillsDefaults(o: ConfigOptions)
    ensures var c := NewConfig(o);
      && c.mode == (if o.mode.Some? then o.mode.value else Wax)
      && c.shapeColor == (if o.shapeColor.Some? then o.shapeColor.value else "#6366f1")
      && c.iconStyle == (if o.iconStyle.Some? then o.iconStyle.value else Emboss)
      && c.iconColor == (if o.iconColor.Some? then o.iconColor.value else "#1d1d1f")
      && c.shadow == (o.shadow != Some(false))
      && c.highlight == (o.highlight != Some(false))
      && c.offset == (if o.offset.Some? then o.offset.value else Num("20"))
      && c.resolution == (if o.resolution.Some? then o.resolution.value else Num("256"))
      && c.simplify == (if o.simplify.Some? then o.simplify.value else Num("2"))
      && c.size == (if o.size.Some? then o.size.value else PxLength(Num("120")))
      && c.width == o.width && c.height == o.height && c.animation == o.animation
      && c.animateOnHover == (o.animateOnHover == Some(true))
  {
  }

  /** `new IconCraftConfig()` is `DEFAULT_CONFIG`. */
  lemma NewConfigOfNothingIsDefault()
    ensures NewConfig(NoOptions) == DefaultConfig
  {
  }

  /** Building from options is cloning `DEFAULT_CONFIG` with them: the
      constructor and `clone` apply the same defaults. */
  lemma NewConfigIsCloneOfDefault(o: ConfigOptions)
    ensures NewConfig(o) == Clone(DefaultConfig, o)
  {
  }

  /** Each field of a clone is the override when one is given, else the
      original's; in particular `false`, `0` and `""` overrides are kept. */
  lemma CloneFields(c: Config, o: ConfigOptions)
    ensures var r := Clone(c, o);
      && r.mode == o.mode.GetOr(c.mode)
      && r.shapeColor == o.shapeColor.GetOr(c.shapeColor)
      && r.iconStyle == o.iconStyle.GetOr(c.iconStyle)
      && r.iconColor == o.iconColor.GetOr(c.iconColor)
      && r.shadow == o.shadow.GetOr(c.shadow)
      && r.highlight == o.highlight.GetOr(c.highlight)
      && r.offset == o.offset.GetOr(c.offset)
      && r.resolution == o.resolution.GetOr(c.resolution)
      && r.simplify == o.simplify.GetOr(c.simplify)
      && r.size == o.size.GetOr(c.size)
      && r.width == o.width.Or(c.width)
      && r.height == o.height.Or(c.height)
      && r.animation == o.animation.Or(c.animation)
      && r.animateOnHover == o.animateOnHover.GetOr(c.animateOnHover)
  {
  }

  /** `??` skips only absent values: `false`, `0` and `""` overrides win. */
  lemma CloneHonoursFalsyOverrides(c: Config)
    ensures Clone(c, NoOptions.(shadow := Some(false))).shadow == false
    ensures Clone(c, NoOptions.(highlight := Some(false))).highlight == false
    ensures Clone(c, NoOptions.(offset := Some(Num("0")))).offset == Num("0")
    ensures Clone(c, NoOptions.(shapeColor := Some(""))).shapeColor == ""
  {
  }

  /** `c.clone({})` is field-wise equal to `c`. */
  lemma CloneOfNothingIsIdentity(c: Config)
    ensures Clone(c, NoOptions) == c
  {
  }

  /** Cloning twice is cloning once with the second overrides laid over the first. */
  lemma CloneComposes(c: Config, a: ConfigOptions, b: ConfigOptions)
    ensures Clone(Clone(c, a), b) == Clone(c, Overlay(a, b))
  {
  }

  /** Once width, height or animation is set, no clone makes it absent. */
  lemma CloneKeepsOptionalFields(c: Config, o: ConfigOptions)
    ensures c.width.Some? ==> Clone(c, o).width.Some?
    ensures c.height.Some? ==> Clone(c, o).height.Some?
    ensures c.animation.Some? ==> Clone(c, o).animation.Some?
  {
  }

  /** The parameters handed to the engine gateway. */
  datatype WasmParams = WasmParams(
    mode: ShapeMode, offset: Num, resolution: Num, simplify: Num,
    includeIcon: bool, shapeColor: string)

  /** `getWasmParams()`: the engine must return precomposed emboss markup for
      wax (its concave silhouette needs it) and for the emboss icon style. */
  function GetWasmParams(c: Config): (p: WasmParams)
    ensures p.includeIcon <==> (c.mode == Wax || c.iconStyle == Emboss)
    ensures p.mode == c.mode && p.offset == c.offset && p.resolution == c.resolution
    ensures p.simplify == c.simplify && p.shapeColor == c.shapeColor
  {
    WasmParams(c.mode, c.offset, c.resolution, c.simplify,
               c.mode == Wax || c.iconStyle == Emboss, c.shapeColor)
  }

  /** A CSS length: numbers get a `px` suffix, strings pass through. */
  function CssSize(l: Length): string {
    match l
    case PxLength(n) => n.text + "px"
    case CssLength(s) => s
  }

  /** `getSize()`: width is `width ?? size`, height is `height ?? size`. */
  function GetSize(c: Config): (r: (string, string))
    ensures r.0 == CssSize(if c.width.Some? then c.width.value else c.size)
    ensures r.1 == CssSize(if c.height.Some? then c.height.value else c.size)
    ensures c.width.None? && c.size.PxLength? ==> r.0 == c.size.n.text + "px"
    ensures c.width.Some? && c.width.value.CssLength? ==> r.0 == c.width.value.s
  {
    (CssSize(c.width.GetOr(c.size)), CssSize(c.height.GetOr(c.size)))
  }
}
