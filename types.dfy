/** Value types shared by the core: shape modes, icon styles, the engine's
    result record and the animation descriptors. */
module Types {
  import opened Text

  /** Every shape-mode name that appears anywhere in the core. The type
      declaration names jelly, droplet and wax; the engine gateway's mode
      table names jelly, bubble, wax and sticker. */
  datatype ShapeMode = Jelly | Droplet | Wax | Bubble | Sticker

  function ShapeModeName(m: ShapeMode): string {
    match m
    case Jelly => "jelly"
    case Droplet => "droplet"
    case Wax => "wax"
    case Bubble => "bubble"
    case Sticker => "sticker"
  }

  datatype IconStyle = Original | Emboss | Stroke | Fill

  function IconStyleName(s: IconStyle): string {
    match s
    case Original => "original"
    case Emboss => "emboss"
    case Stroke => "stroke"
    case Fill => "fill"
  }

  /** A JavaScript number, carried by the text `String(n)` prints for it.
      The core never computes with these values; it only compares them
      and writes them into markup. */
  datatype Num = Num(text: string)

  /** JavaScript's truthiness of a number: false for 0, -0 and NaN. */
  predicate NumTruthy(n: Num) {
    n.text != "0" && n.text != "NaN"
  }

  /** A CSS size given as `number | string`. */
  datatype Length = PxLength(n: Num) | CssLength(s: string)

  /** JavaScript's truthiness of an optional string. */
  predicate Truthy(o: Option<string>) {
    o.Some? && o.value != ""
  }

  // ---------------------------------------------------------------
  // Engine result
  // ---------------------------------------------------------------

  datatype IconLayout = IconLayout(topPercent: Num, leftPercent: Num, widthPercent: Num, heightPercent: Num)

  datatype SvgPaths = SvgPaths(clip: Option<string>, inner: Option<string>, shadow: Option<string>, highlight: Option<string>)

  datatype EmbossPath = EmbossPath(
    d: string, fill: Option<string>, stroke: Option<string>,
    strokeWidth: Option<Num>, transform: Option<string>, fillRule: Option<string>)

  datatype EmbossIconData = EmbossIconData(viewBox: Option<string>, paths: seq<EmbossPath>, width: Option<Num>, height: Option<Num>)

  /** The record the geometry engine returns. */
  datatype IconCraftResult = IconCraftResult(
    success: bool,
    clipPath: Option<string>,
    innerClipPath: Option<string>,
    highlightClipPaths: Option<seq<string>>,
    pointsCount: Num,
    mode: string,
    error: Option<string>,
    iconLayout: Option<IconLayout>,
    svgPaths: Option<SvgPaths>,
    embossSvg: Option<string>,
    iconPaths: Option<EmbossIconData>)

  // ---------------------------------------------------------------
  // Animation descriptors
  // ---------------------------------------------------------------

  datatype AnimationTarget = ShapeTarget | IconTarget | BothTarget

  datatype Iterations = Times(n: Num) | Infinite

  /** `AnimationOptions`: a type name plus optional settings. */
  datatype AnimationOptions = AnimationOptions(
    kind: string,
    target: Option<AnimationTarget>,
    duration: Option<Num>,
    delay: Option<Num>,
    iterationCount: Option<Iterations>,
    timingFunction: Option<string>,
    playState: Option<string>)

  /** `AnimationOptions` without its type: the defaults of an animation. */
  datatype AnimationDefaults = AnimationDefaults(
    target: Option<AnimationTarget>,
    duration: Option<Num>,
    delay: Option<Num>,
    iterationCount: Option<Iterations>,
    timingFunction: Option<string>,
    playState: Option<string>)

  const NoDefaults := AnimationDefaults(None, None, None, None, None, None)

  /** `AnimationType | AnimationOptions`. */
  datatype Animation = NamedAnimation(name: string) | OptionsAnimation(options: AnimationOptions)
}
