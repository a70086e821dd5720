/** The factory (`IconCraftFactory`): a prototype configuration from which
    instances are created, one at a time or in batches. */
module Factory {
  import opened Text
  import opened Types
  import opened IconCraftConfig
  import opened Instance

  /** Every field of a configuration as options. */
  function ToOptions(c: Config): ConfigOptions {
    ConfigOptions(
      Some(c.mode), Some(c.shapeColor), Some(c.iconStyle), Some(c.iconColor),
      Some(c.shadow), Some(c.highlight), Some(c.offset), Some(c.resolution),
      Some(c.simplify), Some(c.size), c.width, c.height, c.animation, Some(c.animateOnHover))
  }

  /** Rebuilding a configuration from all of its fields gives it back. */
  lemma NewConfigOfOptionsRoundTrip(c: Config)
    ensures NewConfig(ToOptions(c)) == c
  {
  }

  /** The options `clone` passes to the new factory as written: every field
      of the cloned configuration except `iconColor`. */
  function CloneOptionsAsWritten(c: Config): ConfigOptions {
    ToOptions(c).(iconColor := None)
  }

  /** The prototype of `factory.clone(o)` as written. */
  function ClonedPrototypeAsWritten(prototype: Config, o: ConfigOptions): Config {
    NewConfig(CloneOptionsAsWritten(IconCraftConfig.Clone(prototype, o)))
  }

  /** As written, the cloned factory agrees with `prototype.clone(o)` on every
      field but `iconColor`, which falls back to the default. */
  lemma ClonedPrototypeAsWrittenDropsIconColor(prototype: Config, o: ConfigOptions)
    ensures ClonedPrototypeAsWritten(prototype, o) ==
            IconCraftConfig.Clone(prototype, o).(iconColor := DefaultConfig.iconColor)
  {
  }

  /** A factory whose prototype has a custom icon colour loses it on `clone({})`. */
  lemma ClonedPrototypeAsWrittenLosesCustomColor()
    ensures var p := DefaultConfig.(iconColor := "#ffffff");
      ClonedPrototypeAsWritten(p, NoOptions).iconColor == "#1d1d1f" != p.iconColor
  {
  }

  /** The prototype of `factory.clone(o)` with `iconColor` forwarded too. */
  function ClonedPrototype(prototype: Config, o: ConfigOptions): (r: Config)
    ensures r == IconCraftConfig.Clone(prototype, o)
  {
    NewConfigOfOptionsRoundTrip(IconCraftConfig.Clone(prototype, o));
    NewConfig(ToOptions(IconCraftConfig.Clone(prototype, o)))
  }

  /** The configuration `create` binds: the prototype itself without
      overrides, else `prototype.clone(overrides)`. */
  function ConfigFor(prototype: Config, overrides: Option<ConfigOptions>): Config {
    match overrides
    case None => prototype
    case Some(o) => IconCraftConfig.Clone(prototype, o)
  }

  /** With overrides absent the prototype is bound; an empty override object
      yields a configuration equal to it. */
  lemma ConfigForEmptyOverrides(prototype: Config)
    ensures ConfigFor(prototype, None) == prototype
    ensures ConfigFor(prototype, Some(NoOptions)) == prototype
  {
    CloneOfNothingIsIdentity(prototype);
  }

  /** How `Promise.all` over the batch's generations settles, given the final
      generation states in the order they settled. */
  datatype BatchOutcome = AllResolved | Rejected(message: string)

  predicate AllSettled(settled: seq<GenerateState>) {
    forall i :: 0 <= i < |settled| ==> settled[i].Done? || settled[i].GenerateError?
  }

  /** The batch resolves iff every generation succeeded; otherwise it rejects
      with the first failure to settle. */
  function BatchOutcomeOf(settled: seq<GenerateState>): (r: BatchOutcome)
    requires AllSettled(settled)
    ensures r.AllResolved? <==> forall i :: 0 <= i < |settled| ==> settled[i].Done?
    ensures r.Rejected? ==> exists i :: 0 <= i < |settled| && settled[i] == GenerateError(r.message)
    ensures r.Rejected? ==> GenerateError(r.message) in settled
  {
    if |settled| == 0 then AllResolved
    else if settled[0].GenerateError? then Rejected(settled[0].message)
    else
      var r := BatchOutcomeOf(settled[1..]);
      assert forall i :: 1 <= i < |settled| ==> settled[i] == settled[1..][i - 1];
      r
  }

  class IconCraftFactory {
    const prototype: Config

    /** `new IconCraftFactory(options)`. */
    constructor(options: ConfigOptions)
      ensures prototype == NewConfig(options)
    {
      prototype := NewConfig(options);
    }

    /** `getConfig()`. */
    function GetConfig(): (r: Config)
      ensures r == prototype
    {
      prototype
    }

    /** `create(svg, overrides)`: a fresh instance in its initial state; the
        prototype never changes. The new id is a parameter. */
    method Create(svg: string, overrides: Option<ConfigOptions>, newId: string) returns (r: IconCraftInstance)
      ensures fresh(r) && r.Valid()
      ensures r.svg == svg && r.id == newId && r.config == ConfigFor(prototype, overrides)
      ensures r.svgState == SvgPending && r.generateState == Idle && r.inFlight == None && r.jobs == map[] && r.nextJob == 0
    {
      r := new IconCraftInstance(svg, ConfigFor(prototype, overrides), newId);
    }

    /** `clone(overrides)`, with the icon colour forwarded (the source omits it). */
    method Clone(overrides: ConfigOptions) returns (r: IconCraftFactory)
      ensures fresh(r)
      ensures r.prototype == IconCraftConfig.Clone(prototype, overrides)
    {
      var c := IconCraftConfig.Clone(prototype, overrides);
      r := new IconCraftFactory(ToOptions(c));
      NewConfigOfOptionsRoundTrip(c);
    }

    /** `createMany(svgs, overrides)`: one fresh instance per source, in order. */
    method CreateMany(svgs: seq<string>, overrides: Option<ConfigOptions>, ids: seq<string>)
        returns (r: seq<IconCraftInstance>)
      requires |ids| == |svgs|
      ensures |r| == |svgs|
      ensures forall i :: 0 <= i < |r| ==> fresh(r[i]) && r[i].Valid()
      ensures forall i :: 0 <= i < |r| ==> r[i].svg == svgs[i] && r[i].id == ids[i]
      ensures forall i :: 0 <= i < |r| ==> r[i].config == ConfigFor(prototype, overrides)
      ensures forall i :: 0 <= i < |r| ==>
        r[i].svgState == SvgPending && r[i].generateState == Idle && r[i].inFlight == None && r[i].jobs == map[] && r[i].nextJob == 0
      ensures forall i, j :: 0 <= i < j < |r| ==> r[i] != r[j]
    {
      r := [];
      var k := 0;
      while k < |svgs|
        invariant 0 <= k <= |svgs| && |r| == k
        invariant forall i :: 0 <= i < k ==> fresh(r[i]) && r[i].Valid()
        invariant forall i :: 0 <= i < k ==> r[i].svg == svgs[i] && r[i].id == ids[i]
        invariant forall i :: 0 <= i < k ==> r[i].config == ConfigFor(prototype, overrides)
        invariant forall i :: 0 <= i < k ==>
          r[i].svgState == SvgPending && r[i].generateState == Idle && r[i].inFlight == None && r[i].jobs == map[] && r[i].nextJob == 0
        invariant forall i, j :: 0 <= i < j < k ==> r[i] != r[j]
      {
        var inst := Create(svgs[k], overrides, ids[k]);
        r := r + [inst];
        k := k + 1;
      }
    }

    /** `generateMany(svgs, overrides)` up to its `await`: the instances are
        created and `generate()` is started on each, so every one is
        Generating with its own job in flight. How the batch then settles
        is `BatchOutcomeOf`. */
    method GenerateMany(svgs: seq<string>, overrides: Option<ConfigOptions>, ids: seq<string>)
        returns (r: seq<IconCraftInstance>, starts: seq<GenerateStart>)
      requires |ids| == |svgs|
      ensures |r| == |svgs| && |starts| == |svgs|
      ensures forall i :: 0 <= i < |r| ==> fresh(r[i]) && r[i].Valid()
      ensures forall i :: 0 <= i < |r| ==> r[i].svg == svgs[i] && r[i].config == ConfigFor(prototype, overrides)
      ensures forall i :: 0 <= i < |r| ==> starts[i] == Started(0) && r[i].generateState == Generating && r[i].inFlight == Some(0)
    {
      r := CreateMany(svgs, overrides, ids);
      starts := [];
      var k := 0;
      while k < |r|
        invariant 0 <= k <= |r| && |starts| == k
        invariant forall i :: 0 <= i < |r| ==> fresh(r[i]) && r[i].Valid()
        invariant forall i :: 0 <= i < |r| ==> r[i].svg == svgs[i] && r[i].config == ConfigFor(prototype, overrides)
        invariant forall i :: 0 <= i < k ==> starts[i] == Started(0) && r[i].generateState == Generating && r[i].inFlight == Some(0)
        invariant forall i :: k <= i < |r| ==>
          r[i].generateState == Idle && r[i].inFlight == None && r[i].jobs == map[] && r[i].nextJob == 0
        invariant forall i, j :: 0 <= i < j < |r| ==> r[i] != r[j]
      {
        var s := r[k].Generate();
        starts := starts + [s];
        k := k + 1;
      }
    }
  }
}
