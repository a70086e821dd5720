/** One icon (`IconCraftInstance`): its source, its configuration and two
    state machines, one for the content fetch and one for generation.
    Every asynchronous continuation is a separate step, named by the job
    (promise) it belongs to; the environment decides the order of steps
    and supplies the fetch and engine outcomes. */
module Instance {
  import opened Text
  import opened Types
  import opened IconCraftConfig
  import WasmManager

  datatype SvgState = SvgPending | SvgLoading | SvgReady(content: string) | SvgError(message: string)

  datatype GenerateState = Idle | Generating | Done(result: IconCraftResult) | GenerateError(message: string)

  /** Where a started asynchronous job stands: a plain `fetchSvg()` awaiting
      the network, or a generation awaiting its content or the engine. */
  datatype Job = FetchOnly | AwaitingContent | AwaitingEngine(content: string)

  /** What the network delivers to an outstanding fetch. */
  datatype FetchOutcome = Fetched(content: string) | HttpFailure(status: Num) | NetworkFailure(message: string)

  /** The message stored for a failed fetch. */
  function FetchErrorMessage(o: FetchOutcome): (m: string)
    requires !o.Fetched?
    ensures o.HttpFailure? ==> m == "Failed to fetch SVG: " + o.status.text
    ensures o.NetworkFailure? ==> m == o.message
  {
    match o
    case HttpFailure(s) => "Failed to fetch SVG: " + s.text
    case NetworkFailure(msg) => msg
  }

  /** What `fetchSvg()` does before its first `await`. */
  datatype FetchStart = ContentAt(content: string) | FetchStarted(job: nat)

  /** What `generate()` returns: the in-flight promise, the stored result, or a new job. */
  datatype GenerateStart = Joined(job: nat) | AlreadyDone(result: IconCraftResult) | Started(job: nat)

  /** `isUrl`: the source is fetched when it starts with "http://", "https://" or "/". */
  function IsUrl(svg: string): (r: bool)
    ensures StartsWith(svg, "http://") || StartsWith(svg, "https://") || StartsWith(svg, "/") ==> r
    ensures r ==> |svg| > 0 && (svg[0] == '/' || svg[0] == 'h')
  {
    StartsWith(svg, "http://") || StartsWith(svg, "https://") || StartsWith(svg, "/")
  }

  /** The message a failed engine result turns into: its `error` when truthy,
      else "Generation failed". */
  function GenerationErrorMessage(r: IconCraftResult): (m: string)
    ensures m != ""
    ensures Truthy(r.error) ==> m == r.error.value
  {
    if Truthy(r.error) then r.error.value else "Generation failed"
  }

  /** The request the instance hands to the engine gateway: the configuration's
      engine parameters and no rotation or icon colour. */
  function EngineParams(c: Config, content: string): (p: WasmManager.GenerateParams)
    ensures p.svgContent == content && p.rotation.None? && p.iconColor.None?
    ensures p.includeIcon <==> (c.mode == Wax || c.iconStyle == Emboss)
    ensures p.mode == c.mode && p.shapeColor == c.shapeColor
  {
    var w := GetWasmParams(c);
    WasmManager.GenerateParams(content, w.mode, w.offset, w.resolution, w.simplify,
                               w.includeIcon, w.shapeColor, None, None)
  }

  class IconCraftInstance {
    const id: string
    const svg: string
    const config: Config
    var svgState: SvgState
    var generateState: GenerateState
    /** `_generatePromise`: the job whose promise `generate()` hands out, if any. */
    var inFlight: Option<nat>
    /** Jobs started and not yet settled. There is no generation token: a job
        keeps running after `reset()` and still writes its outcome. */
    var jobs: map<nat, Job>
    var nextJob: nat

    ghost predicate Valid()
      reads this
    {
      && (forall j :: j in jobs ==> j < nextJob)
      && (inFlight.Some? ==> inFlight.value in jobs && !jobs[inFlight.value].FetchOnly?)
      && (inFlight.Some? ==> generateState == Generating)
    }

    /** `new IconCraftInstance(svg, config, id)`: content Pending, generation
        Idle, nothing in flight. */
    constructor(svg: string, config: Config, id: string)
      ensures Valid()
      ensures this.svg == svg && this.config == config && this.id == id
      ensures svgState == SvgPending && generateState == Idle && inFlight == None
      ensures jobs == map[] && nextJob == 0
    {
      this.id := id;
      this.svg := svg;
      this.config := config;
      svgState := SvgPending;
      generateState := Idle;
      inFlight := None;
      jobs := map[];
      nextJob := 0;
    }

    /** `svgContent`. */
    function SvgContent(): (r: Option<string>)
      reads this
      ensures r.Some? <==> svgState.SvgReady?
      ensures r.Some? ==> r.value == svgState.content
    {
      if svgState.SvgReady? then Some(svgState.content) else None
    }

    /** `result`. */
    function Result(): (r: Option<IconCraftResult>)
      reads this
      ensures r.Some? <==> generateState.Done?
      ensures r.Some? ==> r.value == generateState.result
    {
      if generateState.Done? then Some(generateState.result) else None
    }

    /** `embossSvg`: the stored result's emboss markup, if both exist. */
    function EmbossSvg(): (r: Option<string>)
      reads this
      ensures r.Some? <==> generateState.Done? && generateState.result.embossSvg.Some?
      ensures r.Some? ==> r.value == generateState.result.embossSvg.value
    {
      match Result()
      case Some(res) => res.embossSvg
      case None => None
    }

    /** `isLoading`. */
    function IsLoading(): (r: bool)
      reads this
      ensures Valid() && inFlight.Some? ==> r
      ensures r ==> SvgContent().None? || Result().None?
    {
      svgState.SvgLoading? || generateState.Generating?
    }

    /** `isReady`. */
    function IsReady(): (r: bool)
      reads this
      ensures r <==> Result().Some?
      ensures Valid() && r ==> inFlight.None?
    {
      generateState.Done?
    }

    /** `error`: a content error is reported before a generation error. */
    function Error(): (r: Option<string>)
      reads this
      ensures svgState.SvgError? ==> r == Some(svgState.message)
      ensures !svgState.SvgError? && generateState.GenerateError? ==> r == Some(generateState.message)
      ensures r.None? <==> !svgState.SvgError? && !generateState.GenerateError?
    {
      if svgState.SvgError? then Some(svgState.message)
      else if generateState.GenerateError? then Some(generateState.message)
      else None
    }

    /** `fetchSvg()` up to its first `await`: Ready content is returned as is;
        a non-URL source becomes its own content at once; a URL is fetched. */
    method FetchSvg() returns (r: FetchStart)
      requires Valid()
      modifies this
      ensures Valid()
      ensures old(svgState).SvgReady? ==> r == ContentAt(old(svgState).content) && svgState == old(svgState) && jobs == old(jobs) && nextJob == old(nextJob)
      ensures !old(svgState).SvgReady? && !IsUrl(svg) ==> r == ContentAt(svg) && svgState == SvgReady(svg) && jobs == old(jobs) && nextJob == old(nextJob)
      ensures !old(svgState).SvgReady? && IsUrl(svg) ==>
        && r == FetchStarted(old(nextJob)) && svgState == SvgLoading
        && jobs == old(jobs)[old(nextJob) := FetchOnly] && nextJob == old(nextJob) + 1
      ensures generateState == old(generateState) && inFlight == old(inFlight)
    {
      if svgState.SvgReady? {
        r := ContentAt(svgState.content);
      } else if !IsUrl(svg) {
        svgState := SvgReady(svg);
        r := ContentAt(svg);
      } else {
        svgState := SvgLoading;
        jobs := jobs[nextJob := FetchOnly];
        r := FetchStarted(nextJob);
        nextJob := nextJob + 1;
      }
    }

    /** `generate()`: an in-flight promise is shared (checked before the Done
        state); a Done state returns its result; otherwise a new job sets
        Generating and runs `fetchSvg()` up to its first `await`. */
    method Generate() returns (r: GenerateStart)
      requires Valid()
      modifies this
      ensures Valid()
      ensures old(inFlight).Some? ==> r == Joined(old(inFlight).value) && Unchanged(old(svgState), old(generateState), old(inFlight), old(jobs), old(nextJob))
      ensures old(inFlight).None? && old(generateState).Done? ==>
        r == AlreadyDone(old(generateState).result) && Unchanged(old(svgState), old(generateState), old(inFlight), old(jobs), old(nextJob))
      ensures old(inFlight).None? && !old(generateState).Done? ==>
        && r == Started(old(nextJob)) && generateState == Generating && inFlight == Some(old(nextJob))
        && nextJob == old(nextJob) + 1
        && (old(svgState).SvgReady? ==> svgState == old(svgState) && jobs == old(jobs)[old(nextJob) := AwaitingEngine(old(svgState).content)])
        && (!old(svgState).SvgReady? && !IsUrl(svg) ==> svgState == SvgReady(svg) && jobs == old(jobs)[old(nextJob) := AwaitingEngine(svg)])
        && (!old(svgState).SvgReady? && IsUrl(svg) ==> svgState == SvgLoading && jobs == old(jobs)[old(nextJob) := AwaitingContent])
    {
      if inFlight.Some? {
        r := Joined(inFlight.value);
        return;
      }
      if generateState.Done? {
        r := AlreadyDone(generateState.result);
        return;
      }
      var job := nextJob;
      nextJob := nextJob + 1;
      generateState := Generating;
      if svgState.SvgReady? {
        jobs := jobs[job := AwaitingEngine(svgState.content)];
      } else if !IsUrl(svg) {
        svgState := SvgReady(svg);
        jobs := jobs[job := AwaitingEngine(svg)];
      } else {
        svgState := SvgLoading;
        jobs := jobs[job := AwaitingContent];
      }
      inFlight := Some(job);
      r := Started(job);
    }

    /** The five mutable fields equal the given values. */
    predicate Unchanged(s: SvgState, g: GenerateState, f: Option<nat>, js: map<nat, Job>, n: nat)
      reads this
    {
      svgState == s && generateState == g && inFlight == f && jobs == js && nextJob == n
    }

    /** A fetch settles. Success stores the content (and moves a generation on
        to the engine); failure stores the content error and, for a
        generation, also the generation error and clears the in-flight promise. */
    method FetchSettled(job: nat, outcome: FetchOutcome)
      requires Valid() && job in jobs && (jobs[job].FetchOnly? || jobs[job].AwaitingContent?)
      modifies this
      ensures Valid()
      ensures outcome.Fetched? ==> svgState == SvgReady(outcome.content)
      ensures !outcome.Fetched? ==> svgState == SvgError(FetchErrorMessage(outcome))
      ensures outcome.Fetched? && old(jobs[job]).AwaitingContent? ==>
        jobs == old(jobs)[job := AwaitingEngine(outcome.content)] && generateState == old(generateState) && inFlight == old(inFlight)
      ensures old(jobs[job]).FetchOnly? || !outcome.Fetched? ==> jobs == old(jobs) - {job}
      ensures old(jobs[job]).FetchOnly? ==> generateState == old(generateState) && inFlight == old(inFlight)
      ensures old(jobs[job]).AwaitingContent? && !outcome.Fetched? ==>
        generateState == GenerateError(FetchErrorMessage(outcome)) && inFlight == None
      ensures nextJob == old(nextJob)
    {
      var wasGeneration := jobs[job].AwaitingContent?;
      match outcome
      case Fetched(content) =>
        svgState := SvgReady(content);
        if wasGeneration {
          jobs := jobs[job := AwaitingEngine(content)];
        } else {
          jobs := jobs - {job};
        }
      case _ =>
        var message := FetchErrorMessage(outcome);
        svgState := SvgError(message);
        jobs := jobs - {job};
        if wasGeneration {
          generateState := GenerateError(message);
          inFlight := None;
        }
    }

    /** The engine gateway returns a result to a generation job: a successful
        one is stored as Done, any other becomes a generation error. Either way
        the in-flight promise is cleared, whichever job it belonged to. */
    method EngineReturned(job: nat, result: IconCraftResult)
      requires Valid() && job in jobs && jobs[job].AwaitingEngine?
      modifies this
      ensures Valid()
      ensures result.success ==> generateState == Done(result)
      ensures !result.success ==> generateState == GenerateError(GenerationErrorMessage(result))
      ensures inFlight == None && jobs == old(jobs) - {job}
      ensures svgState == old(svgState) && nextJob == old(nextJob)
    {
      if result.success {
        generateState := Done(result);
      } else {
        generateState := GenerateError(GenerationErrorMessage(result));
      }
      inFlight := None;
      jobs := jobs - {job};
    }

    /** The engine gateway rejects (its initialisation failed). */
    method EngineRejected(job: nat, message: string)
      requires Valid() && job in jobs && jobs[job].AwaitingEngine?
      modifies this
      ensures Valid()
      ensures generateState == GenerateError(message)
      ensures inFlight == None && jobs == old(jobs) - {job}
      ensures svgState == old(svgState) && nextJob == old(nextJob)
    {
      generateState := GenerateError(message);
      inFlight := None;
      jobs := jobs - {job};
    }

    /** `reset()`: Pending, Idle and no in-flight promise. Running jobs are
        not cancelled. */
    method Reset()
      requires Valid()
      modifies this
      ensures Valid()
      ensures svgState == SvgPending && generateState == Idle && inFlight == None
      ensures jobs == old(jobs) && nextJob == old(nextJob)
    {
      svgState := SvgPending;
      generateState := Idle;
      inFlight := None;
    }

    /** `clone(overrides)`: a fresh instance of the same source; without
        overrides it shares this configuration. The new id is a parameter. */
    method Clone(overrides: Option<ConfigOptions>, newId: string) returns (r: IconCraftInstance)
      ensures fresh(r) && r.Valid()
      ensures r.svg == svg && r.id == newId
      ensures r.config == (if overrides.Some? then IconCraftConfig.Clone(config, overrides.value) else config)
      ensures r.svgState == SvgPending && r.generateState == Idle && r.inFlight == None && r.jobs == map[]
    {
      var c := if overrides.Some? then IconCraftConfig.Clone(config, overrides.value) else config;
      r := new IconCraftInstance(svg, c, newId);
    }

    /** `withSvg(svg)`: a fresh instance of another source with this configuration. */
    method WithSvg(other: string, newId: string) returns (r: IconCraftInstance)
      ensures fresh(r) && r.Valid()
      ensures r.svg == other && r.config == config && r.id == newId
      ensures r.svgState == SvgPending && r.generateState == Idle && r.inFlight == None && r.jobs == map[]
    {
      r := new IconCraftInstance(other, config, newId);
    }
  }

  /** Successful completion: `isReady` holds, `result` is the engine's result,
      `error` is absent unless the content had failed, and a further
      `generate()` returns the stored result without new work. */
  method CompletionThenGenerate(inst: IconCraftInstance, job: nat, result: IconCraftResult)
      returns (again: GenerateStart)
    requires inst.Valid() && job in inst.jobs && inst.jobs[job].AwaitingEngine? && result.success
    modifies inst
    ensures inst.Valid() && inst.IsReady() && inst.Result() == Some(result)
    ensures again == AlreadyDone(result)
    ensures inst.jobs == old(inst.jobs) - {job}
  {
    inst.EngineReturned(job, result);
    again := inst.Generate();
  }

  /** Without a generation token, a job that fails after `reset()` still
      overwrites the state and clears the promise of the job started after
      the reset, so the next `generate()` starts a third job while the
      second is still running. */
  method StaleJobClearsNewerPromise(inst: IconCraftInstance, outcome: IconCraftResult)
      returns (first: GenerateStart, second: GenerateStart, third: GenerateStart)
    requires inst.Valid() && inst.inFlight.None? && !inst.generateState.Done?
    requires !IsUrl(inst.svg) && !outcome.success
    modifies inst
    ensures first.Started? && second.Started? && third.Started?
    ensures first.job != second.job && second.job != third.job
    ensures second.job in inst.jobs && inst.inFlight == Some(third.job)
  {
    first := inst.Generate();
    inst.Reset();
    second := inst.Generate();
    inst.EngineReturned(first.job, outcome);
    third := inst.Generate();
  }
}
