/** The engine gateway (`WasmManager`): one-time initialisation of the
    geometry engine and a bounded, insertion-ordered cache of successful
    results in front of it. The engine itself is an uninterpreted function
    supplied at construction. */
module WasmManager {
  import opened Text
  import opened Types

  /** `WasmGenerateParams`. */
  datatype GenerateParams = GenerateParams(
    svgContent: string, mode: ShapeMode, offset: Num, resolution: Num, simplify: Num,
    includeIcon: bool, shapeColor: string, rotation: Option<Num>, iconColor: Option<string>)

  /** The request fingerprint, as the tuple of fields the source serialises:
      the content's first 100 UTF-16 code units and its length in code units,
      the numbers as `JSON.stringify` writes them. */
  datatype CacheKey = CacheKey(
    svgPrefix: seq<int>, svgLen: nat, mode: ShapeMode, offset: string, resolution: string,
    simplify: string, includeIcon: bool, shapeColor: string, rotation: string, iconColor: string)

  const KeyPrefixLength := 100

  function Min(a: int, b: int): int {
    if a <= b then a else b
  }

  predicate NonFinite(n: Num) {
    n.text == "NaN" || n.text == "Infinity" || n.text == "-Infinity"
  }

  /** `JSON.stringify` of a number: its text, but `null` for NaN and the infinities. */
  function JsonNumber(n: Num): (r: string)
    ensures NonFinite(n) ==> r == "null"
    ensures !NonFinite(n) ==> r == n.text
  {
    if NonFinite(n) then "null" else n.text
  }

  /** The code units `slice(0, 100)` keeps. */
  function KeyPrefix(svg: string): (r: seq<int>)
    ensures |r| == Min(KeyPrefixLength, |Utf16(svg)|)
    ensures forall i :: 0 <= i < |r| ==> r[i] == Utf16(svg)[i]
  {
    Utf16(svg)[..Min(KeyPrefixLength, |Utf16(svg)|)]
  }

  /** `createCacheKey`: only the first 100 code units of the content and its
      length enter the key; absent rotation and icon colour default to 0 and "". */
  function CreateCacheKey(p: GenerateParams): (k: CacheKey)
    ensures |p.svgContent| <= k.svgLen == |Utf16(p.svgContent)| <= 2 * |p.svgContent|
    ensures |k.svgPrefix| <= KeyPrefixLength && |k.svgPrefix| <= k.svgLen
    ensures k.svgPrefix == Utf16(p.svgContent)[..|k.svgPrefix|]
    ensures |k.svgPrefix| < KeyPrefixLength ==> k.svgPrefix == Utf16(p.svgContent)
  {
    CacheKey(KeyPrefix(p.svgContent), |Utf16(p.svgContent)|, p.mode,
             JsonNumber(p.offset), JsonNumber(p.resolution), JsonNumber(p.simplify),
             p.includeIcon, p.shapeColor,
             JsonNumber(p.rotation.GetOr(Num("0"))), p.iconColor.GetOr(""))
  }

  /** Two requests share a key exactly when they agree on the length and the
      first 100 code units of the content, on the numbers as serialised and
      on every other parameter, with the defaults applied. */
  lemma SameKeyIff(p: GenerateParams, q: GenerateParams)
    ensures CreateCacheKey(p) == CreateCacheKey(q) <==>
      && |Utf16(p.svgContent)| == |Utf16(q.svgContent)|
      && (forall i :: 0 <= i < Min(KeyPrefixLength, |Utf16(p.svgContent)|) ==>
            Utf16(p.svgContent)[i] == Utf16(q.svgContent)[i])
      && p.mode == q.mode && JsonNumber(p.offset) == JsonNumber(q.offset)
      && JsonNumber(p.resolution) == JsonNumber(q.resolution)
      && JsonNumber(p.simplify) == JsonNumber(q.simplify)
      && p.includeIcon == q.includeIcon && p.shapeColor == q.shapeColor
      && JsonNumber(p.rotation.GetOr(Num("0"))) == JsonNumber(q.rotation.GetOr(Num("0")))
      && p.iconColor.GetOr("") == q.iconColor.GetOr("")
  {
    var n := Min(KeyPrefixLength, |Utf16(p.svgContent)|);
    if |Utf16(p.svgContent)| == |Utf16(q.svgContent)| &&
       (forall i :: 0 <= i < n ==> Utf16(p.svgContent)[i] == Utf16(q.svgContent)[i]) {
      assert KeyPrefix(p.svgContent) == KeyPrefix(q.svgContent);
    }
  }

  /** Different contents whose code-unit lengths agree and whose first 100
      code units agree collide: the second request is served the first one's result. */
  lemma PrefixCollision(p: GenerateParams, tail1: string, tail2: string, head: string)
    requires |Utf16(head)| == KeyPrefixLength && |Utf16(tail1)| == |Utf16(tail2)| && tail1 != tail2
    ensures head + tail1 != head + tail2
    ensures CreateCacheKey(p.(svgContent := head + tail1)) == CreateCacheKey(p.(svgContent := head + tail2))
  {
    assert (head + tail1)[|head|..] == tail1;
    assert (head + tail2)[|head|..] == tail2;
    Utf16Append(head, tail1);
    Utf16Append(head, tail2);
    TakeOfJoin(Utf16(head), Utf16(tail1), KeyPrefixLength);
    TakeOfJoin(Utf16(head), Utf16(tail2), KeyPrefixLength);
  }

  /** The cut at 100 code units can split a surrogate pair: after 99 units,
      two different astral characters with the same high surrogate (such as
      U+1F600 and U+1F603) give the same key. */
  lemma SplitSurrogateCollision(p: GenerateParams, head: string, c1: char, c2: char, tail: string)
    requires |Utf16(head)| == KeyPrefixLength - 1
    requires 0x1_0000 <= c1 as int && 0x1_0000 <= c2 as int && c1 != c2
    requires (c1 as int - 0x1_0000) / 0x400 == (c2 as int - 0x1_0000) / 0x400
    ensures head + [c1] + tail != head + [c2] + tail
    ensures CreateCacheKey(p.(svgContent := head + [c1] + tail)) == CreateCacheKey(p.(svgContent := head + [c2] + tail))
  {
    assert (head + [c1] + tail)[|head|] == c1;
    var k1 := AroundChar(head, c1, tail);
    var k2 := AroundChar(head, c2, tail);
    assert k1 == k2;
  }

  /** The key prefix of content with one astral character at code unit 99:
      the units before it and its high surrogate. */
  lemma AroundChar(head: string, c: char, tail: string) returns (k: seq<int>)
    requires |Utf16(head)| == KeyPrefixLength - 1 && 0x1_0000 <= c as int
    ensures k == Utf16(head) + [0xD800 + (c as int - 0x1_0000) / 0x400]
    ensures KeyPrefix(head + [c] + tail) == k
    ensures |Utf16(head + [c] + tail)| == |Utf16(head)| + 2 + |Utf16(tail)|
  {
    assert Utf16([c]) == Utf16Units(c) + Utf16([]);
    Utf16Append(head, [c]);
    Utf16Append(head + [c], tail);
    var u := Utf16(head) + Utf16Units(c);
    k := Utf16(head) + [0xD800 + (c as int - 0x1_0000) / 0x400];
    TakeOfJoin(u, Utf16(tail), KeyPrefixLength);
    assert u[..KeyPrefixLength] == k;
  }

  /** An astral character counts twice: content that differs only by one
      astral character in place of a BMP character after the first 100
      units has a different length, hence a different key. */
  lemma AstralCountsTwice(head: string, c1: char, c2: char)
    requires 0x1_0000 <= c1 as int && c2 as int < 0x1_0000
    ensures |Utf16(head + [c1])| == |Utf16(head + [c2])| + 1
  {
    Utf16Append(head, [c1]);
    Utf16Append(head, [c2]);
    assert Utf16([c1]) == Utf16Units(c1) + Utf16([]);
    assert Utf16([c2]) == Utf16Units(c2) + Utf16([]);
  }

  /** NaN and the infinities serialise alike, so they share a key. */
  lemma NonFiniteShareKey(p: GenerateParams)
    ensures CreateCacheKey(p.(offset := Num("NaN"))) == CreateCacheKey(p.(offset := Num("Infinity")))
    ensures CreateCacheKey(p.(rotation := Some(Num("NaN")))) == CreateCacheKey(p.(rotation := Some(Num("-Infinity"))))
  {
  }

  /** An absent rotation and an explicit 0 share a key, as do an absent icon
      colour and "". */
  lemma DefaultsShareKey(p: GenerateParams)
    ensures CreateCacheKey(p.(rotation := None)) == CreateCacheKey(p.(rotation := Some(Num("0"))))
    ensures CreateCacheKey(p.(iconColor := None)) == CreateCacheKey(p.(iconColor := Some("")))
  {
  }

  /** `shapeModeMap`: a partial table with no entry for droplet. */
  function ModeNumber(m: ShapeMode): (r: Option<nat>)
    ensures r.None? <==> m == Droplet
    ensures r.Some? ==> r.value < 4
  {
    match m
    case Jelly => Some(0)
    case Bubble => Some(1)
    case Wax => Some(2)
    case Sticker => Some(3)
    case Droplet => None
  }

  lemma ModeNumberInjective(a: ShapeMode, b: ShapeMode)
    requires ModeNumber(a).Some? && ModeNumber(a) == ModeNumber(b)
    ensures a == b
  {
  }

  /** The call made into the engine: the rotation entry point when the loaded
      module exports it, else the colour entry point. A missing mode number
      is passed as `None` (JavaScript `undefined`). */
  datatype EngineRequest =
    | WithRotation(svg: string, modeNumber: Option<nat>, offset: Num, resolution: Num, simplify: Num,
                   includeIcon: bool, shapeColor: string, rotation: Num, iconColor: Option<string>)
    | WithColor(svg: string, modeNumber: Option<nat>, offset: Num, resolution: Num, simplify: Num,
                includeIcon: bool, shapeColor: string)

  function ToEngineRequest(p: GenerateParams, hasRotation: bool): (r: EngineRequest)
    ensures r.WithRotation? <==> hasRotation
    ensures r.svg == p.svgContent && r.modeNumber == ModeNumber(p.mode)
    ensures r.WithRotation? ==> r.rotation == p.rotation.GetOr(Num("0")) && r.iconColor == p.iconColor
  {
    if hasRotation then
      WithRotation(p.svgContent, ModeNumber(p.mode), p.offset, p.resolution, p.simplify,
                   p.includeIcon, p.shapeColor, p.rotation.GetOr(Num("0")), p.iconColor)
    else
      WithColor(p.svgContent, ModeNumber(p.mode), p.offset, p.resolution, p.simplify,
                p.includeIcon, p.shapeColor)
  }

  // ---------------------------------------------------------------
  // The cache: a JavaScript Map, i.e. a map plus its insertion order
  // ---------------------------------------------------------------

  datatype Cache = Cache(keys: seq<CacheKey>, values: map<CacheKey, IconCraftResult>)

  const EmptyCache := Cache([], map[])

  ghost predicate Distinct(s: seq<CacheKey>) {
    forall i, j :: 0 <= i < j < |s| ==> s[i] != s[j]
  }

  /** The key order lists each stored key once. */
  ghost predicate WellFormed(c: Cache) {
    Distinct(c.keys) && forall k :: k in c.values <==> k in c.keys
  }

  /** `cache.get(key)`: a lookup, which never reorders the entries. */
  function Lookup(c: Cache, key: CacheKey): Option<IconCraftResult> {
    if key in c.values then Some(c.values[key]) else None
  }

  /** `addToCache`: when the map holds at least `max` entries its first key
      is deleted; then `set` updates an existing key in place or appends a new one. */
  function CacheAdd(c: Cache, max: int, key: CacheKey, val: IconCraftResult): (r: Cache)
    requires WellFormed(c)
    ensures WellFormed(r)
    ensures Lookup(r, key) == Some(val)
    ensures forall k :: k in r.values && k != key ==> k in c.values && r.values[k] == c.values[k]
  {
    Put(EvictOldest(c, max), key, val)
  }

  /** The eviction step of `addToCache`: the first key goes when the map is full. */
  function EvictOldest(c: Cache, max: int): (e: Cache)
    requires WellFormed(c)
    ensures WellFormed(e)
    ensures forall k :: k in e.values ==> k in c.values && e.values[k] == c.values[k]
  {
    if |c.keys| >= max && |c.keys| > 0 then
      var e := Cache(c.keys[1..], c.values - {c.keys[0]});
      assert forall k :: k in e.keys <==> k in c.keys && k != c.keys[0] by {
        forall k ensures k in e.keys <==> k in c.keys && k != c.keys[0] {
          if k in c.keys && k != c.keys[0] {
            var i :| 0 <= i < |c.keys| && c.keys[i] == k;
            assert e.keys[i - 1] == k;
          }
        }
      }
      e
    else c
  }

  /** `Map.set`: an existing key keeps its place, a new one goes last. */
  function Put(e: Cache, key: CacheKey, val: IconCraftResult): (r: Cache)
    requires WellFormed(e)
    ensures WellFormed(r)
    ensures Lookup(r, key) == Some(val)
    ensures forall k :: k in r.values && k != key ==> k in e.values && r.values[k] == e.values[k]
  {
    if key in e.values then Cache(e.keys, e.values[key := val])
    else Cache(e.keys + [key], e.values[key := val])
  }

  lemma {:induction false} DistinctCard(s: seq<CacheKey>)
    requires Distinct(s)
    ensures |set k | k in s| == |s|
  {
    if |s| > 0 {
      var t := s[..|s| - 1];
      DistinctCard(t);
      assert (set k | k in s) == (set k | k in t) + {s[|s| - 1]};
    }
  }

  /** `cache.size` equals the length of the insertion order. */
  lemma SizeIsOrderLength(c: Cache)
    requires WellFormed(c)
    ensures |c.values| == |c.keys|
  {
    DistinctCard(c.keys);
    assert c.values.Keys == set k | k in c.keys;
  }

  lemma SizeIsOrderLengthIfWellFormed(c: Cache)
    ensures WellFormed(c) ==> |c.values| == |c.keys|
  {
    if WellFormed(c) {
      SizeIsOrderLength(c);
    }
  }

  /** With `maxCacheSize >= 1`, an insert never takes the cache above its bound. */
  lemma CacheAddBounded(c: Cache, max: int, key: CacheKey, val: IconCraftResult)
    requires WellFormed(c) && max >= 1 && |c.values| <= max
    ensures |CacheAdd(c, max, key, val).values| <= max
  {
    SizeIsOrderLength(c);
    SizeIsOrderLength(CacheAdd(c, max, key, val));
  }

  /** A sequence of inserts, in order. */
  function InsertAll(c: Cache, max: int, kvs: seq<(CacheKey, IconCraftResult)>): (r: Cache)
    requires WellFormed(c)
    ensures WellFormed(r)
    decreases |kvs|
  {
    if |kvs| == 0 then c
    else CacheAdd(InsertAll(c, max, kvs[..|kvs| - 1]), max, kvs[|kvs| - 1].0, kvs[|kvs| - 1].1)
  }

  function KeysOf(kvs: seq<(CacheKey, IconCraftResult)>): (r: seq<CacheKey>)
    ensures |r| == |kvs| && forall i :: 0 <= i < |kvs| ==> r[i] == kvs[i].0
  {
    seq(|kvs|, i requires 0 <= i < |kvs| => kvs[i].0)
  }

  /** Inserting a key that is not stored yet: the oldest key goes first when
      the cache is full, and the new key is appended. */
  lemma CacheAddFreshKey(c: Cache, max: int, key: CacheKey, val: IconCraftResult)
    requires WellFormed(c) && key !in c.keys
    ensures CacheAdd(c, max, key, val).keys ==
      (if |c.keys| >= max && |c.keys| > 0 then c.keys[1..] else c.keys) + [key]
  {
    if |c.keys| >= max && |c.keys| > 0 {
      assert key !in c.keys[1..];
    }
  }

  /** The newest `max` keys of `ks`. */
  function Newest(ks: seq<CacheKey>, max: int): seq<CacheKey>
    requires max >= 1
  {
    ks[|ks| - Min(max, |ks|)..]
  }

  lemma NewestStep(ks: seq<CacheKey>, max: int)
    requires max >= 1 && |ks| > 0
    ensures var w := Newest(ks[..|ks| - 1], max);
      Newest(ks, max) == (if |w| >= max && |w| > 0 then w[1..] else w) + [ks[|ks| - 1]]
  {
  }

  lemma NewestExcludesLast(ks: seq<CacheKey>, max: int)
    requires max >= 1 && |ks| > 0 && Distinct(ks)
    ensures ks[|ks| - 1] !in Newest(ks[..|ks| - 1], max)
  {
    var w := Newest(ks[..|ks| - 1], max);
    var lo := |ks| - 1 - |w|;
    forall j | 0 <= j < |w|
      ensures w[j] != ks[|ks| - 1]
    {
      assert w[j] == ks[lo + j];
    }
  }

  /** Eviction follows insertion order: inserting distinct keys into an empty
      cache keeps exactly the most recent `max` of them, oldest first. */
  lemma {:induction false} InsertAllKeepsNewest(max: int, kvs: seq<(CacheKey, IconCraftResult)>)
    requires max >= 1 && Distinct(KeysOf(kvs))
    ensures InsertAll(EmptyCache, max, kvs).keys == Newest(KeysOf(kvs), max)
    decreases |kvs|
  {
    if |kvs| > 0 {
      var n := |kvs|;
      var front := kvs[..n - 1];
      var ks := KeysOf(kvs);
      assert KeysOf(front) == ks[..n - 1];
      InsertAllKeepsNewest(max, front);
      NewestExcludesLast(ks, max);
      CacheAddFreshKey(InsertAll(EmptyCache, max, front), max, kvs[n - 1].0, kvs[n - 1].1);
      NewestStep(ks, max);
    }
  }

  lemma NewestMembership(ks: seq<CacheKey>, max: int)
    requires max >= 1 && |ks| >= max && Distinct(ks)
    ensures |Newest(ks, max)| == max
    ensures forall i :: 0 <= i < |ks| - max ==> ks[i] !in Newest(ks, max)
    ensures forall i :: |ks| - max <= i < |ks| ==> ks[i] in Newest(ks, max)
  {
    var w := Newest(ks, max);
    forall i | 0 <= i < |ks| - max
      ensures ks[i] !in w
    {
      forall j | 0 <= j < |w|
        ensures w[j] != ks[i]
      {
        assert w[j] == ks[|ks| - max + j];
      }
    }
    forall i | |ks| - max <= i < |ks|
      ensures ks[i] in w
    {
      assert w[i - (|ks| - max)] == ks[i];
    }
  }

  /** Inserting `max + k` distinct keys leaves exactly `max` entries; the
      `k` oldest are gone and the newest `max` are present. */
  lemma OverflowEvictsOldest(max: int, kvs: seq<(CacheKey, IconCraftResult)>)
    requires max >= 1 && |kvs| >= max && Distinct(KeysOf(kvs))
    ensures |InsertAll(EmptyCache, max, kvs).values| == max
    ensures forall i :: 0 <= i < |kvs| - max ==> kvs[i].0 !in InsertAll(EmptyCache, max, kvs).values
    ensures forall i :: |kvs| - max <= i < |kvs| ==> kvs[i].0 in InsertAll(EmptyCache, max, kvs).values
  {
    var r := InsertAll(EmptyCache, max, kvs);
    var ks := KeysOf(kvs);
    InsertAllKeepsNewest(max, kvs);
    NewestMembership(ks, max);
    SizeIsOrderLength(r);
    forall i | 0 <= i < |kvs|
      ensures kvs[i].0 in r.values <==> ks[i] in Newest(ks, max)
    {
      assert kvs[i].0 == ks[i];
    }
  }

  // ---------------------------------------------------------------
  // The gateway
  // ---------------------------------------------------------------

  /** `module` / `initPromise`: not started, loading, loaded (recording
      whether the rotation entry point exists), or a rejected init promise. */
  datatype InitState = NotStarted | Loading | Loaded(hasRotation: bool) | InitFailed(message: string)

  /** What `init()` hands back to its caller. */
  datatype InitOutcome = AlreadyLoaded(hasRotation: bool) | JoinedPending | LoaderStarted

  /** The first step of `generate(params)`: a cache hit, or a wait for `init()`. */
  datatype GenerateBegin = CacheHit(result: IconCraftResult) | AwaitInit

  class WasmManager {
    const engine: EngineRequest -> IconCraftResult
    var initState: InitState
    var cache: Cache
    var maxCacheSize: int
    /** How many times the loader has been started. */
    ghost var loaderStarts: nat
    /** How many times the engine has been invoked. */
    ghost var engineCalls: nat

    ghost predicate Valid()
      reads this
    {
      && WellFormed(cache)
      && loaderStarts <= 1
      && (loaderStarts == 0 <==> initState == NotStarted)
    }

    constructor(engine: EngineRequest -> IconCraftResult)
      ensures Valid()
      ensures this.engine == engine
      ensures initState == NotStarted && cache == EmptyCache && maxCacheSize == 100
      ensures loaderStarts == 0 && engineCalls == 0
    {
      this.engine := engine;
      initState := NotStarted;
      cache := EmptyCache;
      maxCacheSize := 100;
      loaderStarts := 0;
      engineCalls := 0;
    }

    /** `init()`: a loaded module is returned, an existing init promise
        (pending or rejected) is shared, and only otherwise is the loader
        started. A failed load is therefore never retried. */
    method Init() returns (r: InitOutcome)
      requires Valid()
      modifies this
      ensures Valid()
      ensures old(initState).Loaded? ==> r == AlreadyLoaded(old(initState).hasRotation) && initState == old(initState)
      ensures (old(initState).Loading? || old(initState).InitFailed?) ==> r == JoinedPending && initState == old(initState)
      ensures old(initState) == NotStarted ==> r == LoaderStarted && initState == Loading
      ensures loaderStarts == (if old(initState) == NotStarted then 1 else old(loaderStarts))
      ensures cache == old(cache) && maxCacheSize == old(maxCacheSize) && engineCalls == old(engineCalls)
    {
      match initState
      case Loaded(h) =>
        r := AlreadyLoaded(h);
      case Loading =>
        r := JoinedPending;
      case InitFailed(_) =>
        r := JoinedPending;
      case NotStarted =>
        initState := Loading;
        loaderStarts := loaderStarts + 1;
        r := LoaderStarted;
    }

    /** The loader's outcome arrives: the module is kept, or the init
        promise stays rejected. */
    method InitSettled(ok: bool, hasRotation: bool, message: string)
      requires Valid() && initState == Loading
      modifies this
      ensures Valid()
      ensures initState == (if ok then Loaded(hasRotation) else InitFailed(message))
      ensures cache == old(cache) && maxCacheSize == old(maxCacheSize)
      ensures loaderStarts == old(loaderStarts) && engineCalls == old(engineCalls)
    {
      initState := if ok then Loaded(hasRotation) else InitFailed(message);
    }

    /** `isReady`. */
    function IsReady(): (r: bool)
      reads this
      ensures Valid() && r ==> loaderStarts == 1
    {
      initState.Loaded?
    }

    /** `generate(params)` up to its `await`: a cached result is returned
        without touching `init` or the engine; otherwise `init()` is called. */
    method Generate(p: GenerateParams) returns (r: GenerateBegin)
      requires Valid()
      modifies this
      ensures Valid()
      ensures r.CacheHit? <==> CreateCacheKey(p) in old(cache).values
      ensures r.CacheHit? ==> Some(r.result) == Lookup(old(cache), CreateCacheKey(p))
      ensures r.CacheHit? ==> initState == old(initState) && loaderStarts == old(loaderStarts)
      ensures r.AwaitInit? ==> initState == (if old(initState) == NotStarted then Loading else old(initState))
      ensures cache == old(cache) && maxCacheSize == old(maxCacheSize) && engineCalls == old(engineCalls)
    {
      var key := CreateCacheKey(p);
      if key in cache.values {
        r := CacheHit(cache.values[key]);
      } else {
        var _ := Init();
        r := AwaitInit;
      }
    }

    /** `generate(params)` after `init()` resolved: the engine is called
        through whichever entry point the module exports, and only a
        successful result is cached. */
    method FinishGenerate(p: GenerateParams) returns (r: IconCraftResult)
      requires Valid() && initState.Loaded?
      modifies this
      ensures Valid()
      ensures r == engine(ToEngineRequest(p, old(initState).hasRotation))
      ensures cache == (if r.success then CacheAdd(old(cache), maxCacheSize, CreateCacheKey(p), r) else old(cache))
      ensures r.success ==> Lookup(cache, CreateCacheKey(p)) == Some(r)
      ensures engineCalls == old(engineCalls) + 1
      ensures initState == old(initState) && maxCacheSize == old(maxCacheSize) && loaderStarts == old(loaderStarts)
    {
      r := engine(ToEngineRequest(p, initState.hasRotation));
      engineCalls := engineCalls + 1;
      if r.success {
        AddToCache(CreateCacheKey(p), r);
      }
    }

    /** `addToCache`. */
    method AddToCache(key: CacheKey, val: IconCraftResult)
      requires Valid()
      modifies this
      ensures Valid()
      ensures cache == CacheAdd(old(cache), maxCacheSize, key, val)
      ensures initState == old(initState) && maxCacheSize == old(maxCacheSize)
      ensures loaderStarts == old(loaderStarts) && engineCalls == old(engineCalls)
    {
      SizeIsOrderLength(cache);
      var keys := cache.keys;
      var values := cache.values;
      if |values| >= maxCacheSize && |keys| > 0 {
        values := values - {keys[0]};
        keys := keys[1..];
      }
      ghost var evicted := Cache(keys, values);
      assert evicted == EvictOldest(cache, maxCacheSize);
      if key in values {
        values := values[key := val];
      } else {
        keys := keys + [key];
        values := values[key := val];
      }
      assert Cache(keys, values) == Put(evicted, key, val);
      cache := Cache(keys, values);
    }

    /** `clearCache()`. */
    method ClearCache()
      requires Valid()
      modifies this
      ensures Valid()
      ensures cache == EmptyCache && CacheSize() == 0
      ensures initState == old(initState) && maxCacheSize == old(maxCacheSize)
      ensures loaderStarts == old(loaderStarts) && engineCalls == old(engineCalls)
    {
      cache := EmptyCache;
    }

    /** `setMaxCacheSize(size)`: existing entries are not evicted until the next insert. */
    method SetMaxCacheSize(size: int)
      requires Valid()
      modifies this
      ensures Valid()
      ensures maxCacheSize == size && cache == old(cache) && initState == old(initState)
      ensures loaderStarts == old(loaderStarts) && engineCalls == old(engineCalls)
    {
      maxCacheSize := size;
    }

    /** `cacheSize`. */
    function CacheSize(): (r: nat)
      reads this
      ensures Valid() ==> r == |cache.keys|
    {
      SizeIsOrderLengthIfWellFormed(cache);
      |cache.values|
    }
  }

  /** Two requests with the same key on a loaded gateway call the engine at
      most once: after the first succeeds, the second is a cache hit. */
  method SecondRequestIsServedFromCache(m: WasmManager, p: GenerateParams, q: GenerateParams)
      returns (first: IconCraftResult, second: GenerateBegin)
    requires m.Valid() && m.initState.Loaded? && CreateCacheKey(p) == CreateCacheKey(q)
    modifies m
    ensures m.Valid()
    ensures first.success ==> second == CacheHit(first)
    ensures first.success ==> m.engineCalls == old(m.engineCalls) + 1
  {
    first := m.FinishGenerate(p);
    second := m.Generate(q);
  }
}
