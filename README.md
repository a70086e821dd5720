# IconCraft in Dafny

This project models the TypeScript layer of IconCraft, a React library that turns an SVG icon into a 3D-looking "jelly", "droplet" or "wax" shape. The shape geometry comes from a native (WASM) engine. The model covers the layer around that engine:

- the immutable configuration object and its `clone`;
- the factory that creates icon instances from a prototype configuration;
- the instance state machine (content fetch, engine generation, coalescing of repeated `generate()` calls);
- the engine manager: init-once and a bounded FIFO result cache;
- the registry, with its by-mode and by-colour secondary indexes;
- the SVG compositor of the view component;
- the store reducer, the provider's actions and the event dispatcher;
- animation lookup, CSS formatting and keyframe injection;
- the backup record, its validator and its parser;
- the SVG sanitizer, including the `<image>` placeholder round trip;
- the demo catalog hook: sources, index, category cache and search.

The engine is a function value, `engine: EngineRequest -> IconCraftResult`. Fetches, `JSON.parse`, DOM parsing and serialisation, the clock and id generation are parameters or inputs. Each asynchronous operation is split into a "begin" step and a "settle" step, and the settle step takes the outcome as an argument.

One module per source file: `IconCraftConfig`, `Factory`, `Instance`, `WasmManager`, `Registry`, `View`, `StoreTypes`, `Provider`, `Dispatcher`, `Animations`, `Backup`, `Sanitize`, `Catalog`. There are also three shared modules:

- `Types` holds the records of `types.ts`.
- `Text` holds string helpers.
- `Replace` models `String.prototype.replace` with a global regular expression, for the simple pattern shapes the compositor uses: a literal, or an opener followed by anything up to a closing character. It also expands the `$` patterns of a replacement text, as the compositor's splice needs.

Numbers that the source only stores, compares or prints are kept as their JavaScript text (`Num`). Strings are sequences of Unicode characters; where the source counts UTF-16 code units (the cache key) the model computes them.

Two behaviours of the code worth knowing:

- `generateMany` rejects when any generation rejects, as `Promise.all` does.
- The shape-mode map has no entry for `droplet`, although `droplet` is a valid `ShapeMode` elsewhere. `ShapeMode` has all five names and `ModeNumber` is partial.

## Model

| member | source | states |
|---|---|---|
| IconCraftConfig.NewConfigFillsDefaults | packages/react/src/core/IconCraftConfig.ts:37-91 | every defaulted field takes the given option when present, else the `DEFAULT_CONFIG` value; width, height and animation stay absent unless given |
| IconCraftConfig.NewConfigOfNothingIsDefault | packages/react/src/core/IconCraftConfig.ts:76-91 | a configuration built from no options is `DEFAULT_CONFIG` |
| IconCraftConfig.NewConfigIsCloneOfDefault | packages/react/src/core/IconCraftConfig.ts:76-113 | `new IconCraftConfig(o)` equals `DEFAULT_CONFIG.clone(o)`: the constructor and `clone` apply the same defaults |
| IconCraftConfig.CloneFields | packages/react/src/core/IconCraftConfig.ts:96-113 | each field of `clone(o)` is `o`'s field when present, else the original's |
| IconCraftConfig.CloneHonoursFalsyOverrides | packages/react/src/core/IconCraftConfig.ts:98-111 | overrides `false`, `0` and `""` are taken, because `??` skips only absent values |
| IconCraftConfig.CloneOfNothingIsIdentity | packages/react/src/core/IconCraftConfig.ts:96-113 | `clone({})` equals the original |
| IconCraftConfig.CloneComposes | packages/react/src/core/IconCraftConfig.ts:96-113 | `c.clone(a).clone(b)` equals `c.clone(a overlaid by b)` |
| IconCraftConfig.CloneKeepsOptionalFields | packages/react/src/core/IconCraftConfig.ts:108-110 | once width, height or animation is set, no clone makes it absent |
| IconCraftConfig.GetWasmParams | packages/react/src/core/IconCraftConfig.ts:118-130 | `includeIcon` holds iff the mode is wax or the style is emboss; mode, offset, resolution, simplify and shapeColor are copied |
| IconCraftConfig.GetSize | packages/react/src/core/IconCraftConfig.ts:135-142 | width is `width ?? size` and height is `height ?? size`; numbers get `px` and strings pass through |
| Factory.NewConfigOfOptionsRoundTrip | packages/react/src/core/IconCraftConfig.ts:76-91 | building a configuration from all of another's fields gives that configuration back |
| Factory.ClonedPrototypeAsWrittenDropsIconColor | packages/react/src/core/IconCraftFactory.ts:55-72 | as written, the cloned factory's prototype is `prototype.clone(o)` with iconColor reset to the default |
| Factory.ClonedPrototypeAsWrittenLosesCustomColor | packages/react/src/core/IconCraftFactory.ts:55-72 | a prototype with iconColor `#ffffff` clones to one with `#1d1d1f` |
| Factory.ClonedPrototype | packages/react/src/core/IconCraftFactory.ts:55-72 | with iconColor forwarded too, the cloned factory's prototype is exactly `prototype.clone(o)` |
| Factory.ConfigForEmptyOverrides | packages/react/src/core/IconCraftFactory.ts:40-43 | without overrides the prototype itself is bound; empty overrides give a configuration equal to it |
| Factory.BatchOutcomeOf | packages/react/src/core/IconCraftFactory.ts:84-91 | the batch resolves iff every generation ended Done, and otherwise rejects with the message of one that failed |
| Factory.IconCraftFactory.constructor | packages/react/src/core/IconCraftFactory.ts:30-32 | the prototype is the configuration built from the options |
| Factory.IconCraftFactory.GetConfig | packages/react/src/core/IconCraftFactory.ts:48-50 | returns the prototype |
| Factory.IconCraftFactory.Create | packages/react/src/core/IconCraftFactory.ts:40-43 | a fresh instance with the given svg, bound to the prototype or its clone, in Pending/Idle with nothing in flight |
| Factory.IconCraftFactory.Clone | packages/react/src/core/IconCraftFactory.ts:55-72 | a new factory whose prototype is `prototype.clone(o)` (the corrected behaviour) |
| Factory.IconCraftFactory.CreateMany | packages/react/src/core/IconCraftFactory.ts:77-79 | one distinct fresh instance per svg, in input order, each with the same configuration |
| Factory.IconCraftFactory.GenerateMany | packages/react/src/core/IconCraftFactory.ts:84-91 | every created instance has begun generating, in input order |
| Instance.FetchErrorMessage | packages/react/src/core/IconCraftInstance.ts:115-126 | an HTTP failure reads `Failed to fetch SVG: <status>`; a thrown error keeps its message |
| Instance.GenerationErrorMessage | packages/react/src/core/IconCraftInstance.ts:171-173 | a failed engine result gives its truthy error, else `Generation failed`; never empty |
| Instance.EngineParams | packages/react/src/core/IconCraftInstance.ts:161-169 | the engine request carries the content and the configuration's engine parameters, with no rotation or icon colour |
| Instance.IconCraftInstance.constructor | packages/react/src/core/IconCraftInstance.ts:41-45 | a new instance is Pending/Idle with nothing in flight |
| Instance.IconCraftInstance.SvgContent | packages/react/src/core/IconCraftInstance.ts:69-71 | present iff the content is Ready, and then it is that content |
| Instance.IconCraftInstance.Result | packages/react/src/core/IconCraftInstance.ts:73-75 | present iff generation is Done, and then it is that result |
| Instance.IconCraftInstance.EmbossSvg | packages/react/src/core/IconCraftInstance.ts:77-79 | the Done result's emboss markup, absent otherwise |
| Instance.IsUrl | packages/react/src/core/IconCraftInstance.ts:63-67 | content starting with `http://`, `https://` or `/` is fetched; a fetched source starts with `/` or `h` (`http://`, `https://`), so inline `<svg` markup never is |
| Instance.IconCraftInstance.IsLoading | packages/react/src/core/IconCraftInstance.ts:81-83 | a generation in flight is loading; while loading, the content or the result is not available |
| Instance.IconCraftInstance.IsReady | packages/react/src/core/IconCraftInstance.ts:85-87 | ready iff `result` is non-null; nothing is in flight then |
| Instance.IconCraftInstance.Error | packages/react/src/core/IconCraftInstance.ts:89-93 | a content error is reported before a generation error; absent iff neither failed |
| Instance.IconCraftInstance.FetchSvg | packages/react/src/core/IconCraftInstance.ts:102-127 | Ready content is returned unchanged; a non-URL source becomes Ready at once; a URL starts a fetch and enters Loading |
| Instance.IconCraftInstance.Generate | packages/react/src/core/IconCraftInstance.ts:132-145 | an in-flight generation is joined first; a Done result is returned; otherwise a new generation starts |
| Instance.IconCraftInstance.FetchSettled | packages/react/src/core/IconCraftInstance.ts:112-127 | a fetch outcome sets Ready or Error; a generation waiting on it moves on to the engine or fails and clears the in-flight reference |
| Instance.IconCraftInstance.EngineReturned | packages/react/src/core/IconCraftInstance.ts:160-188 | a successful result sets Done, a failed one sets Error; the in-flight reference is cleared |
| Instance.IconCraftInstance.EngineRejected | packages/react/src/core/IconCraftInstance.ts:182-188 | a rejected engine call sets Error with its message and clears the in-flight reference |
| Instance.IconCraftInstance.Reset | packages/react/src/core/IconCraftInstance.ts:209-213 | back to Pending/Idle with nothing in flight; pending jobs still settle later |
| Instance.IconCraftInstance.Clone | packages/react/src/core/IconCraftInstance.ts:194-197 | a fresh instance with the same svg, sharing the configuration without overrides, in the initial state |
| Instance.IconCraftInstance.WithSvg | packages/react/src/core/IconCraftInstance.ts:202-204 | a fresh instance with the other svg and the same configuration, in the initial state |
| Instance.CompletionThenGenerate | packages/react/src/core/IconCraftInstance.ts:132-188 | after a successful completion the instance is ready and `generate()` returns the stored result |
| Instance.StaleJobClearsNewerPromise | packages/react/src/core/IconCraftInstance.ts:180-213 | with no generation token, a job started before `reset` clears the in-flight reference of a newer generation |
| Text.Utf16 | packages/react/src/core/WasmManager.ts:23-24 | a string's UTF-16 code units: one or two per character |
| WasmManager.KeyPrefix | packages/react/src/core/WasmManager.ts:23 | `slice(0, 100)`: the first 100 code units, or all of them |
| WasmManager.JsonNumber | packages/react/src/core/WasmManager.ts:21-34 | `JSON.stringify` writes NaN and the infinities as `null` and other numbers as their text |
| WasmManager.CreateCacheKey | packages/react/src/core/WasmManager.ts:21-34 | the key holds the content's length in UTF-16 code units and at most its first 100 code units |
| WasmManager.SameKeyIff | packages/react/src/core/WasmManager.ts:21-34 | two requests share a cache key iff they agree on the first 100 UTF-16 code units, the length in code units, the engine fields with numbers as `JSON.stringify` writes them, and the defaulted rotation and icon colour |
| WasmManager.PrefixCollision | packages/react/src/core/WasmManager.ts:21-34 | different SVGs with the same first 100 code units and the same code-unit length share a key |
| WasmManager.SplitSurrogateCollision | packages/react/src/core/WasmManager.ts:23 | `slice(0, 100)` can cut a surrogate pair: two different astral characters with the same high surrogate at code unit 99 give the same key |
| WasmManager.AstralCountsTwice | packages/react/src/core/WasmManager.ts:24 | an astral character adds two to `length`, so it and a BMP character in its place give different keys |
| WasmManager.NonFiniteShareKey | packages/react/src/core/WasmManager.ts:21-34 | NaN and the infinities are all written `null`, so they share a key |
| WasmManager.WasmManager.IsReady | packages/react/src/core/WasmManager.ts:76-78 | ready only after the loader ran, and it runs once |
| WasmManager.WasmManager.CacheSize | packages/react/src/core/WasmManager.ts:159-161 | the number of cached entries is the length of their insertion order |
| WasmManager.DefaultsShareKey | packages/react/src/core/WasmManager.ts:31-32 | absent rotation keys like 0, and absent icon colour like the empty string |
| WasmManager.ModeNumber | packages/react/src/core/WasmManager.ts:36-41 | jelly, bubble, wax and sticker map to distinct numbers below 4; droplet has none |
| WasmManager.ModeNumberInjective | packages/react/src/core/WasmManager.ts:36-41 | no two modes share a number |
| WasmManager.ToEngineRequest | packages/react/src/core/WasmManager.ts:97-118 | the rotation entry point is used iff the module has it, with rotation defaulted to 0 |
| WasmManager.CacheAdd | packages/react/src/core/WasmManager.ts:131-140 | the new entry is found and no other entry changes its value |
| WasmManager.CacheAddBounded | packages/react/src/core/WasmManager.ts:131-140 | with a limit of at least 1, a cache within the limit stays within it |
| WasmManager.SizeIsOrderLength | packages/react/src/core/WasmManager.ts:159-161 | the cache size is the number of keys in insertion order |
| WasmManager.CacheAddFreshKey | packages/react/src/core/WasmManager.ts:131-140 | a new key goes last, after the oldest key is dropped when full |
| WasmManager.InsertAllKeepsNewest | packages/react/src/core/WasmManager.ts:131-140 | inserting distinct keys into an empty cache keeps the newest ones, in order |
| WasmManager.NewestMembership | packages/react/src/core/WasmManager.ts:131-140 | of n distinct keys with n at least the limit, exactly the last `limit` are kept |
| WasmManager.OverflowEvictsOldest | packages/react/src/core/WasmManager.ts:131-140 | inserting `max + k` distinct keys keeps exactly the last `max`, since lookups never reorder |
| WasmManager.WasmManager.constructor | packages/react/src/core/WasmManager.ts:50-54 | nothing loaded, an empty cache, limit 100 |
| WasmManager.WasmManager.Init | packages/react/src/core/WasmManager.ts:59-71 | a loaded module is returned; a started init is joined, even a failed one; the loader starts at most once |
| WasmManager.WasmManager.InitSettled | packages/react/src/core/WasmManager.ts:62-68 | the loader's outcome is recorded as loaded or failed |
| WasmManager.WasmManager.Generate | packages/react/src/core/WasmManager.ts:83-95 | a hit iff the key is cached, returning the stored result without init or the engine |
| WasmManager.WasmManager.FinishGenerate | packages/react/src/core/WasmManager.ts:97-126 | the engine is called once, and only a successful result is cached |
| WasmManager.WasmManager.AddToCache | packages/react/src/core/WasmManager.ts:131-140 | the cache becomes `CacheAdd` of the old one |
| WasmManager.WasmManager.ClearCache | packages/react/src/core/WasmManager.ts:145-147 | the cache is empty and its size is 0 |
| WasmManager.WasmManager.SetMaxCacheSize | packages/react/src/core/WasmManager.ts:152-154 | only the limit changes |
| WasmManager.SecondRequestIsServedFromCache | packages/react/src/core/WasmManager.ts:83-126 | after a successful generation, a request with the same key is a cache hit with no further engine call |
| Registry.AddId | packages/react/src/core/IconCraftRegistry.ts:48-55 | adding an id to a bucket set: membership is old plus the id, with ids kept distinct |
| Registry.RemoveId | packages/react/src/core/IconCraftRegistry.ts:65-83 | removing an id from a bucket set: membership is old minus the id |
| Registry.IndexAddKeepsWellFormed | packages/react/src/core/IconCraftRegistry.ts:37-56 | adding to an index keeps every bucket non-empty and each bucket's ids registered |
| Registry.IndexAddKeepsExact | packages/react/src/core/IconCraftRegistry.ts:37-56 | when an id is not re-registered under another key, the index stays exact |
| Registry.IndexRemoveKeepsWellFormed | packages/react/src/core/IconCraftRegistry.ts:61-84 | removing from an index keeps it well formed; an emptied bucket is deleted |
| Registry.IndexRemoveKeepsExact | packages/react/src/core/IconCraftRegistry.ts:61-84 | removal keeps an exact index exact |
| Registry.LexLeTotal | packages/react/src/core/IconCraftRegistry.ts:142-149 | the id order is total |
| Registry.LexLeTrans | packages/react/src/core/IconCraftRegistry.ts:142-149 | the id order is transitive |
| Registry.LexLeAntisym | packages/react/src/core/IconCraftRegistry.ts:142-149 | the id order is antisymmetric |
| Registry.InsertSorted | packages/react/src/core/IconCraftRegistry.ts:142-149 | inserting into a sorted list keeps it sorted and adds exactly one element |
| Registry.SortIds | packages/react/src/core/IconCraftRegistry.ts:142-149 | the result is sorted in the requested direction and is a permutation of the input |
| Registry.Registered | packages/react/src/core/IconCraftRegistry.ts:103-120 | the ids of a bucket that are registered |
| Registry.LookupAll | packages/react/src/core/IconCraftRegistry.ts:96-98 | the instances of the ids, in order |
| Registry.RegisterKeepsValid | packages/react/src/core/IconCraftRegistry.ts:37-56 | registration keeps the registry invariant |
| Registry.RegisterKeepsExact | packages/react/src/core/IconCraftRegistry.ts:37-56 | registering an id again under its own mode and colour keeps both indexes exact |
| Registry.UnregisterKeepsValid | packages/react/src/core/IconCraftRegistry.ts:61-84 | unregistration keeps the registry invariant, and keeps exact indexes exact |
| Registry.IconCraftRegistry.constructor | packages/react/src/core/IconCraftRegistry.ts:29-32 | three empty maps |
| Registry.IconCraftRegistry.Register | packages/react/src/core/IconCraftRegistry.ts:37-56 | `get(id)` is the instance, and its id is in its mode's and its colour's bucket |
| Registry.IconCraftRegistry.Unregister | packages/react/src/core/IconCraftRegistry.ts:61-84 | an unknown id gives false and changes nothing; a known one gives true and leaves byId and both buckets |
| Registry.IconCraftRegistry.Get | packages/react/src/core/IconCraftRegistry.ts:89-91 | the registered instance, or absent |
| Registry.IconCraftRegistry.GetAll | packages/react/src/core/IconCraftRegistry.ts:96-98 | every registered instance, in insertion order |
| Registry.IconCraftRegistry.FindByMode | packages/react/src/core/IconCraftRegistry.ts:103-109 | `[]` without a bucket; it holds every instance with that mode, and only those while the index is exact |
| Registry.IconCraftRegistry.FindByColor | packages/react/src/core/IconCraftRegistry.ts:114-120 | `[]` without a bucket; it holds every instance with that colour, and only those while the index is exact |
| Registry.IconCraftRegistry.GetAllSorted | packages/react/src/core/IconCraftRegistry.ts:142-149 | all registered instances ordered by id, ascending or descending |
| Registry.IconCraftRegistry.Clear | packages/react/src/core/IconCraftRegistry.ts:161-165 | all three maps are empty and the size is 0 |
| Registry.IconCraftRegistry.GetStats | packages/react/src/core/IconCraftRegistry.ts:170-190 | the total is the size; each per-mode and per-colour count is its bucket's size and is positive |
| Registry.CountBuckets | packages/react/src/core/IconCraftRegistry.ts:176-183 | the `for…of` loop over one index records every key with its bucket's size |
| Registry.IconCraftRegistry.Size | packages/react/src/core/IconCraftRegistry.ts:154-156 | `size` is the number of ids in the insertion order |
| Registry.RegisteredCount | packages/react/src/core/IconCraftRegistry.ts:154-156 | each registered id is listed once in the order, so the map's size is the order's length |
| Registry.FindByModeExactly | packages/react/src/core/IconCraftRegistry.ts:103-109 | with an exact index, an instance is found by mode iff it is registered with that mode |
| Registry.ReregisterLeavesStaleBucket | packages/react/src/core/IconCraftRegistry.ts:37-56 | re-registering an id under another mode leaves it found under the old mode |
| View.FormatCoordinate | packages/react/src/components/IconCraftView.tsx:16-21 | strings pass through; 0 becomes `0`; other numbers get `px` |
| View.ResolveTransformOriginTable | packages/react/src/components/IconCraftView.tsx:26-58 | each preset maps to its fixed pair and an unknown one to `center center`; custom values go through `FormatCoordinate` |
| View.NamespaceIds | packages/react/src/components/IconCraftView.tsx:171-181 | the loop over wax, jelly and droplet computes `Namespaced` |
| View.NamespaceModeRewrites | packages/react/src/components/IconCraftView.tsx:173-180 | every `id="m-` and then every `url(#m-` gets the instance prefix, and the text between occurrences is kept |
| View.NamespaceModeWithoutReferences | packages/react/src/components/IconCraftView.tsx:173-180 | markup without ids or references is unchanged by one round |
| View.NamespaceWithoutReferences | packages/react/src/components/IconCraftView.tsx:171-181 | markup without ids or references is unchanged by the whole loop |
| View.StripSvgTagsDeletesTags | packages/react/src/components/IconCraftView.tsx:192 | every `<svg ...>` and `</svg ...>` tag is deleted and nothing else changes |
| View.RemoveAttrDeletesSpans | packages/react/src/components/IconCraftView.tsx:197-205 | every `name="..."` is deleted and the text between them is kept |
| View.RemoveAttrAbsent | packages/react/src/components/IconCraftView.tsx:197-205 | markup without the attribute is unchanged |
| View.FirstMatch | packages/react/src/components/IconCraftView.tsx:188-189 | the leftmost match of a pattern, or none at any position |
| View.ViewBoxOf | packages/react/src/components/IconCraftView.tsx:188-189 | the value of the first `viewBox="..."`, else the default |
| View.IconContent | packages/react/src/components/IconCraftView.tsx:197-212 | fill wraps in `<g fill=color>`; stroke wraps in a stroke-only group of width 1.5; original passes through |
| View.IconContentOfPlainMarkup | packages/react/src/components/IconCraftView.tsx:197-212 | without colour attributes, fill and stroke only wrap the markup |
| View.DirectIconIsIconContent | packages/react/src/components/IconCraftView.tsx:288-298 | the direct build colours the icon exactly as the wax splice does |
| View.IconBoxOf | packages/react/src/components/IconCraftView.tsx:215-217 | without a layout the box is 28/28/44/44; otherwise it is the layout's percentages |
| View.ClosesAtEndMeans | packages/react/src/components/IconCraftView.tsx:223 | `</g>`, whitespace and `</svg>` at the very end is what the splice needs after its opener |
| View.SpliceStartFrom | packages/react/src/components/IconCraftView.tsx:223 | the first position from which the splice pattern matches, or none |
| Replace.Substitute | packages/react/src/components/IconCraftView.tsx:223 | the replacement text with `$$`, `$&`, `` $` `` and `$'` expanded; text without `$` is inserted as it is |
| Replace.SubstituteAppendPlain | packages/react/src/components/IconCraftView.tsx:223 | plain text after the block (such as `\n</svg>`) is copied through unchanged |
| Replace.SubstitutePlainPrefix | packages/react/src/components/IconCraftView.tsx:223 | a `$`-free start of the replacement is copied through unchanged |
| Replace.SubstituteMatchPattern | packages/react/src/components/IconCraftView.tsx:223 | `$&` between plain texts becomes the matched text |
| View.SpliceAtFirstGroup | packages/react/src/components/IconCraftView.tsx:216-223 | from the first `<g filter="none">`, a closing tail at the end is replaced by the new block with its `$` patterns expanded, then `\n</svg>`; a block without `$` goes in as it is; otherwise nothing changes |
| View.SpliceExpandsMatch | packages/react/src/components/IconCraftView.tsx:223 | a `$&` in the icon block (from the user's SVG text) brings back the whole replaced group at that point |
| View.SpliceWithoutGroup | packages/react/src/components/IconCraftView.tsx:223 | markup without the icon group is unchanged |
| View.GradientIdsAreNames | packages/react/src/components/IconCraftView.tsx:301-337 | each gradient's id is the instance id joined to its name |
| View.DirectBuildIds | packages/react/src/components/IconCraftView.tsx:278-347 | gradient ids carry the instance prefix and are distinct; there are 4 for jelly or droplet and 3 otherwise; every shape path uses a defined gradient; the edge highlight appears iff jelly or droplet has a highlight |
| View.RenderGradientsDefineIds | packages/react/src/components/IconCraftView.tsx:301-337 | the rendered gradients define every gradient id |
| View.DirectSvgDefinesIds | packages/react/src/components/IconCraftView.tsx:349-369 | the direct markup defines the clip, the shadow filter and every gradient under the instance's ids |
| View.DefinesClipAndShadow | packages/react/src/components/IconCraftView.tsx:352-357 | the clip-path and filter lines define their ids |
| View.DirectMarkup | packages/react/src/components/IconCraftView.tsx:250-253 | `""` without a result, a truthy clip or ready content |
| View.RenderedSvg | packages/react/src/components/IconCraftView.tsx:156-250 | style emboss with emboss markup gives the namespaced markup; wax with emboss markup shows it namespaced without ready content and splices in the icon block (with `$` patterns expanded) when content is ready; without emboss markup the direct build is used |
| View.RenderSvg | packages/react/src/components/IconCraftView.tsx:156-250 | the compositor's result for an instance is `RenderedSvg` of its id, configuration, result and content, the namespacing loop included |
| StoreTypes.ApplyChanges | packages/react/src/context/IconCraftProvider.tsx:66 | for each of the ten fields, a present change wins and an absent one keeps the stored value |
| StoreTypes.ApplyChangesIdempotent | packages/react/src/context/IconCraftProvider.tsx:66 | spreading the same changes twice gives the same metadata as once |
| StoreTypes.ApplyChangesComposes | packages/react/src/context/IconCraftProvider.tsx:62-67 | two UPDATE_METADATA spreads equal one whose later present fields win |
| Provider.Insert | packages/react/src/context/IconCraftProvider.tsx:44-92 | `Map.set` / `Set.add` on the iteration order: a new key is appended last, an existing key leaves the order unchanged |
| Provider.Delete | packages/react/src/context/IconCraftProvider.tsx:52-92 | deleting from a set: old members minus the id; a missing id changes nothing |
| Provider.DeleteAt | packages/react/src/context/IconCraftProvider.tsx:52-92 | deleting the key at position `i` of a duplicate-free order leaves the keys before and after it in their order |
| Provider.DeleteKeepsDistinct | packages/react/src/context/IconCraftProvider.tsx:56-58 | deletion keeps a set's entries distinct |
| Provider.DeleteLast | packages/react/src/context/IconCraftProvider.tsx:84-92 | adding a new id and deleting it again gives the original |
| Provider.InsertKeepsDistinct | packages/react/src/context/IconCraftProvider.tsx:72-73 | insertion keeps a set's entries distinct |
| Provider.Reduce | packages/react/src/context/IconCraftProvider.tsx:42-110 | the eight actions: ADD, REMOVE, UPDATE_METADATA (identity for an unknown id), SELECT and DESELECT (identity when nothing changes), TOGGLE_SELECT, CLEAR_SELECTION, CLEAR_ALL; ADD and SELECT put a new key last, REMOVE, DESELECT and TOGGLE delete in place |
| Provider.ReducePreservesValid | packages/react/src/context/IconCraftProvider.tsx:42-110 | every action keeps instances and metadata on the same ids, in a duplicate-free order |
| Provider.ToggleTwiceRestores | packages/react/src/context/IconCraftProvider.tsx:84-92 | toggling twice restores the selection set and leaves the rest unchanged |
| Provider.ToggleTwiceReorders | packages/react/src/context/IconCraftProvider.tsx:84-92 | toggling any selected id twice deletes it and appends it at the end of the iteration order |
| Provider.ToggleTwiceMovesToEnd | packages/react/src/context/IconCraftProvider.tsx:84-92 | in a duplicate-free selection the id leaves position `i`, the later ids move up, and it comes last |
| Provider.ToggleTwiceReordersExample | packages/react/src/context/IconCraftProvider.tsx:84-92 | toggling "a" twice in ["a", "b"] gives ["b", "a"] |
| Provider.CreatedMetadata | packages/react/src/context/IconCraftProvider.tsx:168-174 | `{x: 0, y: 0}`, then the counter as zIndex, then the caller's overrides win |
| Provider.UpdateEvents | packages/react/src/context/IconCraftProvider.tsx:211-228 | a metadata event first; a move event iff x or y changed and the metadata existed; a zIndex event iff zIndex changed |
| Provider.EventsFor | packages/react/src/context/IconCraftProvider.tsx:258-280 | one event per id, in order |
| Provider.IconCraftProvider.constructor | packages/react/src/context/IconCraftProvider.tsx:112-151 | an empty store, counter 0, a new dispatcher and a factory from the default configuration |
| Provider.IconCraftProvider.Create | packages/react/src/context/IconCraftProvider.tsx:157-182 | the counter grows by one; the store gets ADD with the created metadata; `getAll()` gains the new instance last, and a reused id keeps its place; a `created` event goes out |
| Provider.IconCraftProvider.Remove | packages/react/src/context/IconCraftProvider.tsx:184-192 | an unknown id gives false with no event; a known one is removed with a `removed` event |
| Provider.IconCraftProvider.GetById | packages/react/src/context/IconCraftProvider.tsx:194-197 | the stored instance, or absent |
| Provider.IconCraftProvider.GetAll | packages/react/src/context/IconCraftProvider.tsx:199-202 | every stored instance once, in the key order (which `Reduce` keeps as insertion order) |
| Provider.AddListsLast | packages/react/src/context/IconCraftProvider.tsx:44-49 | ADD of a new id lists its instance after all the others |
| Provider.AddAllAppendsInOrder | packages/react/src/context/IconCraftProvider.tsx:44-49 | a run of ADDs of distinct new ids lists them after the existing keys, in the order they were added |
| Provider.IconCraftProvider.GetMetadata | packages/react/src/context/IconCraftProvider.tsx:204-207 | the stored metadata, or absent |
| Provider.IconCraftProvider.UpdateMetadata | packages/react/src/context/IconCraftProvider.tsx:209-231 | the store gets UPDATE_METADATA and the update events go out, read against the metadata from before the update |
| Provider.IconCraftProvider.Select | packages/react/src/context/IconCraftProvider.tsx:233-239 | the store gets SELECT and a `select` event goes out |
| Provider.IconCraftProvider.Deselect | packages/react/src/context/IconCraftProvider.tsx:241-247 | the store gets DESELECT and a `deselect` event goes out |
| Provider.IconCraftProvider.ToggleSelect | packages/react/src/context/IconCraftProvider.tsx:249-256 | the store gets TOGGLE_SELECT; the event is `deselect` iff the id was selected |
| Provider.IconCraftProvider.ClearSelection | packages/react/src/context/IconCraftProvider.tsx:258-263 | one `deselect` per selected id, then the selection empties |
| Provider.IconCraftProvider.Clear | packages/react/src/context/IconCraftProvider.tsx:275-280 | one `removed` per stored id, then the store empties |
| Dispatcher.EventDispatcher.DispatchAll | packages/react/src/context/IconCraftProvider.tsx:259-261 | dispatching events in turn logs their broadcast |
| Provider.IconCraftProvider.GetSelected | packages/react/src/context/IconCraftProvider.tsx:265-268 | exactly the selected ids |
| Provider.IconCraftProvider.IsSelected | packages/react/src/context/IconCraftProvider.tsx:270-273 | an id is selected iff `getSelected()` lists it |
| Provider.DistinctCardinality | packages/react/src/context/IconCraftProvider.tsx:199-202 | a duplicate-free order listing a key set has its size |
| Dispatcher.Normalise | packages/react/src/context/IconCraftDispatcher.ts:47-50 | `*` is the wildcard, a single type is a one-element set, and an array is the set of its entries |
| Dispatcher.Deliveries | packages/react/src/context/IconCraftDispatcher.ts:21-40 | at most one call per subscription, each with the event |
| Dispatcher.Failures | packages/react/src/context/IconCraftDispatcher.ts:34-38 | the handlers that threw, at most one per delivery |
| Dispatcher.FailuresAreThrowingCalls | packages/react/src/context/IconCraftDispatcher.ts:34-38 | a handler is reported iff it was called and threw |
| Dispatcher.DeliveriesStep | packages/react/src/context/IconCraftDispatcher.ts:22-39 | delivery proceeds subscription by subscription |
| Dispatcher.FailuresAppend | packages/react/src/context/IconCraftDispatcher.ts:34-38 | a throwing handler does not stop later deliveries |
| Dispatcher.BroadcastOne | packages/react/src/context/IconCraftDispatcher.ts:21-40 | broadcasting one event is its deliveries |
| Dispatcher.BroadcastAppend | packages/react/src/context/IconCraftDispatcher.ts:21-40 | broadcasting one more event appends its deliveries |
| Dispatcher.DeliveredIffMatches | packages/react/src/context/IconCraftDispatcher.ts:24-31 | a subscription's handler gets the event iff the filter is `*` or the id, and the types are `*` or contain the type |
| Dispatcher.NotDeliveredWithoutSubscription | packages/react/src/context/IconCraftDispatcher.ts:21-40 | a handler that is not subscribed receives nothing |
| Dispatcher.CallCountAppend | packages/react/src/context/IconCraftDispatcher.ts:21-40 | call counts add up over consecutive deliveries |
| Dispatcher.CallsPerMatchingSubscription | packages/react/src/context/IconCraftDispatcher.ts:52-58 | a handler runs once per matching subscription, so twice when subscribed twice |
| Dispatcher.EventDispatcher.constructor | packages/react/src/context/IconCraftDispatcher.ts:18-19 | no subscriptions |
| Dispatcher.EventDispatcher.Dispatch | packages/react/src/context/IconCraftDispatcher.ts:21-40 | the matching handlers are called in subscription order, and the throwing ones are reported |
| Dispatcher.EventDispatcher.Subscribe | packages/react/src/context/IconCraftDispatcher.ts:42-58 | a new subscription with a fresh token goes at the end |
| Dispatcher.EventDispatcher.Unsubscribe | packages/react/src/context/IconCraftDispatcher.ts:61-63 | exactly that subscription is removed; a second call changes nothing |
| Dispatcher.Without | packages/react/src/context/IconCraftDispatcher.ts:62 | the subscriptions other than the token's |
| Dispatcher.WithoutRemoves | packages/react/src/context/IconCraftDispatcher.ts:62 | the token is gone and every other subscription stays |
| Dispatcher.WithoutUnknownToken | packages/react/src/context/IconCraftDispatcher.ts:62 | an unknown token changes nothing |
| Dispatcher.WithoutKeepsDistinct | packages/react/src/context/IconCraftDispatcher.ts:62 | removal keeps tokens distinct |
| Animations.AnimationName | packages/react/src/animations.ts:322-325 | `none` iff the type is `none`; otherwise `iconcraft-` followed by the type |
| Animations.AnimationNameInjective | packages/react/src/animations.ts:322-325 | different types have different names |
| Animations.Overlay | packages/react/src/animations.ts:342-345 | the type is the object's; each of target, duration, delay, iteration count, timing function and play state is the object's when present, else the default's |
| Animations.OverlayOfBareType | packages/react/src/animations.ts:335-345 | an object giving only a type gets the same options as the string form |
| Animations.AnimationStyle | packages/react/src/animations.ts:351-361 | `none` exactly for no options or type `none`; otherwise the string starts with the animation's name |
| Animations.AnimationStyleOfBareType | packages/react/src/animations.ts:351-361 | for every type but `none`, the defaults `1s ease 0s 1` fill a bare type |
| Animations.KindsAppend | packages/react/src/animations.ts:385-399 | the injected types grow by the appended one |
| Animations.AnimationRegistry.constructor | packages/react/src/animations.ts:70 | an empty registry and nothing injected |
| Animations.AnimationRegistry.RegisterAnimation | packages/react/src/animations.ts:91-93 | the definition replaces any earlier one under that name; built-in defaults still win |
| Animations.AnimationRegistry.CustomAnimationOf | packages/react/src/animations.ts:98-100 | the registered definition, or absent |
| Animations.AnimationRegistry.TransformOriginOf | packages/react/src/animations.ts:105-108 | only the custom registry counts: its transform origin, else `center` |
| Animations.AnimationRegistry.AnimationDefaults | packages/react/src/animations.ts:302-314 | the built-in table first, then a custom definition's defaults, else 1s, once, `ease` |
| Animations.AnimationRegistry.Keyframes | packages/react/src/animations.ts:366-377 | the built-in table first, then custom keyframes, else `""` |
| Animations.AnimationRegistry.ParseAnimationOptions | packages/react/src/animations.ts:330-346 | absent, `""` or `none` gives null; a name gives its defaults; an object is overlaid on its type's defaults |
| Animations.AnimationRegistry.InjectKeyframes | packages/react/src/animations.ts:387-399 | `none`, an injected type, no document or empty keyframes change nothing; otherwise one style is appended and the type recorded |
| Animations.ParseIsStable | packages/react/src/animations.ts:330-346 | parsing parsed options again gives them back |
| Animations.SpinStyle | packages/react/src/animations.ts:277-361 | `spin` renders as `iconcraft-spin 1.5s linear 0s infinite` |
| Animations.SpinStyleOfDefaults | packages/react/src/animations.ts:351-361 | the style string of spin's built-in defaults |
| Backup.Field | packages/react/src/utils/backup.ts:135 | a property of an object value, absent otherwise |
| Backup.Finish | packages/react/src/utils/backup.ts:161-165 | `valid` iff there are no errors |
| Backup.Validation | packages/react/src/utils/backup.ts:127-166 | a returned result is valid iff it has no errors; only the icon pass over an `icons` array can throw |
| Backup.ValidateBackup | packages/react/src/utils/backup.ts:127-166 | the version check followed by the icon loop computes `Validation` |
| Backup.ForEachIcon | packages/react/src/utils/backup.ts:148-158 | the `forEach` pushes each icon's messages after the version messages, and throws iff a scanned icon is `null` |
| Backup.CheckIcon | packages/react/src/utils/backup.ts:149-157 | an icon's missing `svg` is its one error, and its missing `mode` and `shapeColor` are its warnings, in that order |
| Backup.ScanStaysThrown | packages/react/src/utils/backup.ts:148-158 | once a null icon is met, the check throws |
| Backup.ScanIconsMeaning | packages/react/src/utils/backup.ts:148-158 | the scan returns iff no icon is null; its errors are one missing-svg message per icon without svg, in index order |
| Backup.ValidIff | packages/react/src/utils/backup.ts:127-166 | valid iff the input is an object with a version and an icons array whose icons are non-null with svg; missing mode or colour never invalidates |
| Backup.CreateBackup | packages/react/src/utils/backup.ts:74-86 | version `1.0.0`, the icons unchanged, the time given, and license, licenseUrl and settings from the options |
| Backup.WithOptional | packages/react/src/utils/backup.ts:111-113 | an absent optional property is left out of the JSON object |
| Backup.IconJson | packages/react/src/utils/backup.ts:6-29 | the JSON of an icon carries its svg, mode and shapeColor |
| Backup.IconsJson | packages/react/src/utils/backup.ts:111-113 | one JSON value per icon, in order |
| Backup.BackupJson | packages/react/src/utils/backup.ts:111-113 | the JSON of a backup carries its version and icons |
| Backup.ParseBackup | packages/react/src/utils/backup.ts:171-190 | the data iff it parses and validates, else null |
| Backup.CreatedBackupRoundTrip | packages/react/src/utils/backup.ts:74-190 | a created backup validates iff every icon has an svg, warns only about colours, and then parses back to itself |
| Backup.CurrentVersionValidation | packages/react/src/utils/backup.ts:138-159 | with the current version and non-null icons with modes, valid iff every icon has svg, and warnings are only about colours |
| Backup.ScanWarningsAreColours | packages/react/src/utils/backup.ts:152-157 | when every icon has a mode, the only warnings are missing colours |
| Sanitize.FilterAttrsMembers | packages/react/src/utils/sanitize.ts:78-92 | an attribute is kept iff it is in the input and is neither an event handler nor a `javascript:` URL |
| Sanitize.CleanNode | packages/react/src/utils/sanitize.ts:67-96 | a node is dropped iff it is a dangerous element |
| Sanitize.CleanNodes | packages/react/src/utils/sanitize.ts:64-102 | the cleaned children are no more than the children |
| Sanitize.CleanNodesAppend | packages/react/src/utils/sanitize.ts:67-101 | siblings are cleaned independently and keep their order |
| Sanitize.CleanNodesIsSafe | packages/react/src/utils/sanitize.ts:64-102 | no dangerous element, event handler or `javascript:` URL survives at any depth |
| Sanitize.CleanNodeIsSafe | packages/react/src/utils/sanitize.ts:67-96 | the cleaned form of one node is safe |
| Sanitize.SafeNodesAppend | packages/react/src/utils/sanitize.ts:67-101 | safe lists concatenate to a safe list |
| Sanitize.FilterKeepsSafeAttrs | packages/react/src/utils/sanitize.ts:78-92 | attributes that are all allowed are kept, in order |
| Sanitize.CleanNodesOfSafe | packages/react/src/utils/sanitize.ts:64-102 | a safe tree is unchanged, including text, comments and order |
| Sanitize.CleanNodeOfSafe | packages/react/src/utils/sanitize.ts:67-96 | a safe node is kept as it is |
| Sanitize.CleanNodesIdempotent | packages/react/src/utils/sanitize.ts:64-102 | sanitising twice is sanitising once |
| Sanitize.DangerousChildDropped | packages/react/src/utils/sanitize.ts:72-101 | a dangerous child is removed with its subtree and its siblings are cleaned as before |
| Sanitize.SanitizeAttributes | packages/react/src/utils/sanitize.ts:78-92 | the attribute loop keeps exactly `FilterAttrs` |
| Sanitize.SanitizeChildren | packages/react/src/utils/sanitize.ts:64-102 | the child loop with its removal list computes `CleanNodes` |
| Sanitize.SanitizeElement | packages/react/src/utils/sanitize.ts:77-95 | a kept element has its attributes filtered and its children walked, as `CleanNode` says |
| Sanitize.RemoveMarked | packages/react/src/utils/sanitize.ts:99-101 | removing the marked children leaves the cleaned list, in order |
| Sanitize.Placeholder | packages/react/src/utils/sanitize.ts:50 | a placeholder starts with the `<!--__IMAGE_` opener |
| Sanitize.ImageTagAt | packages/react/src/utils/sanitize.ts:48 | an `<image` tag, case-insensitively, followed by a non-word character and running to the first `>`; none when no such tag starts here |
| Sanitize.PlaceholderAt | packages/react/src/utils/sanitize.ts:58 | a placeholder match starts with the opener |
| Sanitize.RestorePlaceholder | packages/react/src/utils/sanitize.ts:58-60 | placeholder i restores to the i-th stored tag, or `""` without one |
| Sanitize.PlaceholderAtPlaceholder | packages/react/src/utils/sanitize.ts:58 | a placeholder is recognised with its index and length |
| Sanitize.ProtectKeepsNonPrefix | packages/react/src/utils/sanitize.ts:48-51 | protection cannot create a prefix without `<` that was not there |
| Sanitize.ProtectStep | packages/react/src/utils/sanitize.ts:48-51 | an image tag becomes the next placeholder; any other character is kept |
| Sanitize.ProtectRestore | packages/react/src/utils/sanitize.ts:47-60 | without a literal opener in the input, restoring the protected text gives it back |
| Sanitize.ProtectRestoreTag | packages/react/src/utils/sanitize.ts:47-60 | the round-trip step at an image tag |
| Sanitize.ProtectRestoreChar | packages/react/src/utils/sanitize.ts:47-60 | the round-trip step at another character |
| Sanitize.FirstCharKeepsNoOpener | packages/react/src/utils/sanitize.ts:48-51 | a kept first character cannot start a placeholder |
| Sanitize.SuffixLacks | packages/react/src/utils/sanitize.ts:48-51 | a suffix of text without the opener lacks it too |
| Sanitize.ImagesRoundTrip | packages/react/src/utils/sanitize.ts:47-60 | every `<image>` tag comes back verbatim when nothing else is sanitised |
| Sanitize.CapturedAreImageTags | packages/react/src/utils/sanitize.ts:48-51 | every stored tag is an `<image` tag ending at `>` |
| Sanitize.LiteralPlaceholderVanishes | packages/react/src/utils/sanitize.ts:58-60 | a literal placeholder comment in the input with no stored tag restores to `""` |
| Sanitize.PlaceholderIsNoImage | packages/react/src/utils/sanitize.ts:48-51 | a placeholder is not protected again |
| Sanitize.ProtectOfNoImage | packages/react/src/utils/sanitize.ts:48-51 | text without `<` is unchanged and captures nothing |
| Sanitize.SanitizeSvg | packages/react/src/utils/sanitize.ts:42-62 | `""` for empty input; otherwise protect, parse, clean, serialise and restore |
| Sanitize.ProtectImages | packages/react/src/utils/sanitize.ts:47-51 | the replacement loop computes `Protect` |
| Sanitize.ProtectDone | packages/react/src/utils/sanitize.ts:47-51 | the loop invariant at the end is the whole protection |
| Sanitize.ProtectAdvanceTag | packages/react/src/utils/sanitize.ts:48-51 | the invariant advances over an image tag |
| Sanitize.ProtectStepTag | packages/react/src/utils/sanitize.ts:48-51 | at an image tag the placeholder goes first and the tag is stored first |
| Sanitize.ProtectAdvanceChar | packages/react/src/utils/sanitize.ts:48-51 | the invariant advances over another character |
| Catalog.FetchError | demo-react/src/features/catalog/useCatalog.ts:51-66 | a non-ok response reads `Failed to fetch <what>: <statusText>`; a non-Error throw reads `Unknown error` |
| Catalog.BaseUrl | demo-react/src/features/catalog/useCatalog.ts:69-71 | the prefix through the last `/`, or `""` without one |
| Catalog.BaseUrlIdempotent | demo-react/src/features/catalog/useCatalog.ts:69-71 | the base of a base is itself |
| Catalog.FilteredIcons | demo-react/src/features/catalog/useCatalog.ts:205-212 | an empty query keeps all; otherwise the icons whose display name or name, lower-cased over ASCII, contains the query lower-cased over ASCII |
| Catalog.EmptyQueryMatchesAll | demo-react/src/features/catalog/useCatalog.ts:205-212 | the empty query matches every icon anyway |
| Catalog.FilteredIconsAppend | demo-react/src/features/catalog/useCatalog.ts:205-212 | filtering keeps order |
| Catalog.FilteredIconsIdempotent | demo-react/src/features/catalog/useCatalog.ts:205-212 | filtering twice is filtering once |
| Catalog.WithoutId | demo-react/src/features/catalog/useCatalog.ts:180 | every source with the id is gone and every other stays |
| Catalog.FindSource | demo-react/src/features/catalog/useCatalog.ts:158 | the first source with the id, absent iff there is none |
| Catalog.FindCategory | demo-react/src/features/catalog/useCatalog.ts:147-149 | a category with the slug, absent iff there is none, the first when it comes first |
| Catalog.AddedSource | demo-react/src/features/catalog/useCatalog.ts:168-175 | a known id leaves the list unchanged; a new one is appended |
| Catalog.AddSourceIdempotent | demo-react/src/features/catalog/useCatalog.ts:168-175 | adding twice is adding once |
| Catalog.AddSourceKeepsDistinct | demo-react/src/features/catalog/useCatalog.ts:168-175 | adding keeps source ids distinct |
| Catalog.WithoutIdKeepsDistinct | demo-react/src/features/catalog/useCatalog.ts:180 | removal keeps source ids distinct |
| Catalog.EffectCategory | demo-react/src/features/catalog/useCatalog.ts:144-153 | the category the effect loads: the selected non-empty slug, when the loaded index lists it |
| Catalog.CatalogState.constructor | demo-react/src/features/catalog/useCatalog.ts:74-89 | the initial sources or none, nothing selected or loaded |
| Catalog.CatalogState.Filtered | demo-react/src/features/catalog/useCatalog.ts:205-212 | only current icons are shown |
| Catalog.CatalogState.AddSource | demo-react/src/features/catalog/useCatalog.ts:168-175 | the source list becomes `AddedSource` |
| Catalog.CatalogState.RemoveSource | demo-react/src/features/catalog/useCatalog.ts:178-188 | the source goes; the selection, index and icons are cleared only when it was selected |
| Catalog.CatalogState.LoadIndex | demo-react/src/features/catalog/useCatalog.ts:92-113 | icons and cache are cleared; a loaded index is kept with its base URL and selects its first category; a failure drops the index and records the message |
| Catalog.CatalogState.LoadCategoryIcons | demo-react/src/features/catalog/useCatalog.ts:116-141 | a cached slug is served with no request; otherwise the file next to the index is requested and a loaded one is cached |
| Catalog.CatalogState.CategoryEffect | demo-react/src/features/catalog/useCatalog.ts:144-153 | the selected category's icons load when the index lists it |
| Catalog.CatalogState.SelectSource | demo-react/src/features/catalog/useCatalog.ts:156-165 | an unknown id changes nothing; a known one is selected and its index loaded |
| Catalog.CatalogState.LoadFromUrl | demo-react/src/features/catalog/useCatalog.ts:191-197 | no source is selected and the index is loaded |
| Catalog.CatalogState.SelectCategory | demo-react/src/features/catalog/useCatalog.ts:200-202 | only the selected category changes |
| Catalog.CatalogState.SetSearchQuery | demo-react/src/features/catalog/useCatalog.ts:84 | only the query changes |
| Catalog.CatalogState.InitialSourceEffect | demo-react/src/features/catalog/useCatalog.ts:215-219 | with sources, none selected and no index, the first source is selected |

## Left out

- The geometry engine is a function value `engine`. Its WASM glue, memory marshalling and the dynamic `import()` in `init` are outside the model.
- Asynchrony. Each promise is a begin step plus a settle step that takes its outcome as an argument. Promise identity and event-loop interleaving are not modelled, and neither is `Promise.all` scheduling. An instance's in-flight promise is a job number.
- I/O. `fetch`, `DOMParser` parsing and serialisation, `document.head`, `JSON.parse` and the file and download helpers of `backup.ts` are parameters or inputs, or are not modelled. The backup JSON is a JSON value tree, not its text.
- Clocks and randomness. ULID ids, `generateIconId`, `getTimestampFromId` and `findByTimeRange` are not modelled; ids are given. `createdAt` is a parameter.
- Registry.IconCraftRegistry.GetAllSorted: `localeCompare` is modelled as lexicographic order of code points.
- Sanitize.CleanNode: `toLowerCase` of tag and attribute names is ASCII-only. Unicode case mapping is not modelled.
- Sanitize.SanitizeChildren: nodes are values, so the in-place `removeChild` and `removeAttribute` become filtering. Aliasing between DOM nodes is not captured.
- Sanitize.SanitizeSvg: the `<image>` placeholders bypass sanitisation, as in the code, and a literal placeholder comment in the input is replaced on restore. `LiteralPlaceholderVanishes` states this.
- Animations.AnimationRegistry.AnimationDefaults: `type in table` in the source also sees inherited `Object.prototype` names such as `toString`. The model's map lookup sees only the table's own keys.
- Animations.AnimationRegistry.constructor: the keyframe CSS text is constructor data, so it is not reproduced.
- Catalog.CatalogState.LoadIndex: each fetch is applied at once with its outcome. Interleaved fetches, stale closures and React's batched state updates are not modelled.
- Provider.IconCraftProvider.Create: store updates take effect at once. React's deferred `dispatch` and the callbacks' captured state are not modelled, except that `updateMetadata` reads the metadata from before the update, as its closure does.
- Provider.CreatedMetadata: object spread with an explicit `undefined` value is treated as an absent field.
- StoreTypes.ApplyChanges: `{ ...existing, ...changes }` copies an explicit `undefined` in `changes`; the model has no such value and keeps the stored field.
- Animations.Overlay: `{ ...defaults, ...animation }` copies an explicit `undefined` field of the object over the default, so `{ type: 'spin', duration: undefined }` renders `1s` in the source; the model has no explicit `undefined` and keeps the default `1.5s`. `ParseAnimationOptions` inherits this.
- Animations.AnimationRegistry.Keyframes: `type in builtInKeyframes` also sees inherited `Object.prototype` names such as `toString`; the model's map lookup sees only the table's own keys.
- Catalog.FilteredIcons: `toLowerCase` is modelled over ASCII letters only, so a query such as `É` does not find `école` in the model while it does in the source. Unicode case mapping tables are not modelled.
- Dispatcher.EventDispatcher.Dispatch: the loop walks the subscriptions as they were when the dispatch began. The source iterates the live `Set`, so a handler that unsubscribes a later subscription stops it being called, and one that subscribes a new matching subscription has it called for the same event. Handlers here are values that cannot change subscriptions, so this reentrancy is not captured.
- View.Namespaced: the replacement texts `id="<instance id>-<mode>-` and `url(#<instance id>-<mode>-` are inserted as they are; `String.replace` would expand `$` patterns in them, which the generated instance ids (`ic_` followed by a ULID) never contain. An id with `$` given to the constructor is not modelled.
- Floating point. Offsets, durations and coordinates are kept as their JavaScript text and never computed with.
- React rendering: hooks wiring, the `processedSvg` class injection, and UI components other than the compositor.

## Findings

| source | as written | input that shows it | evidently intended | confidence | as-written member | corrected member |
|---|---|---|---|---|---|---|
| packages/react/src/core/IconCraftFactory.ts:55-72 | `clone` passes every field of `prototype.clone(overrides)` to the new factory except `iconColor` | a factory whose prototype has `iconColor: '#ffffff'`, cloned with `{}`, gets `iconColor` `#1d1d1f` | the cloned factory's prototype equals `prototype.clone(overrides)`, iconColor included | high; not executed | Factory.ClonedPrototypeAsWrittenLosesCustomColor | Factory.IconCraftFactory.Clone |
