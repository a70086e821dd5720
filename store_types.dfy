/** The store's value types: per-instance metadata and the events the
    provider publishes. Numbers are kept as their JavaScript text. */
module StoreTypes {
  import opened Text
  import opened Types
  import opened Instance

  /** `IconCraftMetadata`. `custom` is an opaque record. */
  datatype Metadata = Metadata(
    x: Num, y: Num, zIndex: Num,
    width: Option<Num>, height: Option<Num>, rotation: Option<Num>,
    scale: Option<Num>, opacity: Option<Num>,
    animation: Option<string>, custom: Option<map<string, string>>)

  /** `Partial<IconCraftMetadata>`: a present field overrides. */
  datatype MetadataChanges = MetadataChanges(
    x: Option<Num>, y: Option<Num>, zIndex: Option<Num>,
    width: Option<Num>, height: Option<Num>, rotation: Option<Num>,
    scale: Option<Num>, opacity: Option<Num>,
    animation: Option<string>, custom: Option<map<string, string>>)

  const NoChanges := MetadataChanges(None, None, None, None, None, None, None, None, None, None)

  /** `DEFAULT_METADATA`. */
  const DefaultMetadata := Metadata(Num("0"), Num("0"), Num("0"), None, None, None, None, None, None, None)

  /** `{ ...m, ...changes }`: every field present in `changes` wins. */
  function ApplyChanges(m: Metadata, changes: MetadataChanges): (r: Metadata)
    ensures changes == NoChanges ==> r == m
    ensures changes.x.Some? ==> r.x == changes.x.value
    ensures changes.x.None? ==> r.x == m.x
    ensures changes.y.Some? ==> r.y == changes.y.value
    ensures changes.y.None? ==> r.y == m.y
    ensures changes.zIndex.Some? ==> r.zIndex == changes.zIndex.value
    ensures changes.zIndex.None? ==> r.zIndex == m.zIndex
    ensures changes.width.Some? ==> r.width == changes.width
    ensures changes.width.None? ==> r.width == m.width
    ensures changes.height.Some? ==> r.height == changes.height
    ensures changes.height.None? ==> r.height == m.height
    ensures changes.rotation.Some? ==> r.rotation == changes.rotation
    ensures changes.rotation.None? ==> r.rotation == m.rotation
    ensures changes.scale.Some? ==> r.scale == changes.scale
    ensures changes.scale.None? ==> r.scale == m.scale
    ensures changes.opacity.Some? ==> r.opacity == changes.opacity
    ensures changes.opacity.None? ==> r.opacity == m.opacity
    ensures changes.animation.Some? ==> r.animation == changes.animation
    ensures changes.animation.None? ==> r.animation == m.animation
    ensures changes.custom.Some? ==> r.custom == changes.custom
    ensures changes.custom.None? ==> r.custom == m.custom
  {
    Metadata(
      changes.x.GetOr(m.x), changes.y.GetOr(m.y), changes.zIndex.GetOr(m.zIndex),
      changes.width.Or(m.width), changes.height.Or(m.height), changes.rotation.Or(m.rotation),
      changes.scale.Or(m.scale), changes.opacity.Or(m.opacity),
      changes.animation.Or(m.animation), changes.custom.Or(m.custom))
  }

  /** Spreading the same changes twice is spreading them once. */
  lemma ApplyChangesIdempotent(m: Metadata, changes: MetadataChanges)
    ensures ApplyChanges(ApplyChanges(m, changes), changes) == ApplyChanges(m, changes)
  {
  }

  /** Two updates in a row equal one update whose later fields win. */
  lemma ApplyChangesComposes(m: Metadata, c1: MetadataChanges, c2: MetadataChanges)
    ensures ApplyChanges(ApplyChanges(m, c1), c2) == ApplyChanges(m, MetadataChanges(
      c2.x.Or(c1.x), c2.y.Or(c1.y), c2.zIndex.Or(c1.zIndex),
      c2.width.Or(c1.width), c2.height.Or(c1.height), c2.rotation.Or(c1.rotation),
      c2.scale.Or(c1.scale), c2.opacity.Or(c1.opacity),
      c2.animation.Or(c1.animation), c2.custom.Or(c1.custom)))
  {
  }

  /** `IconCraftEventType`. */
  datatype EventType =
    | Created | Removed | Ready | ErrorEvent | Select | Deselect
    | Move | Resize | ZIndex | Transform | ConfigChange | MetadataChange | Custom

  /** What an event carries besides its type and id. */
  datatype Payload =
    | NoPayload
    | InstancePayload(instance: IconCraftInstance)
    | ResultPayload(result: IconCraftResult)
    | ErrorPayload(error: string)
    | Position(x: Num, y: Num)
    | Dimensions(width: Num, height: Num)
    | Layer(zIndex: Num)
    | MetadataPayload(changes: MetadataChanges)
    | CustomPayload(name: string)

  datatype Event = Event(kind: EventType, id: string, payload: Payload)
}
