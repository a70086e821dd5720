/** The provider's store: a pure reducer over the registered instances,
    their metadata and the selection, and the provider's actions, which
    feed that reducer, keep the zIndex counter and publish events through
    the dispatcher. JavaScript's `Map` and `Set` iterate in insertion order,
    so the instance keys and the selection are kept as ordered sequences. */
module Provider {
  import opened Text
  import opened Types
  import opened IconCraftConfig
  import opened Instance
  import opened Factory
  import opened StoreTypes
  import opened Dispatcher

  /** `IconCraftStoreState`; `order` is the key order of `instances`. */
  datatype StoreState = StoreState(
    order: seq<string>,
    instances: map<string, IconCraftInstance>,
    metadata: map<string, Metadata>,
    selection: seq<string>)

  const EmptyStore := StoreState([], map[], map[], [])

  /** The reducer's actions. */
  datatype Action =
    | Add(id: string, instance: IconCraftInstance, metadata: Metadata)
    | Remove(id: string)
    | UpdateMetadata(id: string, changes: MetadataChanges)
    | Select(id: string)
    | Deselect(id: string)
    | ToggleSelect(id: string)
    | ClearSelection
    | ClearAll

  predicate Distinct(s: seq<string>) {
    forall i, j :: 0 <= i < j < |s| ==> s[i] != s[j]
  }

  /** The store's shape: instances and metadata share their keys, the key
      order lists each key once, and the selection holds no duplicates
      (it may hold ids that are not registered). */
  ghost predicate StoreValid(s: StoreState) {
    && s.instances.Keys == s.metadata.Keys
    && Distinct(s.order)
    && (forall k :: k in s.order <==> k in s.instances)
    && Distinct(s.selection)
  }

  /** `Set.add` / `Map.set` on the key order: a new key goes last, an
      existing one keeps its place. */
  function Insert(s: seq<string>, x: string): (r: seq<string>)
    ensures x in r && forall y :: y in r <==> y in s || y == x
    ensures x in s ==> r == s
    ensures x !in s ==> r == s + [x]
  {
    if x in s then s else s + [x]
  }

  /** `Set.delete` / `Map.delete` on the key order. */
  function Delete(s: seq<string>, x: string): (r: seq<string>)
    ensures forall y :: y in r <==> y in s && y != x
    ensures x !in s ==> r == s
    ensures |r| <= |s|
  {
    if |s| == 0 then []
    else if s[0] == x then Delete(s[1..], x)
    else [s[0]] + Delete(s[1..], x)
  }

  /** In a duplicate-free sequence, deleting the key at `i` closes the gap:
      the keys before and after it keep their relative order. */
  lemma {:induction false} DeleteAt(s: seq<string>, i: nat)
    requires Distinct(s) && i < |s|
    ensures Delete(s, s[i]) == s[..i] + s[i + 1..]
    decreases |s|
  {
    if i == 0 {
      assert s[0] !in s[1..];
      assert Delete(s[1..], s[0]) == s[1..];
    } else {
      assert Distinct(s[1..]) by {
        forall a, b | 0 <= a < b < |s| - 1
          ensures s[1..][a] != s[1..][b]
        {
          assert s[1..][a] == s[a + 1] && s[1..][b] == s[b + 1];
        }
      }
      assert s[1..][i - 1] == s[i];
      DeleteAt(s[1..], i - 1);
      assert s[0] != s[i];
      assert s[1..][..i - 1] == s[1..i] && s[1..][i..] == s[i + 1..];
      assert [s[0]] + (s[1..i] + s[i + 1..]) == s[..i] + s[i + 1..];
    }
  }

  lemma {:induction false} DeleteKeepsDistinct(s: seq<string>, x: string)
    requires Distinct(s)
    ensures Distinct(Delete(s, x))
    decreases |s|
  {
    if |s| > 0 {
      assert Distinct(s[1..]) by {
        forall i, j | 0 <= i < j < |s| - 1
          ensures s[1..][i] != s[1..][j]
        {
          assert s[1..][i] == s[i + 1] && s[1..][j] == s[j + 1];
        }
      }
      DeleteKeepsDistinct(s[1..], x);
      if s[0] != x {
        var w := Delete(s[1..], x);
        assert s[0] !in s[1..];
        var r := [s[0]] + w;
        forall i, j | 0 <= i < j < |r|
          ensures r[i] != r[j]
        {
          assert r[j] == w[j - 1];
          if i > 0 {
            assert r[i] == w[i - 1];
          }
        }
      }
    }
  }

  lemma DeleteLast(s: seq<string>, x: string)
    requires x !in s
    ensures Delete(s + [x], x) == s
    decreases |s|
  {
    if |s| == 0 {
      assert [x][1..] == [];
    } else {
      assert (s + [x])[1..] == s[1..] + [x];
      DeleteLast(s[1..], x);
    }
  }

  lemma InsertKeepsDistinct(s: seq<string>, x: string)
    requires Distinct(s)
    ensures Distinct(Insert(s, x))
  {
  }

  /** The copy-and-modify transition of `reducer`. */
  function Reduce(s: StoreState, a: Action): (r: StoreState)
    // ADD: the id now maps to the instance and metadata; nothing else moves.
    ensures a.Add? ==>
      && r.instances.Keys == s.instances.Keys + {a.id} && r.metadata.Keys == s.metadata.Keys + {a.id}
      && r.instances[a.id] == a.instance && r.metadata[a.id] == a.metadata
      && (forall k :: k in s.instances && k != a.id ==> r.instances[k] == s.instances[k])
      && (forall k :: k in s.metadata && k != a.id ==> r.metadata[k] == s.metadata[k])
      && r.selection == s.selection
    // Map.set: a new id is listed last, a re-added one keeps its place.
    ensures a.Add? ==> r.order == Insert(s.order, a.id)
    // REMOVE: the id is gone from all three collections and nothing else changes.
    ensures a.Remove? ==> r.order == Delete(s.order, a.id) && r.selection == Delete(s.selection, a.id)
    ensures a.Remove? ==>
      && r.instances.Keys == s.instances.Keys - {a.id} && r.metadata.Keys == s.metadata.Keys - {a.id}
      && (forall k :: k in r.instances ==> r.instances[k] == s.instances[k])
      && (forall k :: k in r.metadata ==> r.metadata[k] == s.metadata[k])
      && (forall k :: k in r.selection <==> k in s.selection && k != a.id)
    // UPDATE_METADATA: identical state for an id without metadata.
    ensures a.UpdateMetadata? && a.id !in s.metadata ==> r == s
    ensures a.UpdateMetadata? && a.id in s.metadata ==>
      && r.metadata.Keys == s.metadata.Keys
      && r.metadata[a.id] == ApplyChanges(s.metadata[a.id], a.changes)
      && (forall k :: k in s.metadata && k != a.id ==> r.metadata[k] == s.metadata[k])
      && r.instances == s.instances && r.order == s.order && r.selection == s.selection
    // SELECT / DESELECT: identical state when nothing is to change.
    ensures a.Select? && a.id in s.selection ==> r == s
    ensures a.Deselect? && a.id !in s.selection ==> r == s
    ensures (a.Select? || a.Deselect? || a.ToggleSelect?) ==>
      && r.order == s.order && r.instances == s.instances && r.metadata == s.metadata
      && (a.Select? ==> forall k :: k in r.selection <==> k in s.selection || k == a.id)
      && (a.Deselect? ==> forall k :: k in r.selection <==> k in s.selection && k != a.id)
      && (a.ToggleSelect? ==> (a.id in r.selection <==> a.id !in s.selection))
      && (forall k :: k != a.id ==> (k in r.selection <==> k in s.selection))
    // Set.add puts a newly selected id last; Set.delete keeps the others' order.
    ensures a.Select? ==> r.selection == Insert(s.selection, a.id)
    ensures a.Deselect? ==> r.selection == Delete(s.selection, a.id)
    ensures a.ToggleSelect? ==>
      r.selection == (if a.id in s.selection then Delete(s.selection, a.id) else Insert(s.selection, a.id))
    // CLEAR_SELECTION: only the selection empties; identical state if it was empty.
    ensures a.ClearSelection? ==> r == s.(selection := [])
    ensures a.ClearSelection? && s.selection == [] ==> r == s
    ensures a.ClearAll? ==> r == EmptyStore
  {
    match a
    case Add(id, inst, md) =>
      StoreState(Insert(s.order, id),
                 s.instances[id := inst], s.metadata[id := md], s.selection)
    case Remove(id) =>
      StoreState(Delete(s.order, id), s.instances - {id}, s.metadata - {id}, Delete(s.selection, id))
    case UpdateMetadata(id, changes) =>
      if id !in s.metadata then s
      else s.(metadata := s.metadata[id := ApplyChanges(s.metadata[id], changes)])
    case Select(id) =>
      if id in s.selection then s else s.(selection := Insert(s.selection, id))
    case Deselect(id) =>
      if id !in s.selection then s else s.(selection := Delete(s.selection, id))
    case ToggleSelect(id) =>
      s.(selection := if id in s.selection then Delete(s.selection, id) else Insert(s.selection, id))
    case ClearSelection =>
      if |s.selection| == 0 then s else s.(selection := [])
    case ClearAll => EmptyStore
  }

  /** Consecutive ADD actions, one per `(id, instance, metadata)` entry. */
  function AddAll(s: StoreState, entries: seq<(string, IconCraftInstance, Metadata)>): StoreState
    decreases |entries|
  {
    if |entries| == 0 then s
    else AddAll(Reduce(s, Add(entries[0].0, entries[0].1, entries[0].2)), entries[1..])
  }

  function EntryIds(entries: seq<(string, IconCraftInstance, Metadata)>): seq<string>
    decreases |entries|
  {
    if |entries| == 0 then [] else [entries[0].0] + EntryIds(entries[1..])
  }

  /** Registering distinct new ids lists them after the existing keys, in
      the order they were added: the insertion order `getAll()` follows. */
  lemma {:induction false} AddAllAppendsInOrder(s: StoreState, entries: seq<(string, IconCraftInstance, Metadata)>)
    requires forall i :: 0 <= i < |entries| ==> entries[i].0 !in s.order
    requires forall i, j :: 0 <= i < j < |entries| ==> entries[i].0 != entries[j].0
    ensures AddAll(s, entries).order == s.order + EntryIds(entries)
    decreases |entries|
  {
    if |entries| > 0 {
      var e := entries[0];
      var s1 := Reduce(s, Add(e.0, e.1, e.2));
      assert s1.order == s.order + [e.0];
      forall i | 0 <= i < |entries[1..]|
        ensures entries[1..][i].0 !in s1.order
      {
        assert entries[1..][i] == entries[i + 1];
      }
      forall i, j | 0 <= i < j < |entries[1..]|
        ensures entries[1..][i].0 != entries[1..][j].0
      {
        assert entries[1..][i] == entries[i + 1] && entries[1..][j] == entries[j + 1];
      }
      AddAllAppendsInOrder(s1, entries[1..]);
      Associate(s.order, [e.0], EntryIds(entries[1..]));
    }
  }

  /** The instances of `order`, one per key, in that order. */
  function Listed(order: seq<string>, instances: map<string, IconCraftInstance>): (r: seq<IconCraftInstance>)
    requires forall k :: k in order ==> k in instances
    ensures |r| == |order|
    ensures forall i :: 0 <= i < |r| ==> r[i] == instances[order[i]]
  {
    seq(|order|, i requires 0 <= i < |order| => instances[order[i]])
  }

  /** ADD of a new id lists its instance after all the others. */
  lemma AddListsLast(s: StoreState, id: string, inst: IconCraftInstance, md: Metadata)
    requires StoreValid(s) && id !in s.instances
    ensures var r := Reduce(s, Add(id, inst, md));
      StoreValid(r) && Listed(r.order, r.instances) == Listed(s.order, s.instances) + [inst]
  {
    ReducePreservesValid(s, Add(id, inst, md));
    var r := Reduce(s, Add(id, inst, md));
    assert r.order == s.order + [id];
    var a, b := Listed(r.order, r.instances), Listed(s.order, s.instances) + [inst];
    assert |a| == |b|;
    forall i | 0 <= i < |a|
      ensures a[i] == b[i]
    {
      if i < |s.order| {
        assert r.order[i] == s.order[i] != id;
      }
    }
  }

  /** Every action keeps the store's shape. */
  lemma ReducePreservesValid(s: StoreState, a: Action)
    requires StoreValid(s)
    ensures StoreValid(Reduce(s, a))
  {
    var r := Reduce(s, a);
    match a
    case Add(id, _, _) =>
      InsertKeepsDistinct(s.order, id);
      assert r.order == Insert(s.order, id);
    case Remove(id) =>
      DeleteKeepsDistinct(s.order, id);
      DeleteKeepsDistinct(s.selection, id);
    case Select(id) =>
      InsertKeepsDistinct(s.selection, id);
    case Deselect(id) =>
      DeleteKeepsDistinct(s.selection, id);
    case ToggleSelect(id) =>
      InsertKeepsDistinct(s.selection, id);
      DeleteKeepsDistinct(s.selection, id);
    case UpdateMetadata(_, _) =>
    case ClearSelection =>
    case ClearAll =>
  }

  /** Toggling twice restores the selection as a set; an id that was not
      selected leaves the selection exactly as it was. */
  lemma {:induction false} ToggleTwiceRestores(s: StoreState, id: string)
    ensures var r := Reduce(Reduce(s, ToggleSelect(id)), ToggleSelect(id));
      && (forall k :: k in r.selection <==> k in s.selection)
      && (id !in s.selection ==> r == s)
      && r.order == s.order && r.instances == s.instances && r.metadata == s.metadata
  {
    if id !in s.selection {
      DeleteLast(s.selection, id);
    }
  }

  /** Toggling a selected id twice moves it to the end of the selection:
      `Set` iteration order follows re-insertion. */
  lemma ToggleTwiceReorders(s: StoreState, id: string)
    requires id in s.selection
    ensures Reduce(Reduce(s, ToggleSelect(id)), ToggleSelect(id)).selection == Delete(s.selection, id) + [id]
  {
  }

  /** With the selection duplicate-free, the id leaves its place `i` and the
      ids after it move up by one. */
  lemma ToggleTwiceMovesToEnd(s: StoreState, i: nat)
    requires Distinct(s.selection) && i < |s.selection|
    ensures var id := s.selection[i];
      Reduce(Reduce(s, ToggleSelect(id)), ToggleSelect(id)).selection
        == s.selection[..i] + s.selection[i + 1..] + [id]
  {
    ToggleTwiceReorders(s, s.selection[i]);
    DeleteAt(s.selection, i);
  }

  /** The concrete case: toggling "a" twice in ["a", "b"] gives ["b", "a"]. */
  lemma ToggleTwiceReordersExample()
    ensures Reduce(Reduce(StoreState([], map[], map[], ["a", "b"]), ToggleSelect("a")), ToggleSelect("a")).selection
      == ["b", "a"]
  {
    var s := StoreState([], map[], map[], ["a", "b"]);
    ToggleTwiceMovesToEnd(s, 0);
    assert ["a", "b"][..0] + ["a", "b"][1..] == ["b"];
  }

  /** The metadata `create` stores: the defaults, then `zIndex` set to the
      counter, then the caller's overrides. */
  function CreatedMetadata(counter: nat, overrides: Option<MetadataChanges>): (r: Metadata)
    ensures overrides.None? ==> r == DefaultMetadata.(zIndex := Num(NatToString(counter)))
    ensures r.x == (if overrides.Some? && overrides.value.x.Some? then overrides.value.x.value else Num("0"))
    ensures r.zIndex == (if overrides.Some? && overrides.value.zIndex.Some? then overrides.value.zIndex.value
                         else Num(NatToString(counter)))
  {
    ApplyChanges(DefaultMetadata.(zIndex := Num(NatToString(counter))), overrides.GetOr(NoChanges))
  }

  /** The events `updateMetadata` publishes: always `metadata`; `move` when
      a coordinate changes and the id has metadata, with the old coordinate
      filling in the one not given; `zIndex` when the layer changes. */
  function UpdateEvents(id: string, changes: MetadataChanges, meta: Option<Metadata>): (r: seq<Event>)
    ensures |r| >= 1 && r[0] == Event(MetadataChange, id, MetadataPayload(changes))
    ensures (exists e :: e in r && e.kind == Move) <==> (changes.x.Some? || changes.y.Some?) && meta.Some?
    ensures (exists e :: e in r && e.kind == ZIndex) <==> changes.zIndex.Some?
    ensures forall e :: e in r && e.kind == Move ==>
      e.payload == Position(changes.x.GetOr(meta.value.x), changes.y.GetOr(meta.value.y))
    ensures forall e :: e in r ==> e.id == id
  {
    var move := if (changes.x.Some? || changes.y.Some?) && meta.Some?
      then [Event(Move, id, Position(changes.x.GetOr(meta.value.x), changes.y.GetOr(meta.value.y)))]
      else [];
    var layer := if changes.zIndex.Some? then [Event(ZIndex, id, Layer(changes.zIndex.value))] else [];
    var r := [Event(MetadataChange, id, MetadataPayload(changes))] + move + layer;
    assert forall e :: e in r ==> e == r[0] || e in move || e in layer;
    assert move != [] ==> move[0] in r;
    assert layer != [] ==> layer[|layer| - 1] in r;
    r
  }

  /** One `deselect` or `removed` event per id, in order. */
  function EventsFor(kind: EventType, ids: seq<string>): (r: seq<Event>)
    ensures |r| == |ids| && forall i :: 0 <= i < |ids| ==> r[i] == Event(kind, ids[i], NoPayload)
  {
    seq(|ids|, i requires 0 <= i < |ids| => Event(kind, ids[i], NoPayload))
  }

  class IconCraftProvider {
    var state: StoreState
    /** `zIndexRef`: the number of `create` calls so far. */
    var zIndexCounter: nat
    const dispatcher: EventDispatcher
    const factory: IconCraftFactory

    ghost predicate Valid()
      reads this
    {
      StoreValid(state)
    }

    /** The provider's first render with `defaultConfig`. */
    constructor(defaultConfig: ConfigOptions)
      ensures Valid() && state == EmptyStore && zIndexCounter == 0
      ensures fresh(dispatcher) && dispatcher.subscriptions == [] && dispatcher.log == [] && dispatcher.Valid()
      ensures fresh(factory) && factory.prototype == NewConfig(defaultConfig)
    {
      state := EmptyStore;
      zIndexCounter := 0;
      dispatcher := new EventDispatcher();
      factory := new IconCraftFactory(defaultConfig);
    }

    /** `create(svg, config, metadataOverrides)`. The new instance's id is a parameter. */
    method Create(svg: string, config: Option<ConfigOptions>, overrides: Option<MetadataChanges>,
                  newId: string, throws: Handler -> bool) returns (id: string, inst: IconCraftInstance)
      requires Valid()
      modifies this, dispatcher
      ensures Valid() && fresh(inst) && id == newId == inst.id
      ensures inst.svg == svg && inst.config == ConfigFor(factory.prototype, config)
      ensures zIndexCounter == old(zIndexCounter) + 1
      ensures state == Reduce(old(state), Add(id, inst, CreatedMetadata(zIndexCounter, overrides)))
      // getAll() lists a new instance last; a reused id keeps its place.
      ensures newId !in old(state.instances) ==> GetAll() == old(GetAll()) + [inst]
      ensures newId in old(state.instances) ==> state.order == old(state.order)
      ensures dispatcher.subscriptions == old(dispatcher.subscriptions)
      ensures dispatcher.log == old(dispatcher.log)
        + Deliveries(dispatcher.subscriptions, Event(Created, id, InstancePayload(inst)))
    {
      inst := factory.Create(svg, config, newId);
      id := inst.id;
      zIndexCounter := zIndexCounter + 1;
      var md := CreatedMetadata(zIndexCounter, overrides);
      ReducePreservesValid(state, Add(id, inst, md));
      if id !in state.instances {
        AddListsLast(state, id, inst, md);
      }
      state := Reduce(state, Add(id, inst, md));
      var _ := dispatcher.Dispatch(Event(Created, id, InstancePayload(inst)), throws);
    }

    /** `remove(id)`: false, with no event, for an id that is not registered. */
    method Remove(id: string, throws: Handler -> bool) returns (removed: bool)
      requires Valid()
      modifies this, dispatcher
      ensures Valid() && zIndexCounter == old(zIndexCounter)
      ensures removed <==> id in old(state.instances)
      ensures !removed ==> state == old(state) && dispatcher.log == old(dispatcher.log)
      ensures removed ==> (state == Reduce(old(state), Action.Remove(id))
        && dispatcher.log == old(dispatcher.log) + Deliveries(dispatcher.subscriptions, Event(Removed, id, NoPayload)))
      ensures dispatcher.subscriptions == old(dispatcher.subscriptions)
    {
      if id !in state.instances {
        return false;
      }
      ReducePreservesValid(state, Action.Remove(id));
      state := Reduce(state, Action.Remove(id));
      var _ := dispatcher.Dispatch(Event(Removed, id, NoPayload), throws);
      removed := true;
    }

    /** `getById(id)`. */
    function GetById(id: string): (r: Option<IconCraftInstance>)
      reads this
      ensures r.Some? <==> id in state.instances
      ensures r.Some? ==> r.value == state.instances[id]
    {
      if id in state.instances then Some(state.instances[id]) else None
    }

    /** `getAll()`: the instances in registration order. */
    function GetAll(): (r: seq<IconCraftInstance>)
      requires Valid()
      reads this
      ensures |r| == |state.order| == |state.instances.Keys|
      ensures forall i :: 0 <= i < |r| ==> r[i] == state.instances[state.order[i]]
    {
      DistinctCardinality(state.order, state.instances.Keys);
      Listed(state.order, state.instances)
    }

    /** `getMetadata(id)`. */
    function GetMetadata(id: string): (r: Option<Metadata>)
      reads this
      ensures r.Some? <==> id in state.metadata
      ensures r.Some? ==> r.value == state.metadata[id]
    {
      if id in state.metadata then Some(state.metadata[id]) else None
    }

    /** `updateMetadata(id, changes)`; the move event reads the metadata as
        it was before this update. */
    method UpdateMetadata(id: string, changes: MetadataChanges, throws: Handler -> bool)
      requires Valid()
      modifies this, dispatcher
      ensures Valid() && zIndexCounter == old(zIndexCounter)
      ensures state == Reduce(old(state), Action.UpdateMetadata(id, changes))
      ensures dispatcher.subscriptions == old(dispatcher.subscriptions)
      ensures dispatcher.log == old(dispatcher.log)
        + Broadcast(dispatcher.subscriptions, UpdateEvents(id, changes, old(GetMetadata(id))))
    {
      var meta := GetMetadata(id);
      ReducePreservesValid(state, Action.UpdateMetadata(id, changes));
      state := Reduce(state, Action.UpdateMetadata(id, changes));
      dispatcher.DispatchAll(UpdateEvents(id, changes, meta), throws);
    }

    /** `select(id)`: the event goes out even when the id was already selected. */
    method Select(id: string, throws: Handler -> bool)
      requires Valid()
      modifies this, dispatcher
      ensures Valid() && zIndexCounter == old(zIndexCounter)
      ensures state == Reduce(old(state), Action.Select(id))
      ensures dispatcher.subscriptions == old(dispatcher.subscriptions)
      ensures dispatcher.log == old(dispatcher.log)
        + Deliveries(dispatcher.subscriptions, Event(StoreTypes.Select, id, NoPayload))
    {
      ReducePreservesValid(state, Action.Select(id));
      state := Reduce(state, Action.Select(id));
      var _ := dispatcher.Dispatch(Event(StoreTypes.Select, id, NoPayload), throws);
    }

    /** `deselect(id)`: the event goes out even when the id was not selected. */
    method Deselect(id: string, throws: Handler -> bool)
      requires Valid()
      modifies this, dispatcher
      ensures Valid() && zIndexCounter == old(zIndexCounter)
      ensures state == Reduce(old(state), Action.Deselect(id))
      ensures dispatcher.subscriptions == old(dispatcher.subscriptions)
      ensures dispatcher.log == old(dispatcher.log)
        + Deliveries(dispatcher.subscriptions, Event(StoreTypes.Deselect, id, NoPayload))
    {
      ReducePreservesValid(state, Action.Deselect(id));
      state := Reduce(state, Action.Deselect(id));
      var _ := dispatcher.Dispatch(Event(StoreTypes.Deselect, id, NoPayload), throws);
    }

    /** `toggleSelect(id)`: the event names the new selection status. */
    method ToggleSelect(id: string, throws: Handler -> bool)
      requires Valid()
      modifies this, dispatcher
      ensures Valid() && zIndexCounter == old(zIndexCounter)
      ensures state == Reduce(old(state), Action.ToggleSelect(id))
      ensures dispatcher.subscriptions == old(dispatcher.subscriptions)
      ensures dispatcher.log == old(dispatcher.log) + Deliveries(dispatcher.subscriptions,
        Event(if id in old(state.selection) then StoreTypes.Deselect else StoreTypes.Select, id, NoPayload))
    {
      var wasSelected := id in state.selection;
      ReducePreservesValid(state, Action.ToggleSelect(id));
      state := Reduce(state, Action.ToggleSelect(id));
      var _ := dispatcher.Dispatch(Event(if wasSelected then StoreTypes.Deselect else StoreTypes.Select, id, NoPayload), throws);
    }

    /** `clearSelection()`: one `deselect` per selected id, in selection
        order, then the selection empties. */
    method ClearSelection(throws: Handler -> bool)
      requires Valid()
      modifies this, dispatcher
      ensures Valid() && zIndexCounter == old(zIndexCounter)
      ensures state == Reduce(old(state), Action.ClearSelection)
      ensures dispatcher.subscriptions == old(dispatcher.subscriptions)
      ensures dispatcher.log == old(dispatcher.log)
        + Broadcast(dispatcher.subscriptions, EventsFor(StoreTypes.Deselect, old(state.selection)))
    {
      dispatcher.DispatchAll(EventsFor(StoreTypes.Deselect, state.selection), throws);
      ReducePreservesValid(state, Action.ClearSelection);
      state := Reduce(state, Action.ClearSelection);
    }

    /** `clear()`: one `removed` per registered id, in registration order,
        then everything empties. */
    method Clear(throws: Handler -> bool)
      requires Valid()
      modifies this, dispatcher
      ensures Valid() && zIndexCounter == old(zIndexCounter)
      ensures state == EmptyStore
      ensures dispatcher.subscriptions == old(dispatcher.subscriptions)
      ensures dispatcher.log == old(dispatcher.log)
        + Broadcast(dispatcher.subscriptions, EventsFor(Removed, old(state.order)))
    {
      dispatcher.DispatchAll(EventsFor(Removed, state.order), throws);
      state := Reduce(state, ClearAll);
    }

    /** `getSelected()`. */
    function GetSelected(): (r: seq<string>)
      reads this
      ensures forall k :: k in r <==> k in state.selection
    {
      state.selection
    }

    /** `isSelected(id)`. */
    function IsSelected(id: string): (r: bool)
      reads this
      ensures r <==> id in GetSelected()
    {
      id in state.selection
    }
  }

  lemma {:induction false} DistinctCardinality(s: seq<string>, keys: set<string>)
    requires Distinct(s) && forall k :: k in s <==> k in keys
    ensures |s| == |keys|
    decreases |s|
  {
    if |s| > 0 {
      assert Distinct(s[1..]) by {
        forall i, j | 0 <= i < j < |s| - 1
          ensures s[1..][i] != s[1..][j]
        {
          assert s[1..][i] == s[i + 1] && s[1..][j] == s[j + 1];
        }
      }
      assert s[0] !in s[1..];
      assert forall k :: k in s[1..] <==> k in keys - {s[0]};
      DistinctCardinality(s[1..], keys - {s[0]});
    }
  }
}
