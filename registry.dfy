/** The instance registry (`IconCraftRegistry`): a primary map from id to
    instance plus two secondary indexes, by shape mode and by shape colour.
    JavaScript Maps and Sets keep insertion order, so each is modelled with
    its order: the primary map by a key sequence, each index bucket (a Set
    of ids) by a duplicate-free sequence. */
module Registry {
  import opened Text
  import opened Types
  import opened Instance

  function ModeOf(i: IconCraftInstance): ShapeMode {
    i.config.mode
  }

  function ColorOf(i: IconCraftInstance): string {
    i.config.shapeColor
  }

  ghost predicate DistinctIds(s: seq<string>) {
    forall i, j :: 0 <= i < j < |s| ==> s[i] != s[j]
  }

  /** `set.add(id)`: appended unless already present. */
  function AddId(s: seq<string>, id: string): (r: seq<string>)
    ensures id in r && forall x :: x in r <==> x in s || x == id
    ensures DistinctIds(s) ==> DistinctIds(r)
  {
    if id in s then s else s + [id]
  }

  /** `set.delete(id)` (and `Map.delete` on the key order). */
  function RemoveId(s: seq<string>, id: string): (r: seq<string>)
    ensures forall x :: x in r <==> x in s && x != id
    ensures DistinctIds(s) ==> DistinctIds(r)
    ensures |r| <= |s|
    decreases |s|
  {
    if |s| == 0 then []
    else
      var rest := RemoveId(s[1..], id);
      if s[0] == id then rest
      else
        assert DistinctIds(s) ==> s[0] !in s[1..];
        [s[0]] + rest
  }

  /** An index is well formed when no bucket is empty or repeats an id, and
      every registered instance is in the bucket for its own key. */
  ghost predicate IndexWellFormed<K>(index: map<K, seq<string>>, byId: map<string, IconCraftInstance>, key: IconCraftInstance -> K) {
    && (forall k :: k in index ==> |index[k]| > 0 && DistinctIds(index[k]))
    && (forall id :: id in byId ==> key(byId[id]) in index && id in index[key(byId[id])])
  }

  /** An index is exact when every id in a bucket is registered under that key. */
  ghost predicate IndexExact<K>(index: map<K, seq<string>>, byId: map<string, IconCraftInstance>, key: IconCraftInstance -> K) {
    forall k, id :: k in index && id in index[k] ==> id in byId && key(byId[id]) == k
  }

  /** The index after `register`: the id is added to its key's bucket, which
      is created when missing. */
  function IndexAdd<K>(index: map<K, seq<string>>, k: K, id: string): map<K, seq<string>> {
    index[k := AddId(if k in index then index[k] else [], id)]
  }

  /** The index after `unregister`: the id leaves its key's bucket, and an
      emptied bucket is deleted. */
  function IndexRemove<K>(index: map<K, seq<string>>, k: K, id: string): map<K, seq<string>> {
    if k !in index then index
    else
      var b := RemoveId(index[k], id);
      if |b| == 0 then index - {k} else index[k := b]
  }

  lemma IndexAddKeepsWellFormed<K>(index: map<K, seq<string>>, byId: map<string, IconCraftInstance>,
                                   key: IconCraftInstance -> K, inst: IconCraftInstance)
    requires IndexWellFormed(index, byId, key)
    ensures IndexWellFormed(IndexAdd(index, key(inst), inst.id), byId[inst.id := inst], key)
  {
  }

  lemma IndexAddKeepsExact<K>(index: map<K, seq<string>>, byId: map<string, IconCraftInstance>,
                              key: IconCraftInstance -> K, inst: IconCraftInstance)
    requires IndexExact(index, byId, key)
    requires inst.id in byId ==> key(byId[inst.id]) == key(inst)
    ensures IndexExact(IndexAdd(index, key(inst), inst.id), byId[inst.id := inst], key)
  {
  }

  lemma IndexRemoveKeepsWellFormed<K>(index: map<K, seq<string>>, byId: map<string, IconCraftInstance>,
                                      key: IconCraftInstance -> K, id: string)
    requires IndexWellFormed(index, byId, key) && id in byId
    ensures IndexWellFormed(IndexRemove(index, key(byId[id]), id), byId - {id}, key)
  {
    var k := key(byId[id]);
    var r := IndexRemove(index, k, id);
    forall other | other in byId - {id}
      ensures key(byId[other]) in r && other in r[key(byId[other])]
    {
      var ko := key(byId[other]);
      if ko == k {
        assert other in RemoveId(index[k], id);
      }
    }
  }

  lemma IndexRemoveKeepsExact<K>(index: map<K, seq<string>>, byId: map<string, IconCraftInstance>,
                                 key: IconCraftInstance -> K, id: string)
    requires IndexExact(index, byId, key) && id in byId
    ensures IndexExact(IndexRemove(index, key(byId[id]), id), byId - {id}, key)
  {
  }

  // ---------------------------------------------------------------
  // Lexicographic order of ids (`localeCompare` taken as plain order)
  // ---------------------------------------------------------------

  predicate LexLe(a: string, b: string)
    decreases |a|
  {
    |a| == 0 || (|b| > 0 && (a[0] < b[0] || (a[0] == b[0] && LexLe(a[1..], b[1..]))))
  }

  lemma {:induction false} LexLeTotal(a: string, b: string)
    ensures LexLe(a, b) || LexLe(b, a)
    decreases |a|
  {
    if |a| > 0 && |b| > 0 && a[0] == b[0] {
      LexLeTotal(a[1..], b[1..]);
    }
  }

  lemma {:induction false} LexLeTrans(a: string, b: string, c: string)
    requires LexLe(a, b) && LexLe(b, c)
    ensures LexLe(a, c)
    decreases |a|
  {
    if |a| > 0 && a[0] == b[0] && b[0] == c[0] {
      LexLeTrans(a[1..], b[1..], c[1..]);
    }
  }

  lemma {:induction false} LexLeAntisym(a: string, b: string)
    requires LexLe(a, b) && LexLe(b, a)
    ensures a == b
    decreases |a|
  {
    if |a| > 0 {
      LexLeAntisym(a[1..], b[1..]);
      assert a == [a[0]] + a[1..] && b == [b[0]] + b[1..];
    }
  }

  /** The comparator of `getAllSorted(order)`: `cmp` for ascending, `-cmp` for descending. */
  predicate Before(a: string, b: string, asc: bool) {
    if asc then LexLe(a, b) else LexLe(b, a)
  }

  predicate SortedIds(s: seq<string>, asc: bool) {
    forall i, j :: 0 <= i < j < |s| ==> Before(s[i], s[j], asc)
  }

  function InsertSorted(x: string, s: seq<string>, asc: bool): (r: seq<string>)
    requires SortedIds(s, asc)
    ensures SortedIds(r, asc) && multiset(r) == multiset(s) + multiset{x}
    decreases |s|
  {
    if |s| == 0 then [x]
    else if Before(x, s[0], asc) then
      InsertFrontSorted(x, s, asc);
      [x] + s
    else
      LexLeTotal(x, s[0]);
      var rest := InsertSorted(x, s[1..], asc);
      InsertLaterSorted(x, s, rest, asc);
      [s[0]] + rest
  }

  /** An element that comes before the head of a sorted list comes before all of it. */
  lemma InsertFrontSorted(x: string, s: seq<string>, asc: bool)
    requires SortedIds(s, asc) && |s| > 0 && Before(x, s[0], asc)
    ensures SortedIds([x] + s, asc) && multiset([x] + s) == multiset(s) + multiset{x}
  {
    forall j | 0 <= j < |s| ensures Before(x, s[j], asc) {
      if j > 0 {
        if asc { LexLeTrans(x, s[0], s[j]); } else { LexLeTrans(s[j], s[0], x); }
      }
    }
    var r := [x] + s;
    forall i, j | 0 <= i < j < |r| ensures Before(r[i], r[j], asc) {
      if i > 0 {
        assert r[i] == s[i - 1] && r[j] == s[j - 1];
      } else {
        assert r[j] == s[j - 1];
      }
    }
  }

  /** The head of a sorted list stays first when `x` goes into its tail. */
  lemma InsertLaterSorted(x: string, s: seq<string>, rest: seq<string>, asc: bool)
    requires SortedIds(s, asc) && |s| > 0 && Before(s[0], x, asc)
    requires SortedIds(rest, asc) && multiset(rest) == multiset(s[1..]) + multiset{x}
    ensures SortedIds([s[0]] + rest, asc) && multiset([s[0]] + rest) == multiset(s) + multiset{x}
  {
    forall j | 0 <= j < |rest| ensures Before(s[0], rest[j], asc) {
      assert rest[j] in multiset(rest);
      if rest[j] != x {
        assert rest[j] in multiset(s[1..]);
        var k :| 0 <= k < |s[1..]| && s[1..][k] == rest[j];
        assert s[k + 1] == rest[j];
      }
    }
    var r := [s[0]] + rest;
    forall i, j | 0 <= i < j < |r| ensures Before(r[i], r[j], asc) {
      if i > 0 {
        assert r[i] == rest[i - 1] && r[j] == rest[j - 1];
      } else {
        assert r[j] == rest[j - 1];
      }
    }
    assert s == [s[0]] + s[1..];
  }

  /** `entries.sort(...)` on the ids. */
  function SortIds(s: seq<string>, asc: bool): (r: seq<string>)
    ensures SortedIds(r, asc) && multiset(r) == multiset(s)
    decreases |s|
  {
    if |s| == 0 then []
    else
      assert s == s[..|s| - 1] + [s[|s| - 1]];
      InsertSorted(s[|s| - 1], SortIds(s[..|s| - 1], asc), asc)
  }

  /** The ids of `ids` that are registered, in order. */
  function Registered(ids: seq<string>, byId: map<string, IconCraftInstance>): (r: seq<string>)
    ensures forall id :: id in r <==> id in ids && id in byId
    decreases |ids|
  {
    if |ids| == 0 then []
    else
      var rest := Registered(ids[1..], byId);
      assert forall id :: id in ids <==> id == ids[0] || id in ids[1..];
      if ids[0] in byId then [ids[0]] + rest else rest
  }

  /** The instances stored under `ids`, all of which are registered. */
  function LookupAll(ids: seq<string>, byId: map<string, IconCraftInstance>): (r: seq<IconCraftInstance>)
    requires forall id :: id in ids ==> id in byId
    ensures |r| == |ids| && forall i :: 0 <= i < |ids| ==> r[i] == byId[ids[i]]
    ensures forall id :: id in ids ==> byId[id] in r
  {
    var r := seq(|ids|, i requires 0 <= i < |ids| => byId[ids[i]]);
    assert forall id :: id in ids ==> byId[id] in r by {
      forall id | id in ids
        ensures byId[id] in r
      {
        var i :| 0 <= i < |ids| && ids[i] == id;
        assert r[i] == byId[id];
      }
    }
    r
  }

  /** `Array.from(ids).map(id => byId.get(id)).filter(defined)`. */
  function Resolve(ids: seq<string>, byId: map<string, IconCraftInstance>): seq<IconCraftInstance> {
    LookupAll(Registered(ids, byId), byId)
  }

  /** Resolving a bucket finds every instance registered under its key, and
      nothing else when the index is exact. */
  lemma ResolveBucket<K>(index: map<K, seq<string>>, byId: map<string, IconCraftInstance>,
                         key: IconCraftInstance -> K, k: K)
    requires IndexWellFormed(index, byId, key)
    ensures var r := Resolve(if k in index then index[k] else [], byId);
      && (k !in index ==> r == [])
      && (forall id :: id in byId && key(byId[id]) == k ==> byId[id] in r)
      && (IndexExact(index, byId, key) ==>
            forall i :: 0 <= i < |r| ==> key(r[i]) == k && exists id :: id in byId && byId[id] == r[i])
  {
    var ids := if k in index then index[k] else [];
    var found := Registered(ids, byId);
    var r := LookupAll(found, byId);
    if IndexExact(index, byId, key) {
      forall i | 0 <= i < |r| ensures key(r[i]) == k && exists id :: id in byId && byId[id] == r[i] {
        assert r[i] == byId[found[i]] && found[i] in ids;
      }
    }
  }

  /** The registry's invariant on its four fields: the key order lists each
      registered id once, every instance is stored under its own id, and both
      indexes are well formed. */
  ghost predicate RegistryValid(order: seq<string>, byId: map<string, IconCraftInstance>,
                                byMode: map<ShapeMode, seq<string>>, byColor: map<string, seq<string>>) {
    && DistinctIds(order)
    && (forall id :: id in byId <==> id in order)
    && (forall id :: id in byId ==> byId[id].id == id)
    && IndexWellFormed(byMode, byId, ModeOf)
    && IndexWellFormed(byColor, byId, ColorOf)
  }

  lemma RegisterKeepsValid(order: seq<string>, byId: map<string, IconCraftInstance>,
                           byMode: map<ShapeMode, seq<string>>, byColor: map<string, seq<string>>,
                           inst: IconCraftInstance,
                           order': seq<string>, byId': map<string, IconCraftInstance>,
                           byMode': map<ShapeMode, seq<string>>, byColor': map<string, seq<string>>)
    requires RegistryValid(order, byId, byMode, byColor)
    requires order' == (if inst.id in byId then order else order + [inst.id]) && byId' == byId[inst.id := inst]
    requires byMode' == IndexAdd(byMode, ModeOf(inst), inst.id) && byColor' == IndexAdd(byColor, ColorOf(inst), inst.id)
    ensures RegistryValid(order', byId', byMode', byColor')
  {
    IndexAddKeepsWellFormed(byMode, byId, ModeOf, inst);
    IndexAddKeepsWellFormed(byColor, byId, ColorOf, inst);
    assert forall id :: id in byId' <==> id in order';
  }

  /** Re-registering an id under its own mode and colour keeps both indexes exact. */
  lemma RegisterKeepsExact(byId: map<string, IconCraftInstance>,
                           byMode: map<ShapeMode, seq<string>>, byColor: map<string, seq<string>>,
                           inst: IconCraftInstance, byId': map<string, IconCraftInstance>,
                           byMode': map<ShapeMode, seq<string>>, byColor': map<string, seq<string>>)
    requires byId' == byId[inst.id := inst]
    requires byMode' == IndexAdd(byMode, ModeOf(inst), inst.id) && byColor' == IndexAdd(byColor, ColorOf(inst), inst.id)
    ensures (&& IndexExact(byMode, byId, ModeOf) && IndexExact(byColor, byId, ColorOf)
             && (inst.id in byId ==> ModeOf(byId[inst.id]) == ModeOf(inst) && ColorOf(byId[inst.id]) == ColorOf(inst)))
            ==> IndexExact(byMode', byId', ModeOf) && IndexExact(byColor', byId', ColorOf)
  {
    if && IndexExact(byMode, byId, ModeOf) && IndexExact(byColor, byId, ColorOf)
       && (inst.id in byId ==> ModeOf(byId[inst.id]) == ModeOf(inst) && ColorOf(byId[inst.id]) == ColorOf(inst))
    {
      IndexAddKeepsExact(byMode, byId, ModeOf, inst);
      IndexAddKeepsExact(byColor, byId, ColorOf, inst);
    }
  }

  lemma UnregisterKeepsValid(order: seq<string>, byId: map<string, IconCraftInstance>,
                             byMode: map<ShapeMode, seq<string>>, byColor: map<string, seq<string>>,
                             id: string,
                             order': seq<string>, byId': map<string, IconCraftInstance>,
                             byMode': map<ShapeMode, seq<string>>, byColor': map<string, seq<string>>)
    requires RegistryValid(order, byId, byMode, byColor) && id in byId
    requires order' == RemoveId(order, id) && byId' == byId - {id}
    requires byMode' == IndexRemove(byMode, ModeOf(byId[id]), id) && byColor' == IndexRemove(byColor, ColorOf(byId[id]), id)
    ensures RegistryValid(order', byId', byMode', byColor')
    ensures IndexExact(byMode, byId, ModeOf) && IndexExact(byColor, byId, ColorOf) ==>
              IndexExact(byMode', byId', ModeOf) && IndexExact(byColor', byId', ColorOf)
  {
    IndexRemoveKeepsWellFormed(byMode, byId, ModeOf, id);
    IndexRemoveKeepsWellFormed(byColor, byId, ColorOf, id);
    if IndexExact(byMode, byId, ModeOf) && IndexExact(byColor, byId, ColorOf) {
      IndexRemoveKeepsExact(byMode, byId, ModeOf, id);
      IndexRemoveKeepsExact(byColor, byId, ColorOf, id);
    }
  }

  /** Sorting keeps the ids and their number. */
  lemma SortIdsMembers(order: seq<string>, asc: bool)
    ensures |SortIds(order, asc)| == |order|
    ensures forall id :: id in SortIds(order, asc) <==> id in order
  {
    var ids := SortIds(order, asc);
    forall id ensures id in ids <==> id in order {
      assert id in ids <==> id in multiset(ids);
      assert id in order <==> id in multiset(order);
    }
    assert |ids| == |multiset(ids)| == |multiset(order)| == |order|;
  }

  /** The sorted ids are the registered ids, so each of them resolves. */
  lemma SortedLookup(order: seq<string>, byId: map<string, IconCraftInstance>, asc: bool)
    requires forall id :: id in byId <==> id in order
    requires forall id :: id in byId ==> byId[id].id == id
    ensures forall id :: id in SortIds(order, asc) ==> id in byId
    ensures var r := LookupAll(SortIds(order, asc), byId);
      && |r| == |order|
      && (forall i, j :: 0 <= i < j < |r| ==> Before(r[i].id, r[j].id, asc))
      && (forall id :: id in byId ==> byId[id] in r)
      && (forall i :: 0 <= i < |r| ==> r[i].id in byId && byId[r[i].id] == r[i])
  {
    var ids := SortIds(order, asc);
    SortIdsMembers(order, asc);
    var r := LookupAll(ids, byId);
    forall i | 0 <= i < |r| ensures r[i].id == ids[i] {
      assert ids[i] in order;
    }
  }

  /** Each registered id is listed once in the insertion order, so the
      registry's size is the order's length. */
  lemma {:induction false} RegisteredCount(order: seq<string>, byId: map<string, IconCraftInstance>)
    requires DistinctIds(order) && forall id :: id in byId <==> id in order
    ensures |byId| == |order|
    decreases |order|
  {
    if |order| > 0 {
      var rest := order[1..];
      var m := byId - {order[0]};
      assert DistinctIds(rest) by {
        forall i, j | 0 <= i < j < |rest|
          ensures rest[i] != rest[j]
        {
          assert rest[i] == order[i + 1] && rest[j] == order[j + 1];
        }
      }
      forall id
        ensures id in m <==> id in rest
      {
        if id in rest {
          var i :| 0 <= i < |rest| && rest[i] == id;
          assert order[i + 1] == id;
        }
        if id in order && id != order[0] {
          var i :| 0 <= i < |order| && order[i] == id;
          assert rest[i - 1] == id;
        }
      }
      RegisteredCount(rest, m);
      assert byId.Keys == m.Keys + {order[0]};
    }
  }

  lemma RegisteredCountIfValid(order: seq<string>, byId: map<string, IconCraftInstance>)
    ensures DistinctIds(order) && (forall id :: id in byId <==> id in order) ==> |byId| == |order|
  {
    if DistinctIds(order) && (forall id :: id in byId <==> id in order) {
      RegisteredCount(order, byId);
    }
  }

  /** The loop of `getStats()` over one index: every key with its bucket's size. */
  method CountBuckets<K(==)>(buckets: map<K, seq<string>>) returns (counts: map<K, nat>)
    ensures counts == map k | k in buckets :: |buckets[k]|
  {
    var keys := buckets.Keys;
    counts := map[];
    while keys != {}
      invariant keys <= buckets.Keys
      invariant counts.Keys == buckets.Keys - keys
      invariant forall k :: k in counts ==> counts[k] == |buckets[k]|
      decreases |keys|
    {
      var k :| k in keys;
      counts := counts[k := |buckets[k]|];
      keys := keys - {k};
    }
  }

  /** Statistics as `getStats()` reports them. */
  datatype Stats = Stats(total: nat, byMode: map<ShapeMode, nat>, byColor: map<string, nat>)

  class IconCraftRegistry {
    /** Insertion order of `byId`'s keys. */
    var order: seq<string>
    var byId: map<string, IconCraftInstance>
    var byMode: map<ShapeMode, seq<string>>
    var byColor: map<string, seq<string>>

    ghost predicate Valid()
      reads this
    {
      RegistryValid(order, byId, byMode, byColor)
    }

    /** Kept unless an id is registered again with another mode or colour:
        every indexed id is registered under that mode or colour. */
    ghost predicate Exact()
      reads this
    {
      IndexExact(byMode, byId, ModeOf) && IndexExact(byColor, byId, ColorOf)
    }

    constructor()
      ensures Valid() && Exact()
      ensures order == [] && byId == map[] && byMode == map[] && byColor == map[]
    {
      order := [];
      byId := map[];
      byMode := map[];
      byColor := map[];
    }

    /** `register(instance)`. */
    method Register(inst: IconCraftInstance)
      requires Valid()
      modifies this
      ensures Valid()
      ensures byId == old(byId)[inst.id := inst]
      ensures order == (if inst.id in old(byId) then old(order) else old(order) + [inst.id])
      ensures byMode == IndexAdd(old(byMode), inst.config.mode, inst.id)
      ensures byColor == IndexAdd(old(byColor), inst.config.shapeColor, inst.id)
      ensures Get(inst.id) == Some(inst)
      ensures inst.id in FindIdsByMode(inst.config.mode) && inst.id in FindIdsByColor(inst.config.shapeColor)
      ensures (old(Exact()) && (inst.id in old(byId) ==>
                 old(byId)[inst.id].config.mode == inst.config.mode &&
                 old(byId)[inst.id].config.shapeColor == inst.config.shapeColor)) ==> Exact()
    {
      ghost var order0, byId0, byMode0, byColor0 := order, byId, byMode, byColor;
      if inst.id !in byId {
        order := order + [inst.id];
      }
      byId := byId[inst.id := inst];
      byMode := IndexAdd(byMode, inst.config.mode, inst.id);
      byColor := IndexAdd(byColor, inst.config.shapeColor, inst.id);
      RegisterKeepsValid(order0, byId0, byMode0, byColor0, inst, order, byId, byMode, byColor);
      RegisterKeepsExact(byId0, byMode0, byColor0, inst, byId, byMode, byColor);
    }

    /** `unregister(id)`: false and no change for an unknown id; otherwise
        the id leaves the primary map and both of its buckets, and emptied
        buckets are deleted. */
    method Unregister(id: string) returns (removed: bool)
      requires Valid()
      modifies this
      ensures Valid()
      ensures removed <==> id in old(byId)
      ensures !removed ==> order == old(order) && byId == old(byId) && byMode == old(byMode) && byColor == old(byColor)
      ensures removed ==>
        && byId == old(byId) - {id} && order == RemoveId(old(order), id)
        && byMode == IndexRemove(old(byMode), old(byId)[id].config.mode, id)
        && byColor == IndexRemove(old(byColor), old(byId)[id].config.shapeColor, id)
      ensures Get(id) == None
      ensures old(Exact()) ==> Exact()
    {
      if id !in byId {
        removed := false;
        return;
      }
      var inst := byId[id];
      ghost var order0, byId0, byMode0, byColor0 := order, byId, byMode, byColor;
      byId := byId - {id};
      order := RemoveId(order, id);
      byMode := IndexRemove(byMode, inst.config.mode, id);
      byColor := IndexRemove(byColor, inst.config.shapeColor, id);
      UnregisterKeepsValid(order0, byId0, byMode0, byColor0, id, order, byId, byMode, byColor);
      removed := true;
    }

    /** `get(id)`. */
    function Get(id: string): (r: Option<IconCraftInstance>)
      reads this
      ensures r.Some? <==> id in byId
      ensures r.Some? ==> r.value == byId[id]
    {
      if id in byId then Some(byId[id]) else None
    }

    /** `getAll()`: the registered instances in registration order. */
    function GetAll(): (r: seq<IconCraftInstance>)
      requires Valid()
      reads this
      ensures |r| == |order|
      ensures forall i :: 0 <= i < |r| ==> r[i] == byId[order[i]]
      ensures forall id :: id in byId ==> byId[id] in r
    {
      LookupAll(order, byId)
    }

    /** The id bucket `findByMode` reads, or `[]` when there is none. */
    function FindIdsByMode(m: ShapeMode): seq<string>
      reads this
    {
      if m in byMode then byMode[m] else []
    }

    function FindIdsByColor(c: string): seq<string>
      reads this
    {
      if c in byColor then byColor[c] else []
    }

    /** `findByMode(mode)`: every registered instance with that mode is
        found, and when the index is exact nothing else is. */
    function FindByMode(m: ShapeMode): (r: seq<IconCraftInstance>)
      requires Valid()
      reads this
      ensures m !in byMode ==> r == []
      ensures forall id :: id in byId && byId[id].config.mode == m ==> byId[id] in r
      ensures Exact() ==> forall i :: 0 <= i < |r| ==> r[i].config.mode == m && exists id :: id in byId && byId[id] == r[i]
    {
      ResolveBucket(byMode, byId, ModeOf, m);
      Resolve(FindIdsByMode(m), byId)
    }

    /** `findByColor(color)`, as `findByMode`. */
    function FindByColor(c: string): (r: seq<IconCraftInstance>)
      requires Valid()
      reads this
      ensures c !in byColor ==> r == []
      ensures forall id :: id in byId && byId[id].config.shapeColor == c ==> byId[id] in r
      ensures Exact() ==> forall i :: 0 <= i < |r| ==> r[i].config.shapeColor == c && exists id :: id in byId && byId[id] == r[i]
    {
      ResolveBucket(byColor, byId, ColorOf, c);
      Resolve(FindIdsByColor(c), byId)
    }

    /** `getAllSorted(order)`: the registered instances ordered by id,
        ascending or descending. */
    function GetAllSorted(asc: bool): (r: seq<IconCraftInstance>)
      requires Valid()
      reads this
      ensures |r| == |order|
      ensures forall i, j :: 0 <= i < j < |r| ==> Before(r[i].id, r[j].id, asc)
      ensures forall id :: id in byId ==> byId[id] in r
      ensures forall i :: 0 <= i < |r| ==> r[i].id in byId && byId[r[i].id] == r[i]
    {
      SortedLookup(order, byId, asc);
      LookupAll(SortIds(order, asc), byId)
    }

    /** `size`. */
    function Size(): (r: nat)
      reads this
      ensures Valid() ==> r == |order|
    {
      RegisteredCountIfValid(order, byId);
      |byId|
    }

    /** `clear()`. */
    method Clear()
      requires Valid()
      modifies this
      ensures Valid() && Exact() && Size() == 0
      ensures order == [] && byId == map[] && byMode == map[] && byColor == map[]
    {
      order := [];
      byId := map[];
      byMode := map[];
      byColor := map[];
    }

    /** `getStats()`: the total and the size of every bucket. */
    method GetStats() returns (s: Stats)
      requires Valid()
      ensures s.total == Size()
      ensures s.byMode == map m | m in byMode :: |byMode[m]|
      ensures s.byColor == map c | c in byColor :: |byColor[c]|
      ensures forall m :: m in s.byMode ==> s.byMode[m] > 0
      ensures forall c :: c in s.byColor ==> s.byColor[c] > 0
    {
      var modeCounts := CountBuckets(byMode);
      var colorCounts := CountBuckets(byColor);
      s := Stats(|byId|, modeCounts, colorCounts);
    }
  }

  /** With an exact index, `findByMode` returns exactly the registered
      instances of that mode. */
  lemma FindByModeExactly(r: IconCraftRegistry, m: ShapeMode)
    requires r.Valid() && r.Exact()
    ensures forall x :: x in r.FindByMode(m) <==> x in r.byId.Values && x.config.mode == m
  {
    forall x | x in r.byId.Values && x.config.mode == m
      ensures x in r.FindByMode(m)
    {
      var id :| id in r.byId && r.byId[id] == x;
    }
  }

  /** Registering an id again under another mode leaves it in the old mode's
      bucket, so `findByMode` of the old mode returns an instance of the new one. */
  method ReregisterLeavesStaleBucket(a: IconCraftInstance, b: IconCraftInstance) returns (found: seq<IconCraftInstance>)
    requires a.id == b.id && a.config.mode != b.config.mode
    ensures b in found && b.config.mode != a.config.mode
  {
    var reg := new IconCraftRegistry();
    reg.Register(a);
    reg.Register(b);
    found := reg.FindByMode(a.config.mode);
    assert a.id in reg.FindIdsByMode(a.config.mode);
  }
}
