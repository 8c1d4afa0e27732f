/**
 What the service's cache holds after each gateway event, as functions of the
 cache before it, and what `getGroups` renders from it. The service object in
 module LightsService is proved to move its fields exactly as these functions
 say; the lemmas here say what that means.
 */
module CacheSpec {
  import opened Devices
  import opened EntityLists

  // ---------------------------------------------------------------------------
  // Lights and scenes: remove by id, then push

  /** The update pattern of both list handlers: drop the entries with x's id, then push x. */
  function Upsert<T(==,!new)>(s: seq<T>, x: T, idOf: T -> int): (r: seq<T>)
    ensures |r| > 0 && r[|r| - 1] == x
    ensures forall y :: y in r <==> y == x || (y in s && idOf(y) != idOf(x))
  {
    RemoveById(s, idOf(x), idOf) + [x]
  }

  /**
   After an upsert, x is the last entry and no other entry has its id; the
   entries with other ids are those of s, in their order; unique ids stay unique.
   */
  lemma UpsertReplaces<T(!new)>(s: seq<T>, x: T, idOf: T -> int)
    ensures var r := Upsert(s, x, idOf);
      && r[|r| - 1] == x
      && (forall i :: 0 <= i < |r| - 1 ==> idOf(r[i]) != idOf(x))
      && RemoveById(r, idOf(x), idOf) == RemoveById(s, idOf(x), idOf)
      && (UniqueIds(s, idOf) ==> UniqueIds(r, idOf))
  {
    var kept := RemoveById(s, idOf(x), idOf);
    RemoveConcat(kept, [x], idOf(x), idOf);
    assert [x][1..] == [];
    forall i | 0 <= i < |kept| ensures idOf(kept[i]) != idOf(x) {
      assert kept[i] in kept;
    }
    if UniqueIds(s, idOf) {
      RemoveKeepsUnique(s, idOf(x), idOf);
      AppendUnique(kept, x, idOf);
    }
  }

  /** Delivering the same update twice leaves the list as delivering it once. */
  lemma UpsertIdempotent<T(!new)>(s: seq<T>, x: T, idOf: T -> int)
    ensures Upsert(Upsert(s, x, idOf), x, idOf) == Upsert(s, x, idOf)
  {
    UpsertReplaces(s, x, idOf);
  }

  /** `addOrUpdateLight`: the old entry goes in any case; only a lightbulb is pushed. */
  function AfterDeviceUpdated(lights: seq<Accessory>, device: Accessory): (r: seq<Accessory>)
    ensures device.kind == Lightbulb ==> device in r
    ensures forall y :: y in r && y.instanceId != device.instanceId <==> y in lights && y.instanceId != device.instanceId
  {
    if device.kind == Lightbulb then Upsert(lights, device, LightId)
    else RemoveById(lights, device.instanceId, LightId)
  }

  /** Every cached accessory is a lightbulb. */
  predicate AllLightbulbs(lights: seq<Accessory>) {
    forall i :: 0 <= i < |lights| ==> lights[i].kind == Lightbulb
  }

  /**
   After a device update the cache holds an entry with the device's id exactly
   when the device is a lightbulb, and then that entry is the device, last in
   the list; other ids keep their entries and order; the cache invariants hold.
   */
  lemma DeviceUpdateReplaces(lights: seq<Accessory>, device: Accessory)
    ensures var r := AfterDeviceUpdated(lights, device);
      && (HasId(r, device.instanceId, LightId) <==> device.kind == Lightbulb)
      && (device.kind == Lightbulb ==>
            r[|r| - 1] == device && forall i :: 0 <= i < |r| - 1 ==> r[i].instanceId != device.instanceId)
      && RemoveById(r, device.instanceId, LightId) == RemoveById(lights, device.instanceId, LightId)
      && (UniqueIds(lights, LightId) ==> UniqueIds(r, LightId))
      && (AllLightbulbs(lights) ==> AllLightbulbs(r))
  {
    var r := AfterDeviceUpdated(lights, device);
    var kept := RemoveById(lights, device.instanceId, LightId);
    if device.kind == Lightbulb {
      UpsertReplaces(lights, device, LightId);
      assert Ids(r, LightId)[|r| - 1] == device.instanceId;
      if AllLightbulbs(lights) {
        forall i | 0 <= i < |r| ensures r[i].kind == Lightbulb {
          if i < |kept| {
            assert r[i] == kept[i] && kept[i] in kept;
          }
        }
      }
    } else {
      if UniqueIds(lights, LightId) {
        RemoveKeepsUnique(lights, device.instanceId, LightId);
      }
      if AllLightbulbs(lights) {
        forall i | 0 <= i < |r| ensures r[i].kind == Lightbulb {
          assert r[i] in kept;
        }
      }
    }
  }

  /** A repeated device update changes nothing. */
  lemma DeviceUpdateIdempotent(lights: seq<Accessory>, device: Accessory)
    ensures AfterDeviceUpdated(AfterDeviceUpdated(lights, device), device) == AfterDeviceUpdated(lights, device)
  {
    if device.kind == Lightbulb {
      UpsertIdempotent(lights, device, LightId);
    }
  }

  // ---------------------------------------------------------------------------
  // Any order of device events

  /** The two device events the service subscribes to. */
  datatype DeviceEvent = DeviceUpdated(device: Accessory) | DeviceRemoved(instanceId: int)

  function ApplyDeviceEvent(lights: seq<Accessory>, e: DeviceEvent): seq<Accessory> {
    match e
    case DeviceUpdated(d) => AfterDeviceUpdated(lights, d)
    case DeviceRemoved(id) => RemoveById(lights, id, LightId)
  }

  /** The cache after the events, handled one at a time, first to last. */
  function ReplayDevices(lights: seq<Accessory>, events: seq<DeviceEvent>): seq<Accessory>
    decreases |events|
  {
    if events == [] then lights
    else ApplyDeviceEvent(ReplayDevices(lights, events[..|events| - 1]), events[|events| - 1])
  }

  /**
   What the last event about an id leaves cached for it: the device of an update
   if it is a lightbulb, nothing after a non-lightbulb update or a removal, and
   `before` when no event mentions the id.
   */
  function LastWord(before: Option<Accessory>, events: seq<DeviceEvent>, id: int): Option<Accessory>
    decreases |events|
  {
    if events == [] then before
    else
      var init := events[..|events| - 1];
      match events[|events| - 1]
      case DeviceUpdated(d) =>
        if d.instanceId != id then LastWord(before, init, id)
        else if d.kind == Lightbulb then Some(d) else None
      case DeviceRemoved(removed) =>
        if removed != id then LastWord(before, init, id) else None
  }

  /** One event changes a lookup only for the id it is about. */
  lemma FirstAfterDeviceEvent(lights: seq<Accessory>, e: DeviceEvent, id: int)
    ensures FirstWithId(ApplyDeviceEvent(lights, e), id, LightId) == LastWord(FirstWithId(lights, id, LightId), [e], id)
  {
    assert [e][..0] == [];
    match e
    case DeviceRemoved(removed) =>
      FirstAfterRemove(lights, removed, id, LightId);
    case DeviceUpdated(d) =>
      var kept := RemoveById(lights, d.instanceId, LightId);
      FirstAfterRemove(lights, d.instanceId, id, LightId);
      if d.kind == Lightbulb {
        FirstAfterAppend(kept, d, id, LightId);
      }
  }

  /**
   Whatever the order in which device events arrive, a lookup afterwards finds
   what the last event about that id says.
   */
  lemma {:induction false} ReplayFindsLastWord(lights: seq<Accessory>, events: seq<DeviceEvent>, id: int)
    ensures FirstWithId(ReplayDevices(lights, events), id, LightId) == LastWord(FirstWithId(lights, id, LightId), events, id)
    decreases |events|
  {
    if events != [] {
      var n := |events| - 1;
      var init := events[..n];
      ReplayFindsLastWord(lights, init, id);
      var mid := ReplayDevices(lights, init);
      FirstAfterDeviceEvent(mid, events[n], id);
      assert [events[n]][..0] == [];
    }
  }

  /** Any sequence of device events keeps the cache free of duplicate ids and of non-lightbulbs. */
  lemma {:induction false} ReplayKeepsInvariant(lights: seq<Accessory>, events: seq<DeviceEvent>)
    requires UniqueIds(lights, LightId) && AllLightbulbs(lights)
    ensures UniqueIds(ReplayDevices(lights, events), LightId) && AllLightbulbs(ReplayDevices(lights, events))
    decreases |events|
  {
    if events != [] {
      var n := |events| - 1;
      ReplayKeepsInvariant(lights, events[..n]);
      var mid := ReplayDevices(lights, events[..n]);
      match events[n]
      case DeviceUpdated(d) =>
        DeviceUpdateReplaces(mid, d);
      case DeviceRemoved(removed) =>
        RemoveKeepsUnique(mid, removed, LightId);
        var r := RemoveById(mid, removed, LightId);
        forall i | 0 <= i < |r| ensures r[i].kind == Lightbulb {
          assert r[i] in mid;
        }
    }
  }

  // ---------------------------------------------------------------------------
  // The group map: names to member ids, in insertion order

  /** One entry of `groupLightsMap`. A JS Map iterates its keys in insertion order, so the map is a list of entries. */
  datatype GroupEntry = GroupEntry(name: string, deviceIDs: seq<int>)

  /** `Array.from(map.keys())` */
  function Keys(m: seq<GroupEntry>): (r: seq<string>)
    ensures |r| == |m| && forall i :: 0 <= i < |m| ==> r[i] == m[i].name
  {
    seq(|m|, i requires 0 <= i < |m| => m[i].name)
  }

  predicate UniqueKeys(m: seq<GroupEntry>) {
    forall i, j :: 0 <= i < j < |m| ==> m[i].name != m[j].name
  }

  /** The position of a name's entry: the first one carrying it. */
  function KeyIndex(m: seq<GroupEntry>, name: string): (i: nat)
    requires name in Keys(m)
    ensures i < |m| && m[i].name == name && forall j :: 0 <= j < i ==> m[j].name != name
  {
    if m[0].name == name then 0
    else
      assert name in Keys(m[1..]) by {
        var k :| 0 <= k < |m| && Keys(m)[k] == name;
        assert Keys(m[1..])[k - 1] == name;
      }
      var k := KeyIndex(m[1..], name);
      assert m[k + 1] == m[1..][k];
      k + 1
  }

  /** `map.get(name)` */
  function Lookup(m: seq<GroupEntry>, name: string): (r: Option<seq<int>>)
    ensures r.None? <==> name !in Keys(m)
    ensures UniqueKeys(m) ==> forall i :: 0 <= i < |m| && m[i].name == name ==> r == Some(m[i].deviceIDs)
  {
    if name in Keys(m) then Some(m[KeyIndex(m, name)].deviceIDs) else None
  }

  /** `map.set(name, ids)`: overwrite the entry in place when the name is a key, else append one. */
  function MapSet(m: seq<GroupEntry>, name: string, ids: seq<int>): (r: seq<GroupEntry>)
    ensures |m| <= |r| <= |m| + 1
    ensures GroupEntry(name, ids) in r
    ensures forall i :: 0 <= i < |m| && m[i].name != name ==> r[i] == m[i]
  {
    if name in Keys(m) then
      var i := KeyIndex(m, name);
      var r := m[i := GroupEntry(name, ids)];
      assert r[i] in r;
      r
    else
      var r := m + [GroupEntry(name, ids)];
      assert r[|m|] in r;
      r
  }

  /** A new name is appended to the key order; an existing one keeps its place. */
  lemma MapSetKeys(m: seq<GroupEntry>, name: string, ids: seq<int>)
    ensures Keys(MapSet(m, name, ids)) == if name in Keys(m) then Keys(m) else Keys(m) + [name]
    ensures UniqueKeys(m) ==> UniqueKeys(MapSet(m, name, ids))
  {
    var r := MapSet(m, name, ids);
    if name in Keys(m) {
      assert Keys(r) == Keys(m);
    } else {
      assert Keys(r) == Keys(m) + [name];
      if UniqueKeys(m) {
        forall i, j | 0 <= i < j < |r| ensures r[i].name != r[j].name {
          if j == |m| {
            assert Keys(m)[i] == r[i].name;
          }
        }
      }
    }
  }

  /** After a set, the name maps to the new ids. */
  lemma MapSetLookupSame(m: seq<GroupEntry>, name: string, ids: seq<int>)
    ensures Lookup(MapSet(m, name, ids), name) == Some(ids)
  {
    var r := MapSet(m, name, ids);
    MapSetKeys(m, name, ids);
    if name in Keys(m) {
      var i := KeyIndex(m, name);
      assert Keys(r) == Keys(m);
      var k := KeyIndex(r, name);
      assert r[i].name == name;
      assert m[k].name == Keys(m)[k] == Keys(r)[k] == r[k].name;
    } else {
      assert Keys(r)[|m|] == name;
      forall j | 0 <= j < |m| ensures r[j].name != name {
        assert r[j] == m[j] && Keys(m)[j] == m[j].name;
      }
    }
  }

  /** A set leaves every other name mapped to what it was mapped to before. */
  lemma MapSetLookupOther(m: seq<GroupEntry>, name: string, ids: seq<int>, other: string)
    requires other != name
    ensures Lookup(MapSet(m, name, ids), other) == Lookup(m, other)
  {
    var r := MapSet(m, name, ids);
    MapSetKeys(m, name, ids);
    assert |r| == |m| || (|r| == |m| + 1 && r[|m|].name == name);
    assert forall j :: 0 <= j < |m| && r[j].name != name ==> r[j] == m[j];
    if other in Keys(m) {
      var i := KeyIndex(m, other);
      assert r[i] == m[i];
      assert Keys(r)[i] == other;
      var k := KeyIndex(r, other);
      assert m[k] == r[k];
    } else {
      forall j | 0 <= j < |r| ensures Keys(r)[j] != other {
        if j < |m| {
          assert Keys(m)[j] == m[j].name;
        }
      }
    }
  }

  // ---------------------------------------------------------------------------
  // Rendering

  /** The JSON shape of one light in the group listing. */
  datatype LightResponse = LightResponse(
    name: string,
    id: int,
    spectrum: Option<Spectrum>,
    color: string,
    brightness: int)

  datatype GroupResponse = GroupResponse(name: string, lights: seq<LightResponse>)

  datatype SceneResponse = SceneResponse(name: string, id: int)

  /**
   One cached light as the listing shows it, read off its first light state.
   Without one, the spectrum is absent, the colour is the string '#undefined'
   and the brightness 0; a light that is off shows brightness 0 whatever its
   dimmer level.
   */
  function RenderLight(light: Accessory): (r: LightResponse)
    ensures r.name == light.name && r.id == light.instanceId && r.spectrum == FirstSpectrum(light)
    ensures |light.lightList| == 0 ==> r.color == "#undefined" && r.brightness == 0
    ensures |light.lightList| > 0 ==> r.color == "#" + light.lightList[0].color
    ensures |light.lightList| > 0 && !light.lightList[0].onOff ==> r.brightness == 0
    ensures |light.lightList| > 0 && light.lightList[0].onOff ==> r.brightness == light.lightList[0].dimmer
  {
    if |light.lightList| == 0 then LightResponse(light.name, light.instanceId, None, "#undefined", 0)
    else
      var first := light.lightList[0];
      LightResponse(light.name, light.instanceId, Some(first.spectrum), "#" + first.color,
                    if first.onOff then first.dimmer else 0)
  }

  function ResponseIds(r: seq<LightResponse>): (ids: seq<int>)
    ensures |ids| == |r| && forall i :: 0 <= i < |r| ==> ids[i] == r[i].id
  {
    seq(|r|, i requires 0 <= i < |r| => r[i].id)
  }

  /**
   The lights of one group: the member ids that are cached, each rendered from
   the first cached light with that id, in member-list order.
   */
  function RenderMembers(members: seq<int>, lights: seq<Accessory>): (r: seq<LightResponse>)
    ensures |r| <= |members|
  {
    if members == [] then []
    else
      (if HasId(lights, members[0], LightId) then [RenderLight(FirstWithId(lights, members[0], LightId).value)] else [])
      + RenderMembers(members[1..], lights)
  }

  /** x is the rendering of a member id that is cached, made from the first cached light with that id. */
  predicate ShowsCachedMember(members: seq<int>, lights: seq<Accessory>, x: LightResponse) {
    && x.id in members
    && HasId(lights, x.id, LightId)
    && x == RenderLight(FirstWithId(lights, x.id, LightId).value)
  }

  /** Every rendered light is a member that is cached, shown as its cached entry: no stale id is ever rendered. */
  lemma {:induction false} RenderedAreCachedMembers(members: seq<int>, lights: seq<Accessory>)
    ensures forall x :: x in RenderMembers(members, lights) ==> ShowsCachedMember(members, lights, x)
  {
    if members != [] {
      RenderedAreCachedMembers(members[1..], lights);
      var m := members[0];
      var r := RenderMembers(members, lights);
      var rest := RenderMembers(members[1..], lights);
      assert members == [m] + members[1..];
      if HasId(lights, m, LightId) {
        var h := RenderLight(FirstWithId(lights, m, LightId).value);
        assert r == [h] + rest;
        assert h.id == m;
      } else {
        assert r == rest;
      }
      forall x | x in r ensures ShowsCachedMember(members, lights, x) {
        if x in rest {
          assert ShowsCachedMember(members[1..], lights, x);
        }
      }
    }
  }

  /** Every member that is cached is rendered. */
  lemma {:induction false} RenderedCoverCachedMembers(members: seq<int>, lights: seq<Accessory>, id: int)
    requires id in members && HasId(lights, id, LightId)
    ensures id in ResponseIds(RenderMembers(members, lights))
  {
    var r := RenderMembers(members, lights);
    var rest := RenderMembers(members[1..], lights);
    if members[0] == id {
      assert ResponseIds(r)[0] == id;
    } else {
      RenderedCoverCachedMembers(members[1..], lights, id);
      var k :| 0 <= k < |rest| && ResponseIds(rest)[k] == id;
      var d := |r| - |rest|;
      assert r[k + d] == rest[k];
      assert ResponseIds(r)[k + d] == id;
    }
  }

  /** The rendered ids follow the member list's order. */
  lemma {:induction false} RenderedInMemberOrder(members: seq<int>, lights: seq<Accessory>)
    ensures IsSubsequence(ResponseIds(RenderMembers(members, lights)), members)
  {
    if members != [] {
      var m := members[0];
      var r := RenderMembers(members, lights);
      var rest := RenderMembers(members[1..], lights);
      RenderedInMemberOrder(members[1..], lights);
      if HasId(lights, m, LightId) {
        assert ResponseIds(r)[1..] == ResponseIds(rest);
      } else {
        RenderedAreCachedMembers(members[1..], lights);
        assert r == rest;
        if rest != [] {
          assert ResponseIds(rest)[0] == rest[0].id;
          assert rest[0] in rest;
          assert ResponseIds(rest)[0] != members[0];
        }
      }
    }
  }

  /**
   A member id is rendered once per occurrence in the member list when it is
   cached, and never when it is not.
   */
  lemma {:induction false} RenderedCountsMembers(members: seq<int>, lights: seq<Accessory>)
    ensures forall id :: multiset(ResponseIds(RenderMembers(members, lights)))[id]
                         == if HasId(lights, id, LightId) then multiset(members)[id] else 0
  {
    if members != [] {
      var m := members[0];
      RenderedCountsMembers(members[1..], lights);
      var rest := ResponseIds(RenderMembers(members[1..], lights));
      var head := if HasId(lights, m, LightId) then [m] else [];
      var ids := ResponseIds(RenderMembers(members, lights));
      assert ids == head + rest;
      assert multiset(ids) == multiset(head) + multiset(rest);
      assert members == [m] + members[1..];
      assert multiset(members) == multiset{m} + multiset(members[1..]);
      forall id ensures multiset(ids)[id] == if HasId(lights, id, LightId) then multiset(members)[id] else 0 {
        assert multiset(head)[id] == if HasId(lights, id, LightId) then multiset{m}[id] else 0;
      }
    }
  }

  /** A group whose members are all cached renders every member, in order. */
  lemma {:induction false} RenderedAllWhenAllCached(members: seq<int>, lights: seq<Accessory>)
    requires forall id :: id in members ==> HasId(lights, id, LightId)
    ensures ResponseIds(RenderMembers(members, lights)) == members
  {
    if members != [] {
      RenderedAllWhenAllCached(members[1..], lights);
      var r := RenderMembers(members, lights);
      assert ResponseIds(r) == [members[0]] + ResponseIds(RenderMembers(members[1..], lights));
    }
  }

  /**
   `shown` is a faithful listing of a group: only cached members, each as its
   cached light, every cached member present, as often as it occurs in the
   member list, in member-list order.
   */
  ghost predicate ListsGroup(members: seq<int>, lights: seq<Accessory>, shown: seq<LightResponse>) {
    && (forall x :: x in shown ==> ShowsCachedMember(members, lights, x))
    && (forall id :: id in members && HasId(lights, id, LightId) ==> id in ResponseIds(shown))
    && (forall id :: multiset(ResponseIds(shown))[id] == if HasId(lights, id, LightId) then multiset(members)[id] else 0)
    && IsSubsequence(ResponseIds(shown), members)
  }

  /** Every group of the map is listed faithfully. */
  lemma RenderListsEveryGroup(m: seq<GroupEntry>, lights: seq<Accessory>)
    ensures forall k :: 0 <= k < |m| ==> ListsGroup(m[k].deviceIDs, lights, RenderMembers(m[k].deviceIDs, lights))
  {
    forall k | 0 <= k < |m| ensures ListsGroup(m[k].deviceIDs, lights, RenderMembers(m[k].deviceIDs, lights)) {
      var members := m[k].deviceIDs;
      RenderedAreCachedMembers(members, lights);
      RenderedInMemberOrder(members, lights);
      RenderedCountsMembers(members, lights);
      forall id | id in members && HasId(lights, id, LightId)
        ensures id in ResponseIds(RenderMembers(members, lights))
      {
        RenderedCoverCachedMembers(members, lights, id);
      }
    }
  }
}
