/**
 The lights service: a cache of the gateway's lightbulbs, scenes and groups,
 kept current by event handlers, and the queries and commands the HTTP
 endpoints call. Gateway calls go through a client object that records every
 call it is asked to make.
 */
module Service {
  import opened Devices
  import opened EntityLists
  import opened Commands
  import opened CacheSpec
  import opened UsageSorter

  /**
   The gateway client, reduced to the calls the service makes. Every call is
   appended to `sent`; whether the gateway accepts it is the caller's input.
   */
  class GatewayClient {
    var sent: seq<Command>

    constructor ()
      ensures sent == []
    {
      sent := [];
    }

    /** `operateLight` / `operateGroup`: the call is made, then the promise resolves or rejects. */
    method Call(c: Command, accepted: bool) returns (outcome: Outcome)
      modifies this
      ensures sent == old(sent) + [c]
      ensures outcome == Answer(true, accepted)
    {
      sent := sent + [c];
      outcome := if accepted then Returned else Threw(GatewayRejected);
    }
  }

  class LightsService {
    /** The connection start-up produced, if any; it is never replaced afterwards. */
    const connection: Option<GatewayClient>
    var scenes: seq<Scene>
    var lights: seq<Accessory>
    var groupLightsMap: seq<GroupEntry>
    var superGroup: Option<Group>
    const scenesUsageSorter: IPSODeviceUsageSorter

    /** The cache invariant: one entry per id, only lightbulbs, and the reserved group kept out of the map. */
    ghost predicate Valid()
      reads this
    {
      && UniqueIds(lights, LightId)
      && AllLightbulbs(lights)
      && UniqueIds(scenes, SceneId)
      && UniqueKeys(groupLightsMap)
      && SuperGroupName !in Keys(groupLightsMap)
    }

    /** The objects a gateway call may change. */
    function Gateway(): set<object> {
      if connection.Some? then {connection.value} else {}
    }

    constructor (connection: Option<GatewayClient>)
      ensures Valid()
      ensures this.connection == connection
      ensures scenes == [] && lights == [] && groupLightsMap == [] && superGroup == None
      ensures fresh(scenesUsageSorter) && scenesUsageSorter.entities == map[]
    {
      this.connection := connection;
      scenes := [];
      lights := [];
      groupLightsMap := [];
      superGroup := None;
      scenesUsageSorter := new IPSODeviceUsageSorter();
    }

    // -------------------------------------------------------------------------
    // Event handlers

    /** 'scene removed' */
    method DeleteScene(id: int)
      requires Valid()
      modifies this
      ensures Valid()
      ensures scenes == RemoveById(old(scenes), id, SceneId)
      ensures lights == old(lights) && groupLightsMap == old(groupLightsMap) && superGroup == old(superGroup)
    {
      RemoveKeepsUnique(scenes, id, SceneId);
      scenes := RemoveById(scenes, id, SceneId);
    }

    /** 'scene updated': drop the scene's old entry, push the new one. */
    method AddOrUpdateScene(scene: Scene)
      requires Valid()
      modifies this
      ensures Valid()
      ensures scenes == Upsert(old(scenes), scene, SceneId)
      ensures lights == old(lights) && groupLightsMap == old(groupLightsMap) && superGroup == old(superGroup)
    {
      UpsertReplaces(scenes, scene, SceneId);
      DeleteScene(scene.instanceId);
      scenes := scenes + [scene];
    }

    /** 'device removed' */
    method DeleteLight(id: int)
      requires Valid()
      modifies this
      ensures Valid()
      ensures lights == RemoveById(old(lights), id, LightId)
      ensures scenes == old(scenes) && groupLightsMap == old(groupLightsMap) && superGroup == old(superGroup)
    {
      RemoveKeepsUnique(lights, id, LightId);
      lights := RemoveById(lights, id, LightId);
      forall i | 0 <= i < |lights| ensures lights[i].kind == Lightbulb {
        assert lights[i] in old(lights);
      }
    }

    /** 'device updated': drop the device's old entry in any case, push it only if it is a lightbulb. */
    method AddOrUpdateLight(device: Accessory)
      requires Valid()
      modifies this
      ensures Valid()
      ensures lights == AfterDeviceUpdated(old(lights), device)
      ensures scenes == old(scenes) && groupLightsMap == old(groupLightsMap) && superGroup == old(superGroup)
    {
      DeviceUpdateReplaces(lights, device);
      DeleteLight(device.instanceId);
      if device.kind == Lightbulb {
        lights := lights + [device];
      }
    }

    /** 'group updated': the reserved name replaces the super-group, any other name is set in the map. */
    method GroupUpdated(group: Group)
      requires Valid()
      modifies this
      ensures Valid()
      ensures group.name == SuperGroupName ==> superGroup == Some(group) && groupLightsMap == old(groupLightsMap)
      ensures group.name != SuperGroupName ==>
        superGroup == old(superGroup) && groupLightsMap == MapSet(old(groupLightsMap), group.name, group.deviceIDs)
      ensures lights == old(lights) && scenes == old(scenes)
    {
      if group.name == SuperGroupName {
        superGroup := Some(group);
      } else {
        MapSetKeys(groupLightsMap, group.name, group.deviceIDs);
        groupLightsMap := MapSet(groupLightsMap, group.name, group.deviceIDs);
      }
    }

    // -------------------------------------------------------------------------
    // Queries

    /**
     `getGroups`: one entry per map key, in key order, each listing exactly its
     cached members in member-list order.
     */
    function GetGroups(): (r: seq<GroupResponse>)
      reads this
      ensures |r| == |groupLightsMap|
      ensures forall k :: 0 <= k < |r| ==> r[k].name == Keys(groupLightsMap)[k]
      ensures forall k :: 0 <= k < |r| ==> ListsGroup(groupLightsMap[k].deviceIDs, lights, r[k].lights)
    {
      RenderListsEveryGroup(groupLightsMap, lights);
      seq(|groupLightsMap|, k requires 0 <= k < |groupLightsMap| reads this =>
        GroupResponse(groupLightsMap[k].name, RenderMembers(groupLightsMap[k].deviceIDs, lights)))
    }

    /**
     `getScenes`: sorts the cached scene list itself by the usage ranking and
     lists the result; usage counts are not touched.
     */
    method GetScenes() returns (r: seq<SceneResponse>)
      requires Valid()
      modifies this
      ensures Valid()
      ensures scenes == InsertionSort(ComparatorOf(scenesUsageSorter.entities), old(scenes))
      ensures multiset(scenes) == multiset(old(scenes))
      ensures Ranked(ComparatorOf(scenesUsageSorter.entities), scenes)
      ensures |r| == |scenes| && forall i :: 0 <= i < |r| ==> r[i] == SceneResponse(scenes[i].name, scenes[i].instanceId)
      ensures lights == old(lights) && groupLightsMap == old(groupLightsMap) && superGroup == old(superGroup)
    {
      var a := new Scene[|scenes|](i requires 0 <= i < |scenes| reads this => scenes[i]);
      assert a[..] == scenes;
      var sorted := scenesUsageSorter.Sort(a);
      SortKeepsUniqueIds(ComparatorOf(scenesUsageSorter.entities), scenes);
      scenes := sorted[..];
      r := seq(|scenes|, i requires 0 <= i < |scenes| reads this => SceneResponse(scenes[i].name, scenes[i].instanceId));
    }

    // -------------------------------------------------------------------------
    // Commands

    /** `await this.connection?.call(...)`: skipped without a connection. */
    method Issue(c: Command, accepted: bool) returns (outcome: Outcome)
      modifies Gateway()
      ensures outcome == Answer(connection.Some?, accepted)
      ensures connection.Some? ==> connection.value.sent == old(connection.value.sent) + [c]
    {
      if connection.Some? {
        outcome := connection.value.Call(c, accepted);
      } else {
        outcome := Returned;
      }
    }

    /** Throws the builder's error without calling the gateway, or issues its command. */
    method Run(built: Result<Command>, accepted: bool) returns (outcome: Outcome)
      modifies Gateway()
      ensures outcome == if built.Failure? then Threw(built.error) else Answer(connection.Some?, accepted)
      ensures connection.Some? ==> connection.value.sent == old(connection.value.sent) + Sent(built)
    {
      if built.Failure? {
        outcome := Threw(built.error);
      } else {
        outcome := Issue(built.value, accepted);
      }
    }

    /** `setLightBrightness`; `rounded` is the requested fraction times 100, rounded. */
    method SetLightBrightness(lightId: int, rounded: int, accepted: bool) returns (outcome: Outcome)
      modifies Gateway()
      ensures !HasId(lights, lightId, LightId) ==> outcome == Threw(UnknownLightbulb)
      ensures HasId(lights, lightId, LightId) ==> outcome == Answer(connection.Some?, accepted)
      ensures connection.Some? ==>
        connection.value.sent == old(connection.value.sent) + Sent(BrightnessCommand(lights, lightId, rounded))
    {
      outcome := Run(BrightnessCommand(lights, lightId, rounded), accepted);
    }

    /** `setLightTemperature`; `rounded` is the requested fraction times 100, rounded. */
    method SetLightTemperature(lightId: int, rounded: int, accepted: bool) returns (outcome: Outcome)
      modifies Gateway()
      ensures !HasId(lights, lightId, LightId) ==> outcome == Threw(UnknownLightbulb)
      ensures HasId(lights, lightId, LightId) && !CanSetTemperature(FirstWithId(lights, lightId, LightId).value)
              ==> outcome == Threw(TemperatureNotSupported)
      ensures HasId(lights, lightId, LightId) && CanSetTemperature(FirstWithId(lights, lightId, LightId).value)
              ==> outcome == Answer(connection.Some?, accepted)
      ensures connection.Some? ==>
        connection.value.sent == old(connection.value.sent) + Sent(TemperatureCommand(lights, lightId, rounded))
    {
      outcome := Run(TemperatureCommand(lights, lightId, rounded), accepted);
    }

    /** `setLightColor` */
    method SetLightColor(lightId: int, hexColor: string, accepted: bool) returns (outcome: Outcome)
      modifies Gateway()
      ensures !HasId(lights, lightId, LightId) ==> outcome == Threw(UnknownLightbulb)
      ensures HasId(lights, lightId, LightId) && !CanSetColor(FirstWithId(lights, lightId, LightId).value)
              ==> outcome == Threw(ColorNotSupported)
      ensures HasId(lights, lightId, LightId) && CanSetColor(FirstWithId(lights, lightId, LightId).value)
              ==> outcome == Answer(connection.Some?, accepted)
      ensures connection.Some? ==>
        connection.value.sent == old(connection.value.sent) + Sent(ColorCommand(lights, lightId, hexColor))
    {
      outcome := Run(ColorCommand(lights, lightId, hexColor), accepted);
    }

    /** `setScene`: nothing to do without a super-group; otherwise activate the scene on it, forced. */
    method SetScene(sceneId: int, accepted: bool) returns (outcome: Outcome)
      modifies Gateway()
      ensures superGroup.None? ==> outcome == Returned
      ensures superGroup.Some? ==> outcome == Answer(connection.Some?, accepted)
      ensures connection.Some? ==>
        connection.value.sent == old(connection.value.sent) + SceneCall(superGroup, sceneId)
    {
      if superGroup.None? {
        outcome := Returned;
      } else {
        outcome := Issue(OperateGroup(superGroup.value, sceneId, true), accepted);
      }
    }

    /**
     The scene endpoint: `setScene`, then one more use of the scene unless
     `setScene` threw. A missing super-group still counts a use.
     */
    method ActivateScene(sceneId: int, accepted: bool) returns (outcome: Outcome)
      modifies Gateway(), scenesUsageSorter
      ensures superGroup.None? ==> outcome == Returned
      ensures superGroup.Some? ==> outcome == Answer(connection.Some?, accepted)
      ensures connection.Some? ==>
        connection.value.sent == old(connection.value.sent) + SceneCall(superGroup, sceneId)
      ensures outcome == Returned ==> scenesUsageSorter.entities == Register(old(scenesUsageSorter.entities), sceneId)
      ensures outcome != Returned ==> scenesUsageSorter.entities == old(scenesUsageSorter.entities)
    {
      outcome := SetScene(sceneId, accepted);
      if outcome == Returned {
        scenesUsageSorter.RegisterUsage(sceneId);
      }
    }
  }
}
