# tradfri-express lights service, modelled in Dafny

tradfri-express is a small HTTP server in front of an IKEA TRÅDFRI gateway.
Its `LightsService` keeps an in-memory cache of the gateway's lightbulbs,
scenes and groups. Gateway events keep the cache current. The HTTP endpoints
read the cache to list groups and scenes, and to turn requests into gateway
commands: brightness, colour temperature, colour, and scene activation. Scenes
are listed most-used first. An `IPSODeviceUsageSorter` counts activations per
scene and sorts by that count.

The project models that core:

- `Devices.dfy`: the entities the gateway reports (accessory, light state,
  scene, group, spectrum), as values.
- `EntityLists.dfy`: the list operations the cache is made of. These are
  `filter` by id, first entry with an id, uniqueness of ids and subsequence.
  They are generic over the element type.
- `UsageSorter.dfy`: the usage counter and the sort's comparator. It gives the
  comparator's meaning as a ranking, with its order laws. It specifies the sort
  as insertion sort on sequences, with permutation, ranking, already-sorted and
  idempotence lemmas. The `IPSODeviceUsageSorter` class sorts an `array` in
  place, proved equal to that specification.
- `Commands.dfy`: the errors the service throws and the command records sent
  to the gateway. It also holds the clamps, the first-`#` removal and the pure
  command builders, which do the lookup and capability checks.
- `CacheSpec.dfy`: the cache after each event, as functions of the cache
  before it. It covers:
  - replay of any sequence of device events;
  - the name-keyed group map in insertion order;
  - the group listing.
- `LightsService.dfy` (module `Service`): the `LightsService` class.
  - Its fields are the cache; each event handler is a method.
  - `getGroups` is a function; `getScenes` sorts the cached list in place.
  - There are the four command methods and the scene endpoint's "set the
    scene, then count a use" sequence.
  - Gateway calls go through a `GatewayClient` object. It records every call
    it is asked to make, so "which command was sent" and "nothing was sent"
    appear in the contracts.

Modelling choices:

- `this.connection` is a constant `Option<GatewayClient>`. When it is absent,
  every `connection?.…` call is skipped and the command returns normally, as
  in the code.
- Whether the gateway accepts a call is an input (`accepted`). A rejected
  call makes the awaited command throw.
- A JavaScript `Map` iterates its keys in insertion order, and `set` on an
  existing key keeps that key's place. So `groupLightsMap` is a list of
  name/ids entries whose names are unique.
- Brightness and temperature requests arrive already scaled by 100 and
  rounded (`Math.round(x * 100)`), as integers.

Scene usage: the scene endpoint (src/LightsService.ts lines 171-173) counts a
use whenever `setScene` returns. That includes the case with no super-group,
where no command is sent. It does not wait for any confirmation beyond the
awaited call. A stricter rule, counting a use only after an activation that
really happened, is not what the code does. The model follows the code:
`Service.LightsService.ActivateScene` counts the use in that case too.

## Model

| member | source | states |
|---|---|---|
| EntityLists.RemoveById | src/LightsService.ts:94 | `filter` by id: an element stays exactly when it was in the list and has another id; no entry with the id is left; the survivors keep their order (subsequence); a list without the id comes back unchanged |
| EntityLists.RemoveCounts | src/LightsService.ts:94 | `filter` keeps every entry with another id exactly as many times as it occurs, and no entry with the id |
| EntityLists.HasIdMeaning | src/LightsService.ts:187 | `some(light => light.instanceId === id)`: true exactly when some entry carries the id |
| EntityLists.FirstWithId | src/LightsService.ts:199 | `filter(...)[0]` lookup: empty exactly when no entry has the id; otherwise the entry at the first position carrying the id |
| EntityLists.RemoveConcat | src/LightsService.ts:84 | the id filter distributes over concatenation |
| EntityLists.RemoveKeepsUnique | src/LightsService.ts:94 | filtering never breaks "at most one entry per id" |
| EntityLists.FirstAfterRemove | src/LightsService.ts:93-95 | after removing an id, a lookup of that id finds nothing and a lookup of any other id finds what it found before |
| EntityLists.FirstAfterAppend | src/LightsService.ts:97-103 | a push changes a lookup only for the pushed entry's id, and only when no earlier entry has it |
| EntityLists.FirstOfUnique | src/LightsService.ts:199 | with unique ids, looking up an entry's id finds exactly that entry |
| EntityLists.AppendUnique | src/LightsService.ts:101 | pushing an entry whose id is new keeps ids unique |
| UsageSorter.StrLessIrreflexive | src/util/IPSODeviceUsageSorter.ts:23 | the name order used by `a.name > b.name` never ranks a name before itself |
| UsageSorter.StrLessAsymmetric | src/util/IPSODeviceUsageSorter.ts:23 | the name order never holds both ways |
| UsageSorter.StrLessTransitive | src/util/IPSODeviceUsageSorter.ts:23 | the name order is transitive |
| UsageSorter.StrLessTotal | src/util/IPSODeviceUsageSorter.ts:22-23 | two different names are always ordered one way or the other |
| UsageSorter.StrLessLexicographic | src/util/IPSODeviceUsageSorter.ts:23 | the name order behind `a.name > b.name` is lexicographic: a ranks first exactly when, after the longest common prefix, a has ended while b goes on, or a's next character is the smaller |
| UsageSorter.StrLessWitness | src/util/IPSODeviceUsageSorter.ts:23 | a name that ranks first has a position where it departs from the other in that way |
| UsageSorter.WitnessStrLess | src/util/IPSODeviceUsageSorter.ts:23 | a name that departs from the other in that way ranks first |
| UsageSorter.GetUsages | src/util/IPSODeviceUsageSorter.ts:13-15 | `get(id) \|\| 0`: the stored count when the id has one; 0 exactly when the id has no entry or a stored 0 |
| UsageSorter.Register | src/util/IPSODeviceUsageSorter.ts:8-11 | the counter after `registerUsage`: that id's usage is one more than before, and every other id's usage is unchanged |
| UsageSorter.UsageCountsRegistrations | src/util/IPSODeviceUsageSorter.ts:8-15 | from an empty counter, an id's usage equals the number of times it was registered, so an id never registered reads 0 |
| UsageSorter.Compare | src/util/IPSODeviceUsageSorter.ts:18-26 | the comparator returns only -1, 0 or 1 |
| UsageSorter.CompareMeaning | src/util/IPSODeviceUsageSorter.ts:18-26 | -1 exactly when a ranks first (more uses, or equal uses and a smaller name); 1 exactly when b ranks first; 0 exactly when both usage and name are equal |
| UsageSorter.CompareAntisymmetric | src/util/IPSODeviceUsageSorter.ts:18-26 | swapping the arguments negates the comparison |
| UsageSorter.CompareTransitive | src/util/IPSODeviceUsageSorter.ts:18-26 | "compares at most 0" is transitive |
| UsageSorter.UsageComparatorIsPreorder | src/util/IPSODeviceUsageSorter.ts:18-26 | the usage comparator is a consistent comparator (antisymmetric and transitive) |
| UsageSorter.RankedOrder | src/util/IPSODeviceUsageSorter.ts:19-24 | in a list ranked by the comparator, usage never increases from front to back, and names never decrease among equal usage |
| UsageSorter.RankingExample | src/util/IPSODeviceUsageSorter.ts:17-27 | scenes A (unused), B and C (used twice each) sort to B, C, A |
| UsageSorter.Insert | src/util/IPSODeviceUsageSorter.ts:17-27 | one insertion step of the sort: the list grows by exactly one element |
| UsageSorter.InsertionSort | src/util/IPSODeviceUsageSorter.ts:17-27 | the order `devices.sort(...)` leaves: same length as the input; SortPermutes, SortRanked and SortRankedUnchanged below state that it is a ranked permutation |
| UsageSorter.InsertPermutes | src/util/IPSODeviceUsageSorter.ts:17-27 | inserting one element adds exactly that element to the multiset |
| UsageSorter.SortPermutes | src/util/IPSODeviceUsageSorter.ts:17-27 | sorting is a permutation: same multiset of elements |
| UsageSorter.InsertMembers | src/util/IPSODeviceUsageSorter.ts:17-27 | after an insertion, an element is present exactly when it was before or is the inserted one |
| UsageSorter.InsertRanked | src/util/IPSODeviceUsageSorter.ts:17-27 | inserting into a ranked list keeps it ranked |
| UsageSorter.SortRanked | src/util/IPSODeviceUsageSorter.ts:17-27 | the sort's output is ranked by any consistent comparator |
| UsageSorter.SortRankedUnchanged | src/util/IPSODeviceUsageSorter.ts:17-27 | sorting an already ranked list leaves it unchanged |
| UsageSorter.SortIdempotent | src/util/IPSODeviceUsageSorter.ts:17-27 | sorting twice gives the same as sorting once |
| UsageSorter.InsertKeepsUniqueIds | src/util/IPSODeviceUsageSorter.ts:17-27 | inserting an element with a new id keeps ids unique |
| UsageSorter.SortKeepsUniqueIds | src/LightsService.ts:245 | sorting the cached scenes keeps "one scene per id" |
| UsageSorter.SiftLeft | src/util/IPSODeviceUsageSorter.ts:18 | in place: moves element i left past every element that ranks after it, shifting those one place right, and stops after an element that does not rank after it |
| UsageSorter.InsertAt | src/util/IPSODeviceUsageSorter.ts:18 | in place: the array becomes the sorted prefix with element i inserted, followed by the untouched rest |
| UsageSorter.SortInPlace | src/util/IPSODeviceUsageSorter.ts:18 | in place: the array's new contents are the specification sort of its old contents |
| UsageSorter.IPSODeviceUsageSorter.constructor | src/util/IPSODeviceUsageSorter.ts:6 | a new sorter has counted nothing |
| UsageSorter.IPSODeviceUsageSorter.RegisterUsage | src/util/IPSODeviceUsageSorter.ts:8-11 | that id's count rises by exactly one and every other count is unchanged |
| UsageSorter.IPSODeviceUsageSorter.Sort | src/util/IPSODeviceUsageSorter.ts:17-27 | reorders the given array in place and returns the same array; the result is a permutation, ranked by usage then name, and equals the specification sort; no usage count changes |
| Commands.Clamp | src/LightsService.ts:205 | `Math.max(lo, Math.min(hi, v))` lies in [lo, hi]; it is v when v is inside, else the nearer bound |
| Commands.ReplaceFirstHash | src/LightsService.ts:241 | `replace('#', '')` with a string pattern: a string without '#' is unchanged; otherwise exactly the first '#' is removed, and every other character stays in place |
| Commands.BrightnessCommand | src/LightsService.ts:198-209 | refused as unknown exactly when no cached light has the id; otherwise a dimmer operation on the first cached light with the id, with the level clamped to [0, 100] and the light on exactly when the level is positive |
| Commands.TemperatureCommand | src/LightsService.ts:212-226 | unknown id refused first; then refused as unsupported exactly when the light's first spectrum is not white; otherwise, that is exactly when the id is known and the light's first spectrum is white, a colour-temperature operation on the first cached light with the id, clamped to [1, 100] |
| Commands.ColorCommand | src/LightsService.ts:229-241 | unknown id refused first; then refused as unsupported exactly when the light's first spectrum is not rgb; otherwise, that is exactly when the id is known and the light's first spectrum is rgb, a colour operation on the first cached light with the id, carrying the string with its first '#' removed |
| Devices.FirstSpectrum | src/LightsService.ts:219 | `light.lightList[0]?.spectrum`: absent exactly when the accessory has no light state, else the first light state's spectrum |
| CacheSpec.Upsert | src/LightsService.ts:87-91 | delete by id, then push: the scene is last; an entry is present exactly when it is the scene or was present with another id |
| CacheSpec.UpsertReplaces | src/LightsService.ts:87-91 | after a scene update the scene is last and no other entry has its id; the other ids' entries are unchanged and in order; unique ids stay unique |
| CacheSpec.UpsertIdempotent | src/LightsService.ts:87-91 | applying the same scene update twice gives the list that applying it once gives |
| CacheSpec.AfterDeviceUpdated | src/LightsService.ts:97-103 | a lightbulb device is present afterwards; entries with other ids are present exactly when they were before |
| CacheSpec.DeviceUpdateReplaces | src/LightsService.ts:97-103 | after a device update, an entry with its id exists exactly when it is a lightbulb, and then it is that device, last; the other ids keep their entries and order; "unique ids" and "only lightbulbs" are preserved |
| CacheSpec.DeviceUpdateIdempotent | src/LightsService.ts:97-103 | a repeated device update changes nothing |
| CacheSpec.FirstAfterDeviceEvent | src/LightsService.ts:119-121 | one device event changes the lookup only for the id it is about |
| CacheSpec.ReplayFindsLastWord | src/LightsService.ts:119-121 | after any sequence of device events, a lookup finds what the last event about that id says, or the original entry if no event mentions it |
| CacheSpec.ReplayKeepsInvariant | src/LightsService.ts:119-121 | any sequence of device events keeps the light cache free of duplicate ids and of non-lightbulbs |
| CacheSpec.Keys | src/LightsService.ts:182 | `Array.from(groupLightsMap.keys())`: one name per entry, in entry order |
| CacheSpec.Lookup | src/LightsService.ts:187 | `groupLightsMap.get(name)`: absent exactly when the name is not a key; with unique keys, the member list of the entry carrying the name |
| CacheSpec.MapSet | src/LightsService.ts:112 | `groupLightsMap.set(name, ids)`: the map grows by at most one entry, holds the new name/ids entry, and every entry of another name stays where it was |
| CacheSpec.MapSetKeys | src/LightsService.ts:112 | `groupLightsMap.set`: a new name is appended to the key order, an existing name keeps its place; unique keys stay unique |
| CacheSpec.MapSetLookupSame | src/LightsService.ts:112 | after the set, the group name maps to the new member list |
| CacheSpec.MapSetLookupOther | src/LightsService.ts:112 | the set leaves every other name's member list as it was |
| CacheSpec.RenderLight | src/LightsService.ts:188-192 | a light is shown with its name and id and its first light state's spectrum; with no light state the colour is '#undefined' and the brightness 0; a light that is off shows brightness 0 and a light that is on shows its dimmer level |
| CacheSpec.RenderMembers | src/LightsService.ts:187 | the filter/map chain of one group: at most one light per member id; the lemmas below say which |
| CacheSpec.RenderedAreCachedMembers | src/LightsService.ts:187 | every light listed for a group is a member id that is in the light cache, shown as the first cached light with that id: no stale id is rendered |
| CacheSpec.RenderedCoverCachedMembers | src/LightsService.ts:187 | every member that is in the light cache is listed |
| CacheSpec.RenderedInMemberOrder | src/LightsService.ts:187 | the listed ids follow the member list's order |
| CacheSpec.RenderedCountsMembers | src/LightsService.ts:187 | a cached member id is listed once per occurrence in the member list, an uncached one never |
| CacheSpec.RenderedAllWhenAllCached | src/LightsService.ts:187 | a group whose members are all cached lists exactly its member list |
| CacheSpec.RenderListsEveryGroup | src/LightsService.ts:181-195 | every group of the map is listed faithfully: only cached members, each as its cached light, every cached member as often as it occurs in the member list, in member order |
| Service.GatewayClient.Call | src/LightsService.ts:206 | `operateLight` / `operateGroup`: the command is appended to the calls made, and the call throws exactly when the gateway rejects it |
| Service.LightsService.constructor | src/LightsService.ts:28-34 | the cache starts empty, with no super-group and a fresh counter, and satisfies the cache invariant |
| Service.LightsService.DeleteScene | src/LightsService.ts:83-85 | the scene list becomes its id-filtered self; nothing else changes; the invariant is kept |
| Service.LightsService.AddOrUpdateScene | src/LightsService.ts:87-91 | delete the scene's id, then push the scene; nothing else changes; the invariant is kept |
| Service.LightsService.DeleteLight | src/LightsService.ts:93-95 | the light list becomes its id-filtered self; nothing else changes; the invariant is kept |
| Service.LightsService.AddOrUpdateLight | src/LightsService.ts:97-103 | delete the device's id in every case, push the device only if it is a lightbulb; nothing else changes; the invariant is kept |
| Service.LightsService.GroupUpdated | src/LightsService.ts:108-114 | the reserved name replaces the super-group and leaves the map alone; any other name is set in the map and leaves the super-group alone |
| Service.LightsService.GetGroups | src/LightsService.ts:181-196 | one entry per map key, in key order, each listing exactly its cached members, once per occurrence in the member list, in member order, each as the cached light |
| Service.LightsService.GetScenes | src/LightsService.ts:244-249 | the cached scene list itself is replaced by its sort (a permutation, ranked by usage then name); the response lists it as name/id pairs in that order; the invariant is kept |
| Service.LightsService.Issue | src/LightsService.ts:206 | `connection?.call(...)`: without a connection nothing is sent and the call returns; with one, exactly the command is sent and a rejection throws |
| Service.LightsService.SetLightBrightness | src/LightsService.ts:198-210 | an unknown id throws 'unknown lightbulb' and sends nothing; otherwise exactly the brightness command is sent (if connected) |
| Service.LightsService.SetLightTemperature | src/LightsService.ts:212-227 | throws for an unknown id or a non-white light, sending nothing; otherwise exactly the temperature command is sent (if connected) |
| Service.LightsService.SetLightColor | src/LightsService.ts:229-242 | throws for an unknown id or a non-rgb light, sending nothing; otherwise exactly the colour command is sent (if connected) |
| Service.LightsService.SetScene | src/LightsService.ts:251-256 | with no super-group it returns and sends nothing; otherwise it sends exactly one forced scene operation on the super-group |
| Service.LightsService.ActivateScene | src/LightsService.ts:169-178 | runs setScene, then counts one use of the scene exactly when setScene returned (also with no super-group); a throw leaves the counts alone |

## Left out

- Gateway discovery, credentials and connecting (`initConnection`). These are
  network and file I/O. The connection is a constructor argument and is never
  replaced. The moment when it appears after start-up is not modelled.
- The subscription mechanics (`.on`, `observeGroupsAndScenes`,
  `observeDevices`). The handlers are methods that may be called in any
  order. The code registers them only once a connection exists; the model does
  not tie the handlers to the connection.
- The HTTP layer: routing, status codes, `parseInt`/`parseFloat` of request
  bodies. The scene endpoint is kept only for its "setScene, then
  registerUsage" sequence (`ActivateScene`).
- Floating point. The requested brightness and temperature are taken as the
  integer `Math.round(x * 100)`.
- CacheSpec.RenderLight: shows the dimmer level (0-100) as the brightness
  instead of `dimmer / 100`, because floating point is not modelled.
- The node-tradfri-client library is not part of this model. Its
  `operateLight`/`operateGroup` calls are records appended to
  `GatewayClient.sent`. The gateway's answer is the `accepted` input. How
  the library turns a call into gateway traffic is not modelled.
- `restartGateway`, the logger calls, the Express server, the admin service,
  the service container and the configuration constants: these are side
  effects or set-up only.
- Concurrency. Events and requests are handled one at a time, each as one
  atomic step, because the JavaScript runtime runs one handler at a time.
- UsageSorter.StrLess: compares names character by character, whereas
  JavaScript's `>` compares UTF-16 code units. The two differ only for
  characters outside the Basic Multilingual Plane.
- UsageSorter.IPSODeviceUsageSorter.Sort: is specified as insertion sort,
  which keeps elements that compare equal in their input order.
  `Array.prototype.sort` is also stable, so with this comparator both give the
  same order. Stability is not stated as a lemma. Which comparator calls the
  JavaScript engine makes is not modelled.
- The sorter is generic over any gateway device in the code. The model fixes
  it to scenes, the only kind the service sorts.
- The `||` in `entities.get(id) || 0` also maps a stored 0 to 0. The counter
  only ever stores positive counts, so the model reads an absent id as 0 and
  returns a stored count as it is.
