/**
 The entities the gateway reports: accessories (of which only lightbulbs are
 cached), scenes and groups, as plain values. Every update event replaces an
 entity wholesale, so none of them is an object with mutable fields.
 */
module Devices {

  datatype Option<+T> = None | Some(value: T)

  /** A bulb's colour capability, the strings 'none', 'white' and 'rgb'. */
  datatype Spectrum = NoSpectrum | White | Rgb

  /** The accessory kinds the gateway distinguishes; only Lightbulb is cached. */
  datatype AccessoryType =
    | Remote | SlaveRemote | Lightbulb | Plug | MotionSensor
    | SignalRepeater | Blind | SoundRemote | AirPurifier

  /** The state of one light of an accessory (an entry of its lightList). */
  datatype LightState = LightState(
    spectrum: Spectrum,
    onOff: bool,
    dimmer: int,
    colorTemperature: int,
    color: string)

  /** A device as the gateway reports it in a 'device updated' event. */
  datatype Accessory = Accessory(
    instanceId: int,
    name: string,
    kind: AccessoryType,
    lightList: seq<LightState>)

  /** A stored preset, reported by 'scene updated'. */
  datatype Scene = Scene(instanceId: int, name: string)

  /** A group and the ids of its member devices, reported by 'group updated'. */
  datatype Group = Group(instanceId: int, name: string, deviceIDs: seq<int>)

  /** The reserved group name that marks the scene-activation target. */
  const SuperGroupName: string := "SuperGroup"

  function LightId(d: Accessory): int { d.instanceId }

  function SceneId(s: Scene): int { s.instanceId }

  /** `light.lightList[0]?.spectrum`: absent when the accessory has no light entry. */
  function FirstSpectrum(d: Accessory): (r: Option<Spectrum>)
    ensures r.None? <==> |d.lightList| == 0
    ensures r.Some? ==> r.value == d.lightList[0].spectrum
  {
    if |d.lightList| == 0 then None else Some(d.lightList[0].spectrum)
  }
}
