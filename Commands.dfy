/**
 The command side of the service: which operation a request turns into, and
 when it is refused. Each builder looks the light up in the cache, checks the
 light's capability, and yields either the one gateway call to make or the
 error the service throws. Issuing the call is left to the service object.
 */
module Commands {
  import opened Devices
  import opened EntityLists

  /** What the service throws. */
  datatype Error =
    | UnknownLightbulb          // 'unknown lightbulb'
    | TemperatureNotSupported   // 'temperature operation not supported'
    | ColorNotSupported         // 'color operation not supported'
    | GatewayRejected           // the promise of a gateway call rejected

  datatype Result<+T> = Success(value: T) | Failure(error: Error)

  /** How an awaited service call ends: it returns, or it throws. */
  datatype Outcome = Returned | Threw(error: Error)

  /** The settings object handed to `operateLight`. */
  datatype LightOperation =
    | Dimmer(dimmer: int, onOff: bool)
    | ColorTemperature(colorTemperature: int)
    | Color(color: string)

  /** One call made on the gateway client. */
  datatype Command =
    | OperateLight(light: Accessory, operation: LightOperation)
    | OperateGroup(group: Group, sceneId: int, force: bool)

  // ---------------------------------------------------------------------------
  // Clamping and colour strings

  /** r is v pulled into [lo, hi]: v itself when it lies inside, else the nearer bound. */
  predicate ClampedTo(lo: int, hi: int, v: int, r: int) {
    && (lo <= v <= hi ==> r == v)
    && (v < lo ==> r == lo)
    && (v > hi ==> r == hi)
  }

  function Max(a: int, b: int): int { if a < b then b else a }

  function Min(a: int, b: int): int { if a < b then a else b }

  /** `Math.max(lo, Math.min(hi, v))` */
  function Clamp(lo: int, hi: int, v: int): (r: int)
    requires lo <= hi
    ensures lo <= r <= hi
    ensures ClampedTo(lo, hi, v, r)
  {
    Max(lo, Min(hi, v))
  }

  /** `s.indexOf('#')` for a string that has one: the position of its first '#'. */
  function FirstHashIndex(s: string): (i: nat)
    requires '#' in s
    ensures i < |s| && s[i] == '#' && '#' !in s[..i]
  {
    if s[0] == '#' then 0
    else
      var k := FirstHashIndex(s[1..]);
      assert s[..k + 1] == [s[0]] + s[1..][..k];
      k + 1
  }

  /**
   `s.replace('#', '')` with a string pattern: removes the first '#' only, and
   returns s unchanged when it has none.
   */
  function ReplaceFirstHash(s: string): (r: string)
    ensures '#' !in s ==> r == s
    ensures '#' in s ==> |r| == |s| - 1 && multiset(r) + multiset{'#'} == multiset(s)
    ensures '#' in s ==> exists i :: 0 <= i < |s| && s[i] == '#' && '#' !in s[..i] && r == s[..i] + s[i + 1..]
  {
    if '#' in s then
      var i := FirstHashIndex(s);
      assert s == s[..i] + [s[i]] + s[i + 1..];
      s[..i] + s[i + 1..]
    else s
  }

  // ---------------------------------------------------------------------------
  // Capabilities

  /** Colour temperature needs a first light of spectrum 'white'. */
  predicate CanSetTemperature(light: Accessory) {
    FirstSpectrum(light) == Some(White)
  }

  /** Colour needs a first light of spectrum 'rgb'. */
  predicate CanSetColor(light: Accessory) {
    FirstSpectrum(light) == Some(Rgb)
  }

  // ---------------------------------------------------------------------------
  // Command builders

  /**
   `setLightBrightness`: an unknown id is refused; otherwise one dimmer
   operation on the first light with the id, the level clamped to [0, 100] and
   the light switched on exactly when the level is positive. `rounded` is the
   requested fraction already scaled by 100 and rounded.
   */
  function BrightnessCommand(lights: seq<Accessory>, lightId: int, rounded: int): (r: Result<Command>)
    ensures r.Failure? <==> !HasId(lights, lightId, LightId)
    ensures r.Failure? ==> r.error == UnknownLightbulb
    ensures r.Success? ==>
      && r.value.OperateLight? && r.value.operation.Dimmer?
      && Some(r.value.light) == FirstWithId(lights, lightId, LightId)
      && 0 <= r.value.operation.dimmer <= 100
      && ClampedTo(0, 100, rounded, r.value.operation.dimmer)
      && (r.value.operation.onOff <==> r.value.operation.dimmer > 0)
  {
    match FirstWithId(lights, lightId, LightId)
    case None => Failure(UnknownLightbulb)
    case Some(light) =>
      var newBrightness := Clamp(0, 100, rounded);
      Success(OperateLight(light, Dimmer(newBrightness, newBrightness > 0)))
  }

  /**
   `setLightTemperature`: an unknown id is refused, then a light whose first
   spectrum is not 'white'; otherwise one colour-temperature operation with the
   value clamped to [1, 100] (never 0).
   */
  function TemperatureCommand(lights: seq<Accessory>, lightId: int, rounded: int): (r: Result<Command>)
    ensures r == Failure(UnknownLightbulb) <==> !HasId(lights, lightId, LightId)
    ensures r == Failure(TemperatureNotSupported)
            <==> HasId(lights, lightId, LightId) && !CanSetTemperature(FirstWithId(lights, lightId, LightId).value)
    ensures r.Success?
            <==> HasId(lights, lightId, LightId) && CanSetTemperature(FirstWithId(lights, lightId, LightId).value)
    ensures r.Success? ==>
      && r.value.OperateLight? && r.value.operation.ColorTemperature?
      && Some(r.value.light) == FirstWithId(lights, lightId, LightId)
      && CanSetTemperature(r.value.light)
      && 1 <= r.value.operation.colorTemperature <= 100
      && ClampedTo(1, 100, rounded, r.value.operation.colorTemperature)
  {
    match FirstWithId(lights, lightId, LightId)
    case None => Failure(UnknownLightbulb)
    case Some(light) =>
      if !CanSetTemperature(light) then Failure(TemperatureNotSupported)
      else Success(OperateLight(light, ColorTemperature(Clamp(1, 100, rounded))))
  }

  /**
   `setLightColor`: an unknown id is refused, then a light whose first spectrum
   is not 'rgb'; otherwise one colour operation carrying the string with its
   first '#' removed and nothing else checked.
   */
  function ColorCommand(lights: seq<Accessory>, lightId: int, hexColor: string): (r: Result<Command>)
    ensures r == Failure(UnknownLightbulb) <==> !HasId(lights, lightId, LightId)
    ensures r == Failure(ColorNotSupported)
            <==> HasId(lights, lightId, LightId) && !CanSetColor(FirstWithId(lights, lightId, LightId).value)
    ensures r.Success?
            <==> HasId(lights, lightId, LightId) && CanSetColor(FirstWithId(lights, lightId, LightId).value)
    ensures r.Success? ==>
      && r.value.OperateLight?
      && Some(r.value.light) == FirstWithId(lights, lightId, LightId)
      && CanSetColor(r.value.light)
      && r.value.operation == Color(ReplaceFirstHash(hexColor))
  {
    match FirstWithId(lights, lightId, LightId)
    case None => Failure(UnknownLightbulb)
    case Some(light) =>
      if !CanSetColor(light) then Failure(ColorNotSupported)
      else Success(OperateLight(light, Color(ReplaceFirstHash(hexColor))))
  }

  // ---------------------------------------------------------------------------
  // Issuing a command

  /** The calls a builder's result leads to: its command, or none when it refused. */
  function Sent(built: Result<Command>): seq<Command> {
    if built.Success? then [built.value] else []
  }

  /**
   How awaiting `connection?.call(...)` ends: without a connection the optional
   call is skipped and the service returns; with one, a rejected call throws.
   */
  function Answer(connected: bool, accepted: bool): Outcome {
    if connected && !accepted then Threw(GatewayRejected) else Returned
  }

  /** The call `setScene` makes: the scene on the super-group, forced; none when there is no super-group. */
  function SceneCall(superGroup: Option<Group>, sceneId: int): seq<Command> {
    if superGroup.Some? then [OperateGroup(superGroup.value, sceneId, true)] else []
  }
}
