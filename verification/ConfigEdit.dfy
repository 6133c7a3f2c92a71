/** Editing a configuration: TRM138 devices are added, removed, and given other channels. */
module ConfigEdit {
  import opened Core
  import opened Payload
  import opened Registers
  import opened Config
  import opened StableSort

  const CHANNEL_COUNT := 8
  const REGISTER_BASE := 16
  const VALUE_REGISTERS := 2
  const STATUS_BASE := 40
  const SETPOINT_BASE := 56

  function ValueRegisterStart(channel: int): int { REGISTER_BASE + (channel - 1) * VALUE_REGISTERS }
  function SetpointRegisterStart(channel: int): int { SETPOINT_BASE + (channel - 1) * VALUE_REGISTERS }
  function StatusRegister(channel: int): int { STATUS_BASE + channel - 1 }

  /* ---------- The points of a device ---------- */

  function Digits(n: nat): (s: string)
    ensures |s| >= 1
  {
    if n < 10 then [DIGITS[n]] else Digits(n / 10) + [DIGITS[n % 10]]
  }

  const DIGITS: string := "0123456789"

  function Text(n: int): string { if n >= 0 then Digits(n) else "-" + Digits(-n) }

  function Prefix(base: int, channel: int): string { "a" + Text(base) + "_ch" + Text(channel) }

  function ReadPoint(bus: string, device: int, base: int, channel: int): PointConfig {
    PointConfig(Prefix(base, channel) + "_read_R" + Text(ValueRegisterStart(channel)), bus, device, Some(base),
                base + channel - 1, "rEAd", None, Float32Format, HoldingRegister, ValueRegisterStart(channel), Float32Type,
                true, false, None, Some(StatusRegister(channel)))
  }

  function SetpointPoint(bus: string, device: int, base: int, channel: int): PointConfig {
    PointConfig(Prefix(base, channel) + "_sp_R" + Text(SetpointRegisterStart(channel)), bus, device, Some(base),
                base + channel - 1, "C.SP", None, StoredDotFormat, HoldingRegister, SetpointRegisterStart(channel), Float32Type,
                true, true, None, None)
  }

  function AlarmPoint(bus: string, device: int, base: int, channel: int): PointConfig {
    PointConfig(Prefix(base, channel) + "_alt_internal", bus, device, Some(base),
                base + channel - 1, "AL.t", None, Uint16Format, HoldingRegister, 0, Uint16Type,
                false, false, None, None)
  }

  function ChannelPoints(bus: string, device: int, base: int, channel: int): seq<PointConfig> {
    [ReadPoint(bus, device, base, channel), SetpointPoint(bus, device, base, channel), AlarmPoint(bus, device, base, channel)]
  }

  function DevicePoints(bus: string, device: int, base: int, channels: seq<int>): (points: seq<PointConfig>)
    ensures |points| == 3 * |channels|
    ensures forall p :: p in points ==> p.bus == bus && p.device == device && p.modbusSlaveId == Some(base)
  {
    if channels == [] then []
    else DevicePoints(bus, device, base, channels[..|channels| - 1]) + ChannelPoints(bus, device, base, channels[|channels| - 1])
  }

  lemma OneMoreChannel(points: seq<PointConfig>, bus: string, device: int, base: int, channels: seq<int>, i: nat)
    requires i < |channels|
    ensures points + DevicePoints(bus, device, base, channels[..i + 1]) ==
            points + DevicePoints(bus, device, base, channels[..i]) + [ReadPoint(bus, device, base, channels[i])] +
            [SetpointPoint(bus, device, base, channels[i])] + [AlarmPoint(bus, device, base, channels[i])]
  {
    hide ReadPoint, SetpointPoint, AlarmPoint;
    assert channels[..i + 1][..i] == channels[..i];
  }

  method AppendTrm138Points(points: seq<PointConfig>, bus: string, device: int, base: int, channels: seq<int>)
    returns (extended: seq<PointConfig>)
    ensures extended == points + DevicePoints(bus, device, base, channels)
  {
    hide ReadPoint, SetpointPoint, AlarmPoint, DevicePoints;
    extended := points;
    assert DevicePoints(bus, device, base, channels[..0]) == [];
    for i := 0 to |channels|
      invariant extended == points + DevicePoints(bus, device, base, channels[..i])
    {
      OneMoreChannel(points, bus, device, base, channels, i);
      extended := extended + [ReadPoint(bus, device, base, channels[i])];
      extended := extended + [SetpointPoint(bus, device, base, channels[i])];
      extended := extended + [AlarmPoint(bus, device, base, channels[i])];
    }
    assert channels[..|channels|] == channels;
  }

  /* ---------- Requested channels ---------- */

  predicate ChannelsOk(channels: set<int>) {
    channels != {} && forall c :: c in channels ==> 1 <= c <= CHANNEL_COUNT
  }

  /** Channels in ascending order, up to `limit`. */
  function Ascending(channels: set<int>, limit: nat): (r: seq<int>)
    ensures forall c :: c in r <==> c in channels && 1 <= c <= limit
  {
    if limit == 0 then []
    else Ascending(channels, limit - 1) + (if limit in channels then [limit as int] else [])
  }

  /* ---------- Selecting lines and devices ---------- */

  predicate LineOk(line: int) { 1 <= line <= MAX_BUSES }

  /** The line's own name, or the legacy one if only that exists. */
  function ResolveBusName(busNames: set<string>, line: int): string {
    var canonical, legacy := "line" + Text(line), "bus" + Text(line);
    if canonical !in busNames && legacy in busNames then legacy else canonical
  }

  predicate OfDevice(p: PointConfig, bus: string, device: int) { p.bus == bus && p.device == device }

  function DevicesOfLine(points: seq<PointConfig>, bus: string): set<int> {
    set i | 0 <= i < |points| && points[i].bus == bus :: points[i].device
  }

  predicate LeastFree(device: int, taken: set<int>) {
    1 <= device <= MAX_DEVICES_PER_BUS && device !in taken && forall d :: 1 <= d < device ==> d in taken
  }

  function FirstFree(taken: set<int>, candidate: int): Option<int>
    requires 1 <= candidate <= MAX_DEVICES_PER_BUS + 1
    decreases MAX_DEVICES_PER_BUS + 1 - candidate
  {
    if candidate > MAX_DEVICES_PER_BUS then None
    else if candidate !in taken then Some(candidate)
    else FirstFree(taken, candidate + 1)
  }

  lemma {:induction false} LeastFreeIsFirst(taken: set<int>, candidate: int)
    requires 1 <= candidate <= MAX_DEVICES_PER_BUS + 1 && forall d :: 1 <= d < candidate ==> d in taken
    ensures FirstFree(taken, candidate).Some? ==> LeastFree(FirstFree(taken, candidate).value, taken)
    ensures FirstFree(taken, candidate).None? ==> forall d :: 1 <= d <= MAX_DEVICES_PER_BUS ==> d in taken
    decreases MAX_DEVICES_PER_BUS + 1 - candidate
  {
    if candidate <= MAX_DEVICES_PER_BUS && candidate in taken {
      LeastFreeIsFirst(taken, candidate + 1);
    }
  }

  method NextDeviceNumber(taken: set<int>) returns (device: Option<int>)
    ensures device == FirstFree(taken, 1)
    ensures device.Some? ==> LeastFree(device.value, taken)
    ensures device.None? ==> forall d :: 1 <= d <= MAX_DEVICES_PER_BUS ==> d in taken
  {
    LeastFreeIsFirst(taken, 1);
    for candidate := 1 to MAX_DEVICES_PER_BUS + 1
      invariant FirstFree(taken, candidate) == FirstFree(taken, 1)
    {
      if candidate !in taken {
        return Some(candidate);
      }
    }
    return None;
  }

  /** The smallest address of some points; 0 if there are none. */
  function LeastAddress(points: seq<PointConfig>): int {
    if points == [] then 0
    else if |points| == 1 then points[0].address
    else
      var rest, last := LeastAddress(points[..|points| - 1]), points[|points| - 1].address;
      if last < rest then last else rest
  }

  function DeviceOnly(points: seq<PointConfig>, bus: string, device: int): seq<PointConfig> {
    Filter(p => OfDevice(p, bus, device), points)
  }

  function WithoutDevice(points: seq<PointConfig>, bus: string, device: int): seq<PointConfig> {
    Filter(p => !OfDevice(p, bus, device), points)
  }

  /** What a device is picked by: any of its number, its smallest address, and its tag. */
  datatype Selector = Selector(device: Option<int>, base: Option<int>, tag: Option<string>)

  predicate Selects(selector: Selector, points: seq<PointConfig>, bus: string, device: int) {
    var least := LeastAddress(DeviceOnly(points, bus, device));
    && (selector.device.Some? ==> selector.device.value == device)
    && (selector.base.Some? ==> selector.base.value == least)
    && (selector.tag.Some? ==> selector.tag.value == "a" + Text(least))
  }

  function Selected(selector: Selector, points: seq<PointConfig>, bus: string): set<int> {
    set d | d in DevicesOfLine(points, bus) && Selects(selector, points, bus, d)
  }

  /** The device a selector picks, if exactly one. */
  function MatchDevice(selector: Selector, points: seq<PointConfig>, bus: string): Result<int> {
    var chosen := Selected(selector, points, bus);
    if exists d :: d in chosen && chosen == {d} then
      var d :| d in chosen && chosen == {d};
      Ok(d)
    else Err(ValueFault)
  }

  /** A line's devices in order of first appearance. */
  function DeviceList(points: seq<PointConfig>, bus: string): (devices: seq<int>)
    ensures forall d :: d in devices <==> d in DevicesOfLine(points, bus)
    ensures forall i, j :: 0 <= i < j < |devices| ==> devices[i] != devices[j]
  {
    if points == [] then []
    else
      var last, rest := points[|points| - 1], DeviceList(points[..|points| - 1], bus);
      OneMorePoint(points, bus);
      if last.bus == bus && last.device !in rest then rest + [last.device] else rest
  }

  lemma OneMorePoint(points: seq<PointConfig>, bus: string)
    requires points != []
    ensures var last := points[|points| - 1];
            DevicesOfLine(points, bus) ==
            DevicesOfLine(points[..|points| - 1], bus) + (if last.bus == bus then {last.device} else {})
  {
    var init := points[..|points| - 1];
    assert forall i :: 0 <= i < |init| ==> init[i] == points[i];
    forall d | d in DevicesOfLine(init, bus) ensures d in DevicesOfLine(points, bus) {
      var i :| 0 <= i < |init| && init[i].bus == bus && init[i].device == d;
      assert points[i].bus == bus;
    }
  }

  method FindDevice(selector: Selector, points: seq<PointConfig>, bus: string) returns (device: Result<int>)
    ensures device == MatchDevice(selector, points, bus)
  {
    hide Selects, DeviceList;
    var devices := DeviceList(points, bus);
    ghost var chosen := Selected(selector, points, bus);
    var matched: Option<int> := None;
    for i := 0 to |devices|
      invariant matched.None? ==> forall k :: 0 <= k < i ==> !Selects(selector, points, bus, devices[k])
      invariant matched.Some? ==> matched.value in devices[..i] && Selects(selector, points, bus, matched.value)
      invariant matched.Some? ==>
                  forall k :: 0 <= k < i && Selects(selector, points, bus, devices[k]) ==> devices[k] == matched.value
    {
      if Selects(selector, points, bus, devices[i]) {
        if matched.Some? {
          assert devices[i] in chosen && matched.value in chosen && devices[i] != matched.value;
          return Err(ValueFault);
        }
        matched := Some(devices[i]);
      }
    }
    if matched.None? {
      assert chosen == {};
      return Err(ValueFault);
    }
    assert chosen == {matched.value};
    device := Ok(matched.value);
  }

  /* ---------- The three edits, on values ---------- */

  predicate AddressesFree(points: seq<PointConfig>, bus: string, base: int, channels: set<int>) {
    forall i :: 0 <= i < |points| && points[i].bus == bus ==> points[i].address - base + 1 !in channels
  }

  /** Adding: the device number given and the new list of points. */
  function Added(busNames: set<string>, points: seq<PointConfig>, line: int, base: int,
                 channels: set<int>): Result<(int, seq<PointConfig>)> {
    if !LineOk(line) then Err(ValueFault)
    else
      var bus := ResolveBusName(busNames, line);
      if bus !in busNames || !ChannelsOk(channels) || !AddressesFree(points, bus, base, channels) then Err(ValueFault)
      else
        match FirstFree(DevicesOfLine(points, bus), 1)
        case None => Err(ValueFault)
        case Some(device) =>
          Ok((device, Sort(points + DevicePoints(bus, device, base, Ascending(channels, CHANNEL_COUNT)))))
  }

  function Removed(busNames: set<string>, points: seq<PointConfig>, line: int,
                   selector: Selector): Result<seq<PointConfig>> {
    if !LineOk(line) then Err(ValueFault)
    else
      var bus := ResolveBusName(busNames, line);
      match MatchDevice(selector, points, bus)
      case Err(fault) => Err(fault)
      case Ok(device) => Ok(WithoutDevice(points, bus, device))
  }

  function Readings(points: seq<PointConfig>, bus: string, device: int): seq<PointConfig> {
    Filter(p => OfDevice(p, bus, device) && p.parameter == "rEAd", points)
  }

  function Rebuilt(points: seq<PointConfig>, bus: string, device: int, base: int,
                   channels: set<int>): seq<PointConfig> {
    Sort(WithoutDevice(points, bus, device) + DevicePoints(bus, device, base, Ascending(channels, CHANNEL_COUNT)))
  }

  /** The base address is taken back from the device's smallest reading address. */
  function Updated(busNames: set<string>, points: seq<PointConfig>, line: int, channels: set<int>,
                   selector: Selector): Result<(int, seq<PointConfig>)> {
    if !LineOk(line) || !ChannelsOk(channels) then Err(ValueFault)
    else
      var bus := ResolveBusName(busNames, line);
      match MatchDevice(selector, points, bus)
      case Err(fault) => Err(fault)
      case Ok(device) =>
        var readings := Readings(points, bus, device);
        if readings == [] then Err(ValueFault)
        else Ok((LeastAddress(readings), Rebuilt(points, bus, device, LeastAddress(readings), channels)))
  }

  /* ---------- The edits in place ---------- */

  function Requested(channels: seq<int>): set<int> { set c | c in channels }

  /** A configuration document; every edit replaces or rearranges its list of points. */
  class ConfigDocument {
    var busNames: set<string>
    var points: seq<PointConfig>

    constructor (busNames: set<string>, points: seq<PointConfig>)
      ensures this.busNames == busNames && this.points == points
    {
      this.busNames, this.points := busNames, points;
    }

    method AddTrm138Device(line: int, base: int, channels: seq<int>) returns (given: Result<int>)
      modifies `points
      ensures match Added(busNames, old(points), line, base, Requested(channels))
              case Ok(result) => given == Ok(result.0) && points == result.1
              case Err(_) => given.Err? && points == old(points)
    {
      hide DevicePoints, Sort, FirstFree, ResolveBusName, LeastFree;
      if !LineOk(line) {
        return Err(ValueFault);
      }
      var bus := ResolveBusName(busNames, line);
      var requested := Requested(channels);
      if bus !in busNames || !ChannelsOk(requested) {
        return Err(ValueFault);
      }
      for i := 0 to |points|
        invariant AddressesFree(points[..i], bus, base, requested)
      {
        if points[i].bus == bus && points[i].address - base + 1 in requested {
          return Err(ValueFault);
        }
      }
      assert points[..|points|] == points;
      var device := NextDeviceNumber(DevicesOfLine(points, bus));
      if device.None? {
        return Err(ValueFault);
      }
      var extended := AppendTrm138Points(points, bus, device.value, base, Ascending(requested, CHANNEL_COUNT));
      points := Sort(extended);
      given := Ok(device.value);
    }

    method RemoveTrm138Device(line: int, selector: Selector) returns (outcome: Result<int>)
      modifies `points
      ensures match Removed(busNames, old(points), line, selector)
              case Ok(remaining) => outcome == Ok(|old(points)| - |remaining|) && points == remaining
              case Err(_) => outcome.Err? && points == old(points)
    {
      hide MatchDevice, ResolveBusName, WithoutDevice;
      if !LineOk(line) {
        return Err(ValueFault);
      }
      var bus := ResolveBusName(busNames, line);
      var device :- FindDevice(selector, points, bus);
      var before := |points|;
      points := WithoutDevice(points, bus, device);
      outcome := Ok(before - |points|);
    }

    method UpdateTrm138Channels(line: int, channels: seq<int>, selector: Selector) returns (outcome: Result<int>)
      modifies `points
      ensures match Updated(busNames, old(points), line, Requested(channels), selector)
              case Ok(changed) => outcome == Ok(changed.0) && points == changed.1
              case Err(_) => outcome.Err? && points == old(points)
    {
      hide MatchDevice, ResolveBusName, DevicePoints, Sort, Filter;
      var requested := Requested(channels);
      if !LineOk(line) || !ChannelsOk(requested) {
        return Err(ValueFault);
      }
      var bus := ResolveBusName(busNames, line);
      var device :- FindDevice(selector, points, bus);
      var readings := Readings(points, bus, device);
      if readings == [] {
        return Err(ValueFault);
      }
      var base := LeastAddress(readings);
      var target := WithoutDevice(points, bus, device);
      target := AppendTrm138Points(target, bus, device, base, Ascending(requested, CHANNEL_COUNT));
      points := Sort(target);
      outcome := Ok(base);
    }
  }
}
