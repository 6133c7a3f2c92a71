/** What a device made by the editing tools is in a running gateway: where a client finds its
    channels, and what its logic units compare. */
module ToolDevices {
  import opened Core
  import opened Payload
  import opened Registers
  import opened Config
  import opened StableSort
  import opened ConfigEdit
  import opened EditValidity
  import opened ToolBuilt
  import opened Gateway
  import opened LogicUnit
  import opened LogicMasks
  import opened LogicRuns
  import Layout
  import WriteHandling

  /* ---------- The register map of a channel ---------- */

  /** Channel c of a device is read into registers 14 + 2c and 15 + 2c with its status in
      39 + c, a client's write to exactly 54 + 2c and 55 + 2c is for its set point, and its mode
      is read without being published, all at the channel's own OVEN address. */
  lemma ChannelMap(config: GatewayConfig, bus: string, device: int, base: int, c: int)
    requires Accepts(config) && 1 <= c <= 8
    requires PointOf(bus, device, base, c, Reading) in config.points && PointOf(bus, device, base, c, Setpoint) in config.points
    ensures var reading := PointOf(bus, device, base, c, Reading);
            && reading.parameter == "rEAd" && reading.address == base + c - 1 && reading.publishToModbus
            && ValueCells(reading) == {14 + 2 * c, 15 + 2 * c} && reading.channelStatusAddress == Some(39 + c)
            && reading.protocolFormat == Float32Format && reading.modbusDataType == Float32Type
    ensures var written := WritableAt(config.points, base, 54 + 2 * c, 2);
            && written.Some? && written.value.parameter == "C.SP" && written.value.address == base + c - 1
            && written.value.bus == bus && written.value.protocolFormat == StoredDotFormat
            && written.value.modbusDataType == Float32Type
    ensures var alarm := PointOf(bus, device, base, c, Alarm);
            && alarm.parameter == "AL.t" && alarm.address == base + c - 1 && alarm.protocolFormat == Uint16Format
            && !alarm.publishToModbus && !alarm.writable
  {
    hide Accepts, WritableAt, Text;
    var i :| 0 <= i < |config.points| && config.points[i] == PointOf(bus, device, base, c, Setpoint);
    WriteHandling.LookupIsExact(config, base, 54 + 2 * c, 2, i);
    assert ValueCells(PointOf(bus, device, base, c, Reading)) == {14 + 2 * c, 15 + 2 * c};
  }

  /* ---------- What its logic units see ---------- */

  /** The tools make one point of a parameter for a channel. */
  lemma OnePointEach(config: GatewayConfig, p: PointConfig)
    requires Accepts(config) && AllMadeByTools(config.points) && p in config.points
    ensures OnlyPoint(PointsOf(config.points, KeyOf(p)), p)
  {
    hide Accepts, Layout.DistinctNames, PointOf, PointsOf;
    forall q | q in config.points && KeyOf(q) == KeyOf(p) && q.parameter == p.parameter && q.address == p.address
      ensures q == p
    {
      var c, kind :| 1 <= c <= CHANNEL_COUNT && p == PointOf(p.bus, p.device, SlaveOf(p), c, kind);
      var d, other :| 1 <= d <= CHANNEL_COUNT && q == PointOf(q.bus, q.device, SlaveOf(q), d, other);
      SameDeviceAsSlave(config, p, q);
      ParameterTellsKind(p.bus, p.device, SlaveOf(p), c, kind, d, other);
    }
  }

  lemma SameDeviceAsSlave(config: GatewayConfig, p: PointConfig, q: PointConfig)
    requires Accepts(config) && p in config.points && q in config.points && SlaveOf(p) == SlaveOf(q)
    ensures q.bus == p.bus && q.device == p.device
  {
    var i :| 0 <= i < |config.points| && config.points[i] == p;
    var j :| 0 <= j < |config.points| && config.points[j] == q;
    if i < j {
      assert Compatible(config.points[i], config.points[j]);
    } else if j < i {
      assert Compatible(config.points[j], config.points[i]);
    }
  }

  lemma ParameterTellsKind(bus: string, device: int, base: int, c: int, kind: Kind, d: int, other: Kind)
    requires PointOf(bus, device, base, c, kind).parameter == PointOf(bus, device, base, d, other).parameter
    requires PointOf(bus, device, base, c, kind).address == PointOf(bus, device, base, d, other).address
    ensures kind == other && c == d
  {}

  lemma NoHysteresis(config: GatewayConfig, values: map<string, Option<Value>>, key: SlaveKey, address: int)
    requires AllMadeByTools(config.points)
    ensures InputsAt(values, PointsOf(config.points, key), address).hysteresis == 0.0
  {
    hide Layout.DistinctNames, PointOf, PointsOf, ValueAt;
    forall q | q in PointsOf(config.points, key) ensures q.parameter != "HYSt" {
      var c, kind :| 1 <= c <= CHANNEL_COUNT && q == PointOf(q.bus, q.device, SlaveOf(q), c, kind);
      NotHysteresis(q.bus, q.device, SlaveOf(q), c, kind);
    }
    NoValueAt(values, PointsOf(config.points, key), "HYSt", address);
  }

  lemma NotHysteresis(bus: string, device: int, base: int, c: int, kind: Kind)
    ensures PointOf(bus, device, base, c, kind).parameter != "HYSt"
  {}

  /** A logic unit compares its own channel's measured value with its own set point, in the
      mode its own alarm point says, and without hysteresis. */
  lemma UnitReadsItsChannel(config: GatewayConfig, values: map<string, Option<Value>>, p: PointConfig)
    requires Accepts(config) && AllMadeByTools(config.points) && p in config.points
    ensures var inputs := InputsAt(values, PointsOf(config.points, KeyOf(p)), p.address);
            var number := NumberOf(ValueIn(values, p.name));
            && inputs.hysteresis == 0.0
            && (p.parameter == "rEAd" ==> inputs.channel == number)
            && (p.parameter == "C.SP" ==> inputs.setpoint == number)
            && (p.parameter == "AL.t" ==>
                  if number.Some? then inputs.mode.Some? && TowardsZero(number.value, inputs.mode.value) else inputs.mode.None?)
  {
    hide Accepts, AllMadeByTools, PointsOf, InputsAt, NumberOf, TowardsZero;
    OnePointEach(config, p);
    InputsComeFrom(values, PointsOf(config.points, KeyOf(p)), p);
    NoHysteresis(config, values, KeyOf(p), p.address);
  }

  lemma {:induction false} NeverAnyHysteresis(config: GatewayConfig, floats: Floats, events: seq<Event>, key: SlaveKey, i: nat)
    requires AllMadeByTools(config.points)
    ensures forall inputs :: inputs in UnitHistory(config, floats, events, key, i) ==> inputs.hysteresis == 0.0
    decreases |events|
  {
    hide AllMadeByTools, Evaluates, Reached, InputsAt, PointsOf;
    if events != [] {
      NeverAnyHysteresis(config, floats, events[..|events| - 1], key, i);
      NoHysteresis(config, Reached(config, floats, events).pointValues, key, key.1 + i);
    }
  }

  /** So in every reachable state of a configuration made by the tools a unit whose mode is 3,
      on inside the band, is off, and one whose mode is 4 is on unless the measured value was
      the set point exactly. */
  lemma BandIsEmpty(config: GatewayConfig, floats: Floats, events: seq<Event>, key: SlaveKey, i: nat)
    requires AllMadeByTools(config.points) && i < 8
    requires UnitHistory(config, floats, events, key, i) != []
    ensures var history := UnitHistory(config, floats, events, key, i);
            var last, bit := history[|history| - 1], UnitBit(Reached(config, floats, events), key, i);
            && (last.mode == Some(3) ==> !bit)
            && (last.mode == Some(4) ==>
                  (bit <==> last.channel.Some? && last.setpoint.Some? && last.channel.value != last.setpoint.value))
  {
    hide AllMadeByTools, UnitHistory, Reached, UnitBit;
    NeverAnyHysteresis(config, floats, events, key, i);
    BandInRuns(config, floats, events, key, i);
  }
}
