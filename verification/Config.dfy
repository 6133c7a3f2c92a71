/** Gateway configuration and its validator. `ValidateConfig` is the source's accumulating
    loop; `Accepts` says, without any order or accumulation, what it accepts. */
module Config {
  import opened Core
  import opened Payload
  import opened Registers

  datatype RegisterType = Coil | DiscreteInput | HoldingRegister | InputRegister | UnknownRegister(text: string)

  datatype SerialConfig = SerialConfig(bytesize: int, parity: string, stopbits: int, timeoutMs: int, addressBits: int)

  datatype BusConfig = BusConfig(
    name: string, serial: SerialConfig, pollIntervalMs: int, requestRetries: int,
    interRequestDelayMs: int, modbusSlaveBase: Option<int>)

  datatype StatusConfig = StatusConfig(enabled: bool, registerType: RegisterType, address: int, dataType: DataType)

  datatype TelemetryConfig = TelemetryConfig(
    enabled: bool, registerType: RegisterType, lastErrorCode: int, successCounter: int,
    timeoutCounter: int, protocolErrorCounter: int, pollCycleCounter: int)

  datatype HealthConfig = HealthConfig(faultAfterFailures: int, recoveryPollIntervalCycles: int)

  datatype PointConfig = PointConfig(
    name: string, bus: string, device: int, modbusSlaveId: Option<int>, address: int,
    parameter: string, parameterIndex: Option<int>, protocolFormat: ProtocolFormat,
    registerType: RegisterType, modbusAddress: int, modbusDataType: DataType,
    publishToModbus: bool, writable: bool,
    timeMarkAddress: Option<int>, channelStatusAddress: Option<int>)

  datatype GatewayConfig = GatewayConfig(
    buses: seq<BusConfig>, modbusPort: int, status: StatusConfig, telemetry: TelemetryConfig,
    health: HealthConfig, points: seq<PointConfig>)

  const SERVICE_SLAVE_ID := 1
  const MASK_REGISTER := 48
  const WRITE_VERIFY_ATTEMPTS := 3
  const MAX_BUSES := 2
  const MAX_DEVICES_PER_BUS := 32
  const MAX_TOTAL_DEVICES := 128

  /* ---------- What is accepted ---------- */

  predicate SerialOk(s: SerialConfig) {
    && (s.bytesize == 7 || s.bytesize == 8)
    && (s.parity == "N" || s.parity == "E" || s.parity == "O")
    && (s.stopbits == 1 || s.stopbits == 2)
    && s.timeoutMs > 0
    && (s.addressBits == 8 || s.addressBits == 11)
  }

  predicate BusOk(bus: BusConfig) {
    && bus.pollIntervalMs > 0 && bus.requestRetries >= 0 && bus.interRequestDelayMs >= 0
    && bus.modbusSlaveBase.Some? && 2 <= bus.modbusSlaveBase.value <= 247
    && SerialOk(bus.serial)
  }

  predicate BusesOk(buses: seq<BusConfig>) {
    && 1 <= |buses| <= 2
    && (forall i :: 0 <= i < |buses| ==> BusOk(buses[i]))
    && (forall i, j :: 0 <= i < j < |buses| ==> buses[i].name != buses[j].name)
  }

  function BusNames(buses: seq<BusConfig>): set<string> {
    set i | 0 <= i < |buses| :: buses[i].name
  }

  predicate KnownRegisterType(t: RegisterType) { !t.UnknownRegister? }
  predicate KnownDataType(t: DataType) { !t.UnknownType? }
  predicate KnownFormat(f: ProtocolFormat) { !f.UnknownFormat? }

  function Range(start: int, width: nat): (cells: set<int>)
    ensures forall a :: a in cells <==> start <= a < start + width
  {
    if width == 0 then {} else Range(start, width - 1) + {start + width - 1}
  }

  function Width(t: DataType): nat {
    if RegisterWidth(t).Ok? then RegisterWidth(t).value else 0
  }

  function StatusCells(status: StatusConfig): set<int> {
    Range(status.address, Width(status.dataType))
  }

  function TelemetryCells(t: TelemetryConfig): set<int> {
    {t.lastErrorCode, t.successCounter, t.timeoutCounter, t.protocolErrorCounter, t.pollCycleCounter}
  }

  predicate StatusOk(status: StatusConfig) {
    status.enabled ==>
      KnownRegisterType(status.registerType) && KnownDataType(status.dataType) && status.address >= 0
  }

  predicate TelemetryOk(t: TelemetryConfig) {
    t.enabled ==> KnownRegisterType(t.registerType) && forall a :: a in TelemetryCells(t) ==> a >= 0
  }

  predicate ServiceCellsApart(status: StatusConfig, t: TelemetryConfig) {
    status.enabled && t.enabled && status.registerType == t.registerType ==>
      HasRegisters(status.dataType) && StatusCells(status) !! TelemetryCells(t)
  }

  predicate SharedOk(config: GatewayConfig) {
    && 1 <= config.modbusPort <= 65535
    && StatusOk(config.status)
    && TelemetryOk(config.telemetry)
    && ServiceCellsApart(config.status, config.telemetry)
    && config.health.faultAfterFailures >= 1
    && config.health.recoveryPollIntervalCycles >= 1
  }

  predicate NotNegative(a: Option<int>) { a.Some? ==> a.value >= 0 }

  predicate PointFieldsOk(busNames: set<string>, p: PointConfig) {
    && p.bus in busNames
    && 1 <= p.device <= 32
    && p.modbusSlaveId.Some? && 2 <= p.modbusSlaveId.value <= 247
    && 0 <= p.address <= 2047
    && (p.parameterIndex.Some? ==> 0 <= p.parameterIndex.value <= 0xFFFF)
    && KnownFormat(p.protocolFormat) && KnownRegisterType(p.registerType) && KnownDataType(p.modbusDataType)
    && (p.writable ==>
          p.publishToModbus && p.registerType.HoldingRegister? && WritablePair(p.protocolFormat, p.modbusDataType))
    && p.modbusAddress >= 0 && NotNegative(p.timeMarkAddress) && NotNegative(p.channelStatusAddress)
  }

  function SlaveOf(p: PointConfig): int {
    if p.modbusSlaveId.Some? then p.modbusSlaveId.value else 0
  }

  function ValueCells(p: PointConfig): set<int> {
    Range(p.modbusAddress, Width(p.modbusDataType))
  }

  function OptionalCell(a: Option<int>): set<int> {
    if a.Some? then {a.value} else {}
  }

  function MetadataCells(p: PointConfig): set<int> {
    OptionalCell(p.timeMarkAddress) + OptionalCell(p.channelStatusAddress)
  }

  function PointCells(p: PointConfig): set<int> {
    ValueCells(p) + MetadataCells(p)
  }

  /** Status and telemetry cells of one register type; they exist on every slave. */
  function ReservedCells(config: GatewayConfig, t: RegisterType): set<int> {
    (if config.status.enabled && config.status.registerType == t then StatusCells(config.status) else {}) +
    (if config.telemetry.enabled && config.telemetry.registerType == t then TelemetryCells(config.telemetry) else {})
  }

  /** A published point has registers, apart from the service cells of its type. */
  predicate MappingOk(config: GatewayConfig, p: PointConfig) {
    p.publishToModbus ==>
      && HasRegisters(p.modbusDataType)
      && (config.status.enabled && config.status.registerType == p.registerType ==> HasRegisters(config.status.dataType))
      && PointCells(p) !! ReservedCells(config, p.registerType)
  }

  predicate SameDevice(p: PointConfig, q: PointConfig) {
    p.bus == q.bus && p.device == q.device
  }

  predicate SharesBlock(p: PointConfig, q: PointConfig) {
    p.publishToModbus && q.publishToModbus && SlaveOf(p) == SlaveOf(q) && p.registerType == q.registerType
  }

  /** What two points of one configuration owe each other: devices and slave ids correspond
      one to one, and published cells on the same slave and register type are disjoint. */
  predicate Compatible(p: PointConfig, q: PointConfig) {
    && (SameDevice(p, q) <==> SlaveOf(p) == SlaveOf(q))
    && (SharesBlock(p, q) ==> PointCells(p) !! PointCells(q))
  }

  predicate PairwiseCompatible(points: seq<PointConfig>) {
    forall i, j :: 0 <= i < j < |points| ==> Compatible(points[i], points[j])
  }

  predicate PointsOk(config: GatewayConfig) {
    && (forall i :: 0 <= i < |config.points| ==>
          PointFieldsOk(BusNames(config.buses), config.points[i]) && MappingOk(config, config.points[i]))
    && PairwiseCompatible(config.points)
  }

  predicate Accepts(config: GatewayConfig) {
    BusesOk(config.buses) && SharedOk(config) && PointsOk(config)
  }

  /* ---------- The validator ---------- */

  method ValidateSerialConfig(s: SerialConfig) returns (accepted: bool)
    ensures accepted <==> SerialOk(s)
  {
    if s.bytesize !in {7, 8} {
      return false;
    }
    if s.parity !in {"N", "E", "O"} {
      return false;
    }
    if s.stopbits !in {1, 2} || s.timeoutMs <= 0 {
      return false;
    }
    accepted := s.addressBits in {8, 11};
  }

  method ValidateBus(bus: BusConfig) returns (accepted: bool)
    ensures accepted <==> BusOk(bus)
  {
    if bus.pollIntervalMs <= 0 {
      return false;
    }
    if bus.requestRetries < 0 || bus.interRequestDelayMs < 0 {
      return false;
    }
    if bus.modbusSlaveBase.None? || !(2 <= bus.modbusSlaveBase.value <= 247) {
      return false;
    }
    accepted := ValidateSerialConfig(bus.serial);
  }

  method ValidateTelemetry(t: TelemetryConfig) returns (accepted: bool)
    ensures accepted <==> TelemetryOk(t)
  {
    if !t.enabled {
      return true;
    }
    FiveAddresses(t);
    if t.registerType.UnknownRegister? {
      return false;
    }
    accepted := t.lastErrorCode >= 0 && t.successCounter >= 0 && t.timeoutCounter >= 0 && t.protocolErrorCounter >= 0
                && t.pollCycleCounter >= 0;
  }

  lemma FiveAddresses(t: TelemetryConfig)
    ensures (forall a :: a in TelemetryCells(t) ==> a >= 0) <==>
            t.lastErrorCode >= 0 && t.successCounter >= 0 && t.timeoutCounter >= 0 && t.protocolErrorCounter >= 0
            && t.pollCycleCounter >= 0
  {
    assert t.lastErrorCode in TelemetryCells(t) && t.successCounter in TelemetryCells(t);
    assert t.timeoutCounter in TelemetryCells(t) && t.protocolErrorCounter in TelemetryCells(t);
    assert t.pollCycleCounter in TelemetryCells(t);
  }

  /** A status type without a width is a fault too. */
  method ValidateServiceCells(status: StatusConfig, t: TelemetryConfig) returns (accepted: bool)
    ensures accepted <==> ServiceCellsApart(status, t)
  {
    hide Range, StatusCells, TelemetryCells;
    if !status.enabled || !t.enabled || status.registerType != t.registerType {
      return true;
    }
    if RegisterWidth(status.dataType).Err? {
      assert !HasRegisters(status.dataType);
      return false;
    }
    var statusCells := Range(status.address, RegisterWidth(status.dataType).value);
    var telemetryCells := {t.lastErrorCode, t.successCounter, t.timeoutCounter, t.protocolErrorCounter, t.pollCycleCounter};
    CellsOfService(status, t);
    NothingShared(statusCells, telemetryCells);
    accepted := statusCells * telemetryCells == {};
  }

  lemma CellsOfService(status: StatusConfig, t: TelemetryConfig)
    requires RegisterWidth(status.dataType).Ok?
    ensures HasRegisters(status.dataType)
    ensures StatusCells(status) == Range(status.address, RegisterWidth(status.dataType).value)
    ensures TelemetryCells(t) ==
            {t.lastErrorCode, t.successCounter, t.timeoutCounter, t.protocolErrorCounter, t.pollCycleCounter}
  {
    hide Range;
  }

  lemma NothingShared(a: set<int>, b: set<int>)
    ensures a * b == {} <==> a !! b
  {
    if a * b == {} {
      forall x | x in a ensures x !in b {
        assert x in b ==> x in a * b;
      }
    }
  }

  /** Everything that lines and points share. */
  method ValidateShared(config: GatewayConfig) returns (accepted: bool)
    ensures accepted <==> SharedOk(config)
  {
    hide TelemetryOk, ServiceCellsApart;
    var status := config.status;
    if !(1 <= config.modbusPort <= 65535) {
      return false;
    }
    if status.enabled && (status.registerType.UnknownRegister? || status.dataType.UnknownType? || status.address < 0) {
      return false;
    }
    var telemetryAccepted := ValidateTelemetry(config.telemetry);
    if !telemetryAccepted {
      return false;
    }
    var apart := ValidateServiceCells(status, config.telemetry);
    if !apart {
      return false;
    }
    if config.health.faultAfterFailures < 1 {
      return false;
    }
    accepted := config.health.recoveryPollIntervalCycles >= 1;
  }

  const WRITABLE_PAIRS: set<(ProtocolFormat, DataType)> :=
    {(Float32Format, Float32Type), (StoredDotFormat, Float32Type), (Int16Format, Int16Type), (Uint16Format, Uint16Type),
     (Uint32Format, Uint32Type)}

  /** The tests of one point's own fields, in the order in which they are made. */
  method ValidatePointFields(busNames: set<string>, p: PointConfig) returns (accepted: bool)
    ensures accepted <==> PointFieldsOk(busNames, p)
  {
    if p.bus !in busNames {
      return false;
    }
    if !(1 <= p.device <= MAX_DEVICES_PER_BUS) {
      return false;
    }
    if p.modbusSlaveId.None? || !(1 <= p.modbusSlaveId.value <= 247) || p.modbusSlaveId.value == SERVICE_SLAVE_ID {
      return false;
    }
    if p.address < 0 || p.address > 2047 {
      return false;
    }
    if p.parameterIndex.Some? && !(0 <= p.parameterIndex.value <= 0xFFFF) {
      return false;
    }
    if p.protocolFormat.UnknownFormat? || p.registerType.UnknownRegister? || p.modbusDataType.UnknownType? {
      return false;
    }
    if p.writable {
      if !p.publishToModbus || p.registerType != HoldingRegister {
        return false;
      }
      if (p.protocolFormat, p.modbusDataType) !in WRITABLE_PAIRS {
        return false;
      }
    }
    if p.modbusAddress < 0 || (p.timeMarkAddress.Some? && p.timeMarkAddress.value < 0) {
      return false;
    }
    accepted := p.channelStatusAddress.Some? ==> p.channelStatusAddress.value >= 0;
  }

  method ValidateBuses(buses: seq<BusConfig>) returns (accepted: bool)
    ensures accepted <==> BusesOk(buses)
  {
    if |buses| == 0 || |buses| > MAX_BUSES {
      return false;
    }
    var busNames: set<string> := {};
    for i := 0 to |buses|
      invariant busNames == set k | 0 <= k < i :: buses[k].name
      invariant forall k :: 0 <= k < i ==> BusOk(buses[k])
      invariant forall j, k :: 0 <= j < k < i ==> buses[j].name != buses[k].name
    {
      if buses[i].name in busNames {
        return false;
      }
      busNames := busNames + {buses[i].name};
      var busAccepted := ValidateBus(buses[i]);
      if !busAccepted {
        return false;
      }
    }
    accepted := true;
  }

  type BlockKey = (int, RegisterType)
  type DeviceKey = (string, int)

  function BlockOf(p: PointConfig): BlockKey { (SlaveOf(p), p.registerType) }
  function DeviceOf(p: PointConfig): DeviceKey { (p.bus, p.device) }

  function CellsAt(occupied: map<BlockKey, set<int>>, key: BlockKey): set<int> {
    if key in occupied then occupied[key] else {}
  }

  /** The three dictionaries the loop has built after some points. */
  function Occupied(config: GatewayConfig, points: seq<PointConfig>): map<BlockKey, set<int>> {
    if points == [] then map[]
    else
      var p, before := points[|points| - 1], Occupied(config, points[..|points| - 1]);
      if p.publishToModbus
      then before[BlockOf(p) := CellsAt(before, BlockOf(p)) + ReservedCells(config, p.registerType) + PointCells(p)]
      else before
  }

  function DeviceSlaves(points: seq<PointConfig>): map<DeviceKey, int> {
    if points == [] then map[]
    else DeviceSlaves(points[..|points| - 1])[DeviceOf(points[|points| - 1]) := SlaveOf(points[|points| - 1])]
  }

  function SlaveDevices(points: seq<PointConfig>): map<int, DeviceKey> {
    if points == [] then map[]
    else SlaveDevices(points[..|points| - 1])[SlaveOf(points[|points| - 1]) := DeviceOf(points[|points| - 1])]
  }

  /** The loop's tests of one point against those dictionaries. */
  predicate DeviceTest(deviceToSlave: map<DeviceKey, int>, slaveToDevice: map<int, DeviceKey>, p: PointConfig) {
    && (DeviceOf(p) in deviceToSlave ==> deviceToSlave[DeviceOf(p)] == SlaveOf(p))
    && (SlaveOf(p) in slaveToDevice ==> slaveToDevice[SlaveOf(p)] == DeviceOf(p))
  }

  predicate OverlapTest(config: GatewayConfig, occupied: map<BlockKey, set<int>>, p: PointConfig) {
    p.publishToModbus ==>
      && (config.status.enabled && config.status.registerType == p.registerType ==> HasRegisters(config.status.dataType))
      && HasRegisters(p.modbusDataType)
      && (CellsAt(occupied, BlockOf(p)) + ReservedCells(config, p.registerType)) !! PointCells(p)
  }

  predicate Takes(config: GatewayConfig, q: PointConfig, key: BlockKey, a: int) {
    q.publishToModbus && BlockOf(q) == key && a in ReservedCells(config, key.1) + PointCells(q)
  }

  lemma {:induction false} OccupiedMember(config: GatewayConfig, points: seq<PointConfig>, key: BlockKey, a: int)
    ensures a in CellsAt(Occupied(config, points), key) <==> exists k :: 0 <= k < |points| && Takes(config, points[k], key, a)
  {
    if points != [] {
      var init, last := points[..|points| - 1], |points| - 1;
      OccupiedMember(config, init, key, a);
      assert forall k :: 0 <= k < last ==> points[k] == init[k];
      if Takes(config, points[last], key, a) {
        assert a in CellsAt(Occupied(config, points), key);
      } else {
        assert a in CellsAt(Occupied(config, points), key) <==> a in CellsAt(Occupied(config, init), key);
      }
    }
  }

  lemma {:induction false} DeviceDictionaries(points: seq<PointConfig>)
    requires PairwiseCompatible(points)
    ensures forall k :: 0 <= k < |points| ==>
              && DeviceOf(points[k]) in DeviceSlaves(points) && DeviceSlaves(points)[DeviceOf(points[k])] == SlaveOf(points[k])
              && SlaveOf(points[k]) in SlaveDevices(points) && SlaveDevices(points)[SlaveOf(points[k])] == DeviceOf(points[k])
  {
    if points != [] {
      var init, last := points[..|points| - 1], |points| - 1;
      assert forall k :: 0 <= k < last ==> points[k] == init[k];
      DeviceDictionaries(init);
      forall k | 0 <= k < last
        ensures DeviceOf(points[k]) == DeviceOf(points[last]) <==> SlaveOf(points[k]) == SlaveOf(points[last])
      {
        assert Compatible(points[k], points[last]);
      }
    }
  }

  lemma {:induction false} DictionaryKeys(points: seq<PointConfig>, device: DeviceKey, slave: int)
    ensures device in DeviceSlaves(points) ==> exists k :: 0 <= k < |points| && DeviceOf(points[k]) == device
    ensures slave in SlaveDevices(points) ==> exists k :: 0 <= k < |points| && SlaveOf(points[k]) == slave
  {
    if points != [] {
      var init, last := points[..|points| - 1], |points| - 1;
      DictionaryKeys(init, device, slave);
      assert forall k :: 0 <= k < last ==> points[k] == init[k];
    }
  }

  predicate ApartFromEarlier(points: seq<PointConfig>, p: PointConfig) {
    forall k :: 0 <= k < |points| ==> Compatible(points[k], p)
  }

  lemma DeviceTestIsPairwise(points: seq<PointConfig>, p: PointConfig)
    requires PairwiseCompatible(points)
    ensures DeviceTest(DeviceSlaves(points), SlaveDevices(points), p) <==>
            forall k :: 0 <= k < |points| ==> (SameDevice(points[k], p) <==> SlaveOf(points[k]) == SlaveOf(p))
  {
    DeviceDictionaries(points);
    DictionaryKeys(points, DeviceOf(p), SlaveOf(p));
    if forall k :: 0 <= k < |points| ==> (SameDevice(points[k], p) <==> SlaveOf(points[k]) == SlaveOf(p)) {
      if DeviceOf(p) in DeviceSlaves(points) {
        var k :| 0 <= k < |points| && DeviceOf(points[k]) == DeviceOf(p);
        assert SameDevice(points[k], p);
      }
      if SlaveOf(p) in SlaveDevices(points) {
        var k :| 0 <= k < |points| && SlaveOf(points[k]) == SlaveOf(p);
        assert SameDevice(points[k], p);
      }
    }
  }

  lemma OverlapTestIsPairwise(config: GatewayConfig, points: seq<PointConfig>, p: PointConfig)
    ensures OverlapTest(config, Occupied(config, points), p) <==>
            MappingOk(config, p) &&
            forall k :: 0 <= k < |points| && SharesBlock(points[k], p) ==> PointCells(points[k]) !! PointCells(p)
  {
    if p.publishToModbus {
      var used, reserved := CellsAt(Occupied(config, points), BlockOf(p)), ReservedCells(config, p.registerType);
      forall a | a in PointCells(p)
        ensures a in used <==> exists k :: 0 <= k < |points| && Takes(config, points[k], BlockOf(p), a)
      {
        OccupiedMember(config, points, BlockOf(p), a);
      }
      if (used + reserved) !! PointCells(p) {
        forall k | 0 <= k < |points| && SharesBlock(points[k], p)
          ensures PointCells(points[k]) !! PointCells(p)
        {
          forall a | a in PointCells(points[k]) ensures a !in PointCells(p) {
            assert Takes(config, points[k], BlockOf(p), a);
          }
        }
      }
    }
  }

  /** Passing the loop's tests is being compatible with every earlier point. */
  lemma TestsArePairwise(config: GatewayConfig, points: seq<PointConfig>, p: PointConfig)
    requires PairwiseCompatible(points)
    ensures DeviceTest(DeviceSlaves(points), SlaveDevices(points), p) && OverlapTest(config, Occupied(config, points), p) <==>
            MappingOk(config, p) && ApartFromEarlier(points, p)
  {
    hide DeviceTest, OverlapTest;
    DeviceTestIsPairwise(points, p);
    OverlapTestIsPairwise(config, points, p);
  }

  function DeviceNumbers(points: seq<PointConfig>, bus: string): set<int> {
    set k | 0 <= k < |points| && points[k].bus == bus :: points[k].device
  }

  lemma {:induction false} RangeSize(start: int, width: nat)
    ensures |Range(start, width)| == width
  {
    if width > 0 {
      RangeSize(start, width - 1);
    }
  }

  lemma {:induction false} SubsetSize<T>(a: set<T>, b: set<T>)
    requires a <= b
    ensures |a| <= |b|
    decreases |a|
  {
    if a != {} {
      var x :| x in a;
      SubsetSize(a - {x}, b - {x});
    }
  }

  function DeviceTotal(buses: seq<BusConfig>, points: seq<PointConfig>): nat {
    if buses == [] then 0
    else DeviceTotal(buses[..|buses| - 1], points) + |DeviceNumbers(points, buses[|buses| - 1].name)|
  }

  predicate WithinLimits(buses: seq<BusConfig>, points: seq<PointConfig>) {
    && DeviceTotal(buses, points) <= 128
    && forall i :: 0 <= i < |buses| ==> |DeviceNumbers(points, buses[i].name)| <= 32
  }

  lemma FewDevices(points: seq<PointConfig>, bus: string)
    requires forall k :: 0 <= k < |points| ==> 1 <= points[k].device <= MAX_DEVICES_PER_BUS
    ensures |DeviceNumbers(points, bus)| <= MAX_DEVICES_PER_BUS
  {
    RangeSize(1, MAX_DEVICES_PER_BUS);
    SubsetSize(DeviceNumbers(points, bus), Range(1, MAX_DEVICES_PER_BUS));
  }

  lemma {:induction false} FewDevicesInAll(buses: seq<BusConfig>, points: seq<PointConfig>)
    requires forall k :: 0 <= k < |points| ==> 1 <= points[k].device <= MAX_DEVICES_PER_BUS
    ensures DeviceTotal(buses, points) <= |buses| * MAX_DEVICES_PER_BUS
  {
    if buses != [] {
      FewDevicesInAll(buses[..|buses| - 1], points);
      FewDevices(points, buses[|buses| - 1].name);
    }
  }

  /** Device numbers lie in 1..32, so the per-line and total limits are never exceeded by
      points that passed the earlier tests. */
  lemma LimitsAlwaysHold(buses: seq<BusConfig>, points: seq<PointConfig>)
    requires |buses| <= MAX_BUSES
    requires forall k :: 0 <= k < |points| ==> 1 <= points[k].device <= MAX_DEVICES_PER_BUS
    ensures WithinLimits(buses, points)
  {
    hide DeviceNumbers, DeviceTotal;
    FewDevicesInAll(buses, points);
    forall i | 0 <= i < |buses| ensures |DeviceNumbers(points, buses[i].name)| <= MAX_DEVICES_PER_BUS {
      FewDevices(points, buses[i].name);
    }
  }

  predicate PointsOkUpTo(config: GatewayConfig, i: nat)
    requires i <= |config.points|
  {
    && (forall k :: 0 <= k < i ==>
          PointFieldsOk(BusNames(config.buses), config.points[k]) && MappingOk(config, config.points[k]))
    && PairwiseCompatible(config.points[..i])
  }

  lemma OnePointMore(config: GatewayConfig, i: nat)
    requires i < |config.points|
    ensures config.points[..i + 1] == config.points[..i] + [config.points[i]]
    ensures PointsOkUpTo(config, i + 1) <==>
            && PointsOkUpTo(config, i)
            && PointFieldsOk(BusNames(config.buses), config.points[i])
            && MappingOk(config, config.points[i]) && ApartFromEarlier(config.points[..i], config.points[i])
  {
    hide PointFieldsOk, MappingOk, Compatible;
    var earlier, all := config.points[..i], config.points[..i + 1];
    assert forall k :: 0 <= k < i ==> all[k] == earlier[k];
    assert all[i] == config.points[i];
    if PointsOkUpTo(config, i + 1) {
      forall k | 0 <= k < i ensures Compatible(earlier[k], config.points[i]) {
        assert Compatible(all[k], all[i]);
      }
    }
  }

  lemma UpToIsMonotone(config: GatewayConfig, i: nat)
    requires i <= |config.points|
    ensures PointsOk(config) ==> PointsOkUpTo(config, i)
    ensures i == |config.points| ==> (PointsOkUpTo(config, i) <==> PointsOk(config))
  {
    hide PointFieldsOk, MappingOk, Compatible;
    assert config.points[..|config.points|] == config.points;
  }

  method ValidatePoints(config: GatewayConfig) returns (accepted: bool)
    requires |config.buses| <= MAX_BUSES
    ensures accepted <==> PointsOk(config)
  {
    hide *;
    EmptyDictionaries(config);
    var busNames := BusNames(config.buses);
    var occupied: map<BlockKey, set<int>> := map[];
    var deviceToSlave: map<DeviceKey, int> := map[];
    var slaveToDevice: map<int, DeviceKey> := map[];
    var devicesPerBus: map<string, set<int>> := map name | name in busNames :: {};
    for i := 0 to |config.points|
      invariant PointsOkUpTo(config, i)
      invariant occupied == Occupied(config, config.points[..i])
      invariant deviceToSlave == DeviceSlaves(config.points[..i])
      invariant slaveToDevice == SlaveDevices(config.points[..i])
      invariant devicesPerBus.Keys == busNames
      invariant forall name :: name in busNames ==> devicesPerBus[name] == DeviceNumbers(config.points[..i], name)
    {
      var p := config.points[i];
      OnePointMore(config, i);
      UpToIsMonotone(config, i + 1);
      PairwiseUpTo(config, i);
      TestsArePairwise(config, config.points[..i], p);
      DictionariesExtended(config, config.points[..i], p);
      var fieldsAccepted := ValidatePointFields(busNames, p);
      if !fieldsAccepted {
        return false;
      }
      if !DeviceTest(deviceToSlave, slaveToDevice, p) {
        return false;
      }
      deviceToSlave := deviceToSlave[DeviceOf(p) := SlaveOf(p)];
      slaveToDevice := slaveToDevice[SlaveOf(p) := DeviceOf(p)];
      if !OverlapTest(config, occupied, p) {
        return false;
      }
      if p.publishToModbus {
        occupied := occupied[BlockOf(p) := CellsAt(occupied, BlockOf(p)) + ReservedCells(config, p.registerType) + PointCells(p)];
      }
      DeviceRecorded(config.points[..i], p);
      BusKnown(busNames, p);
      devicesPerBus := devicesPerBus[p.bus := devicesPerBus[p.bus] + {p.device}];
    }
    UpToIsMonotone(config, |config.points|);
    assert config.points[..|config.points|] == config.points;
    DevicesInRange(config);
    LimitsAlwaysHold(config.buses, config.points);
    accepted := CountsWithinLimits(config, devicesPerBus);
  }

  lemma EmptyDictionaries(config: GatewayConfig)
    ensures PointsOkUpTo(config, 0)
    ensures Occupied(config, config.points[..0]) == map[] && DeviceSlaves(config.points[..0]) == map[]
    ensures SlaveDevices(config.points[..0]) == map[]
    ensures forall name :: DeviceNumbers(config.points[..0], name) == {}
  {}

  lemma PairwiseUpTo(config: GatewayConfig, i: nat)
    requires i <= |config.points| && PointsOkUpTo(config, i)
    ensures PairwiseCompatible(config.points[..i])
  {}

  lemma DictionariesExtended(config: GatewayConfig, points: seq<PointConfig>, p: PointConfig)
    ensures DeviceSlaves(points + [p]) == DeviceSlaves(points)[DeviceOf(p) := SlaveOf(p)]
    ensures SlaveDevices(points + [p]) == SlaveDevices(points)[SlaveOf(p) := DeviceOf(p)]
    ensures var before := Occupied(config, points);
            Occupied(config, points + [p]) ==
            if p.publishToModbus
            then before[BlockOf(p) := CellsAt(before, BlockOf(p)) + ReservedCells(config, p.registerType) + PointCells(p)]
            else before
  {
    hide ReservedCells, PointCells;
    assert (points + [p])[..|points|] == points && (points + [p])[|points|] == p;
  }

  lemma BusKnown(busNames: set<string>, p: PointConfig)
    requires PointFieldsOk(busNames, p)
    ensures p.bus in busNames
  {}

  lemma DevicesInRange(config: GatewayConfig)
    requires PointsOk(config)
    ensures forall k :: 0 <= k < |config.points| ==> 1 <= config.points[k].device <= MAX_DEVICES_PER_BUS
  {}

  lemma DeviceRecorded(points: seq<PointConfig>, p: PointConfig)
    ensures forall name :: DeviceNumbers(points + [p], name) ==
                           DeviceNumbers(points, name) + (if p.bus == name then {p.device} else {})
  {
    var all := points + [p];
    assert forall k :: 0 <= k < |points| ==> all[k] == points[k];
    assert all[|points|] == p;
    forall name
      ensures DeviceNumbers(all, name) == DeviceNumbers(points, name) + (if p.bus == name then {p.device} else {})
    {
      forall d | d in DeviceNumbers(points, name) ensures d in DeviceNumbers(all, name) {
        var k :| 0 <= k < |points| && points[k].bus == name && points[k].device == d;
        assert all[k].bus == name;
      }
    }
  }

  method CountsWithinLimits(config: GatewayConfig, devicesPerBus: map<string, set<int>>) returns (within: bool)
    requires devicesPerBus.Keys == BusNames(config.buses)
    requires forall name :: name in devicesPerBus ==> devicesPerBus[name] == DeviceNumbers(config.points, name)
    ensures within <==> WithinLimits(config.buses, config.points)
  {
    var total := 0;
    for i := 0 to |config.buses|
      invariant total == DeviceTotal(config.buses[..i], config.points)
    {
      assert config.buses[..i + 1][..i] == config.buses[..i];
      total := total + |devicesPerBus[config.buses[i].name]|;
    }
    assert config.buses[..|config.buses|] == config.buses;
    if total > MAX_TOTAL_DEVICES {
      return false;
    }
    for i := 0 to |config.buses|
      invariant forall k :: 0 <= k < i ==> |DeviceNumbers(config.points, config.buses[k].name)| <= MAX_DEVICES_PER_BUS
    {
      if |devicesPerBus[config.buses[i].name]| > MAX_DEVICES_PER_BUS {
        return false;
      }
    }
    within := true;
  }

  method ValidateConfig(config: GatewayConfig) returns (accepted: bool)
    ensures accepted <==> Accepts(config)
  {
    var busesAccepted := ValidateBuses(config.buses);
    if !busesAccepted {
      return false;
    }
    var sharedAccepted := ValidateShared(config);
    if !sharedAccepted {
      return false;
    }
    accepted := ValidatePoints(config);
  }
}
