/** The gateway's state and its atomic steps.

    Everything between two suspension points of the event loop is one step: passing a point
    over or starting its exchange, taking the reply into account when it arrives, closing a
    device's cycle, a client's write, the end of a write handler. Pollers of several lines
    and write handlers interleave freely between steps, and every exchange result is
    arbitrary. */
module Gateway {
  import opened Core
  import opened Frame
  import opened ParameterHash
  import opened Payload
  import opened Registers
  import opened Config
  import opened RegisterMap
  import opened Health
  import opened Status
  import opened LogicUnit

  const ERROR_NONE: word := 0
  const ERROR_TIMEOUT: word := 1
  const ERROR_BAD_FLAG: word := 2
  const ERROR_HASH_MISMATCH: word := 3
  const ERROR_DECODE: word := 4
  const ERROR_IO: word := 5

  const SERVICE_LINE_STATUS_BASE := 10

  /** A device as the runtime knows it: line name and slave id. */
  type SlaveKey = (string, int)

  datatype DeviceState = DeviceState(
    status: nat, success: word, timeout: word, protocolError: word, pollCycle: word, lastErrorCode: word)

  const INITIAL_DEVICE_STATE := DeviceState(STATUS_OFFLINE, 0, 0, 0, 0, ERROR_NONE)

  datatype GatewayCounters = GatewayCounters(
    success: word, timeout: word, protocolError: word, pollCycle: word, lastErrorCode: word)

  /** Where a line's poller is: device and point of the cycle, its local counts, and whether
      it waits for the point's exchange. */
  datatype Poller = Poller(
    device: nat, point: nat, failures: nat, protocolFailures: nat, lastErrorCode: word, waiting: bool)

  const CYCLE_START := Poller(0, 0, 0, 0, ERROR_NONE, false)

  /** `ioFailures` is a history: how many replies ended as generic I/O failures. */
  datatype State = State(
    pointStates: map<string, PointState>,
    pointValues: map<string, Option<Value>>,
    logicMasks: map<SlaveKey, nat>,
    deviceStates: map<SlaveKey, DeviceState>,
    busStatuses: map<string, nat>,
    counters: GatewayCounters,
    store: Store,
    pollers: map<string, Poller>,
    ioFailures: nat)

  /* Records at their defaults until first written. */

  function PointStateIn(states: map<string, PointState>, name: string): PointState {
    if name in states then states[name] else INITIAL_POINT_STATE
  }

  function ValueIn(values: map<string, Option<Value>>, name: string): Option<Value> {
    if name in values then values[name] else None
  }

  function LogicMaskIn(masks: map<SlaveKey, nat>, key: SlaveKey): nat {
    if key in masks then masks[key] else 0
  }

  function DeviceIn(devices: map<SlaveKey, DeviceState>, key: SlaveKey): DeviceState {
    if key in devices then devices[key] else INITIAL_DEVICE_STATE
  }

  function LineIn(lines: map<string, nat>, bus: string): nat {
    if bus in lines then lines[bus] else STATUS_OFFLINE
  }

  function PollerIn(pollers: map<string, Poller>, bus: string): Poller {
    if bus in pollers then pollers[bus] else CYCLE_START
  }

  function IncCounter(n: word): word { (n as int + 1) % 0x1_0000 }

  /* ---------- Which devices and points there are ---------- */

  function KeyOf(p: PointConfig): SlaveKey { (p.bus, SlaveOf(p)) }

  /** Devices in order of first appearance, as the source's dictionaries keep them. */
  function SlaveKeys(points: seq<PointConfig>): seq<SlaveKey> {
    if points == [] then []
    else
      var keys, key := SlaveKeys(points[..|points| - 1]), KeyOf(points[|points| - 1]);
      if key in keys then keys else keys + [key]
  }

  function KeysOn(keys: seq<SlaveKey>, bus: string): (r: seq<SlaveKey>)
    ensures forall key :: key in r <==> key in keys && key.0 == bus
  {
    if keys == [] then []
    else
      var rest := KeysOn(keys[..|keys| - 1], bus);
      if keys[|keys| - 1].0 == bus then rest + [keys[|keys| - 1]] else rest
  }

  function PointsOf(points: seq<PointConfig>, key: SlaveKey): (r: seq<PointConfig>)
    ensures forall p :: p in r <==> p in points && KeyOf(p) == key
  {
    if points == [] then []
    else
      var rest := PointsOf(points[..|points| - 1], key);
      if KeyOf(points[|points| - 1]) == key then rest + [points[|points| - 1]] else rest
  }

  function DevicesOn(config: GatewayConfig, bus: string): seq<SlaveKey> {
    KeysOn(SlaveKeys(config.points), bus)
  }

  predicate OnDevice(config: GatewayConfig, s: State, bus: string) {
    PollerIn(s.pollers, bus).device < |DevicesOn(config, bus)|
  }

  function CurrentKey(config: GatewayConfig, s: State, bus: string): SlaveKey
    requires OnDevice(config, s, bus)
  {
    DevicesOn(config, bus)[PollerIn(s.pollers, bus).device]
  }

  predicate AtPoint(config: GatewayConfig, s: State, bus: string) {
    OnDevice(config, s, bus) && PollerIn(s.pollers, bus).point < |PointsOf(config.points, CurrentKey(config, s, bus))|
  }

  predicate AtDeviceEnd(config: GatewayConfig, s: State, bus: string) {
    OnDevice(config, s, bus) && PollerIn(s.pollers, bus).point == |PointsOf(config.points, CurrentKey(config, s, bus))|
  }

  function CurrentPoint(config: GatewayConfig, s: State, bus: string): PointConfig
    requires AtPoint(config, s, bus)
  {
    PointsOf(config.points, CurrentKey(config, s, bus))[PollerIn(s.pollers, bus).point]
  }

  /* ---------- What is published ---------- */

  function ValueWrites(p: PointConfig, words: seq<word>): seq<Write> {
    if p.publishToModbus then [Write(SlaveOf(p), p.registerType, p.modbusAddress, words)] else []
  }

  /** Metadata is written whether or not the point itself is published. */
  function MetadataWrites(p: PointConfig, mark: Option<word>, status: nat): seq<Write>
    requires status < 0x1_0000
  {
    (if mark.Some? && p.timeMarkAddress.Some?
     then [Write(SlaveOf(p), p.registerType, p.timeMarkAddress.value, [mark.value])] else []) +
    (if p.channelStatusAddress.Some?
     then [Write(SlaveOf(p), p.registerType, p.channelStatusAddress.value, [status])] else [])
  }

  /** For a status type without registers there is nothing to publish; the program does not
      get that far, its first status raises at start-up and no run follows. */
  function StatusWrites(config: GatewayConfig, floats: Floats, slave: int, status: nat): seq<Write> {
    if !config.status.enabled then []
    else
      match EncodeRegisters(floats, Int(status), config.status.dataType)
      case Ok(words) => [Write(slave, config.status.registerType, config.status.address, words)]
      case Err(_) => []
  }

  function TelemetryWrites(config: GatewayConfig, slave: int, lastErrorCode: word, success: word,
                           timeout: word, protocolError: word, pollCycle: word): seq<Write> {
    var t := config.telemetry;
    if !t.enabled then []
    else [Write(slave, t.registerType, t.lastErrorCode, [lastErrorCode]),
          Write(slave, t.registerType, t.successCounter, [success]),
          Write(slave, t.registerType, t.timeoutCounter, [timeout]),
          Write(slave, t.registerType, t.protocolErrorCounter, [protocolError]),
          Write(slave, t.registerType, t.pollCycleCounter, [pollCycle])]
  }

  function DeviceTelemetry(config: GatewayConfig, slave: int, d: DeviceState): seq<Write> {
    TelemetryWrites(config, slave, d.lastErrorCode, d.success, d.timeout, d.protocolError, d.pollCycle)
  }

  function GatewayTelemetry(config: GatewayConfig, c: GatewayCounters): seq<Write> {
    TelemetryWrites(config, SERVICE_SLAVE_ID, c.lastErrorCode, c.success, c.timeout, c.protocolError, c.pollCycle)
  }

  function StatusWord(status: nat): word { if status < 0x1_0000 then status else 0 }

  function LineWrite(lines: map<string, nat>, buses: seq<BusConfig>, i: nat): Write
    requires i < |buses|
  {
    Write(SERVICE_SLAVE_ID, HoldingRegister, SERVICE_LINE_STATUS_BASE + i, [StatusWord(LineIn(lines, buses[i].name))])
  }

  function LineWrites(lines: map<string, nat>, buses: seq<BusConfig>): (writes: seq<Write>)
    ensures |writes| == |buses|
    ensures forall i :: 0 <= i < |buses| ==> writes[i] == LineWrite(lines, buses, i)
  {
    seq(|buses|, i requires 0 <= i < |buses| => LineWrite(lines, buses, i))
  }

  function MaskWrite(slave: int, mask: nat): Write
    requires mask < 0x100
  {
    Write(slave, HoldingRegister, MASK_REGISTER, [mask])
  }

  /* ---------- Logic units ---------- */

  /** The point a dictionary keyed by address ends up with: the last one. */
  function LastWith(points: seq<PointConfig>, parameter: string, address: int): Option<PointConfig> {
    if points == [] then None
    else
      var p := points[|points| - 1];
      if p.parameter == parameter && p.address == address then Some(p)
      else LastWith(points[..|points| - 1], parameter, address)
  }

  function ValueAt(values: map<string, Option<Value>>, points: seq<PointConfig>, parameter: string,
                   address: int): Option<Value> {
    match LastWith(points, parameter, address)
    case None => None
    case Some(p) => ValueIn(values, p.name)
  }

  /** `_as_float`; byte strings do not occur without `raw` points. */
  function AsFloat(v: Option<Value>): Option<real> {
    if v.None? || v.value.Bytes? then None else Some(AsReal(v.value))
  }

  function AsMode(v: Option<Value>): Option<int> {
    if v.None? || AsInt(v.value).Err? then None else Some(AsInt(v.value).value)
  }

  function InputsAt(values: map<string, Option<Value>>, points: seq<PointConfig>, address: int): Inputs {
    var hysteresis := AsFloat(ValueAt(values, points, "HYSt", address));
    Inputs(AsFloat(ValueAt(values, points, "rEAd", address)),
           AsFloat(ValueAt(values, points, "C.SP", address)),
           if hysteresis.Some? then AbsReal(hysteresis.value) else 0.0,
           AsMode(ValueAt(values, points, "AL.t", address)))
  }

  function UnitInputs(values: map<string, Option<Value>>, points: seq<PointConfig>, slave: int): (inputs: seq<Inputs>)
    ensures |inputs| == LOGIC_UNIT_COUNT
    ensures forall i :: 0 <= i < LOGIC_UNIT_COUNT ==> inputs[i] == InputsAt(values, points, slave + i)
  {
    seq(LOGIC_UNIT_COUNT, i => InputsAt(values, points, slave + i))
  }

  function NextMask(config: GatewayConfig, s: State, key: SlaveKey): (mask: nat)
    ensures mask < 0x100
  {
    var inputs := UnitInputs(s.pointValues, PointsOf(config.points, key), key.1);
    MaskIsSmall(inputs, LogicMaskIn(s.logicMasks, key));
    MaskOf(Outputs(inputs, LogicMaskIn(s.logicMasks, key)))
  }

  /* ---------- Taking a reply into account ---------- */

  datatype Outcome =
    | Succeeded(value: Value, words: seq<word>, mark: Option<word>)
    | NoData
    | NoReply
    | Garbled(code: word, stored: Option<Value>)
    | Broken(stored: Option<Value>)

  function TimeMark(payload: seq<byte>): Option<word> {
    if |payload| == 6 then Some(WordAt(payload, 4)) else None
  }

  function PublishedWords(floats: Floats, p: PointConfig, value: Value): Result<seq<word>> {
    if p.publishToModbus then EncodeRegisters(floats, value, p.modbusDataType) else Ok([])
  }

  /** The branch of the poll loop's try statement that an exchange ends in. A value is kept
      before publishing it, so a failing publish leaves it `stored`. */
  function Classify(floats: Floats, p: PointConfig, exchange: Result<OwenFrame>): Outcome {
    match exchange
    case Err(Timeout) => NoReply
    case Err(OtherFault) => Broken(None)
    case Err(_) => Garbled(ERROR_DECODE, None)
    case Ok(frame) =>
      if frame.request then Garbled(ERROR_BAD_FLAG, None)
      else if HashParameterName(p.parameter).Err? then Garbled(ERROR_DECODE, None)
      else if HashParameterName(p.parameter).value != frame.parameterHash then Garbled(ERROR_HASH_MISMATCH, None)
      else if frame.payload == [] then NoData
      else
        match DecodePayload(floats, frame.payload, p.protocolFormat)
        case Err(_) => Garbled(ERROR_DECODE, None)
        case Ok(value) =>
          match PublishedWords(floats, p, value)
          case Ok(words) => Succeeded(value, words, TimeMark(frame.payload))
          case Err(OtherFault) => Broken(Some(value))
          case Err(_) => Garbled(ERROR_DECODE, Some(value))
  }

  function WithStored(values: map<string, Option<Value>>, name: string,
                      stored: Option<Value>): map<string, Option<Value>> {
    if stored.Some? then values[name := stored] else values
  }

  function Passed(poller: Poller): Poller { poller.(point := poller.point + 1, waiting := false) }

  function Failed(poller: Poller, code: word, protocol: bool): Poller {
    poller.(point := poller.point + 1, failures := poller.failures + 1,
            protocolFailures := poller.protocolFailures + (if protocol then 1 else 0), lastErrorCode := code,
            waiting := false)
  }

  function WordStatus(state: PointState): word {
    if state.channelStatus < 0x1_0000 then state.channelStatus else 0
  }

  function ApplyOutcome(config: GatewayConfig, s: State, bus: string, outcome: Outcome): State
    requires AtPoint(config, s, bus)
  {
    var p, key, poller := CurrentPoint(config, s, bus), CurrentKey(config, s, bus), PollerIn(s.pollers, bus);
    var state, device := PointStateIn(s.pointStates, p.name), DeviceIn(s.deviceStates, key);
    match outcome
    case Succeeded(value, words, mark) =>
      s.(pointStates := s.pointStates[p.name := AfterSuccess(state)],
         pointValues := s.pointValues[p.name := Some(value)],
         deviceStates := s.deviceStates[key := device.(success := IncCounter(device.success))],
         counters := s.counters.(success := IncCounter(s.counters.success)),
         store := PublishAll(s.store, ValueWrites(p, words) + MetadataWrites(p, mark, CHANNEL_OK)),
         pollers := s.pollers[bus := Passed(poller)])
    case NoData =>
      s.(pointStates := s.pointStates[p.name := AfterEmpty(state)],
         pointValues := s.pointValues[p.name := None],
         store := PublishAll(s.store, MetadataWrites(p, None, CHANNEL_DISABLED)),
         pollers := s.pollers[bus := Passed(poller)])
    case NoReply =>
      var next := AfterFailure(state, config.health, CHANNEL_COMM_ERROR);
      s.(pointStates := s.pointStates[p.name := next],
         deviceStates := s.deviceStates[key := device.(timeout := IncCounter(device.timeout))],
         counters := s.counters.(timeout := IncCounter(s.counters.timeout)),
         store := PublishAll(s.store, MetadataWrites(p, None, WordStatus(next))),
         pollers := s.pollers[bus := Failed(poller, ERROR_TIMEOUT, false)])
    case Garbled(code, stored) =>
      var next := AfterFailure(state, config.health, CHANNEL_PROTOCOL_ERROR);
      s.(pointStates := s.pointStates[p.name := next],
         pointValues := WithStored(s.pointValues, p.name, stored),
         deviceStates := s.deviceStates[key := device.(protocolError := IncCounter(device.protocolError))],
         counters := s.counters.(protocolError := IncCounter(s.counters.protocolError)),
         store := PublishAll(s.store, MetadataWrites(p, None, WordStatus(next))),
         pollers := s.pollers[bus := Failed(poller, code, true)])
    case Broken(stored) =>
      var next := AfterFailure(state, config.health, CHANNEL_COMM_ERROR);
      s.(pointStates := s.pointStates[p.name := next],
         pointValues := WithStored(s.pointValues, p.name, stored),
         counters := s.counters.(timeout := IncCounter(s.counters.timeout)),
         store := PublishAll(s.store, MetadataWrites(p, None, WordStatus(next))),
         pollers := s.pollers[bus := Failed(poller, ERROR_IO, false)],
         ioFailures := s.ioFailures + 1)
  }

  /** A point not waiting for a recovery attempt is asked; until the reply arrives the line's
      poller is suspended. */
  function BeginExchange(s: State, bus: string): State {
    s.(pollers := s.pollers[bus := PollerIn(s.pollers, bus).(waiting := true)])
  }

  /** A point waiting for its next recovery attempt is passed over as a failure. */
  function PassOver(config: GatewayConfig, s: State, bus: string): State
    requires AtPoint(config, s, bus)
  {
    var p, poller := CurrentPoint(config, s, bus), PollerIn(s.pollers, bus);
    s.(pointStates := s.pointStates[p.name := AfterSkip(PointStateIn(s.pointStates, p.name))],
       store := PublishAll(s.store, MetadataWrites(p, None, CHANNEL_FAILED)),
       pollers := s.pollers[bus := Failed(poller, poller.lastErrorCode, false)])
  }

  /* ---------- Closing a device's cycle ---------- */

  function PublishMask(config: GatewayConfig, s: State, key: SlaveKey): State {
    var mask := NextMask(config, s, key);
    s.(logicMasks := s.logicMasks[key := mask], store := Publish(s.store, MaskWrite(key.1, mask)))
  }

  function Statuses(devices: map<SlaveKey, DeviceState>, keys: seq<SlaveKey>): (statuses: seq<nat>)
    ensures |statuses| == |keys|
    ensures forall i :: 0 <= i < |keys| ==> statuses[i] == DeviceIn(devices, keys[i]).status
  {
    seq(|keys|, i requires 0 <= i < |keys| => DeviceIn(devices, keys[i]).status)
  }

  function LineStatuses(lines: map<string, nat>, buses: seq<BusConfig>): (statuses: seq<nat>)
    ensures |statuses| == |buses|
    ensures forall i :: 0 <= i < |buses| ==> statuses[i] == LineIn(lines, buses[i].name)
  {
    seq(|buses|, i requires 0 <= i < |buses| => LineIn(lines, buses[i].name))
  }

  /** Device, line and gateway records after a cycle, nothing published yet. */
  function Recorded(config: GatewayConfig, s: State, key: SlaveKey, status: nat, lastErrorCode: word): State {
    var device := DeviceIn(s.deviceStates, key);
    var s1 := s.(deviceStates := s.deviceStates[key := device.(
                   status := status, lastErrorCode := lastErrorCode, pollCycle := IncCounter(device.pollCycle))]);
    s1.(busStatuses := s1.busStatuses[key.0 := AggregateStatus(Statuses(s1.deviceStates, DevicesOn(config, key.0)))],
        counters := s1.counters.(lastErrorCode := lastErrorCode, pollCycle := IncCounter(s1.counters.pollCycle)))
  }

  function RecordWrites(config: GatewayConfig, floats: Floats, s: State, key: SlaveKey): seq<Write> {
    StatusWrites(config, floats, key.1, DeviceIn(s.deviceStates, key).status) +
    DeviceTelemetry(config, key.1, DeviceIn(s.deviceStates, key)) +
    StatusWrites(config, floats, SERVICE_SLAVE_ID, AggregateStatus(LineStatuses(s.busStatuses, config.buses))) +
    GatewayTelemetry(config, s.counters) +
    LineWrites(s.busStatuses, config.buses)
  }

  function RecordDeviceResult(config: GatewayConfig, floats: Floats, s: State, key: SlaveKey, status: nat,
                              lastErrorCode: word): State {
    var s1 := Recorded(config, s, key, status, lastErrorCode);
    s1.(store := PublishAll(s1.store, RecordWrites(config, floats, s1, key)))
  }

  function NextDevice(config: GatewayConfig, bus: string, poller: Poller): Poller {
    if poller.device + 1 < |DevicesOn(config, bus)| then CYCLE_START.(device := poller.device + 1) else CYCLE_START
  }

  function CloseDevice(config: GatewayConfig, floats: Floats, s: State, bus: string): State
    requires OnDevice(config, s, bus)
  {
    var key, poller := CurrentKey(config, s, bus), PollerIn(s.pollers, bus);
    var status := DeviceStatus(|PointsOf(config.points, key)|, poller.failures, poller.protocolFailures);
    var s1 := RecordDeviceResult(config, floats, PublishMask(config, s, key), key, status, poller.lastErrorCode);
    s1.(pollers := s1.pollers[bus := NextDevice(config, bus, poller)])
  }

  /* ---------- Write handlers ---------- */

  function RegisterCount(p: PointConfig): nat { Width(p.modbusDataType) }

  /** What the dictionary of writable points answers: the last point with that key. */
  function WritableAt(points: seq<PointConfig>, slave: int, address: int, count: nat): Option<PointConfig> {
    if points == [] then None
    else
      var p := points[|points| - 1];
      if p.writable && SlaveOf(p) == slave && p.modbusAddress == address && RegisterCount(p) == count then Some(p)
      else WritableAt(points[..|points| - 1], slave, address, count)
  }

  function CheckRead(floats: Floats, p: PointConfig, expected: Value, exchange: Result<OwenFrame>): Result<Value> {
    match exchange
    case Err(fault) => Err(fault)
    case Ok(frame) =>
      if frame.request then Err(RuntimeFault)
      else
        match DecodePayload(floats, frame.payload, p.protocolFormat)
        case Err(fault) => Err(fault)
        case Ok(value) => if ValuesMatch(expected, value) then Ok(value) else Err(RuntimeFault)
  }

  /** The first of at most three read-backs that matches, else the last failure. */
  function Verify(floats: Floats, p: PointConfig, expected: Value, readBacks: seq<Result<OwenFrame>>): Result<Value> {
    if readBacks == [] then Err(RuntimeFault)
    else
      match CheckRead(floats, p, expected, readBacks[0])
      case Ok(value) => Ok(value)
      case Err(fault) => if |readBacks| == 1 then Err(fault) else Verify(floats, p, expected, readBacks[1..])
  }

  /** The acknowledgement is only looked at after the value has been verified; a reply that
      is no frame counts as one. */
  predicate AckAccepted(p: PointConfig, ack: Option<OwenFrame>) {
    ack.Some? ==>
      && !ack.value.request
      && HashParameterName(p.parameter) == Ok(ack.value.parameterHash)
      && ack.value.payload != []
  }

  /** The verified value, or a fault if anything between decoding the registers and
      checking the acknowledgement fails. */
  function WriteOutcome(floats: Floats, p: PointConfig, words: seq<word>,
                        ack: Result<Option<OwenFrame>>, readBacks: seq<Result<OwenFrame>>): Result<Value>
  {
    var value :- DecodeRegisters(floats, words, p.modbusDataType);
    var payload :- EncodePayload(floats, value, p.protocolFormat);
    var frame :- ack;
    var verified :- Verify(floats, p, value, readBacks);
    if AckAccepted(p, frame) then Ok(verified) else Err(RuntimeFault)
  }

  function RejectWrite(s: State, k: nat): State
    requires k < |s.store.pending|
  {
    s.(store := Restore(s.store, k))
  }

  function AcceptWrite(config: GatewayConfig, floats: Floats, s: State, k: nat, p: PointConfig, value: Value): State
    requires k < |s.store.pending|
  {
    var s1 := s.(pointValues := s.pointValues[p.name := Some(value)],
                 pointStates := s.pointStates[p.name := AfterSuccess(PointStateIn(s.pointStates, p.name))]);
    match PublishedWords(floats, p, value)
    case Err(_) => RejectWrite(s1, k)
    case Ok(words) =>
      PublishMask(config,
        s1.(store := PublishAll(Withdraw(s1.store, k), ValueWrites(p, words) + MetadataWrites(p, None, CHANNEL_OK))),
        KeyOf(p))
  }

  function EndHandler(config: GatewayConfig, floats: Floats, s: State, k: nat,
                      ack: Result<Option<OwenFrame>>, readBacks: seq<Result<OwenFrame>>): State
    requires k < |s.store.pending|
  {
    var w := s.store.pending[k];
    match WritableAt(config.points, w.slave, w.address, |w.words|)
    case None => RejectWrite(s, k)
    case Some(p) =>
      match WriteOutcome(floats, p, w.words, ack, readBacks)
      case Err(_) => RejectWrite(s, k)
      case Ok(value) => AcceptWrite(config, floats, s, k, p, value)
  }

  /* ---------- Runs ---------- */

  datatype Event =
    | SkipPoint(bus: string)
    | ExchangeStart(bus: string)
    | PointReply(bus: string, exchange: Result<OwenFrame>)
    | DeviceEnd(bus: string)
    | ClientRegisters(slave: int, address: int, words: seq<word>)
    | ClientCoils(slave: int, address: int, bits: seq<word>)
    | HandlerEnd(k: nat, ack: Result<Option<OwenFrame>>, readBacks: seq<Result<OwenFrame>>)

  /** An event of the line's poller. */
  predicate OnLine(event: Event, bus: string) {
    match event
    case SkipPoint(b) => b == bus
    case ExchangeStart(b) => b == bus
    case PointReply(b, _) => b == bus
    case DeviceEnd(b) => b == bus
    case _ => false
  }

  /** Whether a point is to be passed over is decided when its turn comes, not when its reply
      arrives. */
  predicate Enabled(config: GatewayConfig, s: State, event: Event) {
    match event
    case SkipPoint(bus) =>
      && AtPoint(config, s, bus) && !PollerIn(s.pollers, bus).waiting
      && Skipped(PointStateIn(s.pointStates, CurrentPoint(config, s, bus).name))
    case ExchangeStart(bus) =>
      && AtPoint(config, s, bus) && !PollerIn(s.pollers, bus).waiting
      && !Skipped(PointStateIn(s.pointStates, CurrentPoint(config, s, bus).name))
    case PointReply(bus, _) => AtPoint(config, s, bus) && PollerIn(s.pollers, bus).waiting
    case DeviceEnd(bus) => AtDeviceEnd(config, s, bus)
    case ClientRegisters(_, _, _) => true
    case ClientCoils(_, _, _) => true
    case HandlerEnd(k, _, readBacks) => k < |s.store.pending| && |readBacks| == WRITE_VERIFY_ATTEMPTS
  }

  function Step(config: GatewayConfig, floats: Floats, s: State, event: Event): State {
    if !Enabled(config, s, event) then s
    else
      match event
      case SkipPoint(bus) => PassOver(config, s, bus)
      case ExchangeStart(bus) => BeginExchange(s, bus)
      case PointReply(bus, exchange) =>
        ApplyOutcome(config, s, bus, Classify(floats, CurrentPoint(config, s, bus), exchange))
      case DeviceEnd(bus) => CloseDevice(config, floats, s, bus)
      case ClientRegisters(slave, address, words) => s.(store := ClientWrite(s.store, slave, address, words))
      case ClientCoils(slave, address, bits) => s.(store := CoilWrite(s.store, slave, address, bits))
      case HandlerEnd(k, ack, readBacks) => EndHandler(config, floats, s, k, ack, readBacks)
  }

  function Run(config: GatewayConfig, floats: Floats, s: State, events: seq<Event>): State {
    if events == [] then s
    else Step(config, floats, Run(config, floats, s, events[..|events| - 1]), events[|events| - 1])
  }

  lemma {:induction false} RunConcat(config: GatewayConfig, floats: Floats, s: State, a: seq<Event>, b: seq<Event>)
    ensures Run(config, floats, s, a + b) == Run(config, floats, Run(config, floats, s, a), b)
    decreases |b|
  {
    hide Step;
    if b == [] {
      assert a + b == a;
    } else {
      var last := |b| - 1;
      assert (a + b)[..|a + b| - 1] == a + b[..last];
      RunConcat(config, floats, s, a, b[..last]);
    }
  }

  lemma RunOne(config: GatewayConfig, floats: Floats, s: State, event: Event)
    ensures Run(config, floats, s, [event]) == Step(config, floats, s, event)
  {
    hide Step;
    assert [event][..0] == [];
    assert Run(config, floats, s, []) == s;
  }

  lemma RunOneMore(config: GatewayConfig, floats: Floats, s: State, events: seq<Event>, event: Event)
    ensures Run(config, floats, s, events + [event]) == Step(config, floats, Run(config, floats, s, events), event)
  {
    hide Step;
    RunConcat(config, floats, s, events, [event]);
    RunOne(config, floats, Run(config, floats, s, events), event);
  }

  /** Asking a point and taking its reply. */
  function Poll(bus: string, exchange: Result<OwenFrame>): seq<Event> {
    [ExchangeStart(bus), PointReply(bus, exchange)]
  }

  lemma BegunAtSamePoint(config: GatewayConfig, s: State, bus: string)
    requires AtPoint(config, s, bus)
    ensures var begun := BeginExchange(s, bus);
            && AtPoint(config, begun, bus) && PollerIn(begun.pollers, bus).waiting
            && CurrentPoint(config, begun, bus) == CurrentPoint(config, s, bus)
            && CurrentKey(config, begun, bus) == CurrentKey(config, s, bus)
            && Passed(PollerIn(begun.pollers, bus)) == Passed(PollerIn(s.pollers, bus))
            && begun == s.(pollers := begun.pollers)
  {}

  lemma BegunPollers(s: State, bus: string, poller: Poller)
    ensures BeginExchange(s, bus).pollers[bus := poller] == s.pollers[bus := poller]
  {}

  lemma BegunOutcome(config: GatewayConfig, s: State, bus: string, outcome: Outcome)
    requires AtPoint(config, s, bus)
    ensures AtPoint(config, BeginExchange(s, bus), bus)
    ensures ApplyOutcome(config, BeginExchange(s, bus), bus, outcome) == ApplyOutcome(config, s, bus, outcome)
  {
    hide CurrentPoint, CurrentKey, AtPoint, PublishAll, MetadataWrites, ValueWrites, AfterFailure, AfterSuccess,
         AfterEmpty, WordStatus, PointStateIn, IncCounter, DeviceIn, WithStored, BeginExchange;
    var begun := BeginExchange(s, bus);
    BegunAtSamePoint(config, s, bus);
    BegunPollers(s, bus, PollerIn(ApplyOutcome(config, s, bus, outcome).pollers, bus));
  }

  /** With nothing in between, asking leaves nothing but what the reply leaves. */
  lemma PollIsOutcome(config: GatewayConfig, floats: Floats, s: State, bus: string, exchange: Result<OwenFrame>)
    requires Enabled(config, s, ExchangeStart(bus))
    ensures Run(config, floats, s, Poll(bus, exchange)) ==
            ApplyOutcome(config, s, bus, Classify(floats, CurrentPoint(config, s, bus), exchange))
  {
    hide Classify, ApplyOutcome, Run, AtPoint, CurrentPoint, BeginExchange, PointStateIn;
    var begun := BeginExchange(s, bus);
    assert Poll(bus, exchange) == [ExchangeStart(bus)] + [PointReply(bus, exchange)];
    RunConcat(config, floats, s, [ExchangeStart(bus)], [PointReply(bus, exchange)]);
    RunOne(config, floats, s, ExchangeStart(bus));
    RunOne(config, floats, begun, PointReply(bus, exchange));
    BegunAtSamePoint(config, s, bus);
    BegunOutcome(config, s, bus, Classify(floats, CurrentPoint(config, s, bus), exchange));
  }

  /* ---------- Start-up ---------- */

  const NO_STATE := State(map[], map[], map[], map[], map[], GatewayCounters(0, 0, 0, 0, ERROR_NONE),
                          Store(map[], [], {}), map[], 0)

  function DeviceStartWrites(config: GatewayConfig, floats: Floats, keys: seq<SlaveKey>): seq<Write> {
    if keys == [] then []
    else DeviceStartWrites(config, floats, keys[..|keys| - 1]) +
         StatusWrites(config, floats, keys[|keys| - 1].1, STATUS_OFFLINE) +
         DeviceTelemetry(config, keys[|keys| - 1].1, INITIAL_DEVICE_STATE)
  }

  function StartWrites(config: GatewayConfig, floats: Floats): seq<Write> {
    StatusWrites(config, floats, SERVICE_SLAVE_ID, STATUS_OFFLINE) +
    GatewayTelemetry(config, NO_STATE.counters) +
    LineWrites(NO_STATE.busStatuses, config.buses) +
    DeviceStartWrites(config, floats, SlaveKeys(config.points))
  }

  /** All records at their defaults, statuses and zero telemetry published. */
  function Start(config: GatewayConfig, floats: Floats): State {
    NO_STATE.(store := PublishAll(NO_STATE.store, StartWrites(config, floats)))
  }

  /** The state a run from start-up ends in. */
  function Reached(config: GatewayConfig, floats: Floats, events: seq<Event>): State {
    Run(config, floats, Start(config, floats), events)
  }

  lemma NoEvents(config: GatewayConfig, floats: Floats)
    ensures Reached(config, floats, []) == Start(config, floats)
  {}

  lemma ThenEvent(config: GatewayConfig, floats: Floats, events: seq<Event>, event: Event)
    ensures Reached(config, floats, events + [event]) == Step(config, floats, Reached(config, floats, events), event)
  {
    hide Run, Step, Start;
    RunOneMore(config, floats, Start(config, floats), events, event);
  }
}
