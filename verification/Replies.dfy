/** What becomes of a poll, said of the exchange alone: which counters rise, what is recorded
    of the point and of the line's cycle. */
module Replies {
  import opened Core
  import opened Frame
  import opened ParameterHash
  import opened Payload
  import opened Registers
  import opened Config
  import opened RegisterMap
  import opened Health
  import opened Status
  import opened Gateway
  import Conservation

  /* ---------- Five kinds of exchanges ---------- */

  /** A reply frame, not an echoed request, for the point's own parameter. */
  predicate Answers(p: PointConfig, exchange: Result<OwenFrame>) {
    exchange.Ok? && !exchange.value.request && HashParameterName(p.parameter) == Ok(exchange.value.parameterHash)
  }

  /** A reply whose content can be read as a value. */
  predicate Carries(floats: Floats, p: PointConfig, exchange: Result<OwenFrame>) {
    && Answers(p, exchange) && exchange.value.payload != []
    && DecodePayload(floats, exchange.value.payload, p.protocolFormat).Ok?
  }

  function CarriedValue(floats: Floats, p: PointConfig, exchange: Result<OwenFrame>): Value
    requires Carries(floats, p, exchange)
  {
    DecodePayload(floats, exchange.value.payload, p.protocolFormat).value
  }

  /** The fault in which publishing a value ends, if the point is published. */
  function PublishFault(floats: Floats, p: PointConfig, value: Value): Option<Fault> {
    if !p.publishToModbus then None
    else
      match EncodeRegisters(floats, value, p.modbusDataType)
      case Ok(_) => None
      case Err(fault) => Some(fault)
  }

  predicate IsValue(floats: Floats, p: PointConfig, exchange: Result<OwenFrame>) {
    Carries(floats, p, exchange) && PublishFault(floats, p, CarriedValue(floats, p, exchange)).None?
  }

  predicate IsEmpty(p: PointConfig, exchange: Result<OwenFrame>) {
    Answers(p, exchange) && exchange.value.payload == []
  }

  predicate IsTimeout(exchange: Result<OwenFrame>) { exchange == Err(Timeout) }

  /** Neither a timeout nor what the code calls a value or run-time error. */
  predicate IsIoFailure(floats: Floats, p: PointConfig, exchange: Result<OwenFrame>) {
    || exchange == Err(OtherFault)
    || (Carries(floats, p, exchange) && PublishFault(floats, p, CarriedValue(floats, p, exchange)) == Some(OtherFault))
  }

  /** A frame that is no frame, an echoed request, another parameter's reply, a content that
      means nothing or has no registers. */
  predicate IsProtocolError(floats: Floats, p: PointConfig, exchange: Result<OwenFrame>) {
    || exchange == Err(ValueFault) || exchange == Err(RuntimeFault)
    || (exchange.Ok? &&
          (|| !Answers(p, exchange)
           || (exchange.value.payload != [] && !Carries(floats, p, exchange))
           || (Carries(floats, p, exchange) &&
                 PublishFault(floats, p, CarriedValue(floats, p, exchange)) == Some(ValueFault))))
  }

  predicate EndsBadly(floats: Floats, p: PointConfig, exchange: Result<OwenFrame>) {
    !IsValue(floats, p, exchange) && !IsEmpty(p, exchange)
  }

  /** An echoed request is 2, another parameter's reply 3, any other protocol error 4; a
      timeout is 1 and an I/O failure 5. */
  function ErrorNumber(floats: Floats, p: PointConfig, exchange: Result<OwenFrame>): word {
    if IsTimeout(exchange) then 1
    else if IsIoFailure(floats, p, exchange) then 5
    else if exchange.Ok? && exchange.value.request then 2
    else if exchange.Ok? && HashParameterName(p.parameter).Ok? && !Answers(p, exchange) then 3
    else 4
  }

  lemma PublishFaults(floats: Floats, p: PointConfig, value: Value)
    ensures var fault := PublishFault(floats, p, value); fault.None? || fault == Some(ValueFault) || fault == Some(OtherFault)
  {}

  /** The code's branches are these kinds. */
  lemma BranchOf(floats: Floats, p: PointConfig, exchange: Result<OwenFrame>)
    ensures match Classify(floats, p, exchange)
            case Succeeded(value, words, mark) =>
              && IsValue(floats, p, exchange) && value == CarriedValue(floats, p, exchange)
              && mark == if |exchange.value.payload| == 6 then Some(WordAt(exchange.value.payload, 4)) else None
            case NoData => IsEmpty(p, exchange)
            case NoReply => IsTimeout(exchange)
            case Garbled(code, stored) =>
              && IsProtocolError(floats, p, exchange) && code == ErrorNumber(floats, p, exchange)
              && stored == if Carries(floats, p, exchange) then Some(CarriedValue(floats, p, exchange)) else None
            case Broken(stored) =>
              && IsIoFailure(floats, p, exchange)
              && stored == if Carries(floats, p, exchange) then Some(CarriedValue(floats, p, exchange)) else None
  {
    hide HashParameterName, DecodePayload, EncodeRegisters, WordAt;
    if Carries(floats, p, exchange) {
      PublishFaults(floats, p, CarriedValue(floats, p, exchange));
    }
  }

  /** The time mark that comes with a value: the last two of six payload bytes, high byte first. */
  function MarkOf(floats: Floats, p: PointConfig, exchange: Result<OwenFrame>): Option<word> {
    if IsValue(floats, p, exchange) && |exchange.value.payload| == 6
    then
      var high: int, low: int := exchange.value.payload[4], exchange.value.payload[5];
      Some(256 * high + low)
    else None
  }

  lemma MarkIsRead(floats: Floats, p: PointConfig, exchange: Result<OwenFrame>)
    ensures match Classify(floats, p, exchange)
            case Succeeded(_, _, mark) => IsValue(floats, p, exchange) && mark == MarkOf(floats, p, exchange)
            case _ => !IsValue(floats, p, exchange)
  {
    hide Classify, IsValue, IsEmpty, IsTimeout, IsIoFailure, IsProtocolError, Carries, CarriedValue;
    BranchOf(floats, p, exchange);
    KindsExclude(floats, p, exchange);
  }

  /* ---------- What taking a reply records ---------- */

  /** A 16-bit counter that rises, or does not. */
  function Raised(n: word, rises: bool): word {
    if !rises then n else if n == 65535 then 0 else n + 1
  }

  function DeviceAfter(floats: Floats, p: PointConfig, exchange: Result<OwenFrame>, d: DeviceState): DeviceState {
    d.(success := Raised(d.success, IsValue(floats, p, exchange)),
       timeout := Raised(d.timeout, IsTimeout(exchange)),
       protocolError := Raised(d.protocolError, IsProtocolError(floats, p, exchange)))
  }

  /** The gateway counts an I/O failure as a timeout, its device does not count it. */
  function CountersAfter(floats: Floats, p: PointConfig, exchange: Result<OwenFrame>, c: GatewayCounters): GatewayCounters {
    c.(success := Raised(c.success, IsValue(floats, p, exchange)),
       timeout := Raised(c.timeout, IsTimeout(exchange) || IsIoFailure(floats, p, exchange)),
       protocolError := Raised(c.protocolError, IsProtocolError(floats, p, exchange)))
  }

  /** The channel is well (1), disabled (0), in a communication (2) or protocol error (3), or
      failed (4) from F failures in a row on, with R - 1 cycles to skip. */
  function RecordAfter(health: HealthConfig, floats: Floats, p: PointConfig, exchange: Result<OwenFrame>,
                       r: PointState): PointState
  {
    if IsValue(floats, p, exchange) then PointState(0, 1, r.recoverySkipCycles)
    else if IsEmpty(p, exchange) then PointState(0, 0, r.recoverySkipCycles)
    else if r.consecutiveFailures + 1 >= health.faultAfterFailures
    then PointState(r.consecutiveFailures + 1, 4, health.recoveryPollIntervalCycles - 1)
    else PointState(r.consecutiveFailures + 1, if IsProtocolError(floats, p, exchange) then 3 else 2, r.recoverySkipCycles)
  }

  function PollerAfter(floats: Floats, p: PointConfig, exchange: Result<OwenFrame>, poller: Poller): Poller {
    Poller(poller.device, poller.point + 1,
           poller.failures + (if EndsBadly(floats, p, exchange) then 1 else 0),
           poller.protocolFailures + (if IsProtocolError(floats, p, exchange) then 1 else 0),
           if EndsBadly(floats, p, exchange) then ErrorNumber(floats, p, exchange) else poller.lastErrorCode,
           false)
  }

  /** What can be read is cached even if it cannot be published; an empty reply clears. */
  function ValueAfter(floats: Floats, p: PointConfig, exchange: Result<OwenFrame>, value: Option<Value>): Option<Value> {
    if Carries(floats, p, exchange) then Some(CarriedValue(floats, p, exchange))
    else if IsEmpty(p, exchange) then None
    else value
  }

  /** A kind names its exchange's other properties. */
  lemma KindsExclude(floats: Floats, p: PointConfig, exchange: Result<OwenFrame>)
    ensures IsValue(floats, p, exchange) ==>
              Carries(floats, p, exchange) && !IsEmpty(p, exchange) && !IsTimeout(exchange)
              && !IsProtocolError(floats, p, exchange) && !IsIoFailure(floats, p, exchange)
    ensures IsEmpty(p, exchange) ==>
              !Carries(floats, p, exchange) && !IsValue(floats, p, exchange) && !IsTimeout(exchange)
              && !IsProtocolError(floats, p, exchange) && !IsIoFailure(floats, p, exchange)
    ensures IsTimeout(exchange) ==>
              !Carries(floats, p, exchange) && !IsProtocolError(floats, p, exchange) && !IsIoFailure(floats, p, exchange)
              && ErrorNumber(floats, p, exchange) == 1
    ensures IsIoFailure(floats, p, exchange) ==>
              !IsProtocolError(floats, p, exchange) && ErrorNumber(floats, p, exchange) == 5
  {
    hide HashParameterName, DecodePayload, EncodeRegisters;
  }

  /** Every exchange is of exactly one kind. */
  lemma OneOfFive(floats: Floats, p: PointConfig, exchange: Result<OwenFrame>)
    ensures EndsBadly(floats, p, exchange) <==>
            IsTimeout(exchange) || IsProtocolError(floats, p, exchange) || IsIoFailure(floats, p, exchange)
    ensures !(IsValue(floats, p, exchange) && IsEmpty(p, exchange))
    ensures !(IsProtocolError(floats, p, exchange) && IsIoFailure(floats, p, exchange))
    ensures IsTimeout(exchange) ==> !IsProtocolError(floats, p, exchange) && !IsIoFailure(floats, p, exchange)
  {
    hide HashParameterName, DecodePayload, EncodeRegisters, Classify, IsValue, IsEmpty, IsTimeout, IsIoFailure, IsProtocolError;
    BranchOf(floats, p, exchange);
    KindsExclude(floats, p, exchange);
  }

  function Outcomes(config: GatewayConfig, floats: Floats, s: State, bus: string, exchange: Result<OwenFrame>): State
    requires AtPoint(config, s, bus)
  {
    ApplyOutcome(config, s, bus, Classify(floats, CurrentPoint(config, s, bus), exchange))
  }

  lemma DeviceIsRecorded(config: GatewayConfig, floats: Floats, s: State, bus: string, exchange: Result<OwenFrame>)
    requires AtPoint(config, s, bus)
    ensures var p, key := CurrentPoint(config, s, bus), CurrentKey(config, s, bus);
            var after := Outcomes(config, floats, s, bus, exchange);
            forall k :: DeviceIn(after.deviceStates, k) ==
              if k == key then DeviceAfter(floats, p, exchange, DeviceIn(s.deviceStates, k)) else DeviceIn(s.deviceStates, k)
  {
    hide CurrentPoint, CurrentKey, AtPoint, PublishAll, MetadataWrites, ValueWrites, WordStatus, Classify, IsValue, IsEmpty,
         IsTimeout, IsIoFailure, IsProtocolError, Carries, CarriedValue, ErrorNumber, PollerIn, Passed, Failed, PointStateIn,
         AfterFailure, AfterSuccess, AfterEmpty, WithStored;
    BranchOf(floats, CurrentPoint(config, s, bus), exchange);
    KindsExclude(floats, CurrentPoint(config, s, bus), exchange);
  }

  lemma CountersAreRecorded(config: GatewayConfig, floats: Floats, s: State, bus: string, exchange: Result<OwenFrame>)
    requires AtPoint(config, s, bus)
    ensures var after := Outcomes(config, floats, s, bus, exchange);
            && after.counters == CountersAfter(floats, CurrentPoint(config, s, bus), exchange, s.counters)
            && after.busStatuses == s.busStatuses && after.logicMasks == s.logicMasks
  {
    hide CurrentPoint, CurrentKey, AtPoint, PublishAll, MetadataWrites, ValueWrites, WordStatus, Classify, IsValue, IsEmpty,
         IsTimeout, IsIoFailure, IsProtocolError, Carries, CarriedValue, ErrorNumber, PollerIn, Passed, Failed, PointStateIn,
         AfterFailure, AfterSuccess, AfterEmpty, WithStored, DeviceIn;
    BranchOf(floats, CurrentPoint(config, s, bus), exchange);
    KindsExclude(floats, CurrentPoint(config, s, bus), exchange);
  }

  lemma RecordIsRecorded(config: GatewayConfig, floats: Floats, s: State, bus: string, exchange: Result<OwenFrame>)
    requires AtPoint(config, s, bus)
    ensures var p, after := CurrentPoint(config, s, bus), Outcomes(config, floats, s, bus, exchange);
            forall name :: PointStateIn(after.pointStates, name) ==
              if name == p.name then RecordAfter(config.health, floats, p, exchange, PointStateIn(s.pointStates, name))
              else PointStateIn(s.pointStates, name)
  {
    hide CurrentPoint, CurrentKey, AtPoint, PublishAll, MetadataWrites, ValueWrites, WordStatus, Classify, IsValue, IsEmpty,
         IsTimeout, IsIoFailure, IsProtocolError, Carries, CarriedValue, ErrorNumber, PollerIn, Passed, Failed, DeviceIn,
         IncCounter, WithStored, ValueIn;
    BranchOf(floats, CurrentPoint(config, s, bus), exchange);
    KindsExclude(floats, CurrentPoint(config, s, bus), exchange);
  }

  lemma ValueIsRecorded(config: GatewayConfig, floats: Floats, s: State, bus: string, exchange: Result<OwenFrame>)
    requires AtPoint(config, s, bus)
    ensures var p, after := CurrentPoint(config, s, bus), Outcomes(config, floats, s, bus, exchange);
            forall name :: ValueIn(after.pointValues, name) ==
              if name == p.name then ValueAfter(floats, p, exchange, ValueIn(s.pointValues, name))
              else ValueIn(s.pointValues, name)
  {
    hide CurrentPoint, CurrentKey, AtPoint, PublishAll, MetadataWrites, ValueWrites, WordStatus, Classify, IsValue, IsEmpty,
         IsTimeout, IsIoFailure, IsProtocolError, Carries, CarriedValue, ErrorNumber, PollerIn, Passed, Failed, DeviceIn,
         IncCounter, PointStateIn, AfterFailure, AfterSuccess, AfterEmpty;
    BranchOf(floats, CurrentPoint(config, s, bus), exchange);
    KindsExclude(floats, CurrentPoint(config, s, bus), exchange);
  }

  lemma PollerIsRecorded(config: GatewayConfig, floats: Floats, s: State, bus: string, exchange: Result<OwenFrame>)
    requires AtPoint(config, s, bus)
    ensures var p, after := CurrentPoint(config, s, bus), Outcomes(config, floats, s, bus, exchange);
            forall b :: PollerIn(after.pollers, b) ==
              if b == bus then PollerAfter(floats, p, exchange, PollerIn(s.pollers, b)) else PollerIn(s.pollers, b)
  {
    hide CurrentPoint, CurrentKey, AtPoint, PublishAll, MetadataWrites, ValueWrites, WordStatus, Classify, IsValue, IsEmpty,
         IsTimeout, IsIoFailure, IsProtocolError, Carries, CarriedValue, ErrorNumber, DeviceIn, IncCounter, PointStateIn,
         AfterFailure, AfterSuccess, AfterEmpty, WithStored;
    BranchOf(floats, CurrentPoint(config, s, bus), exchange);
    KindsExclude(floats, CurrentPoint(config, s, bus), exchange);
  }

  /** The whole effect of a reply on the records, for every exchange. */
  lemma ReplyIsRecorded(config: GatewayConfig, floats: Floats, s: State, bus: string, exchange: Result<OwenFrame>)
    requires Enabled(config, s, PointReply(bus, exchange))
    ensures var p, key := CurrentPoint(config, s, bus), CurrentKey(config, s, bus);
            var after := Step(config, floats, s, PointReply(bus, exchange));
            && (forall k :: DeviceIn(after.deviceStates, k) ==
                  if k == key then DeviceAfter(floats, p, exchange, DeviceIn(s.deviceStates, k)) else DeviceIn(s.deviceStates, k))
            && after.counters == CountersAfter(floats, p, exchange, s.counters)
            && (forall name :: PointStateIn(after.pointStates, name) ==
                  if name == p.name then RecordAfter(config.health, floats, p, exchange, PointStateIn(s.pointStates, name))
                  else PointStateIn(s.pointStates, name))
            && (forall name :: ValueIn(after.pointValues, name) ==
                  if name == p.name then ValueAfter(floats, p, exchange, ValueIn(s.pointValues, name))
                  else ValueIn(s.pointValues, name))
            && (forall b :: PollerIn(after.pollers, b) ==
                  if b == bus then PollerAfter(floats, p, exchange, PollerIn(s.pollers, b)) else PollerIn(s.pollers, b))
            && after.busStatuses == s.busStatuses && after.logicMasks == s.logicMasks
  {
    hide CurrentPoint, CurrentKey, AtPoint, ApplyOutcome, Classify, DeviceAfter, CountersAfter, RecordAfter, ValueAfter,
         PollerAfter, PointStateIn, PollerIn, DeviceIn, ValueIn;
    DeviceIsRecorded(config, floats, s, bus, exchange);
    CountersAreRecorded(config, floats, s, bus, exchange);
    RecordIsRecorded(config, floats, s, bus, exchange);
    ValueIsRecorded(config, floats, s, bus, exchange);
    PollerIsRecorded(config, floats, s, bus, exchange);
  }

  /* ---------- Passing over and closing ---------- */

  lemma SkipIsRecorded(config: GatewayConfig, floats: Floats, s: State, bus: string)
    requires Enabled(config, s, SkipPoint(bus))
    ensures var p, poller := CurrentPoint(config, s, bus), PollerIn(s.pollers, bus);
            var after := Step(config, floats, s, SkipPoint(bus));
            && (forall name :: PointStateIn(after.pointStates, name) ==
                  if name == p.name
                  then PointState(PointStateIn(s.pointStates, name).consecutiveFailures,
                                  PointStateIn(s.pointStates, name).channelStatus,
                                  PointStateIn(s.pointStates, name).recoverySkipCycles - 1)
                  else PointStateIn(s.pointStates, name))
            && (forall b :: PollerIn(after.pollers, b) ==
                  if b == bus
                  then Poller(poller.device, poller.point + 1, poller.failures + 1, poller.protocolFailures, poller.lastErrorCode,
                              false)
                  else PollerIn(s.pollers, b))
            && after.deviceStates == s.deviceStates && after.counters == s.counters
            && after.pointValues == s.pointValues && after.busStatuses == s.busStatuses && after.logicMasks == s.logicMasks
  {
    hide CurrentPoint, AtPoint, PublishAll, MetadataWrites;
  }

  lemma CloseIsRecorded(config: GatewayConfig, floats: Floats, s: State, bus: string)
    requires Enabled(config, s, DeviceEnd(bus))
    ensures var key, poller := CurrentKey(config, s, bus), PollerIn(s.pollers, bus);
            var after := Step(config, floats, s, DeviceEnd(bus));
            var d, last := DeviceIn(s.deviceStates, key), poller.device + 1 == |DevicesOn(config, bus)|;
            && (forall k :: k != key ==> DeviceIn(after.deviceStates, k) == DeviceIn(s.deviceStates, k))
            && DeviceIn(after.deviceStates, key) ==
               DeviceState(DeviceIn(after.deviceStates, key).status, d.success, d.timeout, d.protocolError,
                           Raised(d.pollCycle, true), poller.lastErrorCode)
            && after.counters ==
               s.counters.(pollCycle := Raised(s.counters.pollCycle, true), lastErrorCode := poller.lastErrorCode)
            && (forall b :: PollerIn(after.pollers, b) ==
                  if b == bus then Poller(if last then 0 else poller.device + 1, 0, 0, 0, 0, false) else PollerIn(s.pollers, b))
            && after.pointStates == s.pointStates && after.pointValues == s.pointValues
  {
    hide CurrentKey, PublishAll, Publish, RecordWrites, NextMask, DeviceStatus, AggregateStatus, DevicesOn, PointsOf;
  }

  /* ---------- The counters of a whole run ---------- */

  datatype Kind = GoodValue | Silence | BadReply | LineFailure | CycleEnd

  predicate OfKind(floats: Floats, p: PointConfig, exchange: Result<OwenFrame>, kind: Kind) {
    match kind
    case GoodValue => IsValue(floats, p, exchange)
    case Silence => IsTimeout(exchange)
    case BadReply => IsProtocolError(floats, p, exchange)
    case LineFailure => IsIoFailure(floats, p, exchange)
    case CycleEnd => false
  }

  /** Whether a step is of that kind, for the device asked about or for any. */
  predicate Happens(config: GatewayConfig, floats: Floats, s: State, event: Event, kind: Kind, key: Option<SlaveKey>) {
    && Enabled(config, s, event)
    && match event
       case PointReply(bus, exchange) =>
         && OfKind(floats, CurrentPoint(config, s, bus), exchange, kind)
         && (key == None || key == Some(CurrentKey(config, s, bus)))
       case DeviceEnd(bus) => kind == CycleEnd && (key == None || key == Some(CurrentKey(config, s, bus)))
       case _ => false
  }

  function Occurrences(config: GatewayConfig, floats: Floats, events: seq<Event>, kind: Kind, key: Option<SlaveKey>): nat {
    if events == [] then 0
    else
      var before, last := events[..|events| - 1], events[|events| - 1];
      Occurrences(config, floats, before, kind, key) +
      if Happens(config, floats, Reached(config, floats, before), last, kind, key) then 1 else 0
  }

  /** A device has no counter of I/O failures, the gateway counts them with the timeouts. */
  function DeviceCount(d: DeviceState, kind: Kind): word {
    match kind
    case GoodValue => d.success
    case Silence => d.timeout
    case BadReply => d.protocolError
    case CycleEnd => d.pollCycle
    case LineFailure => 0
  }

  function GatewayCount(c: GatewayCounters, kind: Kind): word {
    match kind
    case GoodValue => c.success
    case Silence => c.timeout
    case BadReply => c.protocolError
    case CycleEnd => c.pollCycle
    case LineFailure => c.timeout
  }

  predicate Timeouts(kind: Kind) { kind.Silence? || kind.LineFailure? }

  /** What one step counts for a device. */
  predicate DeviceCounted(config: GatewayConfig, floats: Floats, s: State, event: Event, key: SlaveKey, now: DeviceState) {
    forall kind: Kind :: !kind.LineFailure? ==>
      DeviceCount(now, kind) == Raised(DeviceCount(DeviceIn(s.deviceStates, key), kind),
                                       Happens(config, floats, s, event, kind, Some(key)))
  }

  predicate GatewayCounted(config: GatewayConfig, floats: Floats, s: State, event: Event, now: GatewayCounters) {
    && (forall kind: Kind :: !Timeouts(kind) ==>
          GatewayCount(now, kind) == Raised(GatewayCount(s.counters, kind), Happens(config, floats, s, event, kind, None)))
    && now.timeout == Raised(s.counters.timeout, Happens(config, floats, s, event, Silence, None)
                                                 || Happens(config, floats, s, event, LineFailure, None))
  }

  predicate StepCounts(config: GatewayConfig, floats: Floats, s: State, event: Event, key: SlaveKey, after: State) {
    && DeviceCounted(config, floats, s, event, key, DeviceIn(after.deviceStates, key))
    && GatewayCounted(config, floats, s, event, after.counters)
  }

  lemma ReplyIsCounted(config: GatewayConfig, floats: Floats, s: State, bus: string, exchange: Result<OwenFrame>, key: SlaveKey)
    requires Enabled(config, s, PointReply(bus, exchange))
    ensures StepCounts(config, floats, s, PointReply(bus, exchange), key, Step(config, floats, s, PointReply(bus, exchange)))
  {
    hide CurrentPoint, CurrentKey, AtPoint, Step, Outcomes, IsValue, IsTimeout, IsIoFailure, IsProtocolError, DeviceIn, PollerIn;
    ReplyIsOutcome(config, floats, s, bus, exchange);
    DeviceIsRecorded(config, floats, s, bus, exchange);
    CountersAreRecorded(config, floats, s, bus, exchange);
  }

  lemma ReplyIsOutcome(config: GatewayConfig, floats: Floats, s: State, bus: string, exchange: Result<OwenFrame>)
    requires Enabled(config, s, PointReply(bus, exchange))
    ensures Step(config, floats, s, PointReply(bus, exchange)) == Outcomes(config, floats, s, bus, exchange)
  {
    hide CurrentPoint, AtPoint, ApplyOutcome, Classify;
  }

  lemma CloseIsCounted(config: GatewayConfig, floats: Floats, s: State, bus: string, key: SlaveKey)
    requires Enabled(config, s, DeviceEnd(bus))
    ensures StepCounts(config, floats, s, DeviceEnd(bus), key, Step(config, floats, s, DeviceEnd(bus)))
  {
    hide CurrentPoint, CurrentKey, AtDeviceEnd, Step, DeviceIn, PointStateIn, PollerIn, ValueIn;
    CloseIsRecorded(config, floats, s, bus);
  }

  lemma NothingIsCounted(config: GatewayConfig, floats: Floats, s: State, event: Event, key: SlaveKey)
    requires event.PointReply? || event.DeviceEnd? ==> !Enabled(config, s, event)
    ensures StepCounts(config, floats, s, event, key, Step(config, floats, s, event))
  {
    hide CurrentPoint, CurrentKey, AtPoint, AtDeviceEnd, EndHandler, PassOver, ClientWrite, CoilWrite, DeviceIn, Skipped,
         PointStateIn, OfKind;
    if Enabled(config, s, event) {
      match event {
        case SkipPoint(bus) => SkipIsRecorded(config, floats, s, bus);
        case HandlerEnd(k, ack, readBacks) => Conservation.HandlersCountNothing(config, floats, s, k, ack, readBacks);
        case _ =>
      }
    }
  }

  lemma StepIsCounted(config: GatewayConfig, floats: Floats, s: State, event: Event, key: SlaveKey)
    ensures StepCounts(config, floats, s, event, key, Step(config, floats, s, event))
  {
    hide Enabled, Step, StepCounts;
    match event {
      case PointReply(bus, exchange) =>
        if Enabled(config, s, event) {
          ReplyIsCounted(config, floats, s, bus, exchange, key);
        } else {
          NothingIsCounted(config, floats, s, event, key);
        }
      case DeviceEnd(bus) =>
        if Enabled(config, s, event) {
          CloseIsCounted(config, floats, s, bus, key);
        } else {
          NothingIsCounted(config, floats, s, event, key);
        }
      case _ => NothingIsCounted(config, floats, s, event, key);
    }
  }

  lemma RaisedCounts(n: word, count: nat, rises: bool)
    requires n == count % 65536
    ensures Raised(n, rises) == (count + if rises then 1 else 0) % 65536
  {}

  /** One kind excludes another. */
  lemma OneKind(config: GatewayConfig, floats: Floats, s: State, event: Event, key: Option<SlaveKey>)
    ensures !(Happens(config, floats, s, event, Silence, key) && Happens(config, floats, s, event, LineFailure, key))
  {
    hide CurrentPoint, CurrentKey, AtPoint, AtDeviceEnd, IsTimeout, IsIoFailure, Skipped, PointStateIn;
    if Enabled(config, s, event) && event.PointReply? {
      KindsExclude(floats, CurrentPoint(config, s, event.bus), event.exchange);
    }
  }

  lemma OneMoreEvent(config: GatewayConfig, floats: Floats, events: seq<Event>, kind: Kind, key: Option<SlaveKey>)
    requires events != []
    ensures Occurrences(config, floats, events, kind, key) ==
            Occurrences(config, floats, events[..|events| - 1], kind, key) +
            if Happens(config, floats, Reached(config, floats, events[..|events| - 1]), events[|events| - 1], kind, key)
            then 1 else 0
  {
    hide Happens, Reached;
  }

  lemma StepOfRun(config: GatewayConfig, floats: Floats, events: seq<Event>)
    requires events != []
    ensures var before, last := events[..|events| - 1], events[|events| - 1];
            Reached(config, floats, events) == Step(config, floats, Reached(config, floats, before), last)
  {
    hide Step, Start;
  }

  lemma NothingHappened(config: GatewayConfig, floats: Floats)
    ensures Reached(config, floats, []).counters == GatewayCounters(0, 0, 0, 0, 0)
    ensures forall key :: DeviceIn(Reached(config, floats, []).deviceStates, key) == DeviceState(3, 0, 0, 0, 0, 0)
    ensures forall name :: PointStateIn(Reached(config, floats, []).pointStates, name) == PointState(0, 2, 0)
    ensures forall kind, key :: Occurrences(config, floats, [], kind, key) == 0
    ensures forall key, kind :: DeviceCount(DeviceIn(Reached(config, floats, []).deviceStates, key), kind) == 0
    ensures forall kind :: GatewayCount(Reached(config, floats, []).counters, kind) == 0
  {
    hide PublishAll, StartWrites, Step;
  }

  lemma {:induction false} DeviceCounterTells(config: GatewayConfig, floats: Floats, events: seq<Event>, key: SlaveKey,
                                              kind: Kind)
    requires !kind.LineFailure?
    ensures DeviceCount(DeviceIn(Reached(config, floats, events).deviceStates, key), kind) ==
            Occurrences(config, floats, events, kind, Some(key)) % 65536
    decreases |events|
  {
    hide Step, Happens, Raised, Occurrences, Reached, DeviceCount;
    if events != [] {
      var before, last := events[..|events| - 1], events[|events| - 1];
      var s := Reached(config, floats, before);
      DeviceCounterTells(config, floats, before, key, kind);
      StepOfRun(config, floats, events);
      StepIsCounted(config, floats, s, last, key);
      OneMoreEvent(config, floats, events, kind, Some(key));
      RaisedCounts(DeviceCount(DeviceIn(s.deviceStates, key), kind), Occurrences(config, floats, before, kind, Some(key)),
        Happens(config, floats, s, last, kind, Some(key)));
    } else {
      NothingHappened(config, floats);
    }
  }

  /** In every reachable state a device's counters are the numbers of its values, timeouts,
      protocol errors and closed cycles in the run, modulo 65536. */
  lemma DeviceCountersTellTheRun(config: GatewayConfig, floats: Floats, events: seq<Event>, key: SlaveKey)
    ensures var d := DeviceIn(Reached(config, floats, events).deviceStates, key);
            && d.success == Occurrences(config, floats, events, GoodValue, Some(key)) % 65536
            && d.timeout == Occurrences(config, floats, events, Silence, Some(key)) % 65536
            && d.protocolError == Occurrences(config, floats, events, BadReply, Some(key)) % 65536
            && d.pollCycle == Occurrences(config, floats, events, CycleEnd, Some(key)) % 65536
  {
    hide Reached, Occurrences;
    DeviceCounterTells(config, floats, events, key, GoodValue);
    DeviceCounterTells(config, floats, events, key, Silence);
    DeviceCounterTells(config, floats, events, key, BadReply);
    DeviceCounterTells(config, floats, events, key, CycleEnd);
  }

  lemma {:induction false} GatewayCounterTells(config: GatewayConfig, floats: Floats, events: seq<Event>, kind: Kind)
    requires !Timeouts(kind)
    ensures GatewayCount(Reached(config, floats, events).counters, kind) ==
            Occurrences(config, floats, events, kind, None) % 65536
    decreases |events|
  {
    hide Step, Happens, Raised, Occurrences, Reached, GatewayCount;
    if events != [] {
      var before, last := events[..|events| - 1], events[|events| - 1];
      var s := Reached(config, floats, before);
      GatewayCounterTells(config, floats, before, kind);
      StepOfRun(config, floats, events);
      StepIsCounted(config, floats, s, last, ("", 0));
      OneMoreEvent(config, floats, events, kind, None);
      RaisedCounts(GatewayCount(s.counters, kind), Occurrences(config, floats, before, kind, None),
        Happens(config, floats, s, last, kind, None));
    } else {
      NothingHappened(config, floats);
    }
  }

  lemma {:induction false} GatewayTimeoutsTell(config: GatewayConfig, floats: Floats, events: seq<Event>)
    ensures Reached(config, floats, events).counters.timeout ==
            (Occurrences(config, floats, events, Silence, None) + Occurrences(config, floats, events, LineFailure, None)) % 65536
    decreases |events|
  {
    hide Step, Happens, Raised, Occurrences, Reached, GatewayCount;
    if events != [] {
      var before, last := events[..|events| - 1], events[|events| - 1];
      var s := Reached(config, floats, before);
      GatewayTimeoutsTell(config, floats, before);
      StepOfRun(config, floats, events);
      StepIsCounted(config, floats, s, last, ("", 0));
      OneKind(config, floats, s, last, None);
      OneMoreEvent(config, floats, events, Silence, None);
      OneMoreEvent(config, floats, events, LineFailure, None);
      RaisedCounts(s.counters.timeout,
        Occurrences(config, floats, before, Silence, None) + Occurrences(config, floats, before, LineFailure, None),
        Happens(config, floats, s, last, Silence, None) || Happens(config, floats, s, last, LineFailure, None));
    } else {
      NothingHappened(config, floats);
    }
  }

  /** So do the gateway's, whose timeouts count the I/O failures too. */
  lemma GatewayCountersTellTheRun(config: GatewayConfig, floats: Floats, events: seq<Event>)
    ensures var c := Reached(config, floats, events).counters;
            && c.success == Occurrences(config, floats, events, GoodValue, None) % 65536
            && c.timeout == (Occurrences(config, floats, events, Silence, None)
                             + Occurrences(config, floats, events, LineFailure, None)) % 65536
            && c.protocolError == Occurrences(config, floats, events, BadReply, None) % 65536
            && c.pollCycle == Occurrences(config, floats, events, CycleEnd, None) % 65536
  {
    hide Reached, Occurrences;
    GatewayCounterTells(config, floats, events, GoodValue);
    GatewayTimeoutsTell(config, floats, events);
    GatewayCounterTells(config, floats, events, BadReply);
    GatewayCounterTells(config, floats, events, CycleEnd);
  }
}
