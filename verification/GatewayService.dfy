/** The gateway as the source writes it: an object whose methods update its records and the
    register blocks in place. Every method is tied to the step function of `Gateway`. */
module GatewayService {
  import opened Core
  import opened Frame
  import opened Payload
  import opened Registers
  import opened Config
  import opened RegisterMap
  import opened Health
  import opened Status
  import opened LogicUnit
  import opened Gateway
  import opened Confirmation

  /* ---------- Exchanges with retries and read-back ---------- */

  /** The outcome of trying up to `requestRetries + 1` times, attempts `i` on. */
  function FirstSuccess(attempts: seq<Result<OwenFrame>>): Result<OwenFrame>
    requires attempts != []
  {
    if attempts[0].Ok? || |attempts| == 1 then attempts[0] else FirstSuccess(attempts[1..])
  }

  /** `line[i]` is what the i-th exchange would end in. At most `requestRetries + 1` are
      made, the first success is returned, and a fault only when all of them failed. */
  method ExchangeWithRetries(requestRetries: nat, line: seq<Result<OwenFrame>>)
    returns (result: Result<OwenFrame>, made: nat)
    requires |line| >= requestRetries + 1
    ensures 1 <= made <= requestRetries + 1
    ensures result == line[made - 1]
    ensures forall i :: 0 <= i < made - 1 ==> line[i].Err?
    ensures result.Err? ==> made == requestRetries + 1
    ensures result == FirstSuccess(line[..requestRetries + 1])
  {
    var attempts := requestRetries + 1;
    var attempt := 1;
    ghost var tries := line[..attempts];
    while true
      invariant 1 <= attempt <= attempts
      invariant forall i :: 0 <= i < attempt - 1 ==> line[i].Err?
      invariant FirstSuccess(tries[attempt - 1..]) == FirstSuccess(tries)
      decreases attempts - attempt
    {
      assert tries[attempt - 1..][0] == line[attempt - 1];
      if line[attempt - 1].Ok? || attempt >= attempts {
        return line[attempt - 1], attempt;
      }
      assert tries[attempt - 1..][1..] == tries[attempt..];
      attempt := attempt + 1;
    }
  }

  lemma VerifyStep(floats: Floats, p: PointConfig, expected: Value, readBacks: seq<Result<OwenFrame>>)
    requires readBacks != []
    ensures var checked := CheckRead(floats, p, expected, readBacks[0]);
            Verify(floats, p, expected, readBacks) ==
            if checked.Ok? || |readBacks| == 1 then checked else Verify(floats, p, expected, readBacks[1..])
  {
    hide CheckRead;
  }

  method VerifyWrittenValue(floats: Floats, p: PointConfig, expected: Value, readBacks: seq<Result<OwenFrame>>)
    returns (verified: Result<Value>, made: nat)
    requires |readBacks| == 3
    ensures verified == Verify(floats, p, expected, readBacks)
    ensures verified.Ok? ==> FirstAt(floats, p, expected, readBacks, made - 1, verified.value)
    ensures verified.Err? ==> made == 3 && forall j :: 0 <= j < 3 ==> !Confirms(floats, p, expected, readBacks[j])
  {
    hide CheckRead, Confirms, Verify, DecodePayload;
    var attempt := 1;
    while true
      invariant 1 <= attempt <= WRITE_VERIFY_ATTEMPTS
      invariant Verify(floats, p, expected, readBacks[attempt - 1..]) == Verify(floats, p, expected, readBacks)
      invariant forall j :: 0 <= j < attempt - 1 ==> !Confirms(floats, p, expected, readBacks[j])
      decreases WRITE_VERIFY_ATTEMPTS - attempt
    {
      var checked := CheckRead(floats, p, expected, readBacks[attempt - 1]);
      CheckConfirms(floats, p, expected, readBacks[attempt - 1]);
      assert readBacks[attempt - 1..][0] == readBacks[attempt - 1];
      VerifyStep(floats, p, expected, readBacks[attempt - 1..]);
      if checked.Ok? || attempt >= WRITE_VERIFY_ATTEMPTS {
        return checked, attempt;
      }
      assert readBacks[attempt - 1..][1..] == readBacks[attempt..];
      attempt := attempt + 1;
    }
  }

  /* ---------- One cycle as a run ---------- */

  /** Every event is one of the line's poller, possible when it happens, and a reply is what
      `replies` says for the device and point the poller is then at. */
  predicate Undisturbed(config: GatewayConfig, floats: Floats, s: State, events: seq<Event>, bus: string,
                        replies: (nat, nat) -> Result<OwenFrame>)
  {
    events == [] ||
    var before, last := events[..|events| - 1], events[|events| - 1];
    var poller := PollerIn(Run(config, floats, s, before).pollers, bus);
    && Undisturbed(config, floats, s, before, bus, replies)
    && Enabled(config, Run(config, floats, s, before), last) && OnLine(last, bus)
    && (last.PointReply? ==> last.exchange == replies(poller.device, poller.point))
  }

  lemma NothingDisturbs(config: GatewayConfig, floats: Floats, s: State, bus: string, replies: (nat, nat) -> Result<OwenFrame>)
    ensures Undisturbed(config, floats, s, [], bus, replies)
  {}

  lemma OneMoreUndisturbed(config: GatewayConfig, floats: Floats, s: State, events: seq<Event>, event: Event, bus: string,
                           replies: (nat, nat) -> Result<OwenFrame>)
    requires Undisturbed(config, floats, s, events, bus, replies)
    requires Enabled(config, Run(config, floats, s, events), event) && OnLine(event, bus)
    requires var poller := PollerIn(Run(config, floats, s, events).pollers, bus);
             event.PointReply? ==> event.exchange == replies(poller.device, poller.point)
    ensures Undisturbed(config, floats, s, events + [event], bus, replies)
  {
    hide Run, Enabled;
    assert (events + [event])[..|events|] == events;
  }

  /** The turns an event sequence takes: starting an exchange is half of one. */
  function Turns(events: seq<Event>): nat {
    if events == [] then 0
    else Turns(events[..|events| - 1]) + (if events[|events| - 1].ExchangeStart? then 0 else 1)
  }

  lemma OneMoreTurn(events: seq<Event>, event: Event)
    ensures Turns(events + [event]) == Turns(events) + (if event.ExchangeStart? then 0 else 1)
  {
    assert (events + [event])[..|events|] == events;
  }

  lemma NoTurns()
    ensures Turns([]) == 0
  {}

  /** One turn a point and one a device. */
  function CycleLength(config: GatewayConfig, keys: seq<SlaveKey>): nat {
    if keys == [] then 0
    else CycleLength(config, keys[..|keys| - 1]) + |PointsOf(config.points, keys[|keys| - 1])| + 1
  }

  lemma NoDevices(config: GatewayConfig, keys: seq<SlaveKey>)
    ensures CycleLength(config, keys[..0]) == 0
  {}

  lemma OneMoreDevice(config: GatewayConfig, keys: seq<SlaveKey>, d: nat)
    requires d < |keys|
    ensures CycleLength(config, keys[..d + 1]) == CycleLength(config, keys[..d]) + |PointsOf(config.points, keys[d])| + 1
  {
    assert keys[..d + 1][..d] == keys[..d];
  }

  lemma PollerIsThere(config: GatewayConfig, s: State, bus: string, d: nat, i: nat)
    requires d < |DevicesOn(config, bus)| && i < |PointsOf(config.points, DevicesOn(config, bus)[d])|
    requires PollerIn(s.pollers, bus).device == d && PollerIn(s.pollers, bus).point == i
    ensures AtPoint(config, s, bus) && CurrentKey(config, s, bus) == DevicesOn(config, bus)[d]
    ensures CurrentPoint(config, s, bus) == PointsOf(config.points, DevicesOn(config, bus)[d])[i]
  {
    hide DevicesOn, PointsOf;
  }

  lemma PollerMoves(config: GatewayConfig, s: State, bus: string, outcome: Outcome)
    requires AtPoint(config, s, bus)
    ensures var before, now := PollerIn(s.pollers, bus), PollerIn(ApplyOutcome(config, s, bus, outcome).pollers, bus);
            now.point == before.point + 1 && now.device == before.device && !now.waiting
  {
    hide CurrentPoint, CurrentKey, AtPoint, PublishAll, MetadataWrites, ValueWrites, AfterFailure, AfterSuccess,
         AfterEmpty, WordStatus, PointStateIn, IncCounter, DeviceIn, WithStored;
  }

  /** Passing a point over moves the poller on by one point. */
  lemma SkipMoves(config: GatewayConfig, floats: Floats, s: State, bus: string)
    requires AtPoint(config, s, bus) && !PollerIn(s.pollers, bus).waiting
    requires Skipped(PointStateIn(s.pointStates, CurrentPoint(config, s, bus).name))
    ensures var before, now := PollerIn(s.pollers, bus), PollerIn(Step(config, floats, s, SkipPoint(bus)).pollers, bus);
            && Enabled(config, s, SkipPoint(bus)) && OnLine(SkipPoint(bus), bus)
            && now.point == before.point + 1 && now.device == before.device && !now.waiting
  {
    hide CurrentPoint, CurrentKey, AtPoint, PublishAll, MetadataWrites, Skipped, PointStateIn, AfterSkip;
  }

  /** Asking a point makes the poller wait there for any reply. */
  lemma AskMoves(config: GatewayConfig, floats: Floats, s: State, bus: string, exchange: Result<OwenFrame>)
    requires AtPoint(config, s, bus) && !PollerIn(s.pollers, bus).waiting
    requires !Skipped(PointStateIn(s.pointStates, CurrentPoint(config, s, bus).name))
    ensures var after := Step(config, floats, s, ExchangeStart(bus));
            && Enabled(config, s, ExchangeStart(bus)) && OnLine(ExchangeStart(bus), bus)
            && PollerIn(after.pollers, bus) == PollerIn(s.pollers, bus).(waiting := true)
            && Enabled(config, after, PointReply(bus, exchange)) && OnLine(PointReply(bus, exchange), bus)
            && CurrentPoint(config, after, bus) == CurrentPoint(config, s, bus)
            && CurrentKey(config, after, bus) == CurrentKey(config, s, bus)
  {
    hide Skipped, PointStateIn, PointsOf, DevicesOn;
  }

  lemma ReplyMoves(config: GatewayConfig, floats: Floats, s: State, bus: string, exchange: Result<OwenFrame>)
    requires Enabled(config, s, PointReply(bus, exchange))
    ensures var before := PollerIn(s.pollers, bus);
            var now := PollerIn(Step(config, floats, s, PointReply(bus, exchange)).pollers, bus);
            now.point == before.point + 1 && now.device == before.device && !now.waiting
  {
    hide CurrentPoint, AtPoint, ApplyOutcome, Classify;
    PollerMoves(config, s, bus, Classify(floats, CurrentPoint(config, s, bus), exchange));
  }

  lemma PollerAtEnd(config: GatewayConfig, floats: Floats, s: State, bus: string, d: nat)
    requires d < |DevicesOn(config, bus)| && PollerIn(s.pollers, bus).device == d
    requires PollerIn(s.pollers, bus).point == |PointsOf(config.points, DevicesOn(config, bus)[d])|
    ensures Enabled(config, s, DeviceEnd(bus)) && CurrentKey(config, s, bus) == DevicesOn(config, bus)[d]
    ensures OnLine(DeviceEnd(bus), bus)
    ensures var now := PollerIn(Step(config, floats, s, DeviceEnd(bus)).pollers, bus);
            if d + 1 < |DevicesOn(config, bus)| then now == CYCLE_START.(device := d + 1) else now == CYCLE_START
  {
    hide DevicesOn, PointsOf, PublishAll, RecordWrites, NextMask, Publish, DeviceStatus, AggregateStatus, DeviceIn;
  }

  class OwenGatewayService {
    const config: GatewayConfig
    const floats: Floats

    var pointStates: map<string, PointState>
    var pointValues: map<string, Option<Value>>
    var logicMasks: map<SlaveKey, nat>
    var deviceStates: map<SlaveKey, DeviceState>
    var busStatuses: map<string, nat>
    var counters: GatewayCounters
    var registers: map<Cell, word>
    var pending: seq<PendingWrite>
    var pollers: map<string, Poller>
    ghost var stale: set<Cell>
    ghost var ioFailures: nat

    ghost function StoreNow(): Store
      reads this
    {
      Store(registers, pending, stale)
    }

    ghost function Snapshot(): State
      reads this
    {
      State(pointStates, pointValues, logicMasks, deviceStates, busStatuses, counters, StoreNow(), pollers, ioFailures)
    }

    constructor (config: GatewayConfig, floats: Floats)
      ensures this.config == config && this.floats == floats
      ensures Snapshot() == NO_STATE
    {
      this.config, this.floats := config, floats;
      pointStates, pointValues, logicMasks, deviceStates, busStatuses := map[], map[], map[], map[], map[];
      counters := GatewayCounters(0, 0, 0, 0, ERROR_NONE);
      registers, pending, pollers := map[], [], map[];
      stale, ioFailures := {}, 0;
    }

    method PublishOne(w: Write)
      modifies `registers, `stale
      ensures StoreNow() == Publish(old(StoreNow()), w)
    {
      stale := stale - CellsOf(w) + PendingAmong(pending, CellsOf(w));
      registers := Assigned(registers, w);
    }

    method PublishEach(writes: seq<Write>)
      modifies `registers, `stale
      ensures StoreNow() == PublishAll(old(StoreNow()), writes)
    {
      for i := 0 to |writes|
        invariant PublishAll(StoreNow(), writes[i..]) == PublishAll(old(StoreNow()), writes)
      {
        assert writes[i..][1..] == writes[i + 1..];
        PublishOne(writes[i]);
      }
    }

    /** What `run` publishes before the pollers start. */
    method Startup()
      requires Snapshot() == NO_STATE
      modifies `registers, `stale
      ensures Snapshot() == Start(config, floats)
    {
      PublishEach(StatusWrites(config, floats, SERVICE_SLAVE_ID, STATUS_OFFLINE));
      PublishEach(GatewayTelemetry(config, counters));
      PublishEach(LineWrites(NO_STATE.busStatuses, config.buses));
      PublishEach(DeviceStartWrites(config, floats, SlaveKeys(config.points)));
      ThreeAndOne(NO_STATE.store, StatusWrites(config, floats, SERVICE_SLAVE_ID, STATUS_OFFLINE),
        GatewayTelemetry(config, NO_STATE.counters), LineWrites(NO_STATE.busStatuses, config.buses),
        DeviceStartWrites(config, floats, SlaveKeys(config.points)));
    }

    /* The poll loop's body for one point: the point, its device and the line are the
       loop's variables. */

    method SkipCurrentPoint(bus: string, p: PointConfig)
      requires Enabled(config, Snapshot(), SkipPoint(bus)) && p == CurrentPoint(config, Snapshot(), bus)
      modifies `pointStates, `registers, `stale, `pollers
      ensures Snapshot() == Step(config, floats, old(Snapshot()), SkipPoint(bus))
    {
      hide PublishAll, CurrentPoint, CurrentKey, AtPoint, MetadataWrites, ValueWrites, IncCounter, PollerIn, DeviceIn,
           PointStateIn, AfterSkip, Failed;
      var poller := PollerIn(pollers, bus);
      pointStates := pointStates[p.name := AfterSkip(PointStateIn(pointStates, p.name))];
      PublishEach(MetadataWrites(p, None, CHANNEL_FAILED));
      pollers := pollers[bus := Failed(poller, poller.lastErrorCode, false)];
    }

    /** The point's exchange begins; the poller waits. */
    method StartExchange(bus: string)
      requires Enabled(config, Snapshot(), ExchangeStart(bus))
      modifies `pollers
      ensures Snapshot() == Step(config, floats, old(Snapshot()), ExchangeStart(bus))
    {
      pollers := pollers[bus := PollerIn(pollers, bus).(waiting := true)];
    }

    /** A reply that carries a value: kept, published, counted. */
    method TakeValue(bus: string, key: SlaveKey, p: PointConfig, value: Value, words: seq<word>, mark: Option<word>)
      requires AtPoint(config, Snapshot(), bus) && p == CurrentPoint(config, Snapshot(), bus)
      requires key == CurrentKey(config, Snapshot(), bus)
      modifies `pointStates, `pointValues, `deviceStates, `counters, `registers, `stale, `pollers
      ensures Snapshot() == ApplyOutcome(config, old(Snapshot()), bus, Succeeded(value, words, mark))
    {
      hide PublishAll, CurrentPoint, CurrentKey, AtPoint, MetadataWrites, ValueWrites, IncCounter, PollerIn, DeviceIn,
           PointStateIn, AfterSuccess, Passed;
      var device := DeviceIn(deviceStates, key);
      PublishAllConcat(StoreNow(), ValueWrites(p, words), MetadataWrites(p, mark, CHANNEL_OK));
      pointValues := pointValues[p.name := Some(value)];
      PublishEach(ValueWrites(p, words));
      pointStates := pointStates[p.name := AfterSuccess(PointStateIn(pointStates, p.name))];
      PublishEach(MetadataWrites(p, mark, CHANNEL_OK));
      deviceStates := deviceStates[key := device.(success := IncCounter(device.success))];
      counters := counters.(success := IncCounter(counters.success));
      pollers := pollers[bus := Passed(PollerIn(pollers, bus))];
    }

    method TakeEmptyReply(bus: string, p: PointConfig)
      requires AtPoint(config, Snapshot(), bus) && p == CurrentPoint(config, Snapshot(), bus)
      modifies `pointStates, `pointValues, `registers, `stale, `pollers
      ensures Snapshot() == ApplyOutcome(config, old(Snapshot()), bus, NoData)
    {
      hide PublishAll, CurrentPoint, CurrentKey, AtPoint, MetadataWrites, ValueWrites, IncCounter, PollerIn, DeviceIn,
           PointStateIn, AfterEmpty, Passed;
      pointStates := pointStates[p.name := AfterEmpty(PointStateIn(pointStates, p.name))];
      PublishEach(MetadataWrites(p, None, CHANNEL_DISABLED));
      pointValues := pointValues[p.name := None];
      pollers := pollers[bus := Passed(PollerIn(pollers, bus))];
    }

    /* The exception branches share the health update; they differ in what they count. */

    method CountFailure(p: PointConfig, transientStatus: nat)
      modifies `pointStates, `registers, `stale
      ensures var next := AfterFailure(PointStateIn(old(pointStates), p.name), config.health, transientStatus);
              && pointStates == old(pointStates)[p.name := next]
              && StoreNow() == PublishAll(old(StoreNow()), MetadataWrites(p, None, WordStatus(next)))
    {
      hide PublishAll;
      var state := PointStateIn(pointStates, p.name);
      state := state.(consecutiveFailures := state.consecutiveFailures + 1);
      state := FailureStatus(state, config.health, transientStatus);
      pointStates := pointStates[p.name := state];
      PublishEach(MetadataWrites(p, None, WordStatus(state)));
    }

    method TakeTimeout(bus: string, key: SlaveKey, p: PointConfig)
      requires AtPoint(config, Snapshot(), bus) && p == CurrentPoint(config, Snapshot(), bus)
      requires key == CurrentKey(config, Snapshot(), bus)
      modifies `pointStates, `deviceStates, `counters, `registers, `stale, `pollers
      ensures Snapshot() == ApplyOutcome(config, old(Snapshot()), bus, NoReply)
    {
      hide PublishAll, CurrentPoint, CurrentKey, AtPoint, MetadataWrites, ValueWrites, IncCounter, PollerIn, DeviceIn,
           PointStateIn, AfterFailure, Failed, WordStatus;
      var device := DeviceIn(deviceStates, key);
      CountFailure(p, CHANNEL_COMM_ERROR);
      deviceStates := deviceStates[key := device.(timeout := IncCounter(device.timeout))];
      counters := counters.(timeout := IncCounter(counters.timeout));
      pollers := pollers[bus := Failed(PollerIn(pollers, bus), ERROR_TIMEOUT, false)];
    }

    method TakeProtocolError(bus: string, key: SlaveKey, p: PointConfig, code: word, stored: Option<Value>)
      requires AtPoint(config, Snapshot(), bus) && p == CurrentPoint(config, Snapshot(), bus)
      requires key == CurrentKey(config, Snapshot(), bus)
      modifies `pointStates, `pointValues, `deviceStates, `counters, `registers, `stale, `pollers
      ensures Snapshot() == ApplyOutcome(config, old(Snapshot()), bus, Garbled(code, stored))
    {
      hide PublishAll, CurrentPoint, CurrentKey, AtPoint, MetadataWrites, ValueWrites, IncCounter, PollerIn, DeviceIn,
           PointStateIn, AfterFailure, Failed, WordStatus, WithStored;
      var device := DeviceIn(deviceStates, key);
      pointValues := WithStored(pointValues, p.name, stored);
      CountFailure(p, CHANNEL_PROTOCOL_ERROR);
      deviceStates := deviceStates[key := device.(protocolError := IncCounter(device.protocolError))];
      counters := counters.(protocolError := IncCounter(counters.protocolError));
      pollers := pollers[bus := Failed(PollerIn(pollers, bus), code, true)];
    }

    /** Any other exception counts as a timeout of the gateway, but not of the device. */
    method TakeIoFailure(bus: string, p: PointConfig, stored: Option<Value>)
      requires AtPoint(config, Snapshot(), bus) && p == CurrentPoint(config, Snapshot(), bus)
      modifies `pointStates, `pointValues, `counters, `registers, `stale, `pollers, `ioFailures
      ensures Snapshot() == ApplyOutcome(config, old(Snapshot()), bus, Broken(stored))
    {
      hide PublishAll, CurrentPoint, CurrentKey, AtPoint, MetadataWrites, ValueWrites, IncCounter, PollerIn, DeviceIn,
           PointStateIn, AfterFailure, Failed, WordStatus, WithStored;
      pointValues := WithStored(pointValues, p.name, stored);
      CountFailure(p, CHANNEL_COMM_ERROR);
      counters := counters.(timeout := IncCounter(counters.timeout));
      pollers := pollers[bus := Failed(PollerIn(pollers, bus), ERROR_IO, false)];
      ioFailures := ioFailures + 1;
    }

    method TakeReply(bus: string, key: SlaveKey, p: PointConfig, exchange: Result<OwenFrame>)
      requires Enabled(config, Snapshot(), PointReply(bus, exchange))
      requires p == CurrentPoint(config, Snapshot(), bus) && key == CurrentKey(config, Snapshot(), bus)
      modifies `pointStates, `pointValues, `deviceStates, `counters, `registers, `stale, `pollers, `ioFailures
      ensures Snapshot() == Step(config, floats, old(Snapshot()), PointReply(bus, exchange))
    {
      hide Classify, ApplyOutcome;
      var outcome := Classify(floats, p, exchange);
      match outcome {
        case Succeeded(value, words, mark) =>
          TakeValue(bus, key, p, value, words, mark);
        case NoData =>
          TakeEmptyReply(bus, p);
        case NoReply =>
          TakeTimeout(bus, key, p);
        case Garbled(code, stored) =>
          TakeProtocolError(bus, key, p, code, stored);
        case Broken(stored) =>
          TakeIoFailure(bus, p, stored);
      }
    }

    method PublishLogicUnitMasks(key: SlaveKey)
      modifies `logicMasks, `registers, `stale
      ensures Snapshot() == PublishMask(config, old(Snapshot()), key)
    {
      var points := PointsOf(config.points, key);
      var mask := ComputeMask(UnitInputs(pointValues, points, key.1), LogicMaskIn(logicMasks, key));
      PublishOne(MaskWrite(key.1, mask));
      logicMasks := logicMasks[key := mask];
    }

    method RecordResult(key: SlaveKey, status: nat, lastErrorCode: word)
      modifies `deviceStates, `busStatuses, `counters, `registers, `stale
      ensures Snapshot() == RecordDeviceResult(config, floats, old(Snapshot()), key, status, lastErrorCode)
    {
      hide PublishAll, StatusWrites, DeviceTelemetry, GatewayTelemetry, LineWrites, AggregateStatus, Statuses,
           LineStatuses, DevicesOn, IncCounter;
      var device := DeviceIn(deviceStates, key);
      device := device.(status := status, lastErrorCode := lastErrorCode, pollCycle := IncCounter(device.pollCycle));
      deviceStates := deviceStates[key := device];
      busStatuses := busStatuses[key.0 := AggregateStatus(Statuses(deviceStates, DevicesOn(config, key.0)))];
      counters := counters.(lastErrorCode := lastErrorCode, pollCycle := IncCounter(counters.pollCycle));
      var gatewayStatus := AggregateStatus(LineStatuses(busStatuses, config.buses));
      FourAndOne(StoreNow(), StatusWrites(config, floats, key.1, status), DeviceTelemetry(config, key.1, device),
        StatusWrites(config, floats, SERVICE_SLAVE_ID, gatewayStatus), GatewayTelemetry(config, counters),
        LineWrites(busStatuses, config.buses));
      PublishEach(StatusWrites(config, floats, key.1, status));
      PublishEach(DeviceTelemetry(config, key.1, device));
      PublishEach(StatusWrites(config, floats, SERVICE_SLAVE_ID, gatewayStatus));
      PublishEach(GatewayTelemetry(config, counters));
      PublishEach(LineWrites(busStatuses, config.buses));
    }

    /** After the last point of a device. */
    method FinishDevice(bus: string, key: SlaveKey)
      requires Enabled(config, Snapshot(), DeviceEnd(bus)) && key == CurrentKey(config, Snapshot(), bus)
      modifies `logicMasks, `deviceStates, `busStatuses, `counters, `registers, `stale, `pollers
      ensures Snapshot() == Step(config, floats, old(Snapshot()), DeviceEnd(bus))
    {
      hide PublishMask, RecordDeviceResult;
      var poller := PollerIn(pollers, bus);
      var status := DeviceStatus(|PointsOf(config.points, key)|, poller.failures, poller.protocolFailures);
      PublishLogicUnitMasks(key);
      RecordResult(key, status, poller.lastErrorCode);
      PollersUntouched(config, floats, old(Snapshot()), key, status, poller.lastErrorCode);
      pollers := pollers[bus := NextDevice(config, bus, poller)];
    }

    /** One cycle of a line's poller when nothing else runs meanwhile: every device, every
        point, `replies(d, i)` being what point i of device d is answered. The cycle is the
        run of the events it returns: each is possible when it happens and on this line, each
        reply is the one for its point, and there is one turn for each point and device. */
    method PollBusOnce(bus: string, replies: (nat, nat) -> Result<OwenFrame>) returns (ghost events: seq<Event>)
      requires PollerIn(pollers, bus) == CYCLE_START
      modifies `pointStates, `pointValues, `logicMasks, `deviceStates, `busStatuses, `counters
      modifies `registers, `stale, `pollers, `ioFailures
      ensures Snapshot() == Run(config, floats, old(Snapshot()), events)
      ensures Undisturbed(config, floats, old(Snapshot()), events, bus, replies)
      ensures Turns(events) == CycleLength(config, DevicesOn(config, bus))
      ensures PollerIn(pollers, bus) == CYCLE_START
    {
      hide Step, Enabled, PublishAll, DevicesOn, PointsOf, AtPoint, AtDeviceEnd, CurrentPoint, CurrentKey, Skipped,
           PointStateIn, CycleLength, OnLine, Undisturbed, Turns;
      events := [];
      NoTurns();
      NothingDisturbs(config, floats, Snapshot(), bus, replies);
      var keys := DevicesOn(config, bus);
      NoDevices(config, keys);
      for d := 0 to |keys|
        invariant Snapshot() == Run(config, floats, old(Snapshot()), events)
        invariant Undisturbed(config, floats, old(Snapshot()), events, bus, replies)
        invariant Turns(events) == CycleLength(config, keys[..d])
        invariant PollerIn(pollers, bus).point == 0 && !PollerIn(pollers, bus).waiting
        invariant PollerIn(pollers, bus).device == (if d < |keys| then d else 0)
        invariant PollerIn(pollers, bus).device == 0 ==> PollerIn(pollers, bus) == CYCLE_START
      {
        var points := PointsOf(config.points, keys[d]);
        for i := 0 to |points|
          invariant Snapshot() == Run(config, floats, old(Snapshot()), events)
          invariant Undisturbed(config, floats, old(Snapshot()), events, bus, replies)
          invariant Turns(events) == CycleLength(config, keys[..d]) + i
          invariant PollerIn(pollers, bus).point == i && PollerIn(pollers, bus).device == d
          invariant !PollerIn(pollers, bus).waiting
        {
          var p := points[i];
          PollerIsThere(config, Snapshot(), bus, d, i);
          ghost var s := Snapshot();
          if Skipped(PointStateIn(pointStates, p.name)) {
            SkipMoves(config, floats, s, bus);
            SkipCurrentPoint(bus, p);
            RunOneMore(config, floats, old(Snapshot()), events, SkipPoint(bus));
            OneMoreUndisturbed(config, floats, old(Snapshot()), events, SkipPoint(bus), bus, replies);
            OneMoreTurn(events, SkipPoint(bus));
            events := events + [SkipPoint(bus)];
          } else {
            AskMoves(config, floats, s, bus, replies(d, i));
            StartExchange(bus);
            RunOneMore(config, floats, old(Snapshot()), events, ExchangeStart(bus));
            OneMoreUndisturbed(config, floats, old(Snapshot()), events, ExchangeStart(bus), bus, replies);
            OneMoreTurn(events, ExchangeStart(bus));
            events := events + [ExchangeStart(bus)];
            ghost var reply := PointReply(bus, replies(d, i));
            ReplyMoves(config, floats, Snapshot(), bus, replies(d, i));
            TakeReply(bus, keys[d], p, replies(d, i));
            RunOneMore(config, floats, old(Snapshot()), events, reply);
            OneMoreUndisturbed(config, floats, old(Snapshot()), events, reply, bus, replies);
            OneMoreTurn(events, reply);
            events := events + [reply];
          }
        }
        PollerAtEnd(config, floats, Snapshot(), bus, d);
        ghost var s := Snapshot();
        FinishDevice(bus, keys[d]);
        RunOneMore(config, floats, old(Snapshot()), events, DeviceEnd(bus));
        OneMoreUndisturbed(config, floats, old(Snapshot()), events, DeviceEnd(bus), bus, replies);
        OneMoreTurn(events, DeviceEnd(bus));
        events := events + [DeviceEnd(bus)];
        OneMoreDevice(config, keys, d);
      }
      assert keys[..|keys|] == keys;
    }

    /* ---------- Client writes ---------- */

    method ReadRegisters(slave: int, address: int, count: nat) returns (words: seq<word>)
      ensures words == ReadHolding(StoreNow(), slave, address, count)
    {
      words := [];
      for i := 0 to count
        invariant |words| == i
        invariant forall j :: 0 <= j < i ==> words[j] == At(StoreNow(), Cell(slave, HoldingRegister, address + j))
      {
        var c := Cell(slave, HoldingRegister, address + i);
        words := words + [if c in registers then registers[c] else 0];
      }
    }

    method AcceptClientRegisters(slave: int, address: int, words: seq<word>)
      modifies `registers, `pending, `stale
      ensures Snapshot() == Step(config, floats, old(Snapshot()), ClientRegisters(slave, address, words))
    {
      var w := Write(slave, HoldingRegister, address, words);
      var previous := ReadRegisters(slave, address, |words|);
      stale := stale + PendingAmong(pending, CellsOf(w));
      registers := Assigned(registers, w);
      pending := pending + [PendingWrite(slave, address, words, previous)];
    }

    method AcceptClientCoils(slave: int, address: int, bits: seq<word>)
      modifies `registers, `stale
      ensures Snapshot() == Step(config, floats, old(Snapshot()), ClientCoils(slave, address, bits))
    {
      var w := Write(slave, Coil, address, bits);
      stale := stale + CellsOf(w);
      registers := Assigned(registers, w);
    }

    method RestoreHoldingRegisters(k: nat)
      requires k < |pending|
      modifies `registers, `pending
      ensures Snapshot() == RejectWrite(old(Snapshot()), k)
    {
      registers := Assigned(registers, Write(pending[k].slave, HoldingRegister, pending[k].address, pending[k].previous));
      pending := Without(pending, k);
    }

    /** The handler of write `k`: `ack` is what the write exchange ends in, `readBacks` what
        up to three verification exchanges would end in. */
    method HandleHoldingWrite(k: nat, ack: Result<Option<OwenFrame>>, readBacks: seq<Result<OwenFrame>>)
      requires k < |pending| && |readBacks| == WRITE_VERIFY_ATTEMPTS
      modifies `pointStates, `pointValues, `logicMasks, `registers, `pending, `stale
      ensures Snapshot() == Step(config, floats, old(Snapshot()), HandlerEnd(k, ack, readBacks))
    {
      hide PublishAll, PublishMask, Verify, WritableAt, DecodeRegisters, EncodePayload;
      var w := pending[k];
      var point := WritableAt(config.points, w.slave, w.address, |w.words|);
      if point.None? {
        RestoreHoldingRegisters(k);
        return;
      }
      var p := point.value;
      var value := DecodeRegisters(floats, w.words, p.modbusDataType);
      if value.Err? {
        RestoreHoldingRegisters(k);
        return;
      }
      var payload := EncodePayload(floats, value.value, p.protocolFormat);
      if payload.Err? || ack.Err? {
        RestoreHoldingRegisters(k);
        return;
      }
      var verified, _ := VerifyWrittenValue(floats, p, value.value, readBacks);
      if verified.Err? || !AckAccepted(p, ack.value) {
        RestoreHoldingRegisters(k);
        return;
      }
      KeepVerifiedValue(k, p, verified.value);
    }

    method KeepVerifiedValue(k: nat, p: PointConfig, value: Value)
      requires k < |pending|
      modifies `pointStates, `pointValues, `logicMasks, `registers, `pending, `stale
      ensures Snapshot() == AcceptWrite(config, floats, old(Snapshot()), k, p, value)
    {
      hide PublishAll, PublishMask, PublishedWords, ValueWrites, MetadataWrites, PointStateIn, AfterSuccess, Assigned,
           Without, KeyOf;
      pointValues := pointValues[p.name := Some(value)];
      pointStates := pointStates[p.name := AfterSuccess(PointStateIn(pointStates, p.name))];
      var published := PublishedWords(floats, p, value);
      if published.Err? {
        RestoreHoldingRegisters(k);
        return;
      }
      pending := Without(pending, k);
      PublishAllConcat(StoreNow(), ValueWrites(p, published.value), MetadataWrites(p, None, CHANNEL_OK));
      PublishEach(ValueWrites(p, published.value));
      PublishEach(MetadataWrites(p, None, CHANNEL_OK));
      PublishLogicUnitMasks(KeyOf(p));
    }
  }

  lemma PollersUntouched(config: GatewayConfig, floats: Floats, s: State, key: SlaveKey, status: nat, code: word)
    ensures RecordDeviceResult(config, floats, PublishMask(config, s, key), key, status, code).pollers == s.pollers
  {}

  lemma FourAndOne(store: Store, a: seq<Write>, b: seq<Write>, c: seq<Write>, d: seq<Write>, e: seq<Write>)
    ensures PublishAll(store, a + b + c + d + e) ==
            PublishAll(PublishAll(PublishAll(PublishAll(PublishAll(store, a), b), c), d), e)
  {
    ThreeAndOne(store, a, b, c, d);
    PublishAllConcat(store, a + b + c + d, e);
  }

  lemma ThreeAndOne(store: Store, a: seq<Write>, b: seq<Write>, c: seq<Write>, d: seq<Write>)
    ensures PublishAll(store, a + b + c + d) == PublishAll(PublishAll(PublishAll(PublishAll(store, a), b), c), d)
  {
    PublishAllConcat(store, a, b);
    PublishAllConcat(store, a + b, c);
    PublishAllConcat(store, a + b + c, d);
  }
}
