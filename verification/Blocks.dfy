/** The cell map against the real register blocks: lists with a size of their own, into which
    every publish, client write and restore is a slice assignment. */
module Blocks {
  import opened Core
  import opened Frame
  import opened Payload
  import opened Registers
  import opened Config
  import opened RegisterStore
  import opened RegisterMap
  import opened Health
  import opened Status
  import opened Gateway
  import opened Layout
  import opened Slots
  import opened CacheAgreement
  import opened Steps

  function Contents(w: Write): (words: seq<word>)
    ensures |words| == |w.words|
    ensures forall i :: 0 <= i < |words| ==> words[i] == Stored(w.registerType, w.words[i])
  {
    seq<word>(|w.words|, i requires 0 <= i < |w.words| => Stored(w.registerType, w.words[i]))
  }

  predicate ToBlock(w: Write, slave: int, t: RegisterType) { w.slave == slave && w.registerType == t }

  /** A block is indexed one higher than the map. */
  function BlockAfter(values: seq<word>, w: Write, slave: int, t: RegisterType): seq<word> {
    if ToBlock(w, slave, t) && w.address >= 0 then SliceAssign(values, w.address + 1, Contents(w)) else values
  }

  function BlockAfterAll(values: seq<word>, writes: seq<Write>, slave: int, t: RegisterType): seq<word>
    decreases |writes|
  {
    if writes == [] then values else BlockAfterAll(BlockAfter(values, writes[0], slave, t), writes[1..], slave, t)
  }

  function AssignAll(registers: map<Cell, word>, writes: seq<Write>): map<Cell, word>
    decreases |writes|
  {
    if writes == [] then registers else AssignAll(Assigned(registers, writes[0]), writes[1..])
  }

  function ContentOf(registers: map<Cell, word>, c: Cell): word { if c in registers then registers[c] else 0 }

  /** Up to `size` the block holds what the map says. */
  ghost predicate Mirrors(values: seq<word>, registers: map<Cell, word>, slave: int, t: RegisterType, size: nat) {
    |values| >= size &&
    forall a :: 0 <= a && a + 1 < size ==> values[a + 1] == ContentOf(registers, Cell(slave, t, a))
  }

  predicate NotNegativeAddresses(writes: seq<Write>) { forall i :: 0 <= i < |writes| ==> writes[i].address >= 0 }

  lemma SliceAssigned(values: seq<word>, start: nat, updates: seq<word>)
    ensures |SliceAssign(values, start, updates)| >= |values|
    ensures forall i :: 0 <= i < |values| ==>
              SliceAssign(values, start, updates)[i] ==
              if start <= i < start + |updates| then updates[i - start] else values[i]
  {}

  /** Whatever is written, in the block's range or past its end, the mirror keeps: a block
      grows at its end and never moves what it held. */
  lemma WriteMirrors(values: seq<word>, registers: map<Cell, word>, w: Write, slave: int, t: RegisterType, size: nat)
    requires Mirrors(values, registers, slave, t, size) && w.address >= 0
    ensures Mirrors(BlockAfter(values, w, slave, t), Assigned(registers, w), slave, t, size)
  {
    hide SliceAssign, CellsFrom, Assigned, Stored;
    var after := BlockAfter(values, w, slave, t);
    if ToBlock(w, slave, t) {
      SliceAssigned(values, w.address + 1, Contents(w));
    }
    forall a | 0 <= a && a + 1 < size ensures after[a + 1] == ContentOf(Assigned(registers, w), Cell(slave, t, a)) {
      var c := Cell(slave, t, a);
      if c in CellsOf(w) {
        AssignedHere(registers, w, c);
      } else {
        AssignedElsewhere(registers, w, c);
      }
    }
  }

  lemma {:induction false} WritesMirror(values: seq<word>, registers: map<Cell, word>, writes: seq<Write>, slave: int,
                                        t: RegisterType, size: nat)
    requires Mirrors(values, registers, slave, t, size) && NotNegativeAddresses(writes)
    ensures Mirrors(BlockAfterAll(values, writes, slave, t), AssignAll(registers, writes), slave, t, size)
    decreases |writes|
  {
    hide Mirrors, BlockAfter, Assigned;
    if writes != [] {
      WriteMirrors(values, registers, writes[0], slave, t, size);
      WritesMirror(BlockAfter(values, writes[0], slave, t), Assigned(registers, writes[0]), writes[1..], slave, t, size);
    }
  }

  lemma {:induction false} PublishesAssign(store: Store, writes: seq<Write>)
    ensures PublishAll(store, writes).registers == AssignAll(store.registers, writes)
    decreases |writes|
  {
    hide Assigned;
    if writes != [] {
      PublishesAssign(Publish(store, writes[0]), writes[1..]);
    }
  }

  lemma {:induction false} AssignConcat(registers: map<Cell, word>, a: seq<Write>, b: seq<Write>)
    ensures AssignAll(registers, a + b) == AssignAll(AssignAll(registers, a), b)
    decreases |a|
  {
    hide Assigned;
    if a == [] {
      assert a + b == b;
    } else {
      assert (a + b)[1..] == a[1..] + b;
      AssignConcat(Assigned(registers, a[0]), a[1..], b);
    }
  }

  lemma {:induction false} AssignedOff(registers: map<Cell, word>, writes: seq<Write>, c: Cell)
    requires forall i :: 0 <= i < |writes| ==> c !in CellsOf(writes[i])
    ensures ContentOf(AssignAll(registers, writes), c) == ContentOf(registers, c)
    decreases |writes|
  {
    hide CellsFrom, Assigned;
    if writes != [] {
      AssignedElsewhere(registers, writes[0], c);
      AssignedOff(Assigned(registers, writes[0]), writes[1..], c);
    }
  }

  lemma AssignOne(registers: map<Cell, word>, w: Write)
    ensures AssignAll(registers, [w]) == Assigned(registers, w)
  {
    hide Assigned;
    assert [w][1..] == [];
  }

  lemma RejectAssigns(s: State, k: nat)
    requires k < |s.store.pending|
    ensures RejectWrite(s, k).store.registers == AssignAll(s.store.registers, [RestoreWrite(s.store.pending[k])])
  {
    hide Assigned;
    AssignOne(s.store.registers, RestoreWrite(s.store.pending[k]));
  }

  lemma AcceptAssigns(config: GatewayConfig, floats: Floats, s: State, k: nat, p: PointConfig, value: Value)
    requires k < |s.store.pending|
    ensures AcceptWrite(config, floats, s, k, p, value).store.registers ==
            AssignAll(s.store.registers, AcceptWrites(config, floats, s, k, p, value))
  {
    hide PublishAll, AssignAll, PublishedWords, ValueWrites, MetadataWrites, NextMask, PublishMask, AfterSuccess, PointStateIn,
         Restore;
    if PublishedWords(floats, p, value).Ok? {
      AcceptPublishes(config, floats, s, k, p, value);
      PublishesAssign(Withdraw(s.store, k), AcceptWrites(config, floats, s, k, p, value));
    } else {
      RejectAssigns(WithValue(s, p, value), k);
    }
  }

  lemma HandlerAssigns(config: GatewayConfig, floats: Floats, s: State, k: nat, ack: Result<Option<OwenFrame>>,
                       readBacks: seq<Result<OwenFrame>>)
    requires k < |s.store.pending|
    ensures EndHandler(config, floats, s, k, ack, readBacks).store.registers ==
            AssignAll(s.store.registers, HandlerWrites(config, floats, s, k, ack, readBacks))
  {
    hide WritableAt, WriteOutcome, AcceptWrite, AcceptWrites, RejectWrite, AssignAll;
    var write := s.store.pending[k];
    RejectAssigns(s, k);
    var point := WritableAt(config.points, write.slave, write.address, |write.words|);
    if point.Some? && WriteOutcome(floats, point.value, write.words, ack, readBacks).Ok? {
      AcceptAssigns(config, floats, s, k, point.value, WriteOutcome(floats, point.value, write.words, ack, readBacks).value);
    }
  }

  /** These are all the writes a step makes. */
  lemma StepAssigns(config: GatewayConfig, floats: Floats, s: State, event: Event)
    ensures Step(config, floats, s, event).store.registers ==
            AssignAll(s.store.registers, StepWrites(config, floats, s, event))
  {
    hide ApplyOutcome, Classify, OutcomeWrites, CloseDevice, CloseWrites, EndHandler, HandlerWrites, CurrentPoint,
         MetadataWrites, PublishAll, Assigned, PointStateIn, Skipped;
    if Enabled(config, s, event) {
      match event {
        case SkipPoint(bus) =>
          PublishesAssign(s.store, MetadataWrites(CurrentPoint(config, s, bus), None, CHANNEL_FAILED));
        case ExchangeStart(_) =>
        case PointReply(bus, exchange) =>
          var outcome := Classify(floats, CurrentPoint(config, s, bus), exchange);
          OutcomePublishes(config, s, bus, outcome);
          PublishesAssign(s.store, OutcomeWrites(config, s, bus, outcome));
        case DeviceEnd(bus) =>
          ClosePublishes(config, floats, s, bus);
          PublishesAssign(s.store, CloseWrites(config, floats, s, bus));
        case ClientRegisters(slave, address, words) =>
          AssignOne(s.store.registers, Write(slave, HoldingRegister, address, words));
        case ClientCoils(slave, address, bits) => AssignOne(s.store.registers, Write(slave, Coil, address, bits));
        case HandlerEnd(k, ack, readBacks) => HandlerAssigns(config, floats, s, k, ack, readBacks);
      }
    }
  }

  /* ---------- The blocks of a run ---------- */

  /** A slave's block of one register type after a run, if it was created with `size`
      registers. */
  function RunBlock(config: GatewayConfig, floats: Floats, size: nat, events: seq<Event>, slave: int,
                    t: RegisterType): seq<word>
  {
    if events == [] then BlockAfterAll(seq<word>(size, _ => 0), StartWrites(config, floats), slave, t)
    else
      var before, last := events[..|events| - 1], events[|events| - 1];
      BlockAfterAll(RunBlock(config, floats, size, before, slave, t),
                    StepWrites(config, floats, Reached(config, floats, before), last), slave, t)
  }

  /** Modbus addresses are never negative. */
  predicate ClientsInMap(events: seq<Event>) {
    forall i :: 0 <= i < |events| ==>
      && (events[i].ClientRegisters? ==> events[i].address >= 0)
      && (events[i].ClientCoils? ==> events[i].address >= 0)
  }

  /* ---------- The blocks hold the map ---------- */

  lemma PointNotNegative(config: GatewayConfig, p: PointConfig)
    requires Accepts(config) && p in config.points
    ensures p.modbusAddress >= 0 && NotNegative(p.timeMarkAddress) && NotNegative(p.channelStatusAddress)
  {
    var i :| 0 <= i < |config.points| && config.points[i] == p;
    assert PointFieldsOk(BusNames(config.buses), config.points[i]);
  }

  lemma PointWritesNotNegative(config: GatewayConfig, p: PointConfig, words: seq<word>, mark: Option<word>, status: nat)
    requires Accepts(config) && p in config.points && status < 0x1_0000
    ensures NotNegativeAddresses(MetadataWrites(p, mark, status))
    ensures NotNegativeAddresses(ValueWrites(p, words) + MetadataWrites(p, mark, status))
  {
    hide Accepts;
    PointNotNegative(config, p);
  }

  lemma ServiceNotNegative(config: GatewayConfig, floats: Floats, slave: int, status: nat, a: word, b: word, c: word,
                           d: word, e: word)
    requires Accepts(config)
    ensures NotNegativeAddresses(StatusWrites(config, floats, slave, status))
    ensures NotNegativeAddresses(TelemetryWrites(config, slave, a, b, c, d, e))
  {
    hide PointsOk, BusesOk;
    var t := config.telemetry;
    assert t.enabled ==> forall x :: x in TelemetryCells(t) ==> x >= 0;
    assert t.lastErrorCode in TelemetryCells(t) && t.successCounter in TelemetryCells(t) && t.timeoutCounter in TelemetryCells(t)
           && t.protocolErrorCounter in TelemetryCells(t) && t.pollCycleCounter in TelemetryCells(t);
  }

  lemma LinesNotNegative(lines: map<string, nat>, buses: seq<BusConfig>)
    ensures NotNegativeAddresses(LineWrites(lines, buses))
  {}

  lemma TogetherNotNegative(a: seq<Write>, b: seq<Write>)
    requires NotNegativeAddresses(a) && NotNegativeAddresses(b)
    ensures NotNegativeAddresses(a + b)
  {}

  lemma RecordNotNegative(config: GatewayConfig, floats: Floats, s: State, key: SlaveKey)
    requires Accepts(config)
    ensures NotNegativeAddresses(RecordWrites(config, floats, s, key))
  {
    hide Accepts, StatusWrites, TelemetryWrites, LineWrites, NotNegativeAddresses, AggregateStatus;
    var d, c := DeviceIn(s.deviceStates, key), s.counters;
    var status := AggregateStatus(LineStatuses(s.busStatuses, config.buses));
    ServiceNotNegative(config, floats, key.1, d.status, d.lastErrorCode, d.success, d.timeout, d.protocolError, d.pollCycle);
    ServiceNotNegative(config, floats, SERVICE_SLAVE_ID, status, c.lastErrorCode, c.success, c.timeout,
      c.protocolError, c.pollCycle);
    LinesNotNegative(s.busStatuses, config.buses);
    var w0, w1 := StatusWrites(config, floats, key.1, d.status), DeviceTelemetry(config, key.1, d);
    var w2, w3 := StatusWrites(config, floats, SERVICE_SLAVE_ID, status), GatewayTelemetry(config, c);
    TogetherNotNegative(w0, w1);
    TogetherNotNegative(w0 + w1, w2);
    TogetherNotNegative(w0 + w1 + w2, w3);
    TogetherNotNegative(w0 + w1 + w2 + w3, LineWrites(s.busStatuses, config.buses));
  }

  lemma {:induction false} DevicesStartNotNegative(config: GatewayConfig, floats: Floats, keys: seq<SlaveKey>)
    requires Accepts(config)
    ensures NotNegativeAddresses(DeviceStartWrites(config, floats, keys))
  {
    hide Accepts, StatusWrites, TelemetryWrites;
    if keys != [] {
      var init, last := keys[..|keys| - 1], keys[|keys| - 1];
      DevicesStartNotNegative(config, floats, init);
      ServiceNotNegative(config, floats, last.1, STATUS_OFFLINE, 0, 0, 0, 0, 0);
    }
  }

  lemma StartNotNegative(config: GatewayConfig, floats: Floats)
    requires Accepts(config)
    ensures NotNegativeAddresses(StartWrites(config, floats))
  {
    hide Accepts, StatusWrites, TelemetryWrites, LineWrites, NotNegativeAddresses, DeviceStartWrites;
    ServiceNotNegative(config, floats, SERVICE_SLAVE_ID, STATUS_OFFLINE, 0, 0, 0, 0, 0);
    LinesNotNegative(NO_STATE.busStatuses, config.buses);
    DevicesStartNotNegative(config, floats, SlaveKeys(config.points));
    var a, b := StatusWrites(config, floats, SERVICE_SLAVE_ID, STATUS_OFFLINE), GatewayTelemetry(config, NO_STATE.counters);
    TogetherNotNegative(a, b);
    TogetherNotNegative(a + b, LineWrites(NO_STATE.busStatuses, config.buses));
    TogetherNotNegative(a + b + LineWrites(NO_STATE.busStatuses, config.buses),
      DeviceStartWrites(config, floats, SlaveKeys(config.points)));
  }

  predicate PendingNotNegative(pending: seq<PendingWrite>) {
    forall k :: 0 <= k < |pending| ==> pending[k].address >= 0
  }

  lemma OutcomeNotNegative(config: GatewayConfig, s: State, bus: string, outcome: Outcome)
    requires Accepts(config) && AtPoint(config, s, bus)
    ensures NotNegativeAddresses(OutcomeWrites(config, s, bus, outcome))
  {
    hide Accepts, CurrentPoint, AtPoint, ApplyOutcome, MetadataWrites, ValueWrites, NotNegativeAddresses, WordStatus,
         PointStateIn;
    var p := CurrentPoint(config, s, bus);
    CurrentPointKnown(config, s, bus);
    match outcome {
      case Succeeded(_, words, mark) => PointWritesNotNegative(config, p, words, mark, CHANNEL_OK);
      case NoData => PointWritesNotNegative(config, p, [], None, CHANNEL_DISABLED);
      case _ =>
        PointWritesNotNegative(config, p, [], None,
          WordStatus(PointStateIn(ApplyOutcome(config, s, bus, outcome).pointStates, p.name)));
    }
  }

  lemma HandlerNotNegative(config: GatewayConfig, floats: Floats, s: State, k: nat, ack: Result<Option<OwenFrame>>,
                           readBacks: seq<Result<OwenFrame>>)
    requires Accepts(config) && k < |s.store.pending| && PendingNotNegative(s.store.pending)
    ensures NotNegativeAddresses(HandlerWrites(config, floats, s, k, ack, readBacks))
  {
    hide Accepts, WritableAt, WriteOutcome, MetadataWrites, ValueWrites, PublishedWords, NextMask;
    var write := s.store.pending[k];
    var point := WritableAt(config.points, write.slave, write.address, |write.words|);
    if point.Some? && WriteOutcome(floats, point.value, write.words, ack, readBacks).Ok? {
      var p, value := point.value, WriteOutcome(floats, point.value, write.words, ack, readBacks).value;
      WritableFound(config.points, write.slave, write.address, |write.words|);
      if PublishedWords(floats, p, value).Ok? {
        PointWritesNotNegative(config, p, PublishedWords(floats, p, value).value, None, CHANNEL_OK);
      }
    }
  }

  lemma StepNotNegative(config: GatewayConfig, floats: Floats, s: State, event: Event)
    requires Accepts(config) && PendingNotNegative(s.store.pending) && ClientsInMap([event])
    ensures NotNegativeAddresses(StepWrites(config, floats, s, event))
  {
    hide Accepts, OutcomeWrites, HandlerWrites, CurrentPoint, AtPoint, MetadataWrites, Classify, RecordWrites, NextMask,
         CurrentKey, PointStateIn, Skipped;
    if Enabled(config, s, event) {
      match event {
        case SkipPoint(bus) =>
          CurrentPointKnown(config, s, bus);
          PointWritesNotNegative(config, CurrentPoint(config, s, bus), [], None, CHANNEL_FAILED);
        case PointReply(bus, exchange) =>
          OutcomeNotNegative(config, s, bus, Classify(floats, CurrentPoint(config, s, bus), exchange));
        case DeviceEnd(bus) => CloseNotNegative(config, floats, s, bus);
        case HandlerEnd(k, ack, readBacks) => HandlerNotNegative(config, floats, s, k, ack, readBacks);
        case _ => assert [event][0] == event;
      }
    }
  }

  lemma CloseNotNegative(config: GatewayConfig, floats: Floats, s: State, bus: string)
    requires Accepts(config) && OnDevice(config, s, bus)
    ensures NotNegativeAddresses(CloseWrites(config, floats, s, bus))
  {
    hide Accepts, RecordWrites, NextMask, CurrentKey, Recorded, PublishMask, DeviceStatus, NotNegativeAddresses;
    var key, poller := CurrentKey(config, s, bus), PollerIn(s.pollers, bus);
    var status := DeviceStatus(|PointsOf(config.points, key)|, poller.failures, poller.protocolFailures);
    var mask := MaskWrite(key.1, NextMask(config, s, key));
    RecordNotNegative(config, floats, Recorded(config, PublishMask(config, s, key), key, status, poller.lastErrorCode), key);
    assert NotNegativeAddresses([mask]) by { MaskNotNegative(mask); }
    TogetherNotNegative([mask], RecordWrites(config, floats, Recorded(config, PublishMask(config, s, key), key, status,
      poller.lastErrorCode), key));
  }

  lemma MaskNotNegative(mask: Write)
    requires mask.address == MASK_REGISTER
    ensures NotNegativeAddresses([mask])
  {}

  /** A step's writes in flight are those before it, less an ended one, or with a new one. */
  lemma StepPending(config: GatewayConfig, floats: Floats, s: State, event: Event)
    requires PendingNotNegative(s.store.pending) && ClientsInMap([event])
    ensures PendingNotNegative(Step(config, floats, s, event).store.pending)
  {
    hide ApplyOutcome, Classify, CloseDevice, EndHandler, CurrentPoint, MetadataWrites, PublishAll, Assigned,
         PointStateIn, Skipped;
    if Enabled(config, s, event) {
      match event {
        case SkipPoint(bus) =>
          PendingAfterAll(s.store, MetadataWrites(CurrentPoint(config, s, bus), None, CHANNEL_FAILED));
        case PointReply(bus, exchange) =>
          OutcomePending(config, s, bus, Classify(floats, CurrentPoint(config, s, bus), exchange));
        case DeviceEnd(bus) => ClosePending(config, floats, s, bus);
        case HandlerEnd(k, ack, readBacks) => HandlerPending(config, floats, s, k, ack, readBacks);
        case _ => assert [event][0] == event;
      }
    }
  }

  lemma OutcomePending(config: GatewayConfig, s: State, bus: string, outcome: Outcome)
    requires AtPoint(config, s, bus)
    ensures ApplyOutcome(config, s, bus, outcome).store.pending == s.store.pending
  {
    hide ApplyOutcome, OutcomeWrites, PublishAll;
    OutcomePublishes(config, s, bus, outcome);
    PendingAfterAll(s.store, OutcomeWrites(config, s, bus, outcome));
  }

  lemma ClosePending(config: GatewayConfig, floats: Floats, s: State, bus: string)
    requires OnDevice(config, s, bus)
    ensures CloseDevice(config, floats, s, bus).store.pending == s.store.pending
  {
    hide CloseDevice, CloseWrites, PublishAll;
    ClosePublishes(config, floats, s, bus);
    PendingAfterAll(s.store, CloseWrites(config, floats, s, bus));
  }

  lemma HandlerPending(config: GatewayConfig, floats: Floats, s: State, k: nat, ack: Result<Option<OwenFrame>>,
                       readBacks: seq<Result<OwenFrame>>)
    requires k < |s.store.pending|
    ensures EndHandler(config, floats, s, k, ack, readBacks).store.pending == Without(s.store.pending, k)
  {
    hide WritableAt, WriteOutcome, PublishAll, PublishedWords, ValueWrites, MetadataWrites, NextMask, Assigned, AfterSuccess,
         PointStateIn, KeyOf, Without, MaskWrite;
    forall writes ensures PublishAll(Withdraw(s.store, k), writes).pending == Without(s.store.pending, k) {
      PendingAfterAll(Withdraw(s.store, k), writes);
    }
  }

  /** What an event does to the writes in flight. */
  lemma PendingMoves(config: GatewayConfig, floats: Floats, s: State, event: Event)
    ensures var before, after := s.store.pending, Step(config, floats, s, event).store.pending;
            match event
            case ClientRegisters(_, _, _) => |after| == |before| + 1 && after[..|before|] == before
            case HandlerEnd(k, _, _) => Enabled(config, s, event) ==> k < |before| && after == Without(before, k)
            case _ => after == before
  {
    hide ApplyOutcome, Classify, CloseDevice, EndHandler, CurrentPoint, MetadataWrites, PublishAll, Assigned, PointStateIn,
         Skipped, Without;
    if Enabled(config, s, event) {
      match event {
        case SkipPoint(bus) => PendingAfterAll(s.store, MetadataWrites(CurrentPoint(config, s, bus), None, CHANNEL_FAILED));
        case PointReply(bus, exchange) =>
          OutcomePending(config, s, bus, Classify(floats, CurrentPoint(config, s, bus), exchange));
        case DeviceEnd(bus) => ClosePending(config, floats, s, bus);
        case HandlerEnd(k, ack, readBacks) => HandlerPending(config, floats, s, k, ack, readBacks);
        case _ =>
      }
    }
  }

  /** In every run, whatever was written past a block's end: every register the block was
      created with holds what the map says of it. */
  lemma {:induction false} BlocksHoldTheMap(config: GatewayConfig, floats: Floats, size: nat, events: seq<Event>, slave: int,
                                            t: RegisterType)
    requires Accepts(config) && ClientsInMap(events)
    ensures var s := Reached(config, floats, events);
            && PendingNotNegative(s.store.pending)
            && Mirrors(RunBlock(config, floats, size, events, slave, t), s.store.registers, slave, t, size)
    decreases |events|
  {
    hide Accepts, Step, StepWrites, Mirrors, BlockAfterAll, AssignAll, PublishAll, StartWrites, NotNegativeAddresses;
    if events == [] {
      var zeros := seq<word>(size, _ => 0);
      assert Mirrors(zeros, map[], slave, t, size) by { ZerosMirrorNothing(size, slave, t); }
      StartNotNegative(config, floats);
      WritesMirror(zeros, map[], StartWrites(config, floats), slave, t, size);
      PublishesAssign(NO_STATE.store, StartWrites(config, floats));
      PendingAfterAll(NO_STATE.store, StartWrites(config, floats));
    } else {
      var before, last := events[..|events| - 1], events[|events| - 1];
      var s := Reached(config, floats, before);
      assert ClientsInMap(before) by { assert forall i :: 0 <= i < |before| ==> before[i] == events[i]; }
      BlocksHoldTheMap(config, floats, size, before, slave, t);
      StepNotNegative(config, floats, s, last);
      StepPending(config, floats, s, last);
      StepAssigns(config, floats, s, last);
      WritesMirror(RunBlock(config, floats, size, before, slave, t), s.store.registers, StepWrites(config, floats, s, last),
        slave, t, size);
    }
  }

  lemma ZerosMirrorNothing(size: nat, slave: int, t: RegisterType)
    ensures Mirrors(seq<word>(size, _ => 0), map[], slave, t, size)
  {}

  /* ---------- Which registers a block has ---------- */

  /** Some cell that the block was sized for lies at or above map address `a`. */
  ghost predicate InBlock(config: GatewayConfig, t: RegisterType, a: int) {
    exists b :: b in TouchedCells(config, t) && a <= b
  }

  predicate RegisterIs(values: seq<word>, a: int, w: word) {
    0 <= a && a + 1 < |values| && values[a + 1] == w
  }

  /** So a theorem about the map's content of a cell is one about the block's register exactly
      below the block's end. */
  lemma InBlockRegisters(config: GatewayConfig, floats: Floats, size: nat, events: seq<Event>, c: Cell)
    requires Accepts(config) && ClientsInMap(events) && Sizes(size, TouchedCells(config, c.registerType))
    requires c.address >= 0 && InBlock(config, c.registerType, c.address)
    ensures RegisterIs(RunBlock(config, floats, size, events, c.slave, c.registerType), c.address,
                       At(Reached(config, floats, events).store, c))
  {
    hide Accepts, Reached, RunBlock, Sizes, TouchedCells;
    BlocksHoldTheMap(config, floats, size, events, c.slave, c.registerType);
    InsideExactly(TouchedCells(config, c.registerType), size, c.address);
  }

  lemma {:induction false} TouchedPoint(config: GatewayConfig, p: PointConfig, a: int)
    requires Accepts(config) && p in config.points && p.publishToModbus && a in PointCells(p)
    ensures InBlock(config, p.registerType, a)
  {
    hide Accepts, TouchedByPoints;
    var i :| 0 <= i < |config.points| && config.points[i] == p;
    TouchedMember(config.points, TypesLike(p.registerType), i);
    PublishedShape(config, i);
    assert a in TouchedByPoint(p, TypesLike(p.registerType)) by { TypeLikeItself(p.registerType, config, p); }
    assert a in TouchedCells(config, p.registerType);
  }

  lemma TypeLikeItself(t: RegisterType, config: GatewayConfig, p: PointConfig)
    requires Accepts(config) && p in config.points && p.registerType == t
    ensures t in TypesLike(t)
  {
    var i :| 0 <= i < |config.points| && config.points[i] == p;
    assert PointFieldsOk(BusNames(config.buses), config.points[i]);
  }

  /* ---------- When a block keeps its size ---------- */

  predicate Inside(w: Write, slave: int, t: RegisterType, size: nat) {
    ToBlock(w, slave, t) && w.words != [] ==> 0 <= w.address && w.address + |w.words| < size
  }

  predicate AllInside(writes: seq<Write>, slave: int, t: RegisterType, size: nat) {
    forall i :: 0 <= i < |writes| ==> Inside(writes[i], slave, t, size)
  }

  lemma {:induction false} InsideKeepsSize(values: seq<word>, writes: seq<Write>, slave: int, t: RegisterType)
    requires AllInside(writes, slave, t, |values|)
    ensures |BlockAfterAll(values, writes, slave, t)| == |values|
    decreases |writes|
  {
    hide Contents;
    if writes != [] {
      InsideKeepsSize(BlockAfter(values, writes[0], slave, t), writes[1..], slave, t);
    }
  }

  /** A point's metadata goes to registers the block was created with. */
  ghost predicate MetadataInside(config: GatewayConfig, p: PointConfig, slave: int, t: RegisterType) {
    SlaveOf(p) == slave && p.registerType == t ==> forall a :: a in MetadataCells(p) ==> InBlock(config, t, a)
  }

  lemma PublishedMetadataInside(config: GatewayConfig, p: PointConfig, slave: int, t: RegisterType)
    requires Accepts(config) && p in config.points && p.publishToModbus
    ensures MetadataInside(config, p, slave, t)
  {
    hide Accepts, InBlock, MetadataCells;
    forall a | a in MetadataCells(p) ensures InBlock(config, p.registerType, a) {
      TouchedPoint(config, p, a);
    }
  }

  predicate PointOf(region: Region, p: PointConfig) {
    region == ValueRegion(p) || region == MetadataRegion(p)
  }

  predicate OfService(region: Region) {
    region.StatusRegion? || region.TelemetryRegion? || region.LineRegion? || region.MaskRegion?
  }

  lemma RegionInside(config: GatewayConfig, region: Region, c: Cell, size: nat)
    requires Accepts(config) && KnownRegisterType(c.registerType) && Sizes(size, TouchedCells(config, c.registerType))
    requires Known(config, region) && Covers(config, region, c)
    requires region.MetadataRegion? ==> MetadataInside(config, region.p, c.slave, c.registerType)
    ensures 0 <= c.address && c.address + 1 < size
  {
    hide Accepts, TouchedCells, Sizes, StatusCells, TelemetryCells, ValueCells, MetadataCells;
    PublishesStayInside(config, c.registerType, size);
    match region {
      case ValueRegion(p) =>
        var i :| 0 <= i < |config.points| && config.points[i] == p;
        assert OnBlock(config.points[i], c.registerType) && c.address in PointCells(config.points[i]);
      case MetadataRegion(p) =>
        PointNotNegative(config, p);
        assert c.address >= 0 by { MetadataNotNegative(config, p); }
        InsideExactly(TouchedCells(config, c.registerType), size, c.address);
      case StatusRegion(_) => assert c.address in ReservedCells(config, c.registerType);
      case TelemetryRegion(_) => assert c.address in ReservedCells(config, c.registerType);
      case LineRegion(index) => assert |config.buses| <= MAX_BUSES by { SharedFacts(config); }
      case MaskRegion(_) =>
    }
  }

  /** Everything but metadata of points that are not published is counted when a block is
      sized: it is always among the registers of which the map tells. */
  lemma PublishedInBlock(config: GatewayConfig, region: Region, c: Cell, size: nat)
    requires Accepts(config) && KnownRegisterType(c.registerType) && Known(config, region) && Covers(config, region, c)
    requires Sizes(size, TouchedCells(config, c.registerType))
    requires region.MetadataRegion? ==> region.p.publishToModbus
    ensures InBlock(config, c.registerType, c.address)
  {
    hide Accepts, TouchedCells, Covers, Sizes;
    if region.MetadataRegion? {
      PublishedMetadataInside(config, region.p, c.slave, c.registerType);
    }
    RegionInside(config, region, c, size);
    InsideExactly(TouchedCells(config, c.registerType), size, c.address);
  }

  /** Writes placed in regions inside the block are inside it. */
  lemma PlacedInside(config: GatewayConfig, writes: seq<Write>, regions: seq<Region>, slave: int, t: RegisterType, size: nat)
    requires Accepts(config) && KnownRegisterType(t) && Sizes(size, TouchedCells(config, t)) && Placed(config, writes, regions)
    requires forall r :: r in regions && r.MetadataRegion? ==> MetadataInside(config, r.p, slave, t)
    ensures AllInside(writes, slave, t, size)
  {
    hide Accepts, TouchedCells, Sizes, Covers, Known, MetadataInside, CellsFrom;
    forall i | 0 <= i < |writes| ensures Inside(writes[i], slave, t, size) {
      var w, r := writes[i], regions[i];
      assert Within(config, w, r) && Known(config, r) && r in regions;
      if ToBlock(w, slave, t) && w.words != [] {
        var first, last := Cell(slave, t, w.address), Cell(slave, t, w.address + |w.words| - 1);
        assert first in CellsOf(w) && last in CellsOf(w);
        RegionInside(config, r, first, size);
        RegionInside(config, r, last, size);
      }
    }
  }

  predicate PendingInside(pending: seq<PendingWrite>, slave: int, t: RegisterType, size: nat) {
    forall k :: 0 <= k < |pending| ==> Inside(RestoreWrite(pending[k]), slave, t, size)
  }

  lemma HandlerInside(config: GatewayConfig, floats: Floats, s: State, k: nat, ack: Result<Option<OwenFrame>>,
                      readBacks: seq<Result<OwenFrame>>, slave: int, t: RegisterType, size: nat)
    requires Accepts(config) && KnownRegisterType(t) && Sizes(size, TouchedCells(config, t))
    requires k < |s.store.pending| && PendingInside(s.store.pending, slave, t, size)
    ensures AllInside(HandlerWrites(config, floats, s, k, ack, readBacks), slave, t, size)
  {
    hide Accepts, TouchedCells, Sizes, MetadataInside, WritableAt, WriteOutcome, PublishedWords, Inside, Placed;
    if Publishes(config, floats, s, k, ack, readBacks) {
      hide HandlerWrites;
      var p, regions := HandlerPlaced(config, floats, s, k, ack, readBacks);
      PublishedMetadataInside(config, p, slave, t);
      PlacedInside(config, HandlerWrites(config, floats, s, k, ack, readBacks), regions, slave, t, size);
    }
  }

  /** The server refuses client writes that do not lie inside a block. */
  predicate ClientInside(event: Event, slave: int, t: RegisterType, size: nat) {
    match event
    case ClientRegisters(s, address, words) => Inside(Write(s, HoldingRegister, address, words), slave, t, size)
    case ClientCoils(s, address, bits) => Inside(Write(s, Coil, address, bits), slave, t, size)
    case _ => true
  }

  /** The point whose metadata a step publishes lies inside. */
  ghost predicate TurnInside(config: GatewayConfig, s: State, event: Event, slave: int, t: RegisterType) {
    (event.SkipPoint? || event.PointReply?) && AtPoint(config, s, event.bus) ==>
      MetadataInside(config, CurrentPoint(config, s, event.bus), slave, t)
  }

  lemma StepInside(config: GatewayConfig, floats: Floats, s: State, event: Event, slave: int, t: RegisterType, size: nat)
    requires Accepts(config) && KnownRegisterType(t) && Sizes(size, TouchedCells(config, t))
    requires PendingInside(s.store.pending, slave, t, size) && ClientInside(event, slave, t, size)
    requires TurnInside(config, s, event, slave, t)
    ensures AllInside(StepWrites(config, floats, s, event), slave, t, size)
  {
    hide Accepts, TouchedCells, Sizes, MetadataInside, OutcomeWrites, HandlerWrites, CloseWrites, CurrentPoint, AtPoint,
         MetadataWrites, Classify, PointStateIn, Skipped, Inside, Placed;
    if Enabled(config, s, event) {
      match event {
        case DeviceEnd(bus) =>
          var regions := ClosePlaced(config, floats, s, bus);
          PlacedInside(config, CloseWrites(config, floats, s, bus), regions, slave, t, size);
        case HandlerEnd(k, ack, readBacks) => HandlerInside(config, floats, s, k, ack, readBacks, slave, t, size);
        case ClientRegisters(_, _, _) =>
        case ClientCoils(_, _, _) =>
        case ExchangeStart(_) =>
        case _ =>
          var regions := PointTurnPlaced(config, floats, s, event);
          PlacedInside(config, StepWrites(config, floats, s, event), regions, slave, t, size);
      }
    }
  }

  lemma StepPendingInside(config: GatewayConfig, floats: Floats, s: State, event: Event, slave: int, t: RegisterType, size: nat)
    requires PendingInside(s.store.pending, slave, t, size) && ClientInside(event, slave, t, size)
    ensures PendingInside(Step(config, floats, s, event).store.pending, slave, t, size)
  {
    hide ApplyOutcome, Classify, CloseDevice, EndHandler, CurrentPoint, MetadataWrites, PublishAll, Assigned,
         PointStateIn, Skipped;
    if Enabled(config, s, event) {
      match event {
        case SkipPoint(bus) =>
          PendingAfterAll(s.store, MetadataWrites(CurrentPoint(config, s, bus), None, CHANNEL_FAILED));
        case PointReply(bus, exchange) =>
          OutcomePending(config, s, bus, Classify(floats, CurrentPoint(config, s, bus), exchange));
        case DeviceEnd(bus) => ClosePending(config, floats, s, bus);
        case HandlerEnd(k, ack, readBacks) => HandlerPending(config, floats, s, k, ack, readBacks);
        case _ =>
      }
    }
  }

  lemma StartInside(config: GatewayConfig, floats: Floats, slave: int, t: RegisterType, size: nat)
    requires Accepts(config) && KnownRegisterType(t) && Sizes(size, TouchedCells(config, t))
    ensures AllInside(StartWrites(config, floats), slave, t, size)
  {
    hide Accepts, TouchedCells, Sizes, StartWrites, AllInside, Placed;
    var regions := StartPlaced(config, floats);
    PlacedInside(config, StartWrites(config, floats), regions, slave, t, size);
  }

  ghost predicate InsideRun(config: GatewayConfig, floats: Floats, events: seq<Event>, slave: int, t: RegisterType, size: nat) {
    forall i :: 0 <= i < |events| ==>
      ClientInside(events[i], slave, t, size) && TurnInside(config, Reached(config, floats, events[..i]), events[i], slave, t)
  }

  /** In every run in which the server only lets client writes into the block, and no turn
      goes to a point whose metadata lies past its end, the block keeps its size. */
  lemma {:induction false} BlockKeepsSize(config: GatewayConfig, floats: Floats, events: seq<Event>, slave: int, t: RegisterType,
                                          size: nat)
    requires Accepts(config) && KnownRegisterType(t) && Sizes(size, TouchedCells(config, t))
    requires InsideRun(config, floats, events, slave, t, size)
    ensures |RunBlock(config, floats, size, events, slave, t)| == size
    ensures PendingInside(Reached(config, floats, events).store.pending, slave, t, size)
    decreases |events|
  {
    hide Accepts, TouchedCells, Sizes, Step, StepWrites, BlockAfterAll, StartWrites, PublishAll, AllInside, ClientInside,
         TurnInside;
    if events == [] {
      StartInside(config, floats, slave, t, size);
      InsideKeepsSize(seq<word>(size, _ => 0), StartWrites(config, floats), slave, t);
      PendingAfterAll(NO_STATE.store, StartWrites(config, floats));
    } else {
      var before, last := events[..|events| - 1], events[|events| - 1];
      var s := Reached(config, floats, before);
      assert InsideRun(config, floats, before, slave, t, size) by {
        forall i | 0 <= i < |before|
          ensures ClientInside(before[i], slave, t, size)
          ensures TurnInside(config, Reached(config, floats, before[..i]), before[i], slave, t)
        {
          assert before[..i] == events[..i] && before[i] == events[i];
        }
      }
      BlockKeepsSize(config, floats, before, slave, t, size);
      StepInside(config, floats, s, last, slave, t, size);
      StepPendingInside(config, floats, s, last, slave, t, size);
      InsideKeepsSize(RunBlock(config, floats, size, before, slave, t), StepWrites(config, floats, s, last), slave, t);
    }
  }
}
