/** What a Modbus client can rely on in every reachable state. */
module Guarantees {
  import opened Core
  import opened Frame
  import opened ParameterHash
  import opened Payload
  import opened Registers
  import opened Config
  import opened RegisterMap
  import opened Health
  import opened Status
  import opened Gateway
  import opened Confirmation
  import opened Layout
  import opened Slots
  import opened CacheAgreement
  import opened Reachable
  import opened StatusHierarchy

  /* ---------- Cached values come from the device ---------- */

  /** A frame that is a reply and means `value` in the point's format. */
  predicate Means(floats: Floats, p: PointConfig, frame: OwenFrame, value: Value) {
    !frame.request && DecodePayload(floats, frame.payload, p.protocolFormat) == Ok(value)
  }

  /** A reply to the point's request that means `value`, for its own parameter. */
  predicate RepliesWith(floats: Floats, p: PointConfig, exchange: Result<OwenFrame>, value: Value) {
    && exchange.Ok? && Means(floats, p, exchange.value, value)
    && exchange.value.payload != [] && HashParameterName(p.parameter) == Ok(exchange.value.parameterHash)
  }

  /** A read-back that means `value`. */
  ghost predicate ReadsBack(floats: Floats, p: PointConfig, readBacks: seq<Result<OwenFrame>>, value: Value) {
    exists j :: 0 <= j < |readBacks| && readBacks[j].Ok? && Means(floats, p, readBacks[j].value, value)
  }

  /** The event brings a value of point `p`: the reply it was asked for, or what it was found
      to be after a write. */
  ghost predicate Brings(config: GatewayConfig, floats: Floats, s: State, event: Event, p: PointConfig, value: Value) {
    Enabled(config, s, event) &&
    match event
    case PointReply(bus, exchange) => CurrentPoint(config, s, bus) == p && RepliesWith(floats, p, exchange, value)
    case HandlerEnd(k, ack, readBacks) =>
      var write := s.store.pending[k];
      && WritableAt(config.points, write.slave, write.address, |write.words|) == Some(p)
      && Taken(floats, p, write.words, ack, readBacks) == Some(value) && ReadsBack(floats, p, readBacks, value)
    case _ => false
  }

  /** The value a classified reply leaves, if it leaves one. */
  lemma StoredByOutcome(config: GatewayConfig, s: State, bus: string, outcome: Outcome)
    requires AtPoint(config, s, bus)
    ensures var name, after := CurrentPoint(config, s, bus).name, ApplyOutcome(config, s, bus, outcome).pointValues;
            match outcome
            case Succeeded(value, _, _) => after == s.pointValues[name := Some(value)]
            case NoData => after == s.pointValues[name := None]
            case NoReply => after == s.pointValues
            case Garbled(_, stored) => after == WithStored(s.pointValues, name, stored)
            case Broken(stored) => after == WithStored(s.pointValues, name, stored)
  {
    hide CurrentPoint, CurrentKey, AtPoint, PublishAll, MetadataWrites, ValueWrites, AfterFailure, AfterSuccess, AfterEmpty,
         WordStatus, PointStateIn, IncCounter, Passed, Failed, PollerIn, DeviceIn, WithStored;
  }

  /** A reply changes only its own point's value: to what it means, or to nothing if it is
      empty. */
  lemma ReplyBrings(config: GatewayConfig, floats: Floats, s: State, bus: string, exchange: Result<OwenFrame>, name: string)
    requires AtPoint(config, s, bus)
    ensures var q := CurrentPoint(config, s, bus);
            var after := ValueIn(ApplyOutcome(config, s, bus, Classify(floats, q, exchange)).pointValues, name);
            || after == ValueIn(s.pointValues, name) || after.None?
            || (q.name == name && RepliesWith(floats, q, exchange, after.value))
  {
    hide CurrentPoint, AtPoint, ApplyOutcome, DecodePayload, PublishedWords, HashParameterName, TimeMark;
    StoredByOutcome(config, s, bus, Classify(floats, CurrentPoint(config, s, bus), exchange));
  }

  /** A handler changes no value, or sets its point's value to the verified one. */
  lemma HandlerValues(config: GatewayConfig, floats: Floats, s: State, k: nat,
                      ack: Result<Option<OwenFrame>>, readBacks: seq<Result<OwenFrame>>)
    requires k < |s.store.pending|
    ensures var write := s.store.pending[k];
            var point := WritableAt(config.points, write.slave, write.address, |write.words|);
            var after := EndHandler(config, floats, s, k, ack, readBacks);
            after.pointValues ==
            if point.Some? && WriteOutcome(floats, point.value, write.words, ack, readBacks).Ok?
            then s.pointValues[point.value.name := Some(WriteOutcome(floats, point.value, write.words, ack, readBacks).value)]
            else s.pointValues
  {
    hide WritableAt, WriteOutcome, AcceptWrite, Restore;
    var write := s.store.pending[k];
    var point := WritableAt(config.points, write.slave, write.address, |write.words|);
    if point.Some? && WriteOutcome(floats, point.value, write.words, ack, readBacks).Ok? {
      AcceptValues(config, floats, s, k, point.value,
        WriteOutcome(floats, point.value, write.words, ack, readBacks).value);
    }
  }

  lemma AcceptValues(config: GatewayConfig, floats: Floats, s: State, k: nat, p: PointConfig, value: Value)
    requires k < |s.store.pending|
    ensures AcceptWrite(config, floats, s, k, p, value).pointValues == s.pointValues[p.name := Some(value)]
  {
    hide PublishAll, Publish, Withdraw, Restore, NextMask, PublishedWords, ValueWrites, MetadataWrites, PointStateIn,
         AfterSuccess;
  }

  lemma OutcomeWasRead(floats: Floats, p: PointConfig, words: seq<word>,
                       ack: Result<Option<OwenFrame>>, readBacks: seq<Result<OwenFrame>>)
    requires WriteOutcome(floats, p, words, ack, readBacks).Ok?
    ensures ReadsBack(floats, p, readBacks, WriteOutcome(floats, p, words, ack, readBacks).value)
  {
    hide DecodePayload, DecodeRegisters, EncodePayload, AckAccepted, Verify;
    var value := DecodeRegisters(floats, words, p.modbusDataType).value;
    var j := VerifiedByARead(floats, p, value, readBacks);
  }

  /** Every step leaves a cached value alone, clears it, or brings it. */
  lemma StepBrings(config: GatewayConfig, floats: Floats, s: State, event: Event, name: string) returns (p: PointConfig)
    requires var after := ValueIn(Step(config, floats, s, event).pointValues, name);
             after.Some? && after != ValueIn(s.pointValues, name)
    ensures p in config.points && p.name == name
    ensures Brings(config, floats, s, event, p, ValueIn(Step(config, floats, s, event).pointValues, name).value)
  {
    hide ApplyOutcome, Classify, EndHandler, PublishAll, Publish, ClientWrite, CoilWrite, NextMask, RecordWrites, CurrentPoint,
         MetadataWrites, WritableAt, WriteOutcome, ReadsBack, RepliesWith, Taken;
    match event {
      case PointReply(bus, exchange) =>
        p := CurrentPoint(config, s, bus);
        CurrentPointKnown(config, s, bus);
        ReplyBrings(config, floats, s, bus, exchange, name);
      case HandlerEnd(k, ack, readBacks) =>
        var write := s.store.pending[k];
        HandlerValues(config, floats, s, k, ack, readBacks);
        p := WritableAt(config.points, write.slave, write.address, |write.words|).value;
        WritableFound(config.points, write.slave, write.address, |write.words|);
        OutcomeWasRead(floats, p, write.words, ack, readBacks);
        OutcomeIsTaken(floats, p, write.words, ack, readBacks);
      case _ =>
    }
  }

  /** In every reachable state a cached value was brought by some event of the run, for a
      point of its name, and has been the cached value ever since. */
  lemma {:induction false} AlwaysDecoded(config: GatewayConfig, floats: Floats, events: seq<Event>, name: string)
    returns (i: nat, p: PointConfig)
    requires ValueIn(Reached(config, floats, events).pointValues, name).Some?
    ensures var value := ValueIn(Reached(config, floats, events).pointValues, name);
            && i < |events| && p in config.points && p.name == name
            && Brings(config, floats, Reached(config, floats, events[..i]), events[i], p, value.value)
            && forall j :: i < j <= |events| ==> ValueIn(Reached(config, floats, events[..j]).pointValues, name) == value
    decreases |events|
  {
    hide Step, StartWrites, PublishAll, Brings, Run;
    assert events != [] by { NothingAtStart(config, floats, events, name); }
    var before, last := events[..|events| - 1], events[|events| - 1];
    var value := ValueIn(Reached(config, floats, events).pointValues, name);
    assert before + [last] == events && events[..|events|] == events;
    ThenEvent(config, floats, before, last);
    if value == ValueIn(Reached(config, floats, before).pointValues, name) {
      i, p := AlwaysDecoded(config, floats, before, name);
      assert before[..i] == events[..i];
      forall j | i < j <= |events| ensures ValueIn(Reached(config, floats, events[..j]).pointValues, name) == value {
        assert j < |events| ==> before[..j] == events[..j];
      }
    } else {
      i := |before|;
      p := StepBrings(config, floats, Reached(config, floats, before), last, name);
    }
  }

  lemma NothingAtStart(config: GatewayConfig, floats: Floats, events: seq<Event>, name: string)
    requires ValueIn(Reached(config, floats, events).pointValues, name).Some?
    ensures events != []
  {
    hide StartWrites, PublishAll, Step;
  }

  lemma BroughtIsDecoded(config: GatewayConfig, floats: Floats, s: State, event: Event, p: PointConfig, value: Value)
    returns (payload: seq<byte>)
    requires Brings(config, floats, s, event, p, value)
    ensures DecodePayload(floats, payload, p.protocolFormat) == Ok(value)
  {
    hide DecodePayload, HashParameterName, WritableAt, CurrentPoint, Taken;
    match event {
      case PointReply(bus, exchange) => payload := exchange.value.payload;
      case HandlerEnd(_, _, readBacks) =>
        var j :| 0 <= j < |readBacks| && readBacks[j].Ok? && Means(floats, p, readBacks[j].value, value);
        payload := readBacks[j].value.payload;
    }
  }

  /* ---------- Cache agreement ---------- */

  function ValueCell(p: PointConfig, i: nat): Cell { Cell(SlaveOf(p), p.registerType, p.modbusAddress + i) }

  /** A register holds the whole word, a coil or discrete input only whether it is zero. */
  function CellContent(t: RegisterType, w: word): word {
    if t in {Coil, DiscreteInput} && w >= 1 then 1 else w
  }

  lemma ContentIsStored(t: RegisterType, w: word)
    ensures Stored(t, w) == CellContent(t, w)
  {}

  /** In every reachable state the registers of a published point hold exactly its cached
      value, if no other point has its name and what the validator leaves unchecked spares
      its registers. Excepted are registers a client's write is in flight on, whose reported
      previous content still is that value, and registers where such a write overlapped a
      publish or another write since the last undisturbed publish. */
  lemma CacheAgreesWithRegisters(config: GatewayConfig, floats: Floats, events: seq<Event>, p: PointConfig)
    requires Accepts(config) && Lawful(floats) && p in config.points && p.publishToModbus
    requires OnlyName(config, p) && ValueSpared(config, p)
    requires AlwaysPublishes(p.protocolFormat, p.modbusDataType)
    requires ValueIn(Reached(config, floats, events).pointValues, p.name).Some?
    ensures var s := Reached(config, floats, events);
            var encoded := EncodeRegisters(floats, ValueIn(s.pointValues, p.name).value, p.modbusDataType);
            && encoded.Ok? && RegisterWidth(p.modbusDataType) == Ok(|encoded.value|)
            && (forall i :: 0 <= i < |encoded.value| ==>
                  !IsPending(s.store.pending, ValueCell(p, i)) && ValueCell(p, i) !in s.store.stale ==>
                  At(s.store, ValueCell(p, i)) == CellContent(p.registerType, encoded.value[i]))
            && (forall i, k :: 0 <= i < |encoded.value| && 0 <= k < |s.store.pending| ==>
                  var write := s.store.pending[k];
                  ValueCell(p, i) in PendingCells(write) && ValueCell(p, i) !in s.store.stale ==>
                  && |write.previous| == |write.words|
                  && write.previous[ValueCell(p, i).address - write.address] == CellContent(p.registerType, encoded.value[i]))
  {
    hide Accepts, Lawful, ValueSpared, OnlyName, Owned, AlwaysPublishes, EncodeRegisters, DecodePayload, Run, Start, Tracked,
         Shows, IsPending, BaseOf;
    var s := Reached(config, floats, events);
    var value := ValueIn(s.pointValues, p.name).value;
    var i, q := AlwaysDecoded(config, floats, events, p.name);
    AlwaysAgreed(config, floats, events);
    OnlyOneNamed(config, p, q);
    var payload := BroughtIsDecoded(config, floats, Reached(config, floats, events[..i]), events[i], p, value);
    DecodedValuesPublish(floats, payload, p.protocolFormat, p.modbusDataType);
    var words := EncodeRegisters(floats, value, p.modbusDataType).value;
    var w := Write(SlaveOf(p), p.registerType, p.modbusAddress, words);
    ValueIsOwnedExactly(config, p);
    assert ShownSlot(config, floats, s, ValueSlot(p));
    assert w in SlotWrites(config, floats, s, ValueSlot(p));
    forall i | 0 <= i < |words| ensures Stored(p.registerType, words[i]) == CellContent(p.registerType, words[i]) {
      ContentIsStored(p.registerType, words[i]);
    }
    forall i | 0 <= i < |words| && !IsPending(s.store.pending, ValueCell(p, i)) && ValueCell(p, i) !in s.store.stale
      ensures At(s.store, ValueCell(p, i)) == Stored(p.registerType, words[i])
    {
      ShownCellsHold(s.store, w, ValueCell(p, i));
    }
    forall i, k | 0 <= i < |words| && 0 <= k < |s.store.pending| &&
                  ValueCell(p, i) in PendingCells(s.store.pending[k]) && ValueCell(p, i) !in s.store.stale
      ensures |s.store.pending[k].previous| == |s.store.pending[k].words|
      ensures s.store.pending[k].previous[ValueCell(p, i).address - s.store.pending[k].address] ==
              Stored(p.registerType, words[i])
    {
      PendingPreviousHolds(s.store, w, ValueCell(p, i), k);
    }
  }

  ghost predicate Settled(store: Store, p: PointConfig, width: nat) {
    forall i :: 0 <= i < width ==> !IsPending(store.pending, ValueCell(p, i)) && ValueCell(p, i) !in store.stale
  }

  function CellsOfValue(store: Store, p: PointConfig, width: nat): (words: seq<word>)
    ensures |words| == width && forall i :: 0 <= i < width ==> words[i] == At(store, ValueCell(p, i))
  {
    seq(width, i requires 0 <= i < width => At(store, ValueCell(p, i)))
  }

  /** So a client that reads these registers and puts the number together reads the cached
      value: an integer in an integer type, a value read from a single in a single, and of
      any value whether it is zero. */
  lemma ClientsReadTheCachedValue(config: GatewayConfig, floats: Floats, events: seq<Event>, p: PointConfig)
    requires Accepts(config) && Lawful(floats) && p in config.points && p.publishToModbus
    requires p.registerType in {HoldingRegister, InputRegister} && OnlyName(config, p) && ValueSpared(config, p)
    requires AlwaysPublishes(p.protocolFormat, p.modbusDataType)
    requires ValueIn(Reached(config, floats, events).pointValues, p.name).Some?
    requires RegisterWidth(p.modbusDataType).Ok?
    requires Settled(Reached(config, floats, events).store, p, RegisterWidth(p.modbusDataType).value)
    ensures var s := Reached(config, floats, events);
            var value := ValueIn(s.pointValues, p.name).value;
            var read := NumberIn(floats, CellsOfValue(s.store, p, RegisterWidth(p.modbusDataType).value), p.modbusDataType);
            && (value.Int? && !p.modbusDataType.BoolType? && !p.modbusDataType.Float32Type? ==> read == Some(value))
            && (p.protocolFormat.Float32Format? && p.modbusDataType.Float32Type? ==> read == Some(value))
            && (p.modbusDataType.BoolType? ==>
                  read == Some(Int(if value in {Int(0), Float(0.0), Bytes([])} then 0 else 1)))
  {
    hide Accepts, ValueSpared, OnlyName, AlwaysPublishes, EncodeRegisters, DecodeRegisters, DecodePayload, NumberIn, Run, Start,
         Tracked, Shows, IsPending, RegisterWidth, Lawful;
    var s := Reached(config, floats, events);
    var value, t := ValueIn(s.pointValues, p.name).value, p.modbusDataType;
    CacheAgreesWithRegisters(config, floats, events, p);
    var words, cells := EncodeRegisters(floats, value, t).value, CellsOfValue(s.store, p, RegisterWidth(t).value);
    assert cells == words;
    RegistersSayTheirNumber(floats, words, t);
    TruthRoundTrip(floats, value);
    if value.Int? && !t.BoolType? && !t.Float32Type? {
      assert t.Uint16Type? || t.Int16Type? || t.Uint32Type? || t.Int32Type? by { IntegerTypes(floats, value, t); }
      RegistersRoundTrip(floats, value.n, t);
    } else if p.protocolFormat.Float32Format? && t.Float32Type? {
      var i, q := AlwaysDecoded(config, floats, events, p.name);
      OnlyOneNamed(config, p, q);
      var payload := BroughtIsDecoded(config, floats, Reached(config, floats, events[..i]), events[i], p, value);
      SinglesRoundTrip(floats, payload);
    }
  }

  lemma IntegerTypes(floats: Floats, value: Value, t: DataType)
    requires EncodeRegisters(floats, value, t).Ok? && !t.BoolType? && !t.Float32Type?
    ensures t.Uint16Type? || t.Int16Type? || t.Uint32Type? || t.Int32Type?
  {}

  /** While one write is in flight on a cell, its previous content is what is shown. */
  lemma PendingPreviousHolds(store: Store, w: Write, c: Cell, k: nat)
    requires Tracked(store) && Shows(store, w) && c in CellsOf(w) && k < |store.pending|
    requires c in PendingCells(store.pending[k]) && c !in store.stale
    ensures |store.pending[k].previous| == |store.pending[k].words|
    ensures store.pending[k].previous[c.address - store.pending[k].address] ==
            Stored(w.registerType, w.words[c.address - w.address])
  {
    BaseWithoutWrite(store.pending, k, c, At(store, c));
    forall j | 0 <= j < |store.pending| && j != k ensures c !in PendingCells(store.pending[j]) {
      assert j < k || k < j;
    }
    assert OnlyCover(store.pending, k, c);
  }

  /* ---------- Published statuses and masks ---------- */

  /** The registers from `address` hold `words`, wherever no write is or was in the way. */
  ghost predicate Holds(store: Store, w: Write) {
    forall i :: 0 <= i < |w.words| ==>
      var c := Cell(w.slave, w.registerType, w.address + i);
      !IsPending(store.pending, c) && c !in store.stale ==> At(store, c) == Stored(w.registerType, w.words[i])
  }

  lemma ShownIsHeld(store: Store, w: Write)
    requires Tracked(store) && Shows(store, w)
    ensures Holds(store, w)
  {
    hide Tracked, Shows, IsPending;
    forall i | 0 <= i < |w.words| && !IsPending(store.pending, Cell(w.slave, w.registerType, w.address + i)) &&
               Cell(w.slave, w.registerType, w.address + i) !in store.stale
      ensures At(store, Cell(w.slave, w.registerType, w.address + i)) == Stored(w.registerType, w.words[i])
    {
      ShownCellsHold(store, w, Cell(w.slave, w.registerType, w.address + i));
    }
  }

  /** The status registers of a slave hold a status. */
  ghost predicate HoldsStatus(config: GatewayConfig, floats: Floats, store: Store, slave: int, status: nat) {
    var words := EncodeRegisters(floats, Int(status), config.status.dataType);
    words.Ok? && Holds(store, Write(slave, config.status.registerType, config.status.address, words.value))
  }

  /** The four statuses have registers exactly in the types that have registers at all. */
  lemma StatusesEncode(floats: Floats, status: nat, t: DataType)
    requires Lawful(floats) && status <= 4
    ensures EncodeRegisters(floats, Int(status), t).Ok? <==> HasRegisters(t)
  {}

  lemma StatusIsHeld(config: GatewayConfig, floats: Floats, s: State, slot: Slot, slave: int, status: nat)
    requires Lawful(floats) && config.status.enabled && HasRegisters(config.status.dataType) && status <= 4
    requires Agreed(config, floats, s) && Owned(config, slot)
    requires SlotWrites(config, floats, s, slot) == StatusWrites(config, floats, slave, status)
    ensures HoldsStatus(config, floats, s.store, slave, status)
  {
    hide Lawful, Agreed, Owned, SlotWrites, Holds, EncodeRegisters;
    StatusesEncode(floats, status, config.status.dataType);
    var words := EncodeRegisters(floats, Int(status), config.status.dataType).value;
    SlotIsHeld(config, floats, s, slot, Write(slave, config.status.registerType, config.status.address, words));
  }

  /* Each of these in every reachable state, for registers that are the slot's own. */

  /** A line register holds the aggregate of the line's device statuses. */
  lemma LineIsShown(config: GatewayConfig, floats: Floats, events: seq<Event>, i: nat)
    requires Accepts(config) && Lawful(floats) && Owned(config, LineSlot(i))
    ensures var s := Reached(config, floats, events);
            i < |config.buses| &&
            Holds(s.store, Write(1, HoldingRegister, 10 + i,
                                 [AggregateStatus(DeviceStatusesOn(config, s, config.buses[i].name))]))
  {
    hide Accepts, Lawful, Reached, Agreed, Holds, AggregateStatus, Private;
    AlwaysAgreed(config, floats, events);
    LinesAlwaysAggregate(config, floats, events);
    var s := Reached(config, floats, events);
    SlotIsHeld(config, floats, s, LineSlot(i), LineWrite(s.busStatuses, config.buses, i));
  }

  /** The gateway's status registers hold the aggregate of the lines' statuses. */
  lemma GatewayIsShown(config: GatewayConfig, floats: Floats, events: seq<Event>)
    requires Accepts(config) && Lawful(floats) && Owned(config, GatewaySlot)
    requires config.status.enabled && HasRegisters(config.status.dataType)
    ensures var s := Reached(config, floats, events);
            HoldsStatus(config, floats, s.store, 1, AggregateStatus(Aggregates(DeviceGroups(config, s))))
  {
    hide Accepts, Lawful, Reached, Agreed, HoldsStatus, StatusWrites, AggregateStatus, Owned;
    AlwaysAgreed(config, floats, events);
    LinesAlwaysAggregate(config, floats, events);
    var s := Reached(config, floats, events);
    assert LineStatuses(s.busStatuses, config.buses) == Aggregates(DeviceGroups(config, s));
    StatusIsHeld(config, floats, s, GatewaySlot, SERVICE_SLAVE_ID, AggregateStatus(Aggregates(DeviceGroups(config, s))));
  }

  /** A device's status registers hold its own status. */
  lemma DeviceIsShown(config: GatewayConfig, floats: Floats, events: seq<Event>, key: SlaveKey)
    requires Accepts(config) && Lawful(floats) && Owned(config, DeviceSlot(key))
    requires config.status.enabled && HasRegisters(config.status.dataType)
    ensures var s := Reached(config, floats, events);
            HoldsStatus(config, floats, s.store, key.1, DeviceIn(s.deviceStates, key).status)
  {
    hide Accepts, Lawful, Reached, Agreed, HoldsStatus, StatusWrites, Owned;
    AlwaysAgreed(config, floats, events);
    RecordsAlwaysInRange(config, floats, events);
    var s := Reached(config, floats, events);
    StatusIsHeld(config, floats, s, DeviceSlot(key), key.1, DeviceIn(s.deviceStates, key).status);
  }

  /** Register 48 of a device holds its logic mask. */
  lemma MaskIsShown(config: GatewayConfig, floats: Floats, events: seq<Event>, key: SlaveKey)
    requires Accepts(config) && Lawful(floats) && Owned(config, MaskSlot(key))
    ensures var s := Reached(config, floats, events);
            LogicMaskIn(s.logicMasks, key) < 0x100
            && Holds(s.store, Write(key.1, HoldingRegister, 48, [LogicMaskIn(s.logicMasks, key)]))
  {
    hide Accepts, Lawful, Reached, Agreed, Holds, Owned;
    AlwaysAgreed(config, floats, events);
    RecordsAlwaysInRange(config, floats, events);
    var s := Reached(config, floats, events);
    SlotIsHeld(config, floats, s, MaskSlot(key), MaskWrite(key.1, LogicMaskIn(s.logicMasks, key)));
  }

  /** In an acceptable layout all of them at once. */
  lemma StatusesAreShown(config: GatewayConfig, floats: Floats, events: seq<Event>)
    requires LayoutOk(config) && Lawful(floats)
    ensures var s := Reached(config, floats, events);
            var lines := Aggregates(DeviceGroups(config, s));
            && (forall i :: 0 <= i < |config.buses| ==>
                  Holds(s.store, Write(1, HoldingRegister, 10 + i, [lines[i]])))
            && (config.status.enabled ==> HoldsStatus(config, floats, s.store, 1, AggregateStatus(lines)))
            && (forall key :: key in SlaveKeys(config.points) ==>
                  && (config.status.enabled ==> HoldsStatus(config, floats, s.store, key.1, DeviceIn(s.deviceStates, key).status))
                  && LogicMaskIn(s.logicMasks, key) < 0x100
                  && Holds(s.store, Write(key.1, HoldingRegister, 48, [LogicMaskIn(s.logicMasks, key)])))
  {
    hide Lawful, Reached, Holds, HoldsStatus, AggregateStatus, SlaveKeys, Owned, Accepts, LaidOut,
         DistinctNames;
    var s := Reached(config, floats, events);
    forall i | 0 <= i < |config.buses|
      ensures Holds(s.store, Write(1, HoldingRegister, 10 + i, [Aggregates(DeviceGroups(config, s))[i]]))
    {
      LayoutOwnsEverySlot(config, LineSlot(i));
      LineIsShown(config, floats, events, i);
    }
    if config.status.enabled {
      LayoutOwnsEverySlot(config, GatewaySlot);
      GatewayIsShown(config, floats, events);
    }
    forall key | key in SlaveKeys(config.points)
      ensures config.status.enabled ==> HoldsStatus(config, floats, s.store, key.1, DeviceIn(s.deviceStates, key).status)
      ensures LogicMaskIn(s.logicMasks, key) < 0x100
              && Holds(s.store, Write(key.1, HoldingRegister, 48, [LogicMaskIn(s.logicMasks, key)]))
    {
      LayoutOwnsEverySlot(config, MaskSlot(key));
      MaskIsShown(config, floats, events, key);
      if config.status.enabled {
        LayoutOwnsEverySlot(config, DeviceSlot(key));
        DeviceIsShown(config, floats, events, key);
      }
    }
  }

  lemma SlotIsHeld(config: GatewayConfig, floats: Floats, s: State, slot: Slot, w: Write)
    requires Agreed(config, floats, s) && Owned(config, slot) && w in SlotWrites(config, floats, s, slot)
    ensures Holds(s.store, w)
  {
    hide Tracked, Shows, Holds, Owned, SlotWrites;
    assert ShownSlot(config, floats, s, slot);
    ShownIsHeld(s.store, w);
  }
}
