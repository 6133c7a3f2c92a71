/** Cached values are kept by name as well: exactly when a reply of one point can part another
    point's registers from its cached value. */
module SharedValues {
  import opened Core
  import opened Frame
  import opened ParameterHash
  import opened Payload
  import opened Registers
  import opened Config
  import opened RegisterMap
  import opened Health
  import opened Status
  import opened Gateway
  import opened Layout
  import opened Slots
  import opened CacheAgreement
  import opened HealthRuns
  import opened Steps
  import opened Blocks
  import opened SharedNames
  import opened Guarantees

  /** The value cached under a point's name has registers, and the point's registers hold them. */
  ghost predicate AgreesNow(floats: Floats, s: State, p: PointConfig) {
    var value := ValueIn(s.pointValues, p.name);
    value.Some? ==>
      var words := EncodeRegisters(floats, value.value, p.modbusDataType);
      words.Ok? && forall i :: 0 <= i < |words.value| ==> At(s.store, ValueCell(p, i)) == Stored(p.registerType, words.value[i])
  }

  /* ---------- Another point's reply leaves the registers alone ---------- */

  lemma PlacedOff(config: GatewayConfig, writes: seq<Write>, regions: seq<Region>, own: Region, c: Cell)
    requires Placed(config, writes, regions) && Private(config, own) && own !in regions && Covers(config, own, c)
    ensures forall i :: 0 <= i < |writes| ==> c !in CellsOf(writes[i])
  {
    hide Covers, Known, CellsFrom;
    forall i | 0 <= i < |writes| ensures c !in CellsOf(writes[i]) {
      assert Within(config, writes[i], regions[i]) && Known(config, regions[i]) && regions[i] in regions;
    }
  }

  lemma ReplyElsewhere(config: GatewayConfig, floats: Floats, s: State, bus: string, exchange: Result<OwenFrame>,
                       p: PointConfig, c: Cell)
    requires Accepts(config) && p in config.points && p.publishToModbus && ValueSpared(config, p)
    requires AtPoint(config, s, bus) && CurrentPoint(config, s, bus) != p && Covers(config, ValueRegion(p), c)
    ensures At(ApplyOutcome(config, s, bus, Classify(floats, CurrentPoint(config, s, bus), exchange)).store, c) ==
            At(s.store, c)
  {
    hide Accepts, ValueSpared, CurrentPoint, AtPoint, ApplyOutcome, OutcomeWrites, Placed, Private, Covers, AssignAll, Classify;
    var q := CurrentPoint(config, s, bus);
    ValueIsPrivateExactly(config, p);
    var regions := OutcomePlaced(config, floats, s, bus, exchange);
    PlacedOff(config, OutcomeWrites(config, s, bus, Classify(floats, q, exchange)), regions, ValueRegion(p), c);
    OutcomePublishes(config, s, bus, Classify(floats, q, exchange));
    PublishesAssign(s.store, OutcomeWrites(config, s, bus, Classify(floats, q, exchange)));
    AssignedOff(s.store.registers, OutcomeWrites(config, s, bus, Classify(floats, q, exchange)), c);
  }

  /* ---------- What a reply stores ---------- */

  lemma StoredByReply(config: GatewayConfig, floats: Floats, s: State, bus: string, exchange: Result<OwenFrame>)
    requires AtPoint(config, s, bus)
    ensures var q := CurrentPoint(config, s, bus);
            var after := ApplyOutcome(config, s, bus, Classify(floats, q, exchange));
            && (forall name :: name != q.name ==> ValueIn(after.pointValues, name) == ValueIn(s.pointValues, name))
            && ValueIn(after.pointValues, q.name) ==
               if exchange.Err? || exchange.value.request || HashParameterName(q.parameter) != Ok(exchange.value.parameterHash)
               then ValueIn(s.pointValues, q.name)
               else if exchange.value.payload == [] then None
               else
                 match DecodePayload(floats, exchange.value.payload, q.protocolFormat)
                 case Ok(value) => Some(value)
                 case Err(_) => ValueIn(s.pointValues, q.name)
  {
    hide CurrentPoint, AtPoint, ApplyOutcome, DecodePayload, PublishedWords, HashParameterName, TimeMark;
    StoredByOutcome(config, s, bus, Classify(floats, CurrentPoint(config, s, bus), exchange));
  }

  /** A reply that means `bit`, zero or one, in every format but `raw`. */
  function BitPayload(format: ProtocolFormat, bit: nat): (payload: seq<byte>)
    requires bit < 2
  {
    match format
    case Uint32Format => [0, 0, 0, bit]
    case Float32Format => if bit == 0 then [0, 0, 0, 0] else [0x3F, 0x80, 0, 0]
    case _ => [bit]
  }

  lemma BitDecodes(floats: Floats, format: ProtocolFormat, bit: nat)
    requires SinglesOk(floats) && bit < 2 && KnownFormat(format) && !format.RawFormat?
    ensures DecodePayload(floats, BitPayload(format, bit), format) in {Ok(Int(bit)), Ok(Float(bit as real))}
  {
    match format {
      case Float32Format =>
        assert WordAt([0x3F, 0x80, 0, 0], 0) == 0x3F80;
      case StoredDotFormat =>
        ScaledUnit(bit);
        assert ReadStoredDot([bit]) == Ok(Decimal(false, bit, 0));
      case _ =>
    }
  }

  /** The registers of zero and of one, in every type. */
  function BitWords(t: DataType, bit: nat): seq<word>
    requires bit < 2 && HasRegisters(t)
  {
    match t
    case Uint32Type | Int32Type => [0, bit]
    case Float32Type => [if bit == 0 then 0 else 0x3F80, 0]
    case _ => [bit]
  }

  lemma BitEncodes(floats: Floats, value: Value, t: DataType, bit: nat)
    requires SinglesOk(floats) && bit < 2 && HasRegisters(t) && value in {Int(bit), Float(bit as real)}
    ensures EncodeRegisters(floats, value, t) == Ok(BitWords(t, bit))
  {
    assert Truncate(bit as real) == bit;
  }

  /** No register contents agree with both. */
  lemma NotBothBits(store: Store, p: PointConfig)
    requires HasRegisters(p.modbusDataType)
    ensures exists bit: nat, i: nat :: bit < 2 && i < |BitWords(p.modbusDataType, bit)| &&
              At(store, ValueCell(p, i)) != Stored(p.registerType, BitWords(p.modbusDataType, bit)[i])
  {
    var i: nat := if p.modbusDataType.Uint32Type? || p.modbusDataType.Int32Type? then 1 else 0;
    var here := At(store, ValueCell(p, i));
    var zero, one := BitWords(p.modbusDataType, 0), BitWords(p.modbusDataType, 1);
    assert Stored(p.registerType, zero[i]) != Stored(p.registerType, one[i]);
    var bit: nat := if here != Stored(p.registerType, zero[i]) then 0 else 1;
    assert bit < 2 && i < |BitWords(p.modbusDataType, bit)| && here != Stored(p.registerType, BitWords(p.modbusDataType, bit)[i]);
  }

  function ReplyOf(q: PointConfig, payload: seq<byte>): Result<OwenFrame>
    requires HashParameterName(q.parameter).Ok?
  {
    Ok(OwenFrame(0, false, HashParameterName(q.parameter).value, payload))
  }

  /** A `raw` reply is a byte string, which only the bool type has registers for: a one. */
  predicate AlwaysOne(s: State, p: PointConfig, q: PointConfig) {
    q.protocolFormat.RawFormat? && p.modbusDataType.BoolType? && At(s.store, ValueCell(p, 0)) == 1
  }

  lemma TwinPartsThem(config: GatewayConfig, floats: Floats, s: State, bus: string, p: PointConfig)
    returns (exchange: Result<OwenFrame>)
    requires Accepts(config) && SinglesOk(floats) && p in config.points && p.publishToModbus && ValueSpared(config, p)
    requires AtPoint(config, s, bus) && CurrentPoint(config, s, bus) != p && CurrentPoint(config, s, bus).name == p.name
    requires CanBeAsked(config, CurrentPoint(config, s, bus)) && !AlwaysOne(s, p, CurrentPoint(config, s, bus))
    ensures !AgreesNow(floats, ApplyOutcome(config, s, bus, Classify(floats, CurrentPoint(config, s, bus), exchange)), p)
  {
    hide Accepts, ValueSpared, CurrentPoint, AtPoint, ApplyOutcome, Classify, HashParameterName, DecodePayload, EncodeRegisters,
         Stored, CanBeAsked, BitWords, BitPayload, HasRegisters;
    var q := CurrentPoint(config, s, bus);
    AskedHasHash(config, q);
    CurrentPointKnown(config, s, bus);
    assert KnownFormat(q.protocolFormat) && HasRegisters(p.modbusDataType) by { FormatsKnown(config, p, q); }
    if q.protocolFormat.RawFormat? {
      exchange := ReplyOf(q, [0]);
      StoredByReply(config, floats, s, bus, exchange);
      RawHasNoNumber(floats, q.protocolFormat, p.modbusDataType);
      if p.modbusDataType.BoolType? {
        assert |BitWords(p.modbusDataType, 1)| == 1 by { BoolWords(p.modbusDataType); }
        BitCellCovered(config, p, 1, 0);
        ReplyElsewhere(config, floats, s, bus, exchange, p, ValueCell(p, 0));
        assert Stored(p.registerType, 1) == 1 by { OneIsStored(p.registerType); }
      }
    } else {
      NotBothBits(s.store, p);
      var bit: nat, i: nat :| bit < 2 && i < |BitWords(p.modbusDataType, bit)| &&
        At(s.store, ValueCell(p, i)) != Stored(p.registerType, BitWords(p.modbusDataType, bit)[i]);
      exchange := ReplyOf(q, BitPayload(q.protocolFormat, bit));
      assert BitPayload(q.protocolFormat, bit) != [] by { SomePayload(q.protocolFormat, bit); }
      BitDecodes(floats, q.protocolFormat, bit);
      StoredByReply(config, floats, s, bus, exchange);
      var value := DecodePayload(floats, BitPayload(q.protocolFormat, bit), q.protocolFormat).value;
      BitEncodes(floats, value, p.modbusDataType, bit);
      BitCellCovered(config, p, bit, i);
      ReplyElsewhere(config, floats, s, bus, exchange, p, ValueCell(p, i));
    }
  }

  lemma FormatsKnown(config: GatewayConfig, p: PointConfig, q: PointConfig)
    requires Accepts(config) && p in config.points && q in config.points && p.publishToModbus
    ensures KnownFormat(q.protocolFormat) && HasRegisters(p.modbusDataType)
  {
    var i :| 0 <= i < |config.points| && config.points[i] == p;
    var j :| 0 <= j < |config.points| && config.points[j] == q;
    assert MappingOk(config, config.points[i]) && PointFieldsOk(BusNames(config.buses), config.points[j]);
  }

  lemma BitCellCovered(config: GatewayConfig, p: PointConfig, bit: nat, i: nat)
    requires p.publishToModbus && HasRegisters(p.modbusDataType) && bit < 2 && i < |BitWords(p.modbusDataType, bit)|
    ensures Covers(config, ValueRegion(p), ValueCell(p, i))
  {}

  lemma BoolWords(t: DataType)
    requires t.BoolType?
    ensures BitWords(t, 1) == [1]
  {}

  lemma OneIsStored(t: RegisterType)
    ensures Stored(t, 1) == 1
  {}

  lemma SomePayload(format: ProtocolFormat, bit: nat)
    requires bit < 2
    ensures BitPayload(format, bit) != []
  {}

  lemma RawHasNoNumber(floats: Floats, format: ProtocolFormat, t: DataType)
    requires format.RawFormat?
    ensures DecodePayload(floats, [0], format) == Ok(Bytes([0]))
    ensures t.BoolType? ==> EncodeRegisters(floats, Bytes([0]), t) == Ok([1])
    ensures !t.BoolType? ==> EncodeRegisters(floats, Bytes([0]), t).Err?
  {}

  lemma OtherNamesAgree(config: GatewayConfig, floats: Floats, s: State, bus: string, p: PointConfig, exchange: Result<OwenFrame>)
    requires Accepts(config) && p in config.points && p.publishToModbus && ValueSpared(config, p) && AgreesNow(floats, s, p)
    requires AtPoint(config, s, bus) && CurrentPoint(config, s, bus) != p
    requires var q := CurrentPoint(config, s, bus);
             q.name != p.name || (!CanBeAsked(config, q) && CanEndIn(config, q, exchange)) || AlwaysOne(s, p, q)
    ensures AgreesNow(floats, ApplyOutcome(config, s, bus, Classify(floats, CurrentPoint(config, s, bus), exchange)), p)
  {
    hide Accepts, ValueSpared, CurrentPoint, AtPoint, ApplyOutcome, Classify, HashParameterName, DecodePayload,
         CanBeAsked, EncodeRegisters, Stored;
    var q := CurrentPoint(config, s, bus);
    var after := ApplyOutcome(config, s, bus, Classify(floats, q, exchange));
    StoredByReply(config, floats, s, bus, exchange);
    var value := ValueIn(after.pointValues, p.name);
    if value.Some? {
      if value != ValueIn(s.pointValues, p.name) {
        RawIsOne(floats, q, exchange, p);
      }
      var words := EncodeRegisters(floats, value.value, p.modbusDataType);
      forall i | 0 <= i < |words.value|
        ensures At(after.store, ValueCell(p, i)) == At(s.store, ValueCell(p, i))
      {
        assert Covers(config, ValueRegion(p), ValueCell(p, i)) by { ValueCellCovered(config, floats, p, value.value, i); }
        ReplyElsewhere(config, floats, s, bus, exchange, p, ValueCell(p, i));
      }
    }
  }

  lemma RawIsOne(floats: Floats, q: PointConfig, exchange: Result<OwenFrame>, p: PointConfig)
    requires q.protocolFormat.RawFormat? && p.modbusDataType.BoolType? && exchange.Ok? && exchange.value.payload != []
    ensures DecodePayload(floats, exchange.value.payload, q.protocolFormat).Ok?
    ensures EncodeRegisters(floats, DecodePayload(floats, exchange.value.payload, q.protocolFormat).value, p.modbusDataType) ==
            Ok([1])
    ensures Stored(p.registerType, 1) == 1
  {}

  lemma ValueCellCovered(config: GatewayConfig, floats: Floats, p: PointConfig, value: Value, i: nat)
    requires p.publishToModbus && EncodeRegisters(floats, value, p.modbusDataType).Ok?
    requires i < |EncodeRegisters(floats, value, p.modbusDataType).value|
    ensures Covers(config, ValueRegion(p), ValueCell(p, i))
  {}

  /** A point whose registers agree with its cached value keeps agreeing through every reply of
      another point exactly if that one has another name or cannot be asked. (A `raw` twin
      of a bool point that is on cannot part them either.) */
  lemma SharedNameDecides(config: GatewayConfig, floats: Floats, s: State, bus: string, p: PointConfig)
    requires Accepts(config) && SinglesOk(floats) && p in config.points && p.publishToModbus && ValueSpared(config, p)
    requires AgreesNow(floats, s, p) && AtPoint(config, s, bus) && CurrentPoint(config, s, bus) != p
    ensures var q := CurrentPoint(config, s, bus);
            (forall exchange :: CanEndIn(config, q, exchange) ==>
               AgreesNow(floats, ApplyOutcome(config, s, bus, Classify(floats, q, exchange)), p)) <==>
            q.name != p.name || !CanBeAsked(config, q) || AlwaysOne(s, p, q)
  {
    hide Accepts, ValueSpared, CurrentPoint, AtPoint, ApplyOutcome, Classify, CanBeAsked, AgreesNow;
    var q := CurrentPoint(config, s, bus);
    if q.name != p.name || !CanBeAsked(config, q) || AlwaysOne(s, p, q) {
      forall exchange | CanEndIn(config, q, exchange)
        ensures AgreesNow(floats, ApplyOutcome(config, s, bus, Classify(floats, q, exchange)), p)
      {
        OtherNamesAgree(config, floats, s, bus, p, exchange);
      }
    } else {
      var exchange := TwinPartsThem(config, floats, s, bus, p);
      assert CanEndIn(config, q, exchange);
    }
  }

  /* ---------- In whole runs ---------- */

  /** The same, of the registers no client's write is or was in the way of. */
  ghost predicate AgreesWhereUndisturbed(floats: Floats, s: State, p: PointConfig) {
    var value := ValueIn(s.pointValues, p.name);
    value.Some? ==>
      var words := EncodeRegisters(floats, value.value, p.modbusDataType);
      words.Ok? && forall i :: 0 <= i < |words.value| ==>
        !IsPending(s.store.pending, ValueCell(p, i)) && ValueCell(p, i) !in s.store.stale ==>
        At(s.store, ValueCell(p, i)) == Stored(p.registerType, words.value[i])
  }

  ghost predicate AllAskable(config: GatewayConfig) { forall q :: q in config.points ==> CanBeAsked(config, q) }

  /** Nobody wrote, nothing was published to the point's value registers, no point is passed
      over. */
  ghost predicate Calm(config: GatewayConfig, s: State, p: PointConfig) {
    && Quiet(s.store)
    && (forall c :: Covers(config, ValueRegion(p), c) ==> At(s.store, c) == 0)
    && (forall name :: !Skipped(PointStateIn(s.pointStates, name)))
  }

  ghost predicate CalmRun(config: GatewayConfig, floats: Floats, events: seq<Event>, p: PointConfig) {
    Realistic(config, floats, events) && Calm(config, Reached(config, floats, events), p)
  }

  /** Writes to other regions leave the point's value registers zero. */
  lemma StillZero(config: GatewayConfig, before: Store, after: Store, writes: seq<Write>, regions: seq<Region>, p: PointConfig)
    requires Accepts(config) && p in config.points && p.publishToModbus && ValueSpared(config, p)
    requires Placed(config, writes, regions) && ValueRegion(p) !in regions
    requires after.registers == AssignAll(before.registers, writes)
    requires forall c :: Covers(config, ValueRegion(p), c) ==> At(before, c) == 0
    ensures forall c :: Covers(config, ValueRegion(p), c) ==> At(after, c) == 0
  {
    hide Accepts, ValueSpared, Placed, Private, Covers, AssignAll;
    ValueIsPrivateExactly(config, p);
    forall c | Covers(config, ValueRegion(p), c) ensures At(after, c) == 0 {
      assert At(before, c) == 0;
      PlacedOff(config, writes, regions, ValueRegion(p), c);
      AssignedOff(before.registers, writes, c);
    }
  }

  lemma EmptyReplyStaysCalm(config: GatewayConfig, floats: Floats, s: State, bus: string, p: PointConfig)
    requires Accepts(config) && p in config.points && p.publishToModbus && ValueSpared(config, p) && Calm(config, s, p)
    requires AtPoint(config, s, bus) && PollerIn(s.pollers, bus).waiting
    requires HashParameterName(CurrentPoint(config, s, bus).parameter).Ok?
    ensures var before := PollerIn(s.pollers, bus);
            var after := Step(config, floats, s, PointReply(bus, EmptyReply(CurrentPoint(config, s, bus))));
            && OthersStay(s, after, bus) && StandsAt(after, bus, before.device, before.point + 1) && Ready(config, after, bus)
            && Calm(config, after, p)
  {
    hide Accepts, ValueSpared, PublishAll, MetadataWrites, PointsOf, DevicesOn, HashParameterName, AssignAll, Placed, Covers,
         SlaveKeys;
    var q := CurrentPoint(config, s, bus);
    var after := Step(config, floats, s, PointReply(bus, EmptyReply(q)));
    var writes := MetadataWrites(q, None, CHANNEL_DISABLED);
    CurrentPointKnown(config, s, bus);
    assert after.store == PublishAll(s.store, writes);
    MetadataPlaced(config, q, None, CHANNEL_DISABLED);
    PublishesAssign(s.store, writes);
    QuietAfterAll(s.store, writes);
    StillZero(config, s.store, after.store, writes, Repeat(MetadataRegion(q), |writes|), p);
    assert forall name :: PointStateIn(after.pointStates, name).recoverySkipCycles ==
                          PointStateIn(s.pointStates, name).recoverySkipCycles;
  }

  lemma CloseStaysCalm(config: GatewayConfig, floats: Floats, s: State, bus: string, p: PointConfig)
    requires Accepts(config) && p in config.points && p.publishToModbus && ValueSpared(config, p) && Calm(config, s, p)
    requires AtDeviceEnd(config, s, bus)
    ensures Calm(config, Step(config, floats, s, DeviceEnd(bus)), p)
  {
    hide Accepts, ValueSpared, PublishAll, PointsOf, DevicesOn, AssignAll, Placed, Covers, CurrentKey, RecordWrites, NextMask,
         MaskWrite, Assigned, DeviceStatus, AggregateStatus, NextDevice, Recorded, PublishMask, Skipped, PointStateIn,
         LineRegions, Repeat, SlaveKeys;
    var after := Step(config, floats, s, DeviceEnd(bus));
    var regions := ClosePlaced(config, floats, s, bus);
    CloseHealth(config, floats, s, bus);
    ClosePublishes(config, floats, s, bus);
    PublishesAssign(s.store, CloseWrites(config, floats, s, bus));
    QuietAfterAll(s.store, CloseWrites(config, floats, s, bus));
    StillZero(config, s.store, after.store, CloseWrites(config, floats, s, bus), regions, p);
  }

  lemma StartIsCalm(config: GatewayConfig, floats: Floats, p: PointConfig)
    requires Accepts(config) && p in config.points && p.publishToModbus && ValueSpared(config, p)
    ensures CalmRun(config, floats, [], p)
  {
    hide Accepts, ValueSpared, PublishAll, AssignAll, Placed, Covers, StartWrites;
    var writes := StartWrites(config, floats);
    var regions := StartPlaced(config, floats);
    PublishesAssign(NO_STATE.store, writes);
    StillZero(config, NO_STATE.store, PublishAll(NO_STATE.store, writes), writes, regions, p);
    QuietAfterAll(NO_STATE.store, writes);
    assert Reached(config, floats, []) == Start(config, floats) by { NoEvents(config, floats); }
  }

  /** Let a line's poller take one turn in which the point answers with nothing. */
  lemma CalmTurn(config: GatewayConfig, floats: Floats, events: seq<Event>, bus: string, p: PointConfig)
    returns (after: seq<Event>)
    requires Accepts(config) && p in config.points && p.publishToModbus && ValueSpared(config, p) && AllAskable(config)
    requires CalmRun(config, floats, events, p) && Ready(config, Reached(config, floats, events), bus)
    ensures CalmRun(config, floats, after, p)
    ensures var s, t := Reached(config, floats, events), Reached(config, floats, after);
            var device, point := PollerIn(s.pollers, bus).device, PollerIn(s.pollers, bus).point;
            && Ready(config, t, bus)
            && if AtPoint(config, s, bus) then StandsAt(t, bus, device, point + 1)
               else StandsAt(t, bus, if device + 1 < |DevicesOn(config, bus)| then device + 1 else 0, 0)
  {
    hide Accepts, ValueSpared, Reached, Step, CurrentPoint, PointsOf, DevicesOn, Covers, Realistic, CanBeAsked, HashParameterName;
    var s := Reached(config, floats, events);
    if AtPoint(config, s, bus) {
      CurrentPointKnown(config, s, bus);
      var q := CurrentPoint(config, s, bus);
      AskedHasHash(config, q);
      var asked, reply := events + [ExchangeStart(bus)], PointReply(bus, EmptyReply(q));
      after := asked + [reply];
      assert Enabled(config, s, ExchangeStart(bus)) by { assert !Skipped(PointStateIn(s.pointStates, q.name)); }
      ThenEvent(config, floats, events, ExchangeStart(bus));
      ThenEvent(config, floats, asked, reply);
      AskGoesOn(config, floats, s, bus);
      AskStaysCalm(config, floats, s, bus, p);
      EmptyReplyStaysCalm(config, floats, Reached(config, floats, asked), bus, p);
      OneMoreRealistic(config, floats, events, ExchangeStart(bus));
      OneMoreRealistic(config, floats, asked, reply);
    } else {
      after := events + [DeviceEnd(bus)];
      ThenEvent(config, floats, events, DeviceEnd(bus));
      EndGoesOn(config, floats, s, bus);
      CloseStaysCalm(config, floats, s, bus, p);
      OneMoreRealistic(config, floats, events, DeviceEnd(bus));
    }
  }

  lemma AskStaysCalm(config: GatewayConfig, floats: Floats, s: State, bus: string, p: PointConfig)
    requires Calm(config, s, p) && Enabled(config, s, ExchangeStart(bus))
    ensures Calm(config, Step(config, floats, s, ExchangeStart(bus)), p)
  {
    hide Covers, PointsOf, DevicesOn;
  }

  lemma {:induction false} GoCalmly(config: GatewayConfig, floats: Floats, events: seq<Event>, q: PointConfig, device: nat,
                                    point: nat, p: PointConfig) returns (after: seq<Event>)
    requires Accepts(config) && p in config.points && p.publishToModbus && ValueSpared(config, p) && AllAskable(config)
    requires CalmRun(config, floats, events, p) && Ready(config, Reached(config, floats, events), q.bus)
    requires TurnIsAt(config, q, q.bus, device, point)
    ensures CalmRun(config, floats, after, p)
    ensures var t := Reached(config, floats, after);
            Ready(config, t, q.bus) && AtPoint(config, t, q.bus) && CurrentPoint(config, t, q.bus) == q
    decreases Past(PollerIn(Reached(config, floats, events).pollers, q.bus).device,
                   PollerIn(Reached(config, floats, events).pollers, q.bus).point, device, point),
              |DevicesOn(config, q.bus)| - PollerIn(Reached(config, floats, events).pollers, q.bus).device,
              |PointsOf(config.points, CurrentKey(config, Reached(config, floats, events), q.bus))| -
                PollerIn(Reached(config, floats, events).pollers, q.bus).point
  {
    hide Accepts, ValueSpared, AllAskable, CalmRun, Reached, PointsOf, DevicesOn;
    var s := Reached(config, floats, events);
    if AtPoint(config, s, q.bus) && CurrentPoint(config, s, q.bus) == q {
      after := events;
    } else {
      var next := CalmTurn(config, floats, events, q.bus, p);
      TargetIsAhead(config, s, q, true, device, point);
      after := GoCalmly(config, floats, next, q, device, point, p);
    }
  }

  /** Another point of the name answers what the first one's registers do not hold. */
  lemma TwinRun(config: GatewayConfig, floats: Floats, p: PointConfig, q: PointConfig) returns (events: seq<Event>)
    requires Accepts(config) && SinglesOk(floats) && AllAskable(config)
    requires p in config.points && p.publishToModbus && ValueSpared(config, p)
    requires q in config.points && q != p && q.name == p.name
    ensures Realistic(config, floats, events) && !AgreesWhereUndisturbed(floats, Reached(config, floats, events), p)
  {
    hide Accepts, ValueSpared, Reached, Ready, AtPoint, CurrentPoint, Start, CanBeAsked, Realistic, Covers, AgreesNow,
         ApplyOutcome, Classify, AgreesWhereUndisturbed, HasRegisters;
    var device, point := HasATurn(config, q);
    StartIsCalm(config, floats, p);
    assert Reached(config, floats, []) == Start(config, floats) by { NoEvents(config, floats); }
    ReadyAtStart(config, floats, q);
    var there := GoCalmly(config, floats, [], q, device, point, p);
    var s := Reached(config, floats, there);
    var asked := there + [ExchangeStart(q.bus)];
    assert Enabled(config, s, ExchangeStart(q.bus)) by { DueNow(config, s, q); }
    ThenEvent(config, floats, there, ExchangeStart(q.bus));
    AskGoesOn(config, floats, s, q.bus);
    AskStaysCalm(config, floats, s, q.bus, p);
    OneMoreRealistic(config, floats, there, ExchangeStart(q.bus));
    var t := Reached(config, floats, asked);
    assert !AlwaysOne(t, p, q) by { CalmIsNotOne(config, t, p, q); }
    var exchange := TwinPartsThem(config, floats, t, q.bus, p);
    events := asked + [PointReply(q.bus, exchange)];
    ThenEvent(config, floats, asked, PointReply(q.bus, exchange));
    OneMoreRealistic(config, floats, asked, PointReply(q.bus, exchange));
    ReplyIsOutcome(config, floats, t, q.bus, exchange);
    UndisturbedIsNow(floats, Reached(config, floats, events), p);
  }

  lemma CalmIsNotOne(config: GatewayConfig, s: State, p: PointConfig, q: PointConfig)
    requires Calm(config, s, p) && p.publishToModbus
    ensures !AlwaysOne(s, p, q)
  {
    if p.modbusDataType.BoolType? {
      BoolWords(p.modbusDataType);
      BitCellCovered(config, p, 1, 0);
    }
  }

  lemma ReplyIsOutcome(config: GatewayConfig, floats: Floats, s: State, bus: string, exchange: Result<OwenFrame>)
    requires AtPoint(config, s, bus) && PollerIn(s.pollers, bus).waiting && Quiet(s.store)
    ensures var after := Step(config, floats, s, PointReply(bus, exchange));
            && after == ApplyOutcome(config, s, bus, Classify(floats, CurrentPoint(config, s, bus), exchange))
            && Quiet(after.store)
  {
    hide CurrentPoint, ApplyOutcome, OutcomeWrites, PublishAll, Classify, AtPoint;
    var outcome := Classify(floats, CurrentPoint(config, s, bus), exchange);
    OutcomePublishes(config, s, bus, outcome);
    QuietAfterAll(s.store, OutcomeWrites(config, s, bus, outcome));
  }

  lemma UndisturbedIsNow(floats: Floats, s: State, p: PointConfig)
    requires Quiet(s.store)
    ensures AgreesWhereUndisturbed(floats, s, p) <==> AgreesNow(floats, s, p)
  {
    hide EncodeRegisters, Stored;
  }

  /** In a configuration all of whose points can be asked: the registers of a point that the
      validator's gaps spare agree with its cached value throughout every run exactly if no
      other point has its name. */
  lemma OnlyNamesAgreeInRuns(config: GatewayConfig, floats: Floats, p: PointConfig)
    requires Accepts(config) && Lawful(floats) && SinglesOk(floats) && AllAskable(config)
    requires p in config.points && p.publishToModbus && ValueSpared(config, p)
    requires AlwaysPublishes(p.protocolFormat, p.modbusDataType)
    ensures (forall events :: Realistic(config, floats, events) ==>
               AgreesWhereUndisturbed(floats, Reached(config, floats, events), p)) <==>
            OnlyName(config, p)
  {
    hide Accepts, Lawful, AllAskable, ValueSpared, AlwaysPublishes, EncodeRegisters, Stored, Reached, Realistic, IsPending;
    if OnlyName(config, p) {
      forall events ensures AgreesWhereUndisturbed(floats, Reached(config, floats, events), p) {
        if ValueIn(Reached(config, floats, events).pointValues, p.name).Some? {
          CacheAgreesWithRegisters(config, floats, events, p);
          forall w: word ensures Stored(p.registerType, w) == CellContent(p.registerType, w) {
            ContentIsStored(p.registerType, w);
          }
        }
      }
    } else {
      var q :| q in config.points && q.name == p.name && q != p;
      var events := TwinRun(config, floats, p, q);
    }
  }
}
