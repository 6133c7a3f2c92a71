/** Metadata, telemetry and error codes: what each step leaves in their registers. */
module Telemetry {
  import opened Core
  import opened Frame
  import opened ParameterHash
  import opened Payload
  import opened Registers
  import opened Config
  import opened RegisterMap
  import opened Health
  import opened Status
  import opened Gateway
  import opened Replies
  import opened Layout
  import opened Slots
  import opened WriteHandling

  /** The last of several publishes to a cell decides its content. */
  lemma {:induction false} LastPublishHolds(store: Store, writes: seq<Write>, i: nat, c: Cell)
    requires i < |writes| && c in CellsOf(writes[i])
    requires forall j :: i < j < |writes| ==> c !in CellsOf(writes[j])
    ensures At(PublishAll(store, writes), c) == Stored(writes[i].registerType, writes[i].words[c.address - writes[i].address])
    decreases i
  {
    hide Stored, Assigned, CellsFrom, PendingAmong;
    var rest := writes[1..];
    assert forall j :: 0 <= j < |rest| ==> rest[j] == writes[j + 1];
    if i == 0 {
      AssignedHere(store.registers, writes[0], c);
      PublishedElsewhere(Publish(store, writes[0]), rest, c);
    } else {
      LastPublishHolds(Publish(store, writes[0]), rest, i - 1, c);
    }
  }

  function StatusCell(p: PointConfig): Cell
    requires p.channelStatusAddress.Some?
  {
    Cell(SlaveOf(p), p.registerType, p.channelStatusAddress.value)
  }

  function MarkCell(p: PointConfig): Cell
    requires p.timeMarkAddress.Some?
  {
    Cell(SlaveOf(p), p.registerType, p.timeMarkAddress.value)
  }

  /** Whatever was published before, metadata is in its registers afterwards; a time mark
      only if the channel status has a register of its own. */
  lemma MetadataHolds(store: Store, before: seq<Write>, p: PointConfig, mark: Option<word>, status: word)
    ensures var after := PublishAll(store, before + MetadataWrites(p, mark, status));
            && (p.channelStatusAddress.Some? ==> At(after, StatusCell(p)) == Stored(p.registerType, status))
            && (mark.Some? && p.timeMarkAddress.Some? && p.timeMarkAddress != p.channelStatusAddress ==>
                  At(after, MarkCell(p)) == Stored(p.registerType, mark.value))
  {
    hide Stored, PublishAll, CellsFrom;
    var writes := before + MetadataWrites(p, mark, status);
    if p.channelStatusAddress.Some? {
      LastPublishHolds(store, writes, |writes| - 1, StatusCell(p));
    }
    if mark.Some? && p.timeMarkAddress.Some? && p.timeMarkAddress != p.channelStatusAddress {
      LastPublishHolds(store, writes, |before|, MarkCell(p));
    }
  }

  lemma SmallStatus(state: PointState, health: HealthConfig, transient: nat)
    requires transient <= 4
    ensures AfterFailure(state, health, transient).channelStatus <= 4
  {}

  /** The channel status register holds the point's channel status. */
  ghost predicate ShowsOwnStatus(after: State, p: PointConfig) {
    p.channelStatusAddress.Some? ==>
      && PointStateIn(after.pointStates, p.name).channelStatus <= 4
      && At(after.store, StatusCell(p)) == Stored(p.registerType, WordStatus(PointStateIn(after.pointStates, p.name)))
  }

  lemma FailureIsShown(config: GatewayConfig, s: State, bus: string, outcome: Outcome)
    requires AtPoint(config, s, bus) && !outcome.Succeeded? && !outcome.NoData?
    ensures ShowsOwnStatus(ApplyOutcome(config, s, bus, outcome), CurrentPoint(config, s, bus))
  {
    hide CurrentPoint, CurrentKey, AtPoint, PublishAll, MetadataWrites, AfterFailure, IncCounter, Failed, PollerIn,
         DeviceIn, WithStored, Stored;
    var p, after := CurrentPoint(config, s, bus), ApplyOutcome(config, s, bus, outcome);
    var state, status := PointStateIn(s.pointStates, p.name), WordStatus(after.pointStates[p.name]);
    SmallStatus(state, config.health, CHANNEL_COMM_ERROR);
    SmallStatus(state, config.health, CHANNEL_PROTOCOL_ERROR);
    assert [] + MetadataWrites(p, None, status) == MetadataWrites(p, None, status);
    MetadataHolds(s.store, [], p, None, status);
  }

  lemma EmptyIsShown(config: GatewayConfig, s: State, bus: string)
    requires AtPoint(config, s, bus)
    ensures ShowsOwnStatus(ApplyOutcome(config, s, bus, NoData), CurrentPoint(config, s, bus))
  {
    hide CurrentPoint, AtPoint, PublishAll, MetadataWrites, Passed, PollerIn, Stored;
    var p := CurrentPoint(config, s, bus);
    assert [] + MetadataWrites(p, None, CHANNEL_DISABLED) == MetadataWrites(p, None, CHANNEL_DISABLED);
    MetadataHolds(s.store, [], p, None, CHANNEL_DISABLED);
  }

  lemma ValueIsShown(config: GatewayConfig, s: State, bus: string, value: Value, words: seq<word>, mark: Option<word>)
    requires AtPoint(config, s, bus)
    ensures var p, after := CurrentPoint(config, s, bus), ApplyOutcome(config, s, bus, Succeeded(value, words, mark));
            && ShowsOwnStatus(after, p)
            && (mark.Some? && p.timeMarkAddress.Some? && p.timeMarkAddress != p.channelStatusAddress ==>
                  At(after.store, MarkCell(p)) == Stored(p.registerType, mark.value))
  {
    hide CurrentPoint, CurrentKey, AtPoint, PublishAll, MetadataWrites, ValueWrites, IncCounter, Passed, PollerIn,
         DeviceIn, Stored;
    MetadataHolds(s.store, ValueWrites(CurrentPoint(config, s, bus), words), CurrentPoint(config, s, bus), mark,
      CHANNEL_OK);
  }

  /** After a reply the channel status register holds the point's new channel status, and
      the time mark register the mark that came with a value. */
  lemma ReplyIsShown(config: GatewayConfig, floats: Floats, s: State, bus: string, exchange: Result<OwenFrame>)
    requires Enabled(config, s, PointReply(bus, exchange))
    ensures var p, after := CurrentPoint(config, s, bus), Step(config, floats, s, PointReply(bus, exchange));
            && ShowsOwnStatus(after, p)
            && (MarkOf(floats, p, exchange).Some? && p.timeMarkAddress.Some? && p.timeMarkAddress != p.channelStatusAddress ==>
                  At(after.store, MarkCell(p)) == Stored(p.registerType, MarkOf(floats, p, exchange).value))
  {
    hide CurrentPoint, AtPoint, ApplyOutcome, Classify, Stored, ShowsOwnStatus, IsValue;
    var p := CurrentPoint(config, s, bus);
    MarkIsRead(floats, p, exchange);
    match Classify(floats, p, exchange) {
      case Succeeded(value, words, mark) =>
        ValueIsShown(config, s, bus, value, words, mark);
      case NoData =>
        EmptyIsShown(config, s, bus);
      case outcome =>
        FailureIsShown(config, s, bus, outcome);
    }
  }

  /** A point passed over is shown as failed. */
  lemma SkipIsShown(config: GatewayConfig, s: State, bus: string)
    requires AtPoint(config, s, bus) && CurrentPoint(config, s, bus).channelStatusAddress.Some?
    ensures var p := CurrentPoint(config, s, bus);
            At(PassOver(config, s, bus).store, StatusCell(p)) == Stored(p.registerType, CHANNEL_FAILED)
  {
    hide CurrentPoint, AtPoint, PublishAll, MetadataWrites, Stored, AfterSkip, PointStateIn, Failed, PollerIn;
    var p := CurrentPoint(config, s, bus);
    assert [] + MetadataWrites(p, None, CHANNEL_FAILED) == MetadataWrites(p, None, CHANNEL_FAILED);
    MetadataHolds(s.store, [], p, None, CHANNEL_FAILED);
  }

  /* ---------- Telemetry registers ---------- */

  function Addresses(t: TelemetryConfig): (addresses: seq<int>)
    ensures |addresses| == 5
  {
    [t.lastErrorCode, t.successCounter, t.timeoutCounter, t.protocolErrorCounter, t.pollCycleCounter]
  }

  predicate AddressesDiffer(t: TelemetryConfig) {
    var a := Addresses(t);
    forall i, j :: 0 <= i < j < 5 ==> a[i] != a[j]
  }

  function DeviceValues(d: DeviceState): (values: seq<word>)
    ensures |values| == 5
  {
    [d.lastErrorCode, d.success, d.timeout, d.protocolError, d.pollCycle]
  }

  function GatewayValues(c: GatewayCounters): (values: seq<word>)
    ensures |values| == 5
  {
    [c.lastErrorCode, c.success, c.timeout, c.protocolError, c.pollCycle]
  }

  /** The five telemetry registers of a slave hold these values. */
  ghost predicate TelemetryHolds(config: GatewayConfig, store: Store, slave: int, values: seq<word>)
    requires |values| == 5
  {
    var t := config.telemetry;
    forall i :: 0 <= i < 5 ==> At(store, Cell(slave, t.registerType, Addresses(t)[i])) == Stored(t.registerType, values[i])
  }

  function FiveWrites(config: GatewayConfig, slave: int, values: seq<word>): seq<Write>
    requires |values| == 5
  {
    TelemetryWrites(config, slave, values[0], values[1], values[2], values[3], values[4])
  }

  lemma FiveCells(config: GatewayConfig, slave: int, values: seq<word>, i: nat)
    requires |values| == 5 && config.telemetry.enabled && i < 5
    ensures |FiveWrites(config, slave, values)| == 5
    ensures FiveWrites(config, slave, values)[i] ==
            Write(slave, config.telemetry.registerType, Addresses(config.telemetry)[i], [values[i]])
  {}

  /** The published values can all be read back, whatever they are, exactly when the five
      addresses differ, which the validator does not ask for. */
  lemma TelemetryDecides(config: GatewayConfig, store: Store, slave: int)
    requires config.telemetry.enabled
    ensures AddressesDiffer(config.telemetry) <==>
            forall values: seq<word> :: |values| == 5 ==>
              TelemetryHolds(config, PublishAll(store, FiveWrites(config, slave, values)), slave, values)
  {
    hide PublishAll, CellsFrom, TelemetryWrites, FiveWrites, Addresses, Stored;
    var t := config.telemetry;
    if AddressesDiffer(t) {
      forall values: seq<word> | |values| == 5
        ensures TelemetryHolds(config, PublishAll(store, FiveWrites(config, slave, values)), slave, values)
      {
        DistinctTelemetryHolds(config, store, [], slave, values, []);
        assert [] + FiveWrites(config, slave, values) + [] == FiveWrites(config, slave, values);
      }
    } else {
      var i, j :| 0 <= i < j < 5 && Addresses(t)[i] == Addresses(t)[j];
      var last := LastAt(t, j);
      SharedAddressLoses(config, store, slave, i, last);
    }
  }

  /** The last position with the same address. */
  lemma LastAt(t: TelemetryConfig, j: nat) returns (last: nat)
    requires j < 5
    ensures j <= last < 5 && Addresses(t)[last] == Addresses(t)[j]
    ensures forall k :: last < k < 5 ==> Addresses(t)[k] != Addresses(t)[j]
  {
    hide Addresses;
    last := j;
    for k := j + 1 to 5
      invariant j <= last < k && Addresses(t)[last] == Addresses(t)[j]
      invariant forall m :: last < m < k ==> Addresses(t)[m] != Addresses(t)[j]
    {
      if Addresses(t)[k] == Addresses(t)[j] {
        last := k;
      }
    }
  }

  lemma SharedAddressLoses(config: GatewayConfig, store: Store, slave: int, i: nat, last: nat)
    requires config.telemetry.enabled && i < last < 5
    requires Addresses(config.telemetry)[i] == Addresses(config.telemetry)[last]
    requires forall k :: last < k < 5 ==> Addresses(config.telemetry)[k] != Addresses(config.telemetry)[last]
    ensures exists values: seq<word> ::
              |values| == 5 && !TelemetryHolds(config, PublishAll(store, FiveWrites(config, slave, values)), slave, values)
  {
    hide PublishAll, CellsFrom, TelemetryWrites, FiveWrites, Addresses;
    var t := config.telemetry;
    var values: seq<word> := seq<word>(5, k => if k == i then 1 else 0);
    var writes := FiveWrites(config, slave, values);
    var c := Cell(slave, t.registerType, Addresses(t)[last]);
    forall k: nat | k < 5 ensures |writes| == 5 && writes[k] == Write(slave, t.registerType, Addresses(t)[k], [values[k]]) {
      FiveCells(config, slave, values, k);
    }
    assert writes[last] == Write(slave, t.registerType, Addresses(t)[last], [0]);
    LastPublishHolds(store, writes, last, c);
    assert At(PublishAll(store, writes), c) == 0;
    assert !TelemetryHolds(config, PublishAll(store, writes), slave, values);
  }

  /** Publishes after the five that stay off their cells do not matter. */
  lemma DistinctTelemetryHolds(config: GatewayConfig, store: Store, before: seq<Write>, slave: int, values: seq<word>,
                               later: seq<Write>)
    requires |values| == 5 && config.telemetry.enabled && AddressesDiffer(config.telemetry)
    requires forall j, c :: 0 <= j < |later| && c in CellsOf(later[j]) ==>
               !(c.slave == slave && c.registerType == config.telemetry.registerType && c.address in Addresses(config.telemetry))
    ensures TelemetryHolds(config, PublishAll(store, before + FiveWrites(config, slave, values) + later), slave, values)
  {
    hide PublishAll, CellsFrom, TelemetryWrites, FiveWrites, Addresses, Stored;
    var t := config.telemetry;
    var five := FiveWrites(config, slave, values);
    var writes := before + five + later;
    forall i: nat | i < 5 ensures |five| == 5 && five[i] == Write(slave, t.registerType, Addresses(t)[i], [values[i]]) {
      FiveCells(config, slave, values, i);
    }
    forall i: nat | i < 5
      ensures At(PublishAll(store, writes), Cell(slave, t.registerType, Addresses(t)[i])) == Stored(t.registerType, values[i])
    {
      var c := Cell(slave, t.registerType, Addresses(t)[i]);
      assert writes[|before| + i] == five[i];
      forall j | |before| + i < j < |writes| ensures c !in CellsOf(writes[j]) {
        if j < |before| + 5 {
          assert writes[j] == five[j - |before|];
        } else {
          assert writes[j] == later[j - |before| - 5];
        }
      }
      LastPublishHolds(store, writes, |before| + i, c);
    }
  }

  lemma ServiceWritesAreElsewhere(config: GatewayConfig, floats: Floats, s: State, slave: int)
    requires slave != SERVICE_SLAVE_ID
    ensures var later := StatusWrites(config, floats, SERVICE_SLAVE_ID, GatewayStatus(config, s)) +
                         GatewayTelemetry(config, s.counters) + LineWrites(s.busStatuses, config.buses);
            forall j, c :: 0 <= j < |later| && c in CellsOf(later[j]) ==> c.slave != slave
  {
    hide EncodeRegisters, AggregateStatus, CellsFrom;
  }

  /** The line registers are none of the telemetry registers. */
  predicate LinesOffTelemetry(config: GatewayConfig) {
    config.telemetry.registerType.HoldingRegister? ==>
      Range(SERVICE_LINE_STATUS_BASE, |config.buses|) !! TelemetryCells(config.telemetry)
  }

  lemma LinesAreElsewhere(config: GatewayConfig, lines: map<string, nat>)
    requires LinesOffTelemetry(config)
    ensures forall j, c :: 0 <= j < |config.buses| && c in CellsOf(LineWrites(lines, config.buses)[j]) ==>
              !(c.registerType == config.telemetry.registerType && c.address in Addresses(config.telemetry))
  {
    hide CellsFrom;
    assert forall a :: a in Addresses(config.telemetry) ==> a in TelemetryCells(config.telemetry);
  }

  /** Closing a device publishes its counters and the gateway's, each to its own registers. */
  lemma TelemetryIsPublished(config: GatewayConfig, floats: Floats, s: State, bus: string)
    requires Accepts(config) && AtDeviceEnd(config, s, bus)
    requires config.telemetry.enabled && AddressesDiffer(config.telemetry) && LinesOffTelemetry(config)
    ensures var key, after := CurrentKey(config, s, bus), CloseDevice(config, floats, s, bus);
            && TelemetryHolds(config, after.store, key.1, DeviceValues(DeviceIn(after.deviceStates, key)))
            && TelemetryHolds(config, after.store, SERVICE_SLAVE_ID, GatewayValues(after.counters))
  {
    hide Accepts, LinesOffTelemetry, CurrentKey, PublishAll, StatusWrites, TelemetryWrites, PublishMask, AggregateStatus,
         DevicesOn,
         NextDevice, PollerIn, TelemetryHolds, AddressesDiffer, DeviceStatus, IncCounter, Addresses, CellsFrom,
         SlaveKeys, PointsOf;
    var key, poller := CurrentKey(config, s, bus), PollerIn(s.pollers, bus);
    var status := DeviceStatus(|PointsOf(config.points, key)|, poller.failures, poller.protocolFailures);
    var masked := PublishMask(config, s, key);
    assert key in SlaveKeys(config.points) by { CurrentKeyKnown(config, s, bus); }
    KeyOwner(config, key);
    RecordedTelemetry(config, floats, masked, key, status, poller.lastErrorCode);
  }

  lemma CurrentKeyKnown(config: GatewayConfig, s: State, bus: string)
    requires OnDevice(config, s, bus)
    ensures CurrentKey(config, s, bus) in SlaveKeys(config.points)
  {}

  lemma RecordedTelemetry(config: GatewayConfig, floats: Floats, s: State, key: SlaveKey, status: nat, code: word)
    requires key.1 != SERVICE_SLAVE_ID
    requires config.telemetry.enabled && AddressesDiffer(config.telemetry) && LinesOffTelemetry(config)
    ensures var after := RecordDeviceResult(config, floats, s, key, status, code);
            && TelemetryHolds(config, after.store, key.1, DeviceValues(DeviceIn(after.deviceStates, key)))
            && TelemetryHolds(config, after.store, SERVICE_SLAVE_ID, GatewayValues(after.counters))
  {
    hide LinesOffTelemetry, PublishAll, StatusWrites, TelemetryWrites, LineWrites, AggregateStatus, TelemetryHolds,
         AddressesDiffer, Addresses, CellsFrom, Recorded, DeviceIn;
    var t := Recorded(config, s, key, status, code);
    var d := DeviceIn(t.deviceStates, key);
    var w0 := StatusWrites(config, floats, key.1, d.status);
    var w1 := FiveWrites(config, key.1, DeviceValues(d));
    var w2 := StatusWrites(config, floats, SERVICE_SLAVE_ID, GatewayStatus(config, t));
    var w3 := FiveWrites(config, SERVICE_SLAVE_ID, GatewayValues(t.counters));
    var w4 := LineWrites(t.busStatuses, config.buses);
    ServiceWritesAreElsewhere(config, floats, t, key.1);
    LinesAreElsewhere(config, t.busStatuses);
    LineCount(t.busStatuses, config.buses);
    assert RecordWrites(config, floats, t, key) == w0 + w1 + (w2 + w3 + w4);
    assert RecordWrites(config, floats, t, key) == (w0 + w1 + w2) + w3 + w4;
    DistinctTelemetryHolds(config, s.store, w0, key.1, DeviceValues(d), w2 + w3 + w4);
    DistinctTelemetryHolds(config, s.store, w0 + w1 + w2, SERVICE_SLAVE_ID, GatewayValues(t.counters), w4);
    assert t.store == s.store by { NothingPublishedYet(config, s, key, status, code); }
  }

  lemma LineCount(lines: map<string, nat>, buses: seq<BusConfig>)
    ensures |LineWrites(lines, buses)| == |buses|
  {}

  lemma NothingPublishedYet(config: GatewayConfig, s: State, key: SlaveKey, status: nat, code: word)
    ensures Recorded(config, s, key, status, code).store == s.store
  {
    hide AggregateStatus, DevicesOn, Statuses;
  }

  /* ---------- Error codes ---------- */

  /** The code the source derives once more from the frame, if there was one. */
  function MapProtocolError(p: PointConfig, frame: Option<OwenFrame>): word {
    if frame.Some? && frame.value.request then ERROR_BAD_FLAG
    else if frame.Some? && HashParameterName(p.parameter) != Ok(frame.value.parameterHash) then ERROR_HASH_MISMATCH
    else ERROR_DECODE
  }

  /** After a reply the line's poller holds the code derived once more from the frame exactly
      if it was a protocol error, a timeout's or an I/O failure's number otherwise, and keeps
      its code on success. */
  lemma ErrorCodesAgree(config: GatewayConfig, floats: Floats, s: State, bus: string, exchange: Result<OwenFrame>)
    requires Enabled(config, s, PointReply(bus, exchange)) && HashParameterName(CurrentPoint(config, s, bus).parameter).Ok?
    ensures var p, before := CurrentPoint(config, s, bus), PollerIn(s.pollers, bus).lastErrorCode;
            var code := PollerIn(Step(config, floats, s, PointReply(bus, exchange)).pollers, bus).lastErrorCode;
            && (IsProtocolError(floats, p, exchange) ==>
                  code == MapProtocolError(p, if exchange.Ok? then Some(exchange.value) else None))
            && (IsTimeout(exchange) ==> code == 1)
            && (IsIoFailure(floats, p, exchange) ==> code == 5)
            && (IsValue(floats, p, exchange) || IsEmpty(p, exchange) ==> code == before)
  {
    hide HashParameterName, CurrentPoint, AtPoint, Step, PollerIn, DeviceIn, PointStateIn, ValueIn, EndsBadly;
    var p := CurrentPoint(config, s, bus);
    ReplyIsRecorded(config, floats, s, bus, exchange);
    OneOfFive(floats, p, exchange);
    KindsExclude(floats, p, exchange);
    if IsProtocolError(floats, p, exchange) {
      CodeOfProtocolError(floats, p, exchange);
    } else if IsValue(floats, p, exchange) || IsEmpty(p, exchange) {
      GoodIsNotBad(floats, p, exchange);
    }
  }

  lemma CodeOfProtocolError(floats: Floats, p: PointConfig, exchange: Result<OwenFrame>)
    requires IsProtocolError(floats, p, exchange) && HashParameterName(p.parameter).Ok?
    ensures ErrorNumber(floats, p, exchange) == MapProtocolError(p, if exchange.Ok? then Some(exchange.value) else None)
  {
    hide HashParameterName, DecodePayload, PublishFault;
    KindsExclude(floats, p, exchange);
  }

  lemma GoodIsNotBad(floats: Floats, p: PointConfig, exchange: Result<OwenFrame>)
    requires IsValue(floats, p, exchange) || IsEmpty(p, exchange)
    ensures !EndsBadly(floats, p, exchange)
  {
    hide IsValue, IsEmpty;
  }
}
