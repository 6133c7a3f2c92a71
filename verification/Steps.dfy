/** What each step publishes, to which regions, and what it therefore leaves alone. */
module Steps {
  import opened Core
  import opened Frame
  import opened ParameterHash
  import opened Payload
  import opened Registers
  import opened Config
  import opened RegisterMap
  import opened Health
  import opened Status
  import opened Gateway
  import opened Layout
  import opened Slots
  import opened CacheAgreement
  import opened Reachable

  /* ---------- The writes of a step ---------- */

  function OutcomeWrites(config: GatewayConfig, s: State, bus: string, outcome: Outcome): seq<Write>
    requires AtPoint(config, s, bus)
  {
    var p := CurrentPoint(config, s, bus);
    match outcome
    case Succeeded(_, words, mark) => ValueWrites(p, words) + MetadataWrites(p, mark, CHANNEL_OK)
    case NoData => MetadataWrites(p, None, CHANNEL_DISABLED)
    case _ =>
      MetadataWrites(p, None, WordStatus(PointStateIn(ApplyOutcome(config, s, bus, outcome).pointStates, p.name)))
  }

  function CloseWrites(config: GatewayConfig, floats: Floats, s: State, bus: string): seq<Write>
    requires OnDevice(config, s, bus)
  {
    var key, poller := CurrentKey(config, s, bus), PollerIn(s.pollers, bus);
    var status := DeviceStatus(|PointsOf(config.points, key)|, poller.failures, poller.protocolFailures);
    [MaskWrite(key.1, NextMask(config, s, key))] +
    RecordWrites(config, floats, Recorded(config, PublishMask(config, s, key), key, status, poller.lastErrorCode), key)
  }

  function RestoreWrite(write: PendingWrite): Write {
    Write(write.slave, HoldingRegister, write.address, write.previous)
  }

  function AcceptWrites(config: GatewayConfig, floats: Floats, s: State, k: nat, p: PointConfig, value: Value): seq<Write>
    requires k < |s.store.pending|
  {
    match PublishedWords(floats, p, value)
    case Err(_) => [RestoreWrite(s.store.pending[k])]
    case Ok(words) =>
      ValueWrites(p, words) + MetadataWrites(p, None, CHANNEL_OK) +
      [MaskWrite(KeyOf(p).1, NextMask(config, WithValue(s, p, value), KeyOf(p)))]
  }

  function HandlerWrites(config: GatewayConfig, floats: Floats, s: State, k: nat, ack: Result<Option<OwenFrame>>,
                         readBacks: seq<Result<OwenFrame>>): seq<Write>
    requires k < |s.store.pending|
  {
    var write := s.store.pending[k];
    match WritableAt(config.points, write.slave, write.address, |write.words|)
    case None => [RestoreWrite(write)]
    case Some(p) =>
      match WriteOutcome(floats, p, write.words, ack, readBacks)
      case Err(_) => [RestoreWrite(write)]
      case Ok(value) => AcceptWrites(config, floats, s, k, p, value)
  }

  function StepWrites(config: GatewayConfig, floats: Floats, s: State, event: Event): seq<Write> {
    if !Enabled(config, s, event) then []
    else
      match event
      case SkipPoint(bus) => MetadataWrites(CurrentPoint(config, s, bus), None, CHANNEL_FAILED)
      case ExchangeStart(_) => []
      case PointReply(bus, exchange) =>
        OutcomeWrites(config, s, bus, Classify(floats, CurrentPoint(config, s, bus), exchange))
      case DeviceEnd(bus) => CloseWrites(config, floats, s, bus)
      case ClientRegisters(slave, address, words) => [Write(slave, HoldingRegister, address, words)]
      case ClientCoils(slave, address, bits) => [Write(slave, Coil, address, bits)]
      case HandlerEnd(k, ack, readBacks) => HandlerWrites(config, floats, s, k, ack, readBacks)
  }

  lemma OutcomePublishes(config: GatewayConfig, s: State, bus: string, outcome: Outcome)
    requires AtPoint(config, s, bus)
    ensures ApplyOutcome(config, s, bus, outcome).store == PublishAll(s.store, OutcomeWrites(config, s, bus, outcome))
  {
    hide CurrentPoint, CurrentKey, AtPoint, PublishAll, MetadataWrites, ValueWrites, AfterFailure, AfterSuccess, AfterEmpty,
         WordStatus, IncCounter, Passed, Failed, PollerIn, DeviceIn, WithStored;
  }

  lemma ClosePublishes(config: GatewayConfig, floats: Floats, s: State, bus: string)
    requires OnDevice(config, s, bus)
    ensures CloseDevice(config, floats, s, bus).store == PublishAll(s.store, CloseWrites(config, floats, s, bus))
  {
    hide CurrentKey, PointsOf, DevicesOn, PublishAll, Publish, RecordWrites, NextMask, MaskWrite, DeviceStatus,
         AggregateStatus, PollerIn, DeviceIn, NextDevice;
    var key, poller := CurrentKey(config, s, bus), PollerIn(s.pollers, bus);
    var status := DeviceStatus(|PointsOf(config.points, key)|, poller.failures, poller.protocolFailures);
    var masked := PublishMask(config, s, key);
    var recorded := Recorded(config, masked, key, status, poller.lastErrorCode);
    var mask := MaskWrite(key.1, NextMask(config, s, key));
    PublishOne(s.store, mask);
    PublishAllConcat(s.store, [mask], RecordWrites(config, floats, recorded, key));
  }

  lemma PublishOne(store: Store, w: Write)
    ensures PublishAll(store, [w]) == Publish(store, w)
  {
    hide Publish;
    assert [w][1..] == [];
  }

  lemma MaskIgnoresStore(config: GatewayConfig, s: State, store: Store, key: SlaveKey)
    ensures NextMask(config, s.(store := store), key) == NextMask(config, s, key)
  {}

  lemma AcceptPublishes(config: GatewayConfig, floats: Floats, s: State, k: nat, p: PointConfig, value: Value)
    requires k < |s.store.pending| && PublishedWords(floats, p, value).Ok?
    ensures AcceptWrite(config, floats, s, k, p, value).store ==
            PublishAll(Withdraw(s.store, k), AcceptWrites(config, floats, s, k, p, value))
  {
    hide PublishAll, Publish, PublishedWords, ValueWrites, MetadataWrites, NextMask, MaskWrite, AfterSuccess, PointStateIn,
         KeyOf, Withdraw;
    var s1, words := WithValue(s, p, value), PublishedWords(floats, p, value).value;
    var writes := ValueWrites(p, words) + MetadataWrites(p, None, CHANNEL_OK);
    var kept := s1.(store := PublishAll(Withdraw(s1.store, k), writes));
    MaskIgnoresStore(config, s1, kept.store, KeyOf(p));
    var mask := MaskWrite(KeyOf(p).1, NextMask(config, s1, KeyOf(p)));
    PublishOne(kept.store, mask);
    PublishAllConcat(Withdraw(s.store, k), writes, [mask]);
  }

  /* ---------- What keeps a write shown ---------- */

  ghost predicate Off(writes: seq<Write>, w: Write) { forall i :: 0 <= i < |writes| ==> CellsOf(writes[i]) !! CellsOf(w) }

  /** The point a client's write in flight is for. */
  function PointWritten(config: GatewayConfig, s: State, k: nat): Option<PointConfig>
    requires k < |s.store.pending|
  {
    var write := s.store.pending[k];
    WritableAt(config.points, write.slave, write.address, |write.words|)
  }

  /** The handler keeps the write and publishes the verified value. */
  predicate Publishes(config: GatewayConfig, floats: Floats, s: State, k: nat, ack: Result<Option<OwenFrame>>,
                      readBacks: seq<Result<OwenFrame>>)
    requires k < |s.store.pending|
  {
    var write := s.store.pending[k];
    var point := WritableAt(config.points, write.slave, write.address, |write.words|);
    point.Some? &&
    var outcome := WriteOutcome(floats, point.value, write.words, ack, readBacks);
    outcome.Ok? && PublishedWords(floats, point.value, outcome.value).Ok?
  }

  /** A step publishes nothing on the cells of `w`. What clients write there does not count:
      it is undone, or the cells are stale. */
  ghost predicate StaysOff(config: GatewayConfig, floats: Floats, s: State, event: Event, w: Write) {
    match event
    case ClientRegisters(_, _, _) => true
    case ClientCoils(_, _, _) => true
    case HandlerEnd(k, ack, readBacks) =>
      k < |s.store.pending| && Publishes(config, floats, s, k, ack, readBacks) ==>
        PendingCells(s.store.pending[k]) !! CellsOf(w) && Off(HandlerWrites(config, floats, s, k, ack, readBacks), w)
    case _ => Off(StepWrites(config, floats, s, event), w)
  }

  lemma UnpublishedRestores(config: GatewayConfig, floats: Floats, s: State, k: nat, ack: Result<Option<OwenFrame>>,
                            readBacks: seq<Result<OwenFrame>>)
    requires k < |s.store.pending| && !Publishes(config, floats, s, k, ack, readBacks)
    ensures HandlerWrites(config, floats, s, k, ack, readBacks) == [RestoreWrite(s.store.pending[k])]
  {
    hide WritableAt, WriteOutcome, PublishedWords;
  }

  lemma HandlerKeepsShown(config: GatewayConfig, floats: Floats, s: State, k: nat, ack: Result<Option<OwenFrame>>,
                          readBacks: seq<Result<OwenFrame>>, w: Write)
    requires Tracked(s.store) && Shows(s.store, w) && k < |s.store.pending|
    requires Publishes(config, floats, s, k, ack, readBacks) ==>
               PendingCells(s.store.pending[k]) !! CellsOf(w) && Off(HandlerWrites(config, floats, s, k, ack, readBacks), w)
    ensures var after := EndHandler(config, floats, s, k, ack, readBacks).store; Tracked(after) && Shows(after, w)
  {
    hide WritableAt, WriteOutcome, AcceptWrite, PublishAll, Tracked, Shows, PublishedWords, Restore, Withdraw, ValueWrites,
         MetadataWrites, NextMask, MaskWrite;
    var write := s.store.pending[k];
    var point := WritableAt(config.points, write.slave, write.address, |write.words|);
    RestoreKeeps(s.store, k, w);
    if point.Some? && WriteOutcome(floats, point.value, write.words, ack, readBacks).Ok? {
      var value := WriteOutcome(floats, point.value, write.words, ack, readBacks).value;
      if PublishedWords(floats, point.value, value).Ok? {
        AcceptPublishes(config, floats, s, k, point.value, value);
        WithdrawKeeps(s.store, k, w);
        PublishAllKeeps(Withdraw(s.store, k), AcceptWrites(config, floats, s, k, point.value, value), w);
      } else {
        AcceptRejects(config, floats, s, k, point.value, value);
      }
    }
  }

  lemma AcceptRejects(config: GatewayConfig, floats: Floats, s: State, k: nat, p: PointConfig, value: Value)
    requires k < |s.store.pending| && PublishedWords(floats, p, value).Err?
    ensures AcceptWrite(config, floats, s, k, p, value).store == Restore(s.store, k)
  {
    hide PublishedWords, PublishAll, PublishMask;
  }

  /** What such a step leaves shown. */
  lemma StepKeepsShown(config: GatewayConfig, floats: Floats, s: State, event: Event, w: Write)
    requires Tracked(s.store) && Shows(s.store, w) && StaysOff(config, floats, s, event, w)
    ensures var after := Step(config, floats, s, event).store; Tracked(after) && Shows(after, w)
  {
    hide ApplyOutcome, Classify, OutcomeWrites, CloseDevice, CloseWrites, EndHandler, HandlerWrites, CurrentPoint,
         MetadataWrites, PublishAll, Assigned, PointStateIn, Skipped, Tracked, Shows, ClientWrite, CoilWrite, Publishes,
         PendingCells;
    if Enabled(config, s, event) {
      match event {
        case SkipPoint(bus) => PublishAllKeeps(s.store, MetadataWrites(CurrentPoint(config, s, bus), None, CHANNEL_FAILED), w);
        case ExchangeStart(_) =>
        case PointReply(bus, exchange) =>
          var outcome := Classify(floats, CurrentPoint(config, s, bus), exchange);
          OutcomePublishes(config, s, bus, outcome);
          PublishAllKeeps(s.store, OutcomeWrites(config, s, bus, outcome), w);
        case DeviceEnd(bus) =>
          ClosePublishes(config, floats, s, bus);
          PublishAllKeeps(s.store, CloseWrites(config, floats, s, bus), w);
        case ClientRegisters(slave, address, words) => ClientWriteKeeps(s.store, slave, address, words, w);
        case ClientCoils(slave, address, bits) => CoilWriteKeeps(s.store, slave, address, bits, w);
        case HandlerEnd(k, ack, readBacks) => HandlerKeepsShown(config, floats, s, k, ack, readBacks, w);
      }
    }
  }

  /* ---------- Regions a step publishes to ---------- */

  lemma PlacedIsOff(config: GatewayConfig, writes: seq<Write>, regions: seq<Region>, own: Region, w: Write)
    requires Placed(config, writes, regions) && Private(config, own) && own !in regions && Within(config, w, own)
    ensures Off(writes, w)
  {
    hide Within, Known, Private;
    forall i | 0 <= i < |writes| ensures CellsOf(writes[i]) !! CellsOf(w) {
      assert regions[i] in regions;
      WritesApart(config, w, own, writes[i], regions[i]);
    }
  }

  /* ---------- The regions of a step ---------- */

  lemma ClassifiedWords(floats: Floats, p: PointConfig, exchange: Result<OwenFrame>)
    requires Classify(floats, p, exchange).Succeeded?
    ensures var outcome := Classify(floats, p, exchange); PublishedWords(floats, p, outcome.value) == Ok(outcome.words)
  {
    hide DecodePayload, PublishedWords, TimeMark, HashParameterName;
  }

  lemma OutcomePlaced(config: GatewayConfig, floats: Floats, s: State, bus: string, exchange: Result<OwenFrame>)
    returns (regions: seq<Region>)
    requires AtPoint(config, s, bus)
    ensures var q := CurrentPoint(config, s, bus);
            && Placed(config, OutcomeWrites(config, s, bus, Classify(floats, q, exchange)), regions)
            && forall r :: r in regions ==> r == ValueRegion(q) || r == MetadataRegion(q)
  {
    hide CurrentPoint, AtPoint, ApplyOutcome, MetadataWrites, ValueWrites, Placed, WordStatus, PointStateIn, Classify;
    var q := CurrentPoint(config, s, bus);
    CurrentPointKnown(config, s, bus);
    match Classify(floats, q, exchange) {
      case Succeeded(value, words, mark) =>
        ClassifiedWords(floats, q, exchange);
        ValuePlaced(config, floats, q, value, words);
        MetadataPlaced(config, q, mark, CHANNEL_OK);
        regions := Repeat(ValueRegion(q), |ValueWrites(q, words)|) +
                   Repeat(MetadataRegion(q), |MetadataWrites(q, mark, CHANNEL_OK)|);
        PlacedTogether(config, ValueWrites(q, words), Repeat(ValueRegion(q), |ValueWrites(q, words)|),
          MetadataWrites(q, mark, CHANNEL_OK), Repeat(MetadataRegion(q), |MetadataWrites(q, mark, CHANNEL_OK)|));
      case NoData =>
        MetadataPlaced(config, q, None, CHANNEL_DISABLED);
        regions := Repeat(MetadataRegion(q), |MetadataWrites(q, None, CHANNEL_DISABLED)|);
      case outcome =>
        var status := WordStatus(PointStateIn(ApplyOutcome(config, s, bus, outcome).pointStates, q.name));
        MetadataPlaced(config, q, None, status);
        regions := Repeat(MetadataRegion(q), |MetadataWrites(q, None, status)|);
    }
  }

  /** A turn of a point publishes to the point's registers only. */
  lemma PointTurnPlaced(config: GatewayConfig, floats: Floats, s: State, event: Event) returns (regions: seq<Region>)
    requires event.SkipPoint? || event.PointReply?
    ensures Placed(config, StepWrites(config, floats, s, event), regions)
    ensures forall r :: r in regions ==>
              AtPoint(config, s, event.bus) &&
              (r == ValueRegion(CurrentPoint(config, s, event.bus)) || r == MetadataRegion(CurrentPoint(config, s, event.bus)))
  {
    hide CurrentPoint, AtPoint, ApplyOutcome, MetadataWrites, ValueWrites, Placed, WordStatus, PointStateIn, Classify;
    regions := [];
    assert Placed(config, [], regions) by { NothingPlaced(config); }
    if Enabled(config, s, event) {
      var bus := event.bus;
      var q := CurrentPoint(config, s, bus);
      assert AtPoint(config, s, bus) && q in config.points by { TurnsAtPoint(config, s, event); }
      match event {
        case SkipPoint(_) =>
          MetadataPlaced(config, q, None, CHANNEL_FAILED);
          regions := Repeat(MetadataRegion(q), |MetadataWrites(q, None, CHANNEL_FAILED)|);
        case PointReply(_, exchange) => regions := OutcomePlaced(config, floats, s, bus, exchange);
      }
    }
  }

  lemma NothingPlaced(config: GatewayConfig)
    ensures Placed(config, [], [])
  {}

  lemma TurnsAtPoint(config: GatewayConfig, s: State, event: Event)
    requires (event.SkipPoint? || event.PointReply?) && Enabled(config, s, event)
    ensures AtPoint(config, s, event.bus) && CurrentPoint(config, s, event.bus) in config.points
  {
    CurrentPointKnown(config, s, event.bus);
  }

  lemma HandlerPlaced(config: GatewayConfig, floats: Floats, s: State, k: nat, ack: Result<Option<OwenFrame>>,
                      readBacks: seq<Result<OwenFrame>>) returns (p: PointConfig, regions: seq<Region>)
    requires Accepts(config) && k < |s.store.pending| && Publishes(config, floats, s, k, ack, readBacks)
    ensures Placed(config, HandlerWrites(config, floats, s, k, ack, readBacks), regions)
    ensures p in config.points && p.publishToModbus && PointWritten(config, s, k) == Some(p)
    ensures forall c :: c in PendingCells(s.store.pending[k]) ==> Covers(config, ValueRegion(p), c)
    ensures forall r :: r in regions ==> r == ValueRegion(p) || r == MetadataRegion(p) || r == MaskRegion(KeyOf(p).1)
  {
    hide Accepts, WritableAt, WriteOutcome, PublishedWords, ValueWrites, MetadataWrites, NextMask, MaskWrite, Placed, Covers,
         PendingCells, SlaveKeys, KeyOf;
    var write := s.store.pending[k];
    p := WritableAt(config.points, write.slave, write.address, |write.words|).value;
    var value := WriteOutcome(floats, p, write.words, ack, readBacks).value;
    var words, mask := PublishedWords(floats, p, value).value, NextMask(config, WithValue(s, p, value), KeyOf(p));
    WriteOnItsPoint(config, write, p);
    WritableIsPublished(config, p);
    ValuePlaced(config, floats, p, value, words);
    MetadataPlaced(config, p, None, CHANNEL_OK);
    KeysOfPoints(config.points, KeyOf(p));
    MaskPlaced(config, KeyOf(p), mask);
    var ra := Repeat(ValueRegion(p), |ValueWrites(p, words)|);
    var rb := Repeat(MetadataRegion(p), |MetadataWrites(p, None, CHANNEL_OK)|);
    PlacedTogether(config, ValueWrites(p, words), ra, MetadataWrites(p, None, CHANNEL_OK), rb);
    PlacedTogether(config, ValueWrites(p, words) + MetadataWrites(p, None, CHANNEL_OK), ra + rb,
      [MaskWrite(KeyOf(p).1, mask)], [MaskRegion(KeyOf(p).1)]);
    regions := ra + rb + [MaskRegion(KeyOf(p).1)];
  }

  lemma ClosePlaced(config: GatewayConfig, floats: Floats, s: State, bus: string) returns (regions: seq<Region>)
    requires OnDevice(config, s, bus)
    ensures Placed(config, CloseWrites(config, floats, s, bus), regions)
    ensures forall r :: r in regions ==> !r.ValueRegion? && !r.MetadataRegion?
  {
    hide Placed, SlaveKeys, RecordWrites, NextMask, MaskWrite, Recorded, PublishMask, DeviceStatus, StatusWrites,
         TelemetryWrites, AggregateStatus;
    var key, poller := CurrentKey(config, s, bus), PollerIn(s.pollers, bus);
    var status := DeviceStatus(|PointsOf(config.points, key)|, poller.failures, poller.protocolFailures);
    var recorded := Recorded(config, PublishMask(config, s, key), key, status, poller.lastErrorCode);
    MaskPlaced(config, key, NextMask(config, s, key));
    RecordPlaced(config, floats, recorded, key);
    regions := [MaskRegion(key.1)] + RecordRegions(config, floats, recorded, key);
    PlacedTogether(config, [MaskWrite(key.1, NextMask(config, s, key))], [MaskRegion(key.1)],
      RecordWrites(config, floats, recorded, key), RecordRegions(config, floats, recorded, key));
  }

  /** Start-up publishes for the service slave and the devices, not for points. */
  predicate OfStart(region: Region) { region.StatusRegion? || region.TelemetryRegion? || region.LineRegion? }

  lemma LastDeviceStarts(config: GatewayConfig, floats: Floats, keys: seq<SlaveKey>)
    requires keys != []
    ensures DeviceStartWrites(config, floats, keys) ==
            DeviceStartWrites(config, floats, keys[..|keys| - 1]) + Reachable.DeviceStart(config, floats, keys[|keys| - 1])
  {
    hide StatusWrites, TelemetryWrites;
  }

  lemma {:induction false} DevicesStartPlaced(config: GatewayConfig, floats: Floats, keys: seq<SlaveKey>)
    returns (regions: seq<Region>)
    ensures Placed(config, DeviceStartWrites(config, floats, keys), regions)
    ensures forall r :: r in regions ==> OfStart(r)
    decreases |keys|
  {
    hide Placed, DeviceStartWrites, DeviceStart;
    if keys == [] {
      NoDevicesStart(config, floats);
      NothingPlaced(config);
      regions := [];
    } else {
      var init, last := keys[..|keys| - 1], keys[|keys| - 1];
      var ra := DevicesStartPlaced(config, floats, init);
      var rb := StartRegions(config, floats, last);
      LastDeviceStarts(config, floats, keys);
      PlacedTogether(config, DeviceStartWrites(config, floats, init), ra, DeviceStart(config, floats, last), rb);
      regions := ra + rb;
    }
  }

  lemma StartPlaced(config: GatewayConfig, floats: Floats) returns (regions: seq<Region>)
    ensures Placed(config, StartWrites(config, floats), regions)
    ensures forall r :: r in regions ==> OfStart(r)
  {
    hide Placed, DeviceStartWrites, StatusWrites, TelemetryWrites, LineWrites, SlaveKeys;
    ServiceStartPlaced(config, floats);
    var devices := DevicesStartPlaced(config, floats, SlaveKeys(config.points));
    PlacedTogether(config, ServiceStart(config, floats), ServiceRegions(config, floats),
      DeviceStartWrites(config, floats, SlaveKeys(config.points)), devices);
    regions := ServiceRegions(config, floats) + devices;
  }
}
