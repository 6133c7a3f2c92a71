/** Accepted configurations and runs on which what the validator leaves unchecked goes wrong. */
module Witnesses {
  import opened Core
  import opened Crc
  import opened Frame
  import opened ParameterHash
  import opened Payload
  import opened Registers
  import opened Config
  import opened RegisterMap
  import opened Health
  import opened Status
  import opened Gateway
  import opened Confirmation
  import opened WriteHandling
  import opened Telemetry
  import opened Requests
  import opened StatusHierarchy
  import opened RegisterStore
  import opened Layout
  import opened Slots
  import opened CacheAgreement
  import opened Steps
  import opened Blocks
  import opened HealthRuns
  import opened SharedNames

  /* ---------- Small configurations ---------- */

  const LINE := BusConfig("line1", SerialConfig(8, "N", 1, 1000, 8), 1000, 0, 0, Some(10))

  function Small(points: seq<PointConfig>): GatewayConfig {
    GatewayConfig([LINE], 15020, StatusConfig(true, HoldingRegister, 1, Uint16Type),
                  TelemetryConfig(true, HoldingRegister, 2, 3, 4, 5, 6), HealthConfig(10, 5), points)
  }

  /** An integer parameter of the device on slave id 16. */
  function DevPoint(name: string, address: int, published: bool, channelStatus: Option<int>): PointConfig {
    PointConfig(name, "line1", 1, Some(16), 16, "dev", None, Uint16Format, HoldingRegister, address, Uint16Type, published,
                false, None, channelStatus)
  }

  predicate IsDev(p: PointConfig) {
    p == DevPoint(p.name, p.modbusAddress, p.publishToModbus, p.channelStatusAddress)
  }

  /** Published, without a channel status. */
  predicate Bare(p: PointConfig) { p == DevPoint(p.name, p.modbusAddress, true, None) }

  /** Off the status and telemetry registers, which end at 6. */
  predicate OffService(p: PointConfig) {
    p.modbusAddress >= 7 && (p.channelStatusAddress.Some? ==> p.channelStatusAddress.value >= 7)
  }

  lemma OneLine()
    ensures BusesOk([LINE]) && "line1" in BusNames([LINE])
  {
    assert [LINE][0].name in BusNames([LINE]);
  }

  lemma ServiceCellsOf(points: seq<PointConfig>)
    ensures SharedOk(Small(points))
    ensures ReservedCells(Small(points), HoldingRegister) == {1, 2, 3, 4, 5, 6}
  {
    assert Range(1, 1) == {1};
  }

  lemma DevPointOk(p: PointConfig, points: seq<PointConfig>)
    requires IsDev(p) && OffService(p)
    ensures PointFieldsOk(BusNames([LINE]), p) && MappingOk(Small(points), p)
  {
    OneLine();
    ServiceCellsOf(points);
  }

  lemma SinglePointIsAccepted(config: GatewayConfig, p: PointConfig)
    requires config.buses == [LINE] && config.points == [p] && SharedOk(config)
    requires PointFieldsOk(BusNames([LINE]), p) && MappingOk(config, p)
    ensures Accepts(config)
  {
    hide BusNames, SharedOk, PointFieldsOk, MappingOk;
    OneLine();
  }

  lemma OnePointIsAccepted(p: PointConfig)
    requires IsDev(p) && OffService(p)
    ensures Accepts(Small([p]))
  {
    hide BusNames, SharedOk, PointFieldsOk, MappingOk;
    ServiceCellsOf([p]);
    DevPointOk(p, [p]);
    SinglePointIsAccepted(Small([p]), p);
  }

  /** The second point is not published, so its cells are not compared. */
  lemma TwoPointsAreAccepted(p: PointConfig, q: PointConfig)
    requires IsDev(p) && IsDev(q) && OffService(p) && OffService(q) && !q.publishToModbus
    ensures Accepts(Small([p, q]))
  {
    hide BusNames, SharedOk, BusesOk, PointFieldsOk, MappingOk, PointCells;
    OneLine();
    ServiceCellsOf([p, q]);
    DevPointOk(p, [p, q]);
    DevPointOk(q, [p, q]);
  }

  /* ---------- Small runs ---------- */

  /** The device answers 0x1234. */
  function GoodReply(): Result<OwenFrame> { Ok(OwenFrame(128, false, RegisterValue(0xD681), [0x12, 0x34])) }

  lemma GoodReplySucceeds(floats: Floats, p: PointConfig)
    requires IsDev(p) && p.publishToModbus
    ensures Classify(floats, p, GoodReply()) == Succeeded(Int(0x1234), [0x1234], None)
  {
    hide HashParameterName;
    HashOfDev();
  }

  const DEVICE: SlaveKey := ("line1", 16)

  predicate AllOnDevice(points: seq<PointConfig>) { forall i :: 0 <= i < |points| ==> KeyOf(points[i]) == DEVICE }

  lemma {:induction false} OneKey(points: seq<PointConfig>)
    requires AllOnDevice(points)
    ensures SlaveKeys(points) == if points == [] then [] else [DEVICE]
  {
    hide KeyOf;
    if points != [] {
      OneKey(points[..|points| - 1]);
    }
  }

  lemma {:induction false} AllItsPoints(points: seq<PointConfig>)
    requires AllOnDevice(points)
    ensures PointsOf(points, DEVICE) == points
  {
    hide KeyOf;
    if points != [] {
      AllItsPoints(points[..|points| - 1]);
    }
  }

  lemma OneDevice(points: seq<PointConfig>)
    requires AllOnDevice(points) && points != []
    ensures SlaveKeys(points) == [DEVICE] && KeysOn([DEVICE], "line1") == [DEVICE] && PointsOf(points, DEVICE) == points
  {
    hide KeyOf, SlaveKeys, PointsOf, AllOnDevice;
    OneKey(points);
    AllItsPoints(points);
    assert [DEVICE][..0] == [];
  }

  lemma ThenPoll(config: GatewayConfig, floats: Floats, events: seq<Event>, bus: string, exchange: Result<OwenFrame>)
    requires Enabled(config, Reached(config, floats, events), ExchangeStart(bus))
    ensures var s := Reached(config, floats, events);
            Reached(config, floats, events + Poll(bus, exchange)) ==
            ApplyOutcome(config, s, bus, Classify(floats, CurrentPoint(config, s, bus), exchange))
  {
    hide Run, Step, Start, Poll, Enabled, ApplyOutcome, Classify, CurrentPoint;
    assert AtPoint(config, Reached(config, floats, events), bus) by { AsksAtPoint(config, Reached(config, floats, events), bus); }
    RunConcat(config, floats, Start(config, floats), events, Poll(bus, exchange));
    PollIsOutcome(config, floats, Reached(config, floats, events), bus, exchange);
  }

  lemma AsksAtPoint(config: GatewayConfig, s: State, bus: string)
    requires Enabled(config, s, ExchangeStart(bus))
    ensures AtPoint(config, s, bus)
  {}

  lemma StartIsQuiet(config: GatewayConfig, floats: Floats)
    ensures Quiet(Start(config, floats).store)
    ensures Start(config, floats) == NO_STATE.(store := Start(config, floats).store)
  {
    hide PublishAll, StartWrites;
    QuietAfterAll(NO_STATE.store, StartWrites(config, floats));
  }

  /** A configuration whose line `line1` has one device with these points. */
  ghost predicate HasDevice(config: GatewayConfig, points: seq<PointConfig>) {
    config.points == points && 1 <= |points| <= 2 && forall i :: 0 <= i < |points| ==> IsDev(points[i])
  }

  /** After the first point's reply. */
  lemma AfterGoodReply(config: GatewayConfig, floats: Floats, points: seq<PointConfig>)
    requires HasDevice(config, points) && points[0].publishToModbus
    ensures var s := Reached(config, floats, Poll("line1", GoodReply()));
            && s.pointValues == map[points[0].name := Some(Int(0x1234))]
            && s.pointStates == map[points[0].name := INITIAL_POINT_STATE.(channelStatus := CHANNEL_OK)]
            && Quiet(s.store)
            && PollerIn(s.pollers, "line1") == CYCLE_START.(point := 1)
            && OnDevice(config, s, "line1") && CurrentKey(config, s, "line1") == DEVICE
            && PointsOf(config.points, DEVICE) == points
            && (points[0].channelStatusAddress.Some? ==> At(s.store, StatusCell(points[0])) == CHANNEL_OK)
            && (points[0].channelStatusAddress.None? ==>
                  At(s.store, Cell(16, HoldingRegister, points[0].modbusAddress)) == 0x1234)
            && DeviceIn(s.deviceStates, DEVICE) == INITIAL_DEVICE_STATE.(success := 1)
  {
    hide PublishAll, MetadataWrites, ValueWrites, Classify, StartWrites, SlaveKeys, KeysOn, PointsOf, Poll, Run;
    var start := Start(config, floats);
    OneDevice(points);
    NoEvents(config, floats);
    assert [] + Poll("line1", GoodReply()) == Poll("line1", GoodReply());
    StartIsQuiet(config, floats);
    GoodReplySucceeds(floats, points[0]);
    assert AtPoint(config, start, "line1") && CurrentPoint(config, start, "line1") == points[0];
    ThenPoll(config, floats, [], "line1", GoodReply());
    ValueIsShown(config, start, "line1", Int(0x1234), [0x1234], None);
    QuietAfterAll(start.store, ValueWrites(points[0], [0x1234]) + MetadataWrites(points[0], None, CHANNEL_OK));
    if points[0].channelStatusAddress.None? {
      ValueAlone(start.store, points[0], [0x1234]);
    }
  }

  lemma ValueAlone(store: Store, p: PointConfig, words: seq<word>)
    requires Bare(p) && |words| == 1
    ensures var writes := ValueWrites(p, words) + MetadataWrites(p, None, CHANNEL_OK);
            && At(PublishAll(store, writes), Cell(16, HoldingRegister, p.modbusAddress)) == words[0]
            && forall c :: c != Cell(16, HoldingRegister, p.modbusAddress) ==> At(PublishAll(store, writes), c) == At(store, c)
  {
    hide PublishAll;
    var writes := ValueWrites(p, words) + MetadataWrites(p, None, CHANNEL_OK);
    assert writes == [Write(16, HoldingRegister, p.modbusAddress, words)];
    LastPublishHolds(store, writes, 0, Cell(16, HoldingRegister, p.modbusAddress));
    forall c | c != Cell(16, HoldingRegister, p.modbusAddress) ensures At(PublishAll(store, writes), c) == At(store, c) {
      PublishedElsewhere(store, writes, c);
    }
  }

  /* ---------- A value under the point's own channel status ---------- */

  /** The validator accepts a point whose channel status lies on its own value; after one good
      reply the register holds the status, and the value is only in the cache. */
  lemma OwnStatusOverwritesValue(floats: Floats)
    ensures var p := DevPoint("p", 16, true, Some(16));
            var s := Reached(Small([p]), floats, Poll("line1", GoodReply()));
            && Accepts(Small([p])) && Quiet(s.store)
            && ValueIn(s.pointValues, "p") == Some(Int(0x1234))
            && At(s.store, Cell(16, HoldingRegister, 16)) == CHANNEL_OK
  {
    var p := DevPoint("p", 16, true, Some(16));
    OnePointIsAccepted(p);
    AfterGoodReply(Small([p]), floats, [p]);
  }

  /* ---------- A value under the logic mask ---------- */

  lemma RecordsOffMask(config: GatewayConfig, floats: Floats, s: State, key: SlaveKey, c: Cell)
    requires c == Cell(key.1, HoldingRegister, MASK_REGISTER) && key.1 != SERVICE_SLAVE_ID
    requires MASK_REGISTER !in ReservedCells(config, HoldingRegister)
    ensures forall i :: 0 <= i < |RecordWrites(config, floats, s, key)| ==>
              c !in CellsOf(RecordWrites(config, floats, s, key)[i])
  {
    hide RecordWrites, StatusCells, TelemetryCells, CellsFrom, AggregateStatus;
    var writes, regions := RecordWrites(config, floats, s, key), RecordRegions(config, floats, s, key);
    RecordPlaced(config, floats, s, key);
    forall i | 0 <= i < |writes| ensures c !in CellsOf(writes[i]) {
      assert Within(config, writes[i], regions[i]);
      assert regions[i].StatusRegion? || regions[i].TelemetryRegion? || regions[i].LineRegion?;
    }
  }

  /** In every configuration and state: closing a device writes its new mask to register 48,
      whatever the register held. */
  lemma CloseWritesMask(config: GatewayConfig, floats: Floats, s: State, bus: string)
    requires OnDevice(config, s, bus) && CurrentKey(config, s, bus).1 != SERVICE_SLAVE_ID
    requires MASK_REGISTER !in ReservedCells(config, HoldingRegister)
    ensures var key, after := CurrentKey(config, s, bus), CloseDevice(config, floats, s, bus);
            && LogicMaskIn(after.logicMasks, key) < 0x100
            && At(after.store, Cell(key.1, HoldingRegister, MASK_REGISTER)) == LogicMaskIn(after.logicMasks, key)
            && after.pointValues == s.pointValues && after.store.pending == s.store.pending
  {
    hide CurrentKey, RecordWrites, PublishAll, NextMask, DevicesOn, PollerIn, DeviceIn, NextDevice, AggregateStatus, CellsFrom,
         Assigned;
    var key, poller := CurrentKey(config, s, bus), PollerIn(s.pollers, bus);
    var status := DeviceStatus(|PointsOf(config.points, key)|, poller.failures, poller.protocolFailures);
    var masked := PublishMask(config, s, key);
    var recorded := Recorded(config, masked, key, status, poller.lastErrorCode);
    var c := Cell(key.1, HoldingRegister, MASK_REGISTER);
    RecordsOffMask(config, floats, recorded, key, c);
    PublishedElsewhere(masked.store, RecordWrites(config, floats, recorded, key), c);
    AssignedHere(s.store.registers, MaskWrite(key.1, NextMask(config, s, key)), c);
  }

  /** The validator accepts a point on register 48; after one good reply and the end of the
      cycle the register holds the mask, which is below 256, and the value 0x1234 is only in
      the cache. */
  lemma MaskOverwritesValue(floats: Floats)
    ensures var p := DevPoint("p", MASK_REGISTER, true, None);
            var s := Reached(Small([p]), floats, Poll("line1", GoodReply()) + [DeviceEnd("line1")]);
            && Accepts(Small([p])) && s.store.pending == []
            && ValueIn(s.pointValues, "p") == Some(Int(0x1234))
            && At(s.store, Cell(16, HoldingRegister, MASK_REGISTER)) < 0x100
  {
    hide Reached, Step, CloseDevice, CurrentKey, OnDevice, PointsOf;
    var p := DevPoint("p", MASK_REGISTER, true, None);
    var first := Poll("line1", GoodReply());
    OnePointIsAccepted(p);
    ServiceCellsOf([p]);
    AfterGoodReply(Small([p]), floats, [p]);
    var s := Reached(Small([p]), floats, first);
    ThenEvent(Small([p]), floats, first, DeviceEnd("line1"));
    ClosesDevice(Small([p]), floats, s, "line1");
    CloseWritesMask(Small([p]), floats, s, "line1");
  }

  lemma ClosesDevice(config: GatewayConfig, floats: Floats, s: State, bus: string)
    requires AtDeviceEnd(config, s, bus)
    ensures Step(config, floats, s, DeviceEnd(bus)) == CloseDevice(config, floats, s, bus)
  {
    hide CloseDevice, AtDeviceEnd;
  }

  /* ---------- A value under the channel status of a point that is not published ---------- */

  /** The validator does not compare the addresses of a point that is not published: here its
      channel status, written when it times out, takes the place of another point's value. */
  lemma HiddenStatusOverwritesValue(floats: Floats)
    ensures var p, q := DevPoint("p", 16, true, None), DevPoint("q", 20, false, Some(16));
            var s := Reached(Small([p, q]), floats, Poll("line1", GoodReply()) + Poll("line1", Err(Timeout)));
            && Accepts(Small([p, q])) && s.store.pending == []
            && ValueIn(s.pointValues, "p") == Some(Int(0x1234))
            && At(s.store, Cell(16, HoldingRegister, 16)) == CHANNEL_COMM_ERROR
  {
    hide Reached, Step, Accepts, CurrentKey, OnDevice, PointsOf;
    var p, q := DevPoint("p", 16, true, None), DevPoint("q", 20, false, Some(16));
    var config := Small([p, q]);
    var first := Poll("line1", GoodReply());
    TwoPointsAreAccepted(p, q);
    AfterGoodReply(config, floats, [p, q]);
    var s := Reached(config, floats, first);
    ThenPoll(config, floats, first, "line1", Err(Timeout));
    TimesOut(config, floats, s, "line1", q);
  }

  lemma TimesOut(config: GatewayConfig, floats: Floats, s: State, bus: string, q: PointConfig)
    requires AtPoint(config, s, bus) && CurrentPoint(config, s, bus) == q && q.channelStatusAddress.Some?
    requires PointStateIn(s.pointStates, q.name) == INITIAL_POINT_STATE && config.health.faultAfterFailures > 1
    ensures var after := ApplyOutcome(config, s, bus, Classify(floats, q, Err(Timeout)));
            && after.pointValues == s.pointValues && after.store.pending == s.store.pending
            && At(after.store, StatusCell(q)) == Stored(q.registerType, CHANNEL_COMM_ERROR)
  {
    hide CurrentPoint, AtPoint, PublishAll, MetadataWrites, Stored, PollerIn, DeviceIn;
    FailureIsShown(config, s, bus, NoReply);
    PendingAfterAll(s.store, MetadataWrites(q, None, CHANNEL_COMM_ERROR));
  }

  /** A point that is not published has its channel status at 100. The block made for the
      configuration has 50 registers; when the point times out, the block grows by the status
      and still has no register for 100. */
  lemma HiddenStatusEscapes(floats: Floats)
    ensures var p, q := DevPoint("p", 16, true, None), DevPoint("q", 20, false, Some(100));
            var config := Small([p, q]);
            var events := Poll("line1", GoodReply()) + Poll("line1", Err(Timeout));
            var block := RunBlock(config, floats, 50, events, 16, HoldingRegister);
            && Accepts(config) && Sizes(50, TouchedCells(config, HoldingRegister))
            && |block| == 51 && block[50] == CHANNEL_COMM_ERROR
  {
    hide Reached, Accepts, TouchedCells, Sizes, RunBlock, InsideRun, StepWrites, SliceAssign;
    var p, q := DevPoint("p", 16, true, None), DevPoint("q", 20, false, Some(100));
    var config := Small([p, q]);
    var before := Poll("line1", GoodReply()) + [ExchangeStart("line1")];
    var last := PointReply("line1", Err(Timeout));
    TwoPointsAreAccepted(p, q);
    assert Sizes(50, TouchedCells(config, HoldingRegister)) by { SmallIsSized(p, q); }
    OnlyGoodTurns(config, floats, p, q);
    BlockKeepsSize(config, floats, before, 16, HoldingRegister, 50);
    var values := RunBlock(config, floats, 50, before, 16, HoldingRegister);
    assert Poll("line1", GoodReply()) + Poll("line1", Err(Timeout)) == before + [last];
    OneMoreBlock(config, floats, 50, before, last, 16, HoldingRegister);
    WritesHiddenStatus(config, floats, p, q);
    PublishLandsExactly(values, 100, CHANNEL_COMM_ERROR);
    OneBlockWrite(values, Write(16, HoldingRegister, 100, [CHANNEL_COMM_ERROR]), 16, HoldingRegister);
  }

  lemma SmallIsSized(p: PointConfig, q: PointConfig)
    requires p == DevPoint(p.name, 16, true, None) && !q.publishToModbus
    ensures Sizes(50, TouchedCells(Small([p, q]), HoldingRegister))
  {
    SmallTouches(p, q);
  }

  lemma OneMoreBlock(config: GatewayConfig, floats: Floats, size: nat, before: seq<Event>, last: Event, slave: int,
                     t: RegisterType)
    ensures RunBlock(config, floats, size, before + [last], slave, t) ==
            BlockAfterAll(RunBlock(config, floats, size, before, slave, t),
                          StepWrites(config, floats, Reached(config, floats, before), last), slave, t)
  {
    hide StepWrites, Reached, BlockAfterAll, StartWrites;
    assert (before + [last])[..|before|] == before;
  }

  lemma OneBlockWrite(values: seq<word>, w: Write, slave: int, t: RegisterType)
    requires w.slave == slave && w.registerType == t && w.address >= 0 && t.HoldingRegister?
    ensures BlockAfterAll(values, [w], slave, t) == SliceAssign(values, w.address + 1, w.words)
  {
    hide SliceAssign;
    assert [w][1..] == [];
    assert Contents(w) == w.words;
  }

  lemma FirstTurn(config: GatewayConfig, floats: Floats, p: PointConfig, q: PointConfig)
    requires config == Small([p, q]) && IsDev(p) && IsDev(q)
    ensures var s := Reached(config, floats, []);
            AtPoint(config, s, "line1") && CurrentPoint(config, s, "line1") == p && Enabled(config, s, ExchangeStart("line1"))
  {
    hide SlaveKeys, PointsOf, KeysOn, StartWrites, PublishAll;
    OneDevice([p, q]);
    StartIsQuiet(config, floats);
    NoEvents(config, floats);
  }

  /** Until the second reply only the published point has had a turn. */
  lemma OnlyGoodTurns(config: GatewayConfig, floats: Floats, p: PointConfig, q: PointConfig)
    requires config == Small([p, q]) && Accepts(config) && IsDev(p) && IsDev(q) && p.publishToModbus
    ensures InsideRun(config, floats, Poll("line1", GoodReply()) + [ExchangeStart("line1")], 16, HoldingRegister, 50)
  {
    hide Accepts, MetadataInside, AtPoint, CurrentPoint, Reached;
    var events := Poll("line1", GoodReply()) + [ExchangeStart("line1")];
    PublishedMetadataInside(config, p, 16, HoldingRegister);
    FirstTurn(config, floats, p, q);
    assert events[..0] == [] && events[..1] == [] + [ExchangeStart("line1")];
    ThenEvent(config, floats, [], ExchangeStart("line1"));
    BegunAtSamePoint(config, Reached(config, floats, []), "line1");
    assert TurnInside(config, Reached(config, floats, events[..1]), events[1], 16, HoldingRegister);
  }

  /** The second reply writes the status and nothing else. */
  lemma WritesHiddenStatus(config: GatewayConfig, floats: Floats, p: PointConfig, q: PointConfig)
    requires p == DevPoint("p", 16, true, None) && q == DevPoint("q", 20, false, Some(100)) && config == Small([p, q])
    ensures var s := Reached(config, floats, Poll("line1", GoodReply()) + [ExchangeStart("line1")]);
            StepWrites(config, floats, s, PointReply("line1", Err(Timeout))) ==
            [Write(16, HoldingRegister, 100, [CHANNEL_COMM_ERROR])]
  {
    hide Reached, PublishAll, PointsOf, CurrentKey, OnDevice;
    AfterGoodReply(config, floats, [p, q]);
    var s := Reached(config, floats, Poll("line1", GoodReply()));
    ThenEvent(config, floats, Poll("line1", GoodReply()), ExchangeStart("line1"));
    assert AtPoint(config, s, "line1") && CurrentPoint(config, s, "line1") == q;
    BegunAtSamePoint(config, s, "line1");
  }

  lemma SmallTouches(p: PointConfig, q: PointConfig)
    requires p == DevPoint(p.name, 16, true, None) && !q.publishToModbus
    ensures TouchedCells(Small([p, q]), HoldingRegister) == {1, 2, 3, 4, 5, 6, 16, 48}
  {
    assert [p, q][..1] == [p] && [p][..0] == [];
    assert TouchedByPoints([p], REGISTER_TYPES) == Range(16, 1);
    assert TouchedByPoints([p, q], REGISTER_TYPES) == TouchedByPoints([p], REGISTER_TYPES);
    assert [MASK_REGISTER][0] in Elements([MASK_REGISTER]);
    assert Elements([MASK_REGISTER]) == {48};
    assert Range(16, 1) == {16} && Range(1, 1) == {1};
  }

  /* ---------- Shared telemetry registers ---------- */

  function SharedTelemetry(p: PointConfig): GatewayConfig {
    Small([p]).(telemetry := TelemetryConfig(true, HoldingRegister, 2, 2, 2, 2, 2))
  }

  lemma SharedTelemetryIsAccepted(p: PointConfig)
    requires p == DevPoint("p", 16, true, None)
    ensures Accepts(SharedTelemetry(p))
  {
    hide Accepts;
    DevPointOk(p, [p]);
    assert ReservedCells(SharedTelemetry(p), HoldingRegister) == {1, 2} by { assert Range(1, 1) == {1}; }
    SinglePointIsAccepted(SharedTelemetry(p), p);
  }

  /** The validator accepts telemetry values that share a register; after one good reply the
      register cannot be both the number of successes, one, and the error code, zero. */
  lemma SharedTelemetryLoses(floats: Floats)
    ensures var p := DevPoint("p", 16, true, None);
            var config := SharedTelemetry(p);
            var s := Reached(config, floats, Poll("line1", GoodReply()));
            Accepts(config) && !TelemetryHolds(config, s.store, 16, DeviceValues(DeviceIn(s.deviceStates, DEVICE)))
  {
    hide Reached, Accepts, CurrentKey, OnDevice, PointsOf, TelemetryHolds;
    var p := DevPoint("p", 16, true, None);
    SharedTelemetryIsAccepted(p);
    AfterGoodReply(SharedTelemetry(p), floats, [p]);
    var s := Reached(SharedTelemetry(p), floats, Poll("line1", GoodReply()));
    NotBoth(SharedTelemetry(p), s.store, DeviceValues(DeviceIn(s.deviceStates, DEVICE)));
  }

  lemma NotBoth(config: GatewayConfig, store: Store, values: seq<word>)
    requires |values| == 5 && values[0] == 0 && values[1] == 1
    requires config.telemetry == TelemetryConfig(true, HoldingRegister, 2, 2, 2, 2, 2)
    ensures !TelemetryHolds(config, store, 16, values)
  {
    var a := Addresses(config.telemetry);
    assert Cell(16, HoldingRegister, a[0]) == Cell(16, HoldingRegister, a[1]);
  }

  /* ---------- A point that cannot be polled ---------- */

  lemma WideAddressIsAccepted(p: PointConfig)
    requires p == DevPoint("p", 16, true, None).(address := 256)
    ensures Accepts(Small([p]))
  {
    hide Accepts;
    DevPointOk(DevPoint("p", 16, true, None), [p]);
    ServiceCellsOf([p]);
    SinglePointIsAccepted(Small([p]), p);
  }

  /** The validator accepts an address above 255 on a line with eight-bit addresses. */
  lemma WideAddressCannotBePolled()
    ensures var p := DevPoint("p", 16, true, None).(address := 256);
            && Accepts(Small([p])) && LINE.serial.addressBits == 8
            && HashParameterName(p.parameter).Ok? && PollRequest(p, 8) == Err(ValueFault)
  {
    hide HashParameterName, Accepts, BuildReadFrame;
    WideAddressIsAccepted(DevPoint("p", 16, true, None).(address := 256));
    HashOfDev();
  }

  /* ---------- A status type without registers ---------- */

  /** The validator accepts a status type that has no registers, if the status registers are
      in a block of their own: not even the first status, published at start-up, has any. */
  lemma UnpublishableStatusIsAccepted(floats: Floats)
    ensures var status := StatusConfig(true, InputRegister, 1, StoredDotType);
            var config := Small([DevPoint("p", 16, true, None)]).(status := status);
            && Accepts(config) && !HasRegisters(config.status.dataType)
            && EncodeRegisters(floats, Int(STATUS_OFFLINE), config.status.dataType).Err?
  {
    OnePointIsAccepted(DevPoint("p", 16, true, None));
  }

  /* ---------- Two points of one name ---------- */

  lemma SameNameIsAccepted(p: PointConfig, q: PointConfig)
    requires Bare(p) && Bare(q) && OffService(p) && OffService(q) && p.modbusAddress != q.modbusAddress
    ensures Accepts(Small([p, q]))
  {
    hide BusNames, SharedOk, BusesOk, PointFieldsOk, MappingOk;
    OneLine();
    ServiceCellsOf([p, q]);
    DevPointOk(p, [p, q]);
    DevPointOk(q, [p, q]);
  }

  lemma Succeeds(config: GatewayConfig, floats: Floats, s: State, bus: string, q: PointConfig)
    requires AtPoint(config, s, bus) && CurrentPoint(config, s, bus) == q && Bare(q)
    ensures var after := ApplyOutcome(config, s, bus, Classify(floats, q, OtherReply()));
            && ValueIn(after.pointValues, q.name) == Some(Int(1)) && after.store.pending == s.store.pending
            && forall c :: c != Cell(16, HoldingRegister, q.modbusAddress) ==> At(after.store, c) == At(s.store, c)
  {
    hide CurrentPoint, AtPoint, PublishAll, MetadataWrites, ValueWrites, PollerIn, DeviceIn, Classify;
    OtherReplySucceeds(floats, q);
    ValueAlone(s.store, q, [1]);
    PendingAfterAll(s.store, ValueWrites(q, [1]) + MetadataWrites(q, None, CHANNEL_OK));
  }

  function OtherReply(): Result<OwenFrame> { Ok(OwenFrame(128, false, RegisterValue(0xD681), [0x00, 0x01])) }

  lemma OtherReplySucceeds(floats: Floats, p: PointConfig)
    requires Bare(p)
    ensures Classify(floats, p, OtherReply()) == Succeeded(Int(1), [1], None)
  {
    hide HashParameterName;
    HashOfDev();
  }

  /** The validator accepts two points of one name, which share a cached value: here it is
      the second's, and the first's register holds another. */
  lemma SharedNameDisagrees(floats: Floats)
    ensures var p, q := DevPoint("p", 16, true, None), DevPoint("p", 20, true, None);
            var s := Reached(Small([p, q]), floats, Poll("line1", GoodReply()) + Poll("line1", OtherReply()));
            && Accepts(Small([p, q])) && s.store.pending == []
            && ValueIn(s.pointValues, p.name) == Some(Int(1))
            && At(s.store, Cell(16, HoldingRegister, 16)) == 0x1234
  {
    hide Reached, Step, Accepts, CurrentKey, OnDevice, PointsOf;
    var p, q := DevPoint("p", 16, true, None), DevPoint("p", 20, true, None);
    var config := Small([p, q]);
    var first := Poll("line1", GoodReply());
    SameNameIsAccepted(p, q);
    AfterGoodReply(config, floats, [p, q]);
    ThenPoll(config, floats, first, "line1", OtherReply());
    Succeeds(config, floats, Reached(config, floats, first), "line1", q);
  }

  /* ---------- A line without devices ---------- */

  const SECOND_LINE := LINE.(name := "line2")

  function TwoLines(p: PointConfig): GatewayConfig { Small([p]).(buses := [LINE, SECOND_LINE]) }

  lemma TwoLinesAreAccepted()
    ensures Accepts(TwoLines(DevPoint("p", 16, true, None)))
  {
    var p := DevPoint("p", 16, true, None);
    var config := TwoLines(p);
    assert config.buses[0].name in BusNames(config.buses);
    OnePointIsAccepted(p);
    assert SharedOk(config) && MappingOk(config, p) by {
      ServiceCellsOf([p]);
      DevPointOk(p, [p]);
    }
    assert PointFieldsOk(BusNames([LINE]), p);
  }

  lemma ClosesWell(config: GatewayConfig, floats: Floats, s: State, bus: string)
    requires OnDevice(config, s, bus) && PollerIn(s.pollers, bus).failures == 0
    ensures DeviceIn(CloseDevice(config, floats, s, bus).deviceStates, CurrentKey(config, s, bus)).status == STATUS_OK
  {
    hide CurrentKey, RecordWrites, PublishAll, PublishMask, DevicesOn, PollerIn, NextDevice, AggregateStatus;
  }

  /** The validator accepts a line without devices; after the only device answered and is OK,
      the gateway's status is not the aggregate over all devices. */
  lemma EmptyLineDegrades(floats: Floats)
    ensures var config := TwoLines(DevPoint("p", 16, true, None));
            var s := Reached(config, floats, Poll("line1", GoodReply()) + [DeviceEnd("line1")]);
            && Accepts(config) && SlaveKeys(config.points) == [DEVICE]
            && DeviceIn(s.deviceStates, DEVICE).status == STATUS_OK
            && AggregateStatus(LineStatuses(s.busStatuses, config.buses)) != AggregateStatus(Flatten(DeviceGroups(config, s)))
  {
    hide Reached, Step, Accepts, CurrentKey, OnDevice, PointsOf, CloseDevice, AggregateStatus, Flatten, SlaveKeys, KeysOn,
         LineStatuses;
    var p := DevPoint("p", 16, true, None);
    var config := TwoLines(p);
    var first, second := Poll("line1", GoodReply()), DeviceEnd("line1");
    TwoLinesAreAccepted();
    OneDevice([p]);
    NobodyOn("line2");
    AfterGoodReply(config, floats, [p]);
    ThenEvent(config, floats, first, second);
    ClosesDevice(config, floats, Reached(config, floats, first), "line1");
    ClosesWell(config, floats, Reached(config, floats, first), "line1");
    GatewayStatusIsFlat(config, floats, first + [second]);
    assert HasDevices(config, config.buses[0].name) && !HasDevices(config, config.buses[1].name);
    assert EveryDeviceHas(config, Reached(config, floats, first + [second]), STATUS_OK);
  }

  lemma NobodyOn(bus: string)
    requires bus != "line1"
    ensures KeysOn([DEVICE], bus) == []
  {
    assert [DEVICE][..0] == [];
  }

  /* ---------- A write the device took and the gateway refuses ---------- */

  function ReadBackOf5(): Result<OwenFrame> { Ok(OwenFrame(128, false, RegisterValue(0xD681), [0x00, 0x05])) }

  function AckAsRequest(): Result<Option<OwenFrame>> { Ok(Some(OwenFrame(128, true, RegisterValue(0xD681), [0x00, 0x05]))) }

  lemma ConfirmedButRefused(floats: Floats, p: PointConfig)
    requires p == DevPoint("p", 16, true, None).(writable := true)
    ensures var readBacks := [ReadBackOf5(), ReadBackOf5(), ReadBackOf5()];
            && Verify(floats, p, Int(5), readBacks) == Ok(Int(5))
            && WriteOutcome(floats, p, [5], AckAsRequest(), readBacks).Err?
  {
    hide HashParameterName;
  }

  lemma WritableIsAccepted(p: PointConfig)
    requires p == DevPoint("p", 16, true, None).(writable := true)
    ensures Accepts(Small([p])) && WritableAt([p], 16, 16, 1) == Some(p)
  {
    hide Accepts;
    DevPointOk(DevPoint("p", 16, true, None), [p]);
    ServiceCellsOf([p]);
    SinglePointIsAccepted(Small([p]), p);
  }

  /** The device confirms a written value in every read-back, but because the write's own
      reply has its request bit set the write is refused and the registers are restored. */
  lemma ConfirmedWriteIsRefused(floats: Floats)
    ensures var p := DevPoint("p", 16, true, None).(writable := true);
            var config := Small([p]);
            var readBacks := [ReadBackOf5(), ReadBackOf5(), ReadBackOf5()];
            var start := Start(config, floats);
            var s := Reached(config, floats, [ClientRegisters(16, 16, [5]), HandlerEnd(0, AckAsRequest(), readBacks)]);
            && Accepts(config) && WritableAt(config.points, 16, 16, 1) == Some(p)
            && FirstConfirming(floats, p, Int(5), readBacks) == Some(Int(5))
            && Taken(floats, p, [5], AckAsRequest(), readBacks) == None
            && s == start.(store := s.store) && forall c :: At(s.store, c) == At(start.store, c)
  {
    hide Reached, Step, Accepts, Start, WriteOutcome, Verify, WritableAt, AckAsRequest, ReadBackOf5,
         Taken, FirstConfirming;
    var p := DevPoint("p", 16, true, None).(writable := true);
    var config := Small([p]);
    var readBacks := [ReadBackOf5(), ReadBackOf5(), ReadBackOf5()];
    var arrives, ends := ClientRegisters(16, 16, [5]), HandlerEnd(0, AckAsRequest(), readBacks);
    WritableIsAccepted(p);
    ConfirmedButRefused(floats, p);
    VerifyTakesFirst(floats, p, Int(5), readBacks);
    OutcomeIsTaken(floats, p, [5], AckAsRequest(), readBacks);
    StartIsQuiet(config, floats);
    NoEvents(config, floats);
    assert [] + [arrives] == [arrives] && [arrives] + [ends] == [arrives, ends];
    ThenEvent(config, floats, [], arrives);
    ThenEvent(config, floats, [arrives], ends);
    RefusedWriteLeavesNoTrace(config, floats, Start(config, floats), 16, 16, [5], AckAsRequest(), readBacks);
  }

  /* ---------- A reply that does not fit its registers ---------- */

  function MisfitReply(): Result<OwenFrame> { Ok(OwenFrame(128, false, RegisterValue(0xD681), [0xFF])) }

  lemma MisfitIsGarbled(floats: Floats, p: PointConfig)
    requires p == DevPoint("p", 16, true, None).(protocolFormat := Int16Format)
    ensures Classify(floats, p, MisfitReply()) == Garbled(ERROR_DECODE, Some(Int(-1)))
  {
    hide HashParameterName;
    HashOfDev();
  }

  lemma MisfitIsAccepted(p: PointConfig)
    requires p == DevPoint("p", 16, true, None).(protocolFormat := Int16Format)
    ensures Accepts(Small([p]))
  {
    hide Accepts;
    DevPointOk(DevPoint("p", 16, true, None), [p]);
    ServiceCellsOf([p]);
    SinglePointIsAccepted(Small([p]), p);
  }

  /** The validator accepts a signed format with an unsigned register type; a reply of -1 is
      cached although it has no registers. */
  lemma MisfitIsCached(floats: Floats)
    ensures var p := DevPoint("p", 16, true, None).(protocolFormat := Int16Format);
            var s := Reached(Small([p]), floats, Poll("line1", MisfitReply()));
            && Accepts(Small([p])) && ValueIn(s.pointValues, "p") == Some(Int(-1))
            && EncodeRegisters(floats, Int(-1), p.modbusDataType).Err?
  {
    hide Accepts, PublishAll, MetadataWrites, Classify, StartWrites, SlaveKeys, KeysOn, PointsOf, HashParameterName,
         AfterFailure;
    var p := DevPoint("p", 16, true, None).(protocolFormat := Int16Format);
    var config := Small([p]);
    MisfitIsAccepted(p);
    OneDevice([p]);
    NoEvents(config, floats);
    assert [] + Poll("line1", MisfitReply()) == Poll("line1", MisfitReply());
    StartIsQuiet(config, floats);
    MisfitIsGarbled(floats, p);
    assert AtPoint(config, Start(config, floats), "line1") && CurrentPoint(config, Start(config, floats), "line1") == p;
    ThenPoll(config, floats, [], "line1", MisfitReply());
  }

  /* ---------- A write kept on a failed point ---------- */

  const WATCHED: PointConfig := DevPoint("p", 16, true, Some(20)).(writable := true)

  /** One failure makes a point failed; every second cycle it is asked again. */
  const STRICT: GatewayConfig := Small([WATCHED]).(health := HealthConfig(1, 2))

  function GoodAck(): Result<Option<OwenFrame>> { Ok(Some(OwenFrame(128, false, RegisterValue(0xD681), [0x00, 0x05]))) }

  function Confirmed(): Event { HandlerEnd(0, GoodAck(), [ReadBackOf5(), ReadBackOf5(), ReadBackOf5()]) }

  lemma StrictIsAccepted()
    ensures Accepts(STRICT)
  {
    hide Accepts;
    DevPointOk(DevPoint("p", 16, true, Some(20)), [WATCHED]);
    ServiceCellsOf([WATCHED]);
    SinglePointIsAccepted(STRICT, WATCHED);
  }

  /** A timeout, and the end of the cycle: the point will be passed over once. */
  lemma AfterTheTimeout(floats: Floats)
    ensures var s := Reached(STRICT, floats, Poll("line1", Err(Timeout)) + [DeviceEnd("line1")]);
            && PointStateIn(s.pointStates, "p") == PointState(1, CHANNEL_FAILED, 1) && s.store.pending == []
            && AtPoint(STRICT, s, "line1") && CurrentPoint(STRICT, s, "line1") == WATCHED
            && !PollerIn(s.pollers, "line1").waiting
  {
    hide PublishAll, MetadataWrites, StartWrites, SlaveKeys, KeysOn, PointsOf, RecordWrites, NextMask;
    var start := Start(STRICT, floats);
    OneDevice([WATCHED]);
    NoEvents(STRICT, floats);
    assert [] + Poll("line1", Err(Timeout)) == Poll("line1", Err(Timeout));
    StartIsQuiet(STRICT, floats);
    assert AtPoint(STRICT, start, "line1") && CurrentPoint(STRICT, start, "line1") == WATCHED;
    ThenPoll(STRICT, floats, [], "line1", Err(Timeout));
    PendingAfterAll(start.store, MetadataWrites(WATCHED, None, CHANNEL_FAILED));
    var s := Reached(STRICT, floats, Poll("line1", Err(Timeout)));
    assert PointStateIn(s.pointStates, "p") == PointState(1, CHANNEL_FAILED, 1);
    ThenEvent(STRICT, floats, Poll("line1", Err(Timeout)), DeviceEnd("line1"));
    EndGoesOn(STRICT, floats, s, "line1");
    ClosePending(STRICT, floats, s, "line1");
  }

  lemma ConfirmedAndKept(floats: Floats)
    ensures WritableAt(STRICT.points, 16, 16, 1) == Some(WATCHED)
    ensures WriteOutcome(floats, WATCHED, [5], GoodAck(), [ReadBackOf5(), ReadBackOf5(), ReadBackOf5()]) == Ok(Int(5))
    ensures PublishedWords(floats, WATCHED, Int(5)) == Ok([5])
  {
    hide HashParameterName;
    HashOfDev();
    assert Verify(floats, WATCHED, Int(5), [ReadBackOf5(), ReadBackOf5(), ReadBackOf5()]) == Ok(Int(5));
  }

  /** A client's write to it, confirmed by the device, is kept. */
  lemma KeptOnStrict(floats: Floats, s: State)
    requires s.store.pending == []
    ensures var after := Step(STRICT, floats, Step(STRICT, floats, s, ClientRegisters(16, 16, [5])), Confirmed());
            && after.pollers == s.pollers && after.store.pending == []
            && PointStateIn(after.pointStates, "p") == AfterSuccess(PointStateIn(s.pointStates, "p"))
  {
    hide PublishAll, MetadataWrites, ValueWrites, NextMask, Assigned, WritableAt, WriteOutcome, PublishedWords, ReadBackOf5,
         GoodAck;
    var readBacks := [ReadBackOf5(), ReadBackOf5(), ReadBackOf5()];
    var written := Step(STRICT, floats, s, ClientRegisters(16, 16, [5]));
    ConfirmedAndKept(floats);
    HandlerPending(STRICT, floats, written, 0, GoodAck(), readBacks);
  }

  /** In an accepted configuration: a point fails, a client's write to it is confirmed and
      kept, and when the poller next passes the point over its channel status register says
      failed, while its record says that it is well. */
  lemma KeptWriteIsPassedOver(floats: Floats)
    ensures var s := Reached(STRICT, floats, Poll("line1", Err(Timeout)) +
                       [DeviceEnd("line1")] + [ClientRegisters(16, 16, [5])] + [Confirmed()] + [SkipPoint("line1")]);
            && Accepts(STRICT) && s.store.pending == []
            && PointStateIn(s.pointStates, "p") == PointState(0, CHANNEL_OK, 0)
            && At(s.store, StatusCell(WATCHED)) == CHANNEL_FAILED
  {
    hide Reached, Step, Accepts, AtPoint, CurrentPoint, Confirmed, PublishAll, MetadataWrites;
    var failed := Poll("line1", Err(Timeout)) + [DeviceEnd("line1")];
    var written := failed + [ClientRegisters(16, 16, [5])];
    var kept := written + [Confirmed()];
    StrictIsAccepted();
    AfterTheTimeout(floats);
    ThenEvent(STRICT, floats, failed, ClientRegisters(16, 16, [5]));
    ThenEvent(STRICT, floats, written, Confirmed());
    ThenEvent(STRICT, floats, kept, SkipPoint("line1"));
    KeptOnStrict(floats, Reached(STRICT, floats, failed));
    PassesOver(floats, Reached(STRICT, floats, failed), Reached(STRICT, floats, kept));
  }

  lemma PassesOver(floats: Floats, failed: State, s: State)
    requires AtPoint(STRICT, failed, "line1") && CurrentPoint(STRICT, failed, "line1") == WATCHED
    requires !PollerIn(failed.pollers, "line1").waiting && s.pollers == failed.pollers && s.store.pending == []
    requires PointStateIn(s.pointStates, "p") == PointState(0, CHANNEL_OK, 1)
    ensures var after := Step(STRICT, floats, s, SkipPoint("line1"));
            && PointStateIn(after.pointStates, "p") == PointState(0, CHANNEL_OK, 0) && after.store.pending == []
            && At(after.store, StatusCell(WATCHED)) == CHANNEL_FAILED
  {
    hide PublishAll, MetadataWrites, PointsOf, DevicesOn;
    SkipIsShown(STRICT, s, "line1");
    PendingAfterAll(s.store, MetadataWrites(WATCHED, None, CHANNEL_FAILED));
  }

  /* ---------- One name on two lines ---------- */

  /** A point of the same name on the other line, on a slave id of its own. */
  function Elsewhere(p: PointConfig): PointConfig { p.(bus := "line2", modbusSlaveId := Some(17)) }

  /** The validator accepts one name on two lines, and if a failed point is not asked every
      cycle a run leaves the point well and passed over although no write was kept. */
  lemma SharedLinesRelapse(floats: Floats) returns (events: seq<Event>)
    ensures var p := DevPoint("p", 16, true, None);
            var config := Small([p, Elsewhere(p)]).(buses := [LINE, SECOND_LINE]);
            var state := PointStateIn(Reached(config, floats, events).pointStates, "p");
            && Accepts(config) && CanRelapse(config, "p")
            && Realistic(config, floats, events) && Written !in HealthHistory(config, floats, events, "p")
            && Skipped(state) && state.channelStatus == CHANNEL_DISABLED
  {
    hide Accepts, Reached, Realistic, HealthHistory, CanBeAsked;
    var p := DevPoint("p", 16, true, None);
    var config := Small([p, Elsewhere(p)]).(buses := [LINE, SECOND_LINE]);
    TwinLinesAreAccepted();
    assert CanBeAsked(config, p) by { DevCanBeAsked(config, p); }
    assert Endangers(config, p, Elsewhere(p));
    events := RelapseRun(config, floats, p, Elsewhere(p));
  }

  lemma DevCanBeAsked(config: GatewayConfig, p: PointConfig)
    requires config.buses == [LINE, SECOND_LINE] && p == DevPoint("p", 16, true, None)
    ensures CanBeAsked(config, p)
  {
    hide HashParameterName;
    HashOfDev();
  }

  lemma TwinLinesAreAccepted()
    ensures var p := DevPoint("p", 16, true, None);
            Accepts(Small([p, Elsewhere(p)]).(buses := [LINE, SECOND_LINE]))
  {
    var p := DevPoint("p", 16, true, None);
    var q := Elsewhere(p);
    var config := Small([p, q]).(buses := [LINE, SECOND_LINE]);
    assert config.buses[0].name in BusNames(config.buses) && config.buses[1].name in BusNames(config.buses);
    ServiceCellsOf([p, q]);
    DevPointOk(p, [p, q]);
    assert SharedOk(config) && MappingOk(config, p) && MappingOk(config, q);
    assert PointFieldsOk(BusNames(config.buses), p) && PointFieldsOk(BusNames(config.buses), q);
  }
}
