/** What the telemetry and time mark registers hold throughout a run. */
module TelemetryRuns {
  import opened Core
  import opened Frame
  import opened Payload
  import opened Registers
  import opened Config
  import opened RegisterMap
  import opened Health
  import opened Status
  import opened Gateway
  import opened Replies
  import opened Layout
  import opened Slots
  import opened CacheAgreement
  import opened Reachable
  import opened RegisterStore
  import opened Steps
  import opened Blocks
  import opened Telemetry
  import opened Guarantees

  /** A region that is neither a point's nor a mask is left alone by everything but the end
      of a device. */
  lemma ServiceRegionStays(config: GatewayConfig, floats: Floats, s: State, event: Event, own: Region, w: Write)
    requires Accepts(config) && !event.DeviceEnd? && Private(config, own) && Within(config, w, own)
    requires own.TelemetryRegion? || own.StatusRegion? || own.LineRegion?
    ensures StaysOff(config, floats, s, event, w)
  {
    hide Accepts, Private, Within, StepWrites, HandlerWrites, Publishes, Off, Placed, Covers, PendingCells;
    match event {
      case HandlerEnd(k, ack, readBacks) =>
        if k < |s.store.pending| && Publishes(config, floats, s, k, ack, readBacks) {
          var p, regions := HandlerPlaced(config, floats, s, k, ack, readBacks);
          PlacedIsOff(config, HandlerWrites(config, floats, s, k, ack, readBacks), regions, own, w);
          ValueApart(config, p, own, w, PendingCells(s.store.pending[k]));
        }
      case ExchangeStart(_) =>
        AskingWritesNothing(config, floats, s, event);
        NothingOff(w);
      case ClientRegisters(_, _, _) =>
      case ClientCoils(_, _, _) =>
      case _ =>
        var regions := PointTurnPlaced(config, floats, s, event);
        PlacedIsOff(config, StepWrites(config, floats, s, event), regions, own, w);
    }
  }

  lemma NothingOff(w: Write)
    ensures Off([], w)
  {}

  lemma AskingWritesNothing(config: GatewayConfig, floats: Floats, s: State, event: Event)
    requires event.ExchangeStart?
    ensures StepWrites(config, floats, s, event) == []
  {}

  lemma ValueApart(config: GatewayConfig, p: PointConfig, own: Region, w: Write, cells: set<Cell>)
    requires p in config.points && Private(config, own) && own != ValueRegion(p) && Within(config, w, own)
    requires forall c :: c in cells ==> Covers(config, ValueRegion(p), c)
    ensures cells !! CellsOf(w)
  {
    hide Covers, CellsOf;
    assert Known(config, ValueRegion(p));
  }

  /* ---------- Telemetry ---------- */

  /** The five registers of a slave show these values. */
  ghost predicate FiveShown(config: GatewayConfig, store: Store, slave: int, values: seq<word>)
    requires |values| == 5
  {
    Tracked(store) && forall w :: w in FiveWrites(config, slave, values) ==> Shows(store, w)
  }

  lemma FiveWithin(config: GatewayConfig, slave: int, values: seq<word>, w: Write)
    requires |values| == 5 && w in FiveWrites(config, slave, values)
    ensures Within(config, w, TelemetryRegion(slave))
  {
    hide Within, FiveWrites, TelemetryWrites;
    FiveOf(config, slave, values);
    TelemetryPlaced(config, slave, values[0], values[1], values[2], values[3], values[4]);
    var i :| 0 <= i < |FiveWrites(config, slave, values)| && FiveWrites(config, slave, values)[i] == w;
  }

  lemma BatchKeepsFive(config: GatewayConfig, store: Store, writes: seq<Write>, regions: seq<Region>, slave: int,
                       values: seq<word>)
    requires Placed(config, writes, regions) && Private(config, TelemetryRegion(slave)) && TelemetryRegion(slave) !in regions
    requires |values| == 5 && FiveShown(config, store, slave, values)
    ensures FiveShown(config, PublishAll(store, writes), slave, values)
  {
    hide Placed, Private, Within, Tracked, Shows, FiveWrites, PublishAll;
    TrackedAfterAll(store, writes);
    forall w | w in FiveWrites(config, slave, values) ensures Shows(PublishAll(store, writes), w) {
      FiveWithin(config, slave, values, w);
      BatchKeeps(config, store, writes, regions, w, TelemetryRegion(slave));
    }
  }

  /** A batch with the five writes of a slave in it, and no later ones. */
  lemma BatchShowsFive(config: GatewayConfig, store: Store, before: seq<Write>, after: seq<Write>, ra: seq<Region>, slave: int,
                       values: seq<word>)
    requires |values| == 5 && Tracked(store) && AddressesDiffer(config.telemetry)
    requires Placed(config, after, ra) && Private(config, TelemetryRegion(slave)) && TelemetryRegion(slave) !in ra
    ensures FiveShown(config, PublishAll(store, before + FiveWrites(config, slave, values) + after), slave, values)
  {
    hide Placed, Private, Within, Tracked, Shows, FiveWrites, PublishAll, AddressesDiffer;
    var five := FiveWrites(config, slave, values);
    var writes := before + five + after;
    TrackedAfterAll(store, writes);
    forall w | w in five ensures Shows(PublishAll(store, writes), w) {
      FiveWithin(config, slave, values, w);
      PlacedIsOff(config, after, ra, TelemetryRegion(slave), w);
      var i :| 0 <= i < |five| && five[i] == w;
      forall j | |before| + i < j < |writes| ensures CellsOf(writes[j]) !! CellsOf(w) {
        if j < |before| + |five| {
          FiveApart(config, slave, values, i, j - |before|);
        } else {
          assert writes[j] == after[j - |before| - |five|];
        }
      }
      PublishAllShows(store, writes, |before| + i);
    }
  }

  lemma FiveApart(config: GatewayConfig, slave: int, values: seq<word>, i: nat, j: nat)
    requires |values| == 5 && AddressesDiffer(config.telemetry) && i < j < |FiveWrites(config, slave, values)|
    ensures CellsOf(FiveWrites(config, slave, values)[j]) !! CellsOf(FiveWrites(config, slave, values)[i])
  {
    hide FiveWrites, Addresses, CellsFrom;
    FiveCount(config, slave, values);
    FiveCells(config, slave, values, i);
    FiveCells(config, slave, values, j);
    assert Addresses(config.telemetry)[i] != Addresses(config.telemetry)[j];
  }

  lemma FiveCount(config: GatewayConfig, slave: int, values: seq<word>)
    requires |values| == 5
    ensures |FiveWrites(config, slave, values)| == if config.telemetry.enabled then 5 else 0
  {}

  /** The step ends a device, and takes its result. */
  predicate Closes(config: GatewayConfig, s: State, event: Event) { event.DeviceEnd? && AtDeviceEnd(config, s, event.bus) }

  /** A device's record as its cycle last ended, or as the gateway started. */
  function LastRecord(config: GatewayConfig, floats: Floats, events: seq<Event>, key: SlaveKey): DeviceState
    decreases |events|
  {
    if events == [] then INITIAL_DEVICE_STATE
    else
      var before, last := events[..|events| - 1], events[|events| - 1];
      var s := Reached(config, floats, before);
      if Closes(config, s, last) && CurrentKey(config, s, last.bus) == key
      then DeviceIn(Step(config, floats, s, last).deviceStates, key)
      else LastRecord(config, floats, before, key)
  }

  /** The gateway's counters as any device's cycle last ended. */
  function LastCounters(config: GatewayConfig, floats: Floats, events: seq<Event>): GatewayCounters
    decreases |events|
  {
    if events == [] then NO_STATE.counters
    else
      var before, last := events[..|events| - 1], events[|events| - 1];
      var s := Reached(config, floats, before);
      if Closes(config, s, last) then Step(config, floats, s, last).counters else LastCounters(config, floats, before)
  }

  lemma OtherStepsKeepFive(config: GatewayConfig, floats: Floats, s: State, event: Event, slave: int, values: seq<word>)
    requires Accepts(config) && Private(config, TelemetryRegion(slave)) && !Closes(config, s, event)
    requires |values| == 5 && FiveShown(config, s.store, slave, values)
    ensures FiveShown(config, Step(config, floats, s, event).store, slave, values)
  {
    hide Accepts, Private, Within, OverlapsAreStale, Shows, FiveWrites, StaysOff, Step;
    if event.DeviceEnd? {
      assert Step(config, floats, s, event) == s by { NotAtTheEnd(config, floats, s, event); }
    } else {
      SomethingTracked(config, floats, s, event);
      forall w | w in FiveWrites(config, slave, values) ensures Shows(Step(config, floats, s, event).store, w) {
        FiveWithin(config, slave, values, w);
        ServiceRegionStays(config, floats, s, event, TelemetryRegion(slave), w);
        StepKeepsShown(config, floats, s, event, w);
      }
    }
  }

  lemma NotAtTheEnd(config: GatewayConfig, floats: Floats, s: State, event: Event)
    requires event.DeviceEnd? && !AtDeviceEnd(config, s, event.bus)
    ensures Step(config, floats, s, event) == s
  {
    hide CloseDevice;
  }

  /** A write of nothing is always shown, so every step keeps the store tracked. */
  lemma SomethingTracked(config: GatewayConfig, floats: Floats, s: State, event: Event)
    requires Tracked(s.store)
    ensures Tracked(Step(config, floats, s, event).store)
  {
    hide Step, StepWrites, HandlerWrites, Publishes, OverlapsAreStale, PendingCells;
    var nothing := Write(0, HoldingRegister, 0, []);
    assert CellsOf(nothing) == {};
    assert Shows(s.store, nothing);
    assert StaysOff(config, floats, s, event, nothing);
    StepKeepsShown(config, floats, s, event, nothing);
  }

  /** The end of a device: what is published before and after its telemetry. */
  lemma CloseShowsFive(config: GatewayConfig, floats: Floats, s: State, bus: string, slave: int, values: seq<word>)
    requires Accepts(config) && AtDeviceEnd(config, s, bus) && AddressesDiffer(config.telemetry)
    requires Private(config, TelemetryRegion(slave)) && |values| == 5
    requires var key, after := CurrentKey(config, s, bus), CloseDevice(config, floats, s, bus);
             || (slave == key.1 && values == DeviceValues(DeviceIn(after.deviceStates, key)))
             || (slave == SERVICE_SLAVE_ID && values == GatewayValues(after.counters))
             || (slave != key.1 && slave != SERVICE_SLAVE_ID && FiveShown(config, s.store, slave, values))
    requires Tracked(s.store)
    ensures FiveShown(config, CloseDevice(config, floats, s, bus).store, slave, values)
  {
    hide Accepts, Private, Within, Tracked, Shows, FiveWrites, PublishAll, Placed, AddressesDiffer, StatusWrites, LineWrites,
         NextMask, MaskWrite, DeviceStatus, AggregateStatus, PointsOf, DevicesOn, SlaveKeys, FiveShown, PollerIn, DeviceIn,
         NextDevice, LineRegions, Repeat;
    var key, poller := CurrentKey(config, s, bus), PollerIn(s.pollers, bus);
    var status := DeviceStatus(|PointsOf(config.points, key)|, poller.failures, poller.protocolFailures);
    var recorded := Recorded(config, PublishMask(config, s, key), key, status, poller.lastErrorCode);
    var mask := MaskWrite(key.1, NextMask(config, s, key));
    assert key in SlaveKeys(config.points) by { ClosedKeyKnown(config, s, bus); }
    KeyOwner(config, key);
    ClosePublishes(config, floats, s, bus);
    var w0 := StatusWrites(config, floats, key.1, DeviceIn(recorded.deviceStates, key).status);
    var w1 := DeviceTelemetry(config, key.1, DeviceIn(recorded.deviceStates, key));
    var w2 := StatusWrites(config, floats, SERVICE_SLAVE_ID, GatewayStatus(config, recorded));
    var w3 := GatewayTelemetry(config, recorded.counters);
    var w4 := LineWrites(recorded.busStatuses, config.buses);
    var r2, r3 := Repeat(StatusRegion(SERVICE_SLAVE_ID), |w2|), Repeat(TelemetryRegion(SERVICE_SLAVE_ID), |w3|);
    var r4 := LineRegions(|config.buses|);
    StatusPlaced(config, floats, SERVICE_SLAVE_ID, GatewayStatus(config, recorded));
    LinesPlaced(config, recorded.busStatuses);
    if slave == key.1 {
      TelemetryPlaced(config, SERVICE_SLAVE_ID, recorded.counters.lastErrorCode, recorded.counters.success,
        recorded.counters.timeout, recorded.counters.protocolError, recorded.counters.pollCycle);
      PlacedTogether(config, w2, r2, w3, r3);
      PlacedTogether(config, w2 + w3, r2 + r3, w4, r4);
      assert CloseWrites(config, floats, s, bus) == ([mask] + w0) + w1 + (w2 + w3 + w4);
      assert w1 == FiveWrites(config, slave, values) by { FiveOf(config, slave, values); }
      BatchShowsFive(config, s.store, [mask] + w0, w2 + w3 + w4, r2 + r3 + r4, slave, values);
    } else if slave == SERVICE_SLAVE_ID {
      assert CloseWrites(config, floats, s, bus) == ([mask] + w0 + w1 + w2) + w3 + w4;
      assert w3 == FiveWrites(config, slave, values) by { FiveOf(config, slave, values); }
      BatchShowsFive(config, s.store, [mask] + w0 + w1 + w2, w4, r4, slave, values);
    } else {
      RecordPlaced(config, floats, recorded, key);
      MaskPlaced(config, key, NextMask(config, s, key));
      PlacedTogether(config, [mask], [MaskRegion(key.1)], RecordWrites(config, floats, recorded, key),
        RecordRegions(config, floats, recorded, key));
      BatchKeepsFive(config, s.store, CloseWrites(config, floats, s, bus),
        [MaskRegion(key.1)] + RecordRegions(config, floats, recorded, key), slave, values);
    }
  }

  lemma FiveOf(config: GatewayConfig, slave: int, values: seq<word>)
    requires |values| == 5
    ensures FiveWrites(config, slave, values) ==
            TelemetryWrites(config, slave, values[0], values[1], values[2], values[3], values[4])
  {}

  lemma ClosedKeyKnown(config: GatewayConfig, s: State, bus: string)
    requires OnDevice(config, s, bus)
    ensures CurrentKey(config, s, bus) in SlaveKeys(config.points)
  {}

  /* ---------- Telemetry in whole runs ---------- */

  lemma BatchKeepsServiceFive(config: GatewayConfig, floats: Floats, store: Store, key: SlaveKey)
    requires Private(config, TelemetryRegion(SERVICE_SLAVE_ID)) && key.1 != SERVICE_SLAVE_ID
    requires FiveShown(config, store, SERVICE_SLAVE_ID, GatewayValues(NO_STATE.counters))
    ensures FiveShown(config, PublishAll(store, DeviceStart(config, floats, key)), SERVICE_SLAVE_ID,
                      GatewayValues(NO_STATE.counters))
  {
    hide Private, FiveShown, DeviceStart, Placed;
    var regions := StartRegions(config, floats, key);
    BatchKeepsFive(config, store, DeviceStart(config, floats, key), regions, SERVICE_SLAVE_ID, GatewayValues(NO_STATE.counters));
  }

  /** Starting the devices one after the other. */
  lemma {:induction false} DevicesStartFive(config: GatewayConfig, floats: Floats, store: Store, keys: seq<SlaveKey>, slave: int,
                                            values: seq<word>)
    requires AddressesDiffer(config.telemetry) && Private(config, TelemetryRegion(slave)) && |values| == 5
    requires Tracked(store)
    requires forall i, j :: 0 <= i < j < |keys| ==> keys[i].1 != keys[j].1
    requires || (FiveShown(config, store, slave, values) && forall key :: key in keys ==> key.1 != slave)
             || (values == DeviceValues(INITIAL_DEVICE_STATE) && exists key :: key in keys && key.1 == slave)
    ensures FiveShown(config, PublishAll(store, DeviceStartWrites(config, floats, keys)), slave, values)
    decreases |keys|
  {
    hide Private, FiveShown, Placed, PublishAll, DeviceStartWrites, DeviceStart, AddressesDiffer, Tracked;
    if keys == [] {
      assert DeviceStartWrites(config, floats, keys) == [] by { NoDevicesStart(config, floats); }
      assert PublishAll(store, []) == store by { NothingPublished(store); }
    } else {
      var init, last := keys[..|keys| - 1], keys[|keys| - 1];
      var before := PublishAll(store, DeviceStartWrites(config, floats, init));
      TrackedAfterAll(store, DeviceStartWrites(config, floats, init));
      StartStep(config, floats, store, keys);
      if last.1 == slave {
        OneStartFive(config, floats, before, last);
      } else {
        DevicesStartFive(config, floats, store, init, slave, values);
        var regions := StartRegions(config, floats, last);
        BatchKeepsFive(config, before, DeviceStart(config, floats, last), regions, slave, values);
      }
    }
  }

  lemma OneStartFive(config: GatewayConfig, floats: Floats, store: Store, key: SlaveKey)
    requires AddressesDiffer(config.telemetry) && Private(config, TelemetryRegion(key.1)) && Tracked(store)
    ensures FiveShown(config, PublishAll(store, DeviceStart(config, floats, key)), key.1, DeviceValues(INITIAL_DEVICE_STATE))
  {
    hide Private, FiveShown, Placed, PublishAll, StatusWrites, AddressesDiffer, Tracked, TelemetryWrites, FiveWrites;
    var status := StatusWrites(config, floats, key.1, STATUS_OFFLINE);
    var five := DeviceTelemetry(config, key.1, INITIAL_DEVICE_STATE);
    FiveOf(config, key.1, DeviceValues(INITIAL_DEVICE_STATE));
    assert status + five + [] == DeviceStart(config, floats, key);
    NothingPlaced(config);
    BatchShowsFive(config, store, status, [], [], key.1, DeviceValues(INITIAL_DEVICE_STATE));
  }

  lemma StartShowsFive(config: GatewayConfig, floats: Floats, slave: int, values: seq<word>)
    requires Accepts(config) && AddressesDiffer(config.telemetry) && Private(config, TelemetryRegion(slave)) && |values| == 5
    requires || (slave == SERVICE_SLAVE_ID && values == GatewayValues(NO_STATE.counters))
             || (values == DeviceValues(INITIAL_DEVICE_STATE) && exists key :: key in SlaveKeys(config.points) && key.1 == slave)
    ensures FiveShown(config, Start(config, floats).store, slave, values)
  {
    hide Accepts, Private, FiveShown, Placed, PublishAll, StatusWrites, TelemetryWrites, FiveWrites, LineWrites, AddressesDiffer,
         Tracked, DeviceStartWrites, SlaveKeys, NO_STATE, LineRegions;
    var service := PublishAll(NO_STATE.store, ServiceStart(config, floats));
    NothingTracked();
    TrackedAfterAll(NO_STATE.store, ServiceStart(config, floats));
    SlavesDiffer(config);
    ServiceThenDevices(config, floats);
    if slave == SERVICE_SLAVE_ID {
      var before := StatusWrites(config, floats, SERVICE_SLAVE_ID, STATUS_OFFLINE);
      var five := GatewayTelemetry(config, NO_STATE.counters);
      var lines := LineWrites(NO_STATE.busStatuses, config.buses);
      LinesPlaced(config, NO_STATE.busStatuses);
      NotALine(config, slave);
      FiveOf(config, slave, values);
      assert before + five + lines == ServiceStart(config, floats);
      BatchShowsFive(config, NO_STATE.store, before, lines, LineRegions(|config.buses|), slave, values);
    }
    DevicesStartFive(config, floats, service, SlaveKeys(config.points), slave, values);
  }

  lemma NotALine(config: GatewayConfig, slave: int)
    ensures TelemetryRegion(slave) !in LineRegions(|config.buses|)
  {}

  lemma {:induction false} DeviceFiveShown(config: GatewayConfig, floats: Floats, events: seq<Event>, key: SlaveKey)
    requires Accepts(config) && AddressesDiffer(config.telemetry) && key in SlaveKeys(config.points)
    requires Private(config, TelemetryRegion(key.1))
    ensures FiveShown(config, Reached(config, floats, events).store, key.1, DeviceValues(LastRecord(config, floats, events, key)))
    decreases |events|
  {
    hide Accepts, Private, Tracked, Shows, FiveWrites, AddressesDiffer, SlaveKeys, Step, Start, CurrentKey, AtDeviceEnd;
    if events == [] {
      NoEvents(config, floats);
      StartShowsFive(config, floats, key.1, DeviceValues(INITIAL_DEVICE_STATE));
    } else {
      var before, last := events[..|events| - 1], events[|events| - 1];
      var s := Reached(config, floats, before);
      DeviceFiveShown(config, floats, before, key);
      if Closes(config, s, last) {
        ClosedSlave(config, floats, s, last.bus, key);
        CloseShowsFive(config, floats, s, last.bus, key.1, DeviceValues(LastRecord(config, floats, events, key)));
      } else {
        OtherStepsKeepFive(config, floats, s, last, key.1, DeviceValues(LastRecord(config, floats, before, key)));
      }
    }
  }

  /** Devices are told apart by their slave ids. */
  lemma ClosedSlave(config: GatewayConfig, floats: Floats, s: State, bus: string, key: SlaveKey)
    requires Accepts(config) && AtDeviceEnd(config, s, bus) && key in SlaveKeys(config.points)
    ensures CurrentKey(config, s, bus).1 == key.1 ==> CurrentKey(config, s, bus) == key
    ensures key.1 != SERVICE_SLAVE_ID
    ensures Step(config, floats, s, DeviceEnd(bus)) == CloseDevice(config, floats, s, bus)
  {
    hide Accepts, SlaveKeys, CloseDevice, CurrentKey;
    ClosedKeyKnown(config, s, bus);
    KeyOwner(config, key);
  }

  lemma {:induction false} GatewayFiveShown(config: GatewayConfig, floats: Floats, events: seq<Event>)
    requires Accepts(config) && AddressesDiffer(config.telemetry) && Private(config, TelemetryRegion(SERVICE_SLAVE_ID))
    ensures FiveShown(config, Reached(config, floats, events).store, SERVICE_SLAVE_ID,
                      GatewayValues(LastCounters(config, floats, events)))
    decreases |events|
  {
    hide Accepts, Private, Tracked, Shows, FiveWrites, AddressesDiffer, SlaveKeys, Step, Start, CurrentKey, AtDeviceEnd, NO_STATE;
    if events == [] {
      NoEvents(config, floats);
      StartShowsFive(config, floats, SERVICE_SLAVE_ID, GatewayValues(NO_STATE.counters));
    } else {
      var before, last := events[..|events| - 1], events[|events| - 1];
      var s := Reached(config, floats, before);
      GatewayFiveShown(config, floats, before);
      if Closes(config, s, last) {
        ClosesNow(config, floats, s, last.bus);
        CloseShowsFive(config, floats, s, last.bus, SERVICE_SLAVE_ID, GatewayValues(LastCounters(config, floats, events)));
      } else {
        OtherStepsKeepFive(config, floats, s, last, SERVICE_SLAVE_ID, GatewayValues(LastCounters(config, floats, before)));
      }
    }
  }

  lemma ClosesNow(config: GatewayConfig, floats: Floats, s: State, bus: string)
    requires AtDeviceEnd(config, s, bus)
    ensures Step(config, floats, s, DeviceEnd(bus)) == CloseDevice(config, floats, s, bus)
  {
    hide CloseDevice;
  }

  /** The telemetry registers of a slave hold these values, wherever no client's write is or
      was in the way. */
  ghost predicate TelemetryIs(config: GatewayConfig, store: Store, slave: int, values: seq<word>)
    requires |values| == 5
  {
    forall i :: 0 <= i < 5 ==>
      var c := Cell(slave, config.telemetry.registerType, Addresses(config.telemetry)[i]);
      !IsPending(store.pending, c) && c !in store.stale ==> At(store, c) == Stored(c.registerType, values[i])
  }

  lemma ShownIsThere(config: GatewayConfig, store: Store, slave: int, values: seq<word>)
    requires config.telemetry.enabled && |values| == 5 && FiveShown(config, store, slave, values)
    ensures TelemetryIs(config, store, slave, values)
  {
    hide Tracked, Shows, FiveWrites, Addresses, IsPending, CellsFrom;
    forall i | 0 <= i < 5 && !IsPending(store.pending, Cell(slave, config.telemetry.registerType, Addresses(config.telemetry)[i]))
               && Cell(slave, config.telemetry.registerType, Addresses(config.telemetry)[i]) !in store.stale
      ensures At(store, Cell(slave, config.telemetry.registerType, Addresses(config.telemetry)[i])) ==
              Stored(config.telemetry.registerType, values[i])
    {
      FiveCells(config, slave, values, i);
      ShownCellsHold(store, FiveWrites(config, slave, values)[i],
        Cell(slave, config.telemetry.registerType, Addresses(config.telemetry)[i]));
    }
  }

  /* ---------- Exactly which telemetry registers are private ---------- */

  /** The mask is none of the telemetry registers. */
  predicate MaskOffTelemetry(config: GatewayConfig) {
    config.telemetry.registerType.HoldingRegister? ==> MASK_REGISTER !in TelemetryCells(config.telemetry)
  }

  /** Metadata of the slave's points that are not published lies off them. */
  predicate HiddenOffTelemetry(config: GatewayConfig, slave: int) {
    forall q :: q in config.points && !q.publishToModbus && SlaveOf(q) == slave &&
                q.registerType == config.telemetry.registerType ==>
      MetadataCells(q) !! TelemetryCells(config.telemetry)
  }

  /** In an accepted configuration the service slave's telemetry registers are its own exactly
      if no line register is among them. */
  lemma ServiceTelemetryIsPrivateExactly(config: GatewayConfig)
    requires Accepts(config) && config.telemetry.enabled
    ensures Private(config, TelemetryRegion(SERVICE_SLAVE_ID)) <==> LinesOffTelemetry(config)
  {
    hide Accepts, TelemetryCells, StatusCells, ValueCells, MetadataCells, MappingOk;
    var own := TelemetryRegion(SERVICE_SLAVE_ID);
    SharedFacts(config);
    if LinesOffTelemetry(config) {
      forall other, c | Known(config, other) && other != own && Covers(config, own, c) ensures !Covers(config, other, c) {
        if other.ValueRegion? || other.MetadataRegion? {
          PointFacts(config, other.p);
        }
        if other.MaskRegion? {
          var p :| p in config.points && SlaveOf(p) == other.slave;
          PointFacts(config, p);
        }
      }
    }
    if Private(config, own) && config.telemetry.registerType.HoldingRegister? {
      forall a | a in Range(SERVICE_LINE_STATUS_BASE, |config.buses|) ensures a !in TelemetryCells(config.telemetry) {
        var line, c := LineRegion(a - SERVICE_LINE_STATUS_BASE), Cell(SERVICE_SLAVE_ID, HoldingRegister, a);
        assert Known(config, line) && Covers(config, line, c);
      }
    }
  }

  /** A device's are its own exactly if neither the mask nor metadata of its points that are
      not published is among them. */
  lemma DeviceTelemetryIsPrivateExactly(config: GatewayConfig, key: SlaveKey)
    requires Accepts(config) && config.telemetry.enabled && key in SlaveKeys(config.points)
    ensures Private(config, TelemetryRegion(key.1)) <==> MaskOffTelemetry(config) && HiddenOffTelemetry(config, key.1)
  {
    hide Accepts, TelemetryCells, StatusCells, ValueCells, MetadataCells, MappingOk, SlaveKeys;
    var own := TelemetryRegion(key.1);
    SharedFacts(config);
    KeyOwner(config, key);
    KeysOfPoints(config.points, key);
    var p :| p in config.points && KeyOf(p) == key;
    if MaskOffTelemetry(config) && HiddenOffTelemetry(config, key.1) {
      forall other, c | Known(config, other) && other != own && Covers(config, own, c) ensures !Covers(config, other, c) {
        if other.ValueRegion? || other.MetadataRegion? {
          PointFacts(config, other.p);
        }
      }
    }
    if Private(config, own) {
      assert Known(config, MaskRegion(key.1));
      assert Covers(config, MaskRegion(key.1), Cell(key.1, HoldingRegister, MASK_REGISTER));
      forall q | q in config.points && !q.publishToModbus && SlaveOf(q) == key.1 &&
                 q.registerType == config.telemetry.registerType
        ensures MetadataCells(q) !! TelemetryCells(config.telemetry)
      {
        forall a | a in MetadataCells(q) ensures a !in TelemetryCells(config.telemetry) {
          assert Known(config, MetadataRegion(q)) && Covers(config, MetadataRegion(q), Cell(key.1, q.registerType, a));
        }
      }
    }
  }

  /** In every reachable state: a device's telemetry registers hold its counters as its cycle
      last ended, zeros before that, and those of the service slave the gateway's as any
      device's cycle last ended, if the five addresses differ and nothing else is published
      to them. */
  lemma TelemetryFollowsRuns(config: GatewayConfig, floats: Floats, events: seq<Event>)
    requires Accepts(config) && config.telemetry.enabled && AddressesDiffer(config.telemetry)
    ensures var store := Reached(config, floats, events).store;
            && (LinesOffTelemetry(config) ==>
                  TelemetryIs(config, store, SERVICE_SLAVE_ID, GatewayValues(LastCounters(config, floats, events))))
            && (forall key :: key in SlaveKeys(config.points) && MaskOffTelemetry(config) && HiddenOffTelemetry(config, key.1) ==>
                  TelemetryIs(config, store, key.1, DeviceValues(LastRecord(config, floats, events, key))))
  {
    hide Accepts, Private, FiveShown, AddressesDiffer, SlaveKeys, TelemetryIs, Reached, LinesOffTelemetry, MaskOffTelemetry,
         HiddenOffTelemetry;
    var store := Reached(config, floats, events).store;
    if LinesOffTelemetry(config) {
      ServiceTelemetryIsPrivateExactly(config);
      GatewayFiveShown(config, floats, events);
      ShownIsThere(config, store, SERVICE_SLAVE_ID, GatewayValues(LastCounters(config, floats, events)));
    }
    forall key | key in SlaveKeys(config.points) && MaskOffTelemetry(config) && HiddenOffTelemetry(config, key.1)
      ensures TelemetryIs(config, store, key.1, DeviceValues(LastRecord(config, floats, events, key)))
    {
      DeviceTelemetryIsPrivateExactly(config, key);
      DeviceFiveShown(config, floats, events, key);
      ShownIsThere(config, store, key.1, DeviceValues(LastRecord(config, floats, events, key)));
    }
  }

  /* ---------- Time marks ---------- */

  function MarkCell(p: PointConfig): Cell
    requires p.timeMarkAddress.Some?
  {
    Cell(SlaveOf(p), p.registerType, p.timeMarkAddress.value)
  }

  function MarkWrite(p: PointConfig, mark: word): Write
    requires p.timeMarkAddress.Some?
  {
    Write(SlaveOf(p), p.registerType, p.timeMarkAddress.value, [mark])
  }

  /** Nothing but the point's own time mark is published to its register. */
  ghost predicate MarkSpared(config: GatewayConfig, p: PointConfig)
    requires p.timeMarkAddress.Some?
  {
    && p.timeMarkAddress != p.channelStatusAddress
    && forall other :: Known(config, other) && other != MetadataRegion(p) ==> !Covers(config, other, MarkCell(p))
  }

  /** Exactly the time mark registers of an accepted configuration that are spared. */
  lemma MarkSparedExactly(config: GatewayConfig, p: PointConfig)
    requires Accepts(config) && p in config.points && p.publishToModbus && p.timeMarkAddress.Some?
    ensures var a := p.timeMarkAddress.value;
            MarkSpared(config, p) <==>
            && p.timeMarkAddress != p.channelStatusAddress
            && a !in ValueCells(p) && !(p.registerType.HoldingRegister? && a == MASK_REGISTER)
            && forall q :: q in config.points && HiddenBeside(p, q) ==> a !in MetadataCells(q)
  {
    hide Accepts, ValueCells, StatusCells, TelemetryCells, MappingOk;
    var a, c := p.timeMarkAddress.value, MarkCell(p);
    PointFacts(config, p);
    PointRegionsKnown(config, p);
    forall q | q in config.points && q.publishToModbus && q != p
      ensures !Covers(config, ValueRegion(q), c) && !Covers(config, MetadataRegion(q), c)
    {
      PairFacts(config, p, q);
    }
    forall q | q in config.points ensures Known(config, MetadataRegion(q)) {}
    if MarkSpared(config, p) {
      assert !Covers(config, ValueRegion(p), c) && !Covers(config, MaskRegion(SlaveOf(p)), c);
      forall q | q in config.points && HiddenBeside(p, q) ensures a !in MetadataCells(q) {
        assert !Covers(config, MetadataRegion(q), c);
      }
    }
  }

  /** The time mark a step reads for the point: one in a good reply to its own request. */
  function MarkRead(config: GatewayConfig, floats: Floats, s: State, event: Event, p: PointConfig): Option<word> {
    if event.PointReply? && Enabled(config, s, event) && CurrentPoint(config, s, event.bus) == p
    then MarkOf(floats, p, event.exchange)
    else None
  }

  /** The last time mark read in a run, zero before the first. */
  function LastMark(config: GatewayConfig, floats: Floats, events: seq<Event>, p: PointConfig): word
    decreases |events|
  {
    if events == [] then 0
    else
      var before, last := events[..|events| - 1], events[|events| - 1];
      var mark := MarkRead(config, floats, Reached(config, floats, before), last, p);
      if mark.Some? then mark.value else LastMark(config, floats, before, p)
  }

  lemma PlacedOffMark(config: GatewayConfig, writes: seq<Write>, regions: seq<Region>, p: PointConfig, mark: word)
    requires p.timeMarkAddress.Some? && MarkSpared(config, p) && Placed(config, writes, regions) && MetadataRegion(p) !in regions
    ensures Off(writes, MarkWrite(p, mark))
  {
    hide Covers, Known, CellsFrom;
    forall i | 0 <= i < |writes| ensures CellsOf(writes[i]) !! CellsOf(MarkWrite(p, mark)) {
      assert Within(config, writes[i], regions[i]) && regions[i] in regions;
      assert forall c :: c in CellsOf(MarkWrite(p, mark)) ==> c == MarkCell(p);
    }
  }

  /** The point's other writes stay off its time mark. */
  lemma StatusOffMark(p: PointConfig, status: nat, mark: word)
    requires p.timeMarkAddress.Some? && p.timeMarkAddress != p.channelStatusAddress && status < 0x1_0000
    ensures Off(MetadataWrites(p, None, status), MarkWrite(p, mark))
  {}

  lemma ValueOffMark(config: GatewayConfig, floats: Floats, p: PointConfig, value: Value, words: seq<word>, mark: word)
    requires p in config.points && p.timeMarkAddress.Some? && MarkSpared(config, p)
    requires PublishedWords(floats, p, value) == Ok(words)
    ensures Off(ValueWrites(p, words), MarkWrite(p, mark))
  {
    hide MarkSpared, ValueWrites, PublishedWords, Placed;
    ValuePlaced(config, floats, p, value, words);
    PlacedOffMark(config, ValueWrites(p, words), Repeat(ValueRegion(p), |ValueWrites(p, words)|), p, mark);
  }

  lemma OwnReplyOffMark(config: GatewayConfig, floats: Floats, s: State, event: Event, p: PointConfig, mark: word)
    requires p in config.points && p.timeMarkAddress.Some? && MarkSpared(config, p)
    requires event.PointReply? && Enabled(config, s, event) && CurrentPoint(config, s, event.bus) == p
    requires MarkRead(config, floats, s, event, p) == None
    ensures Off(StepWrites(config, floats, s, event), MarkWrite(p, mark))
  {
    hide CurrentPoint, AtPoint, ApplyOutcome, MetadataWrites, ValueWrites, MarkSpared, WordStatus, PointStateIn, Classify,
         MarkOf;
    assert p.timeMarkAddress != p.channelStatusAddress by { MarkApart(config, p); }
    MarkIsRead(floats, p, event.exchange);
    match Classify(floats, p, event.exchange) {
      case Succeeded(value, words, _) =>
        ClassifiedWords(floats, p, event.exchange);
        ValueOffMark(config, floats, p, value, words, mark);
        StatusOffMark(p, CHANNEL_OK, mark);
      case NoData => StatusOffMark(p, CHANNEL_DISABLED, mark);
      case outcome =>
        StatusOffMark(p, WordStatus(PointStateIn(ApplyOutcome(config, s, event.bus, outcome).pointStates, p.name)), mark);
    }
  }

  lemma OwnSkipOffMark(config: GatewayConfig, floats: Floats, s: State, event: Event, p: PointConfig, mark: word)
    requires p.timeMarkAddress.Some? && MarkSpared(config, p)
    requires event.SkipPoint? && Enabled(config, s, event) && CurrentPoint(config, s, event.bus) == p
    ensures Off(StepWrites(config, floats, s, event), MarkWrite(p, mark))
  {
    hide CurrentPoint, AtPoint, MarkSpared, PointStateIn, Skipped;
    MarkApart(config, p);
    StatusOffMark(p, CHANNEL_FAILED, mark);
  }

  lemma MarkApart(config: GatewayConfig, p: PointConfig)
    requires p.timeMarkAddress.Some? && MarkSpared(config, p)
    ensures p.timeMarkAddress != p.channelStatusAddress
  {}

  lemma HandlerOffMark(config: GatewayConfig, floats: Floats, s: State, k: nat, ack: Result<Option<OwenFrame>>,
                       readBacks: seq<Result<OwenFrame>>, p: PointConfig, mark: word)
    requires Accepts(config) && p in config.points && p.timeMarkAddress.Some? && MarkSpared(config, p)
    requires k < |s.store.pending| && Publishes(config, floats, s, k, ack, readBacks)
    ensures PendingCells(s.store.pending[k]) !! CellsOf(MarkWrite(p, mark))
    ensures Off(HandlerWrites(config, floats, s, k, ack, readBacks), MarkWrite(p, mark))
  {
    hide Accepts, WritableAt, WriteOutcome, PublishedWords, ValueWrites, MetadataWrites, NextMask, MaskWrite, Placed, Covers,
         PendingCells, SlaveKeys, KeyOf, MarkSpared;
    var write := s.store.pending[k];
    var q := WritableAt(config.points, write.slave, write.address, |write.words|).value;
    var value := WriteOutcome(floats, q, write.words, ack, readBacks).value;
    var words, mask := PublishedWords(floats, q, value).value, NextMask(config, WithValue(s, q, value), KeyOf(q));
    assert p.timeMarkAddress != p.channelStatusAddress by { MarkApart(config, p); }
    WriteOnItsPoint(config, write, q);
    ValueMissesMark(config, q, p, PendingCells(write), mark);
    ValuePlaced(config, floats, q, value, words);
    PlacedOffMark(config, ValueWrites(q, words), Repeat(ValueRegion(q), |ValueWrites(q, words)|), p, mark);
    if q == p {
      StatusOffMark(p, CHANNEL_OK, mark);
    } else {
      MetadataPlaced(config, q, None, CHANNEL_OK);
      PlacedOffMark(config, MetadataWrites(q, None, CHANNEL_OK), Repeat(MetadataRegion(q), |MetadataWrites(q, None, CHANNEL_OK)|),
        p, mark);
    }
    KeysOfPoints(config.points, KeyOf(q));
    MaskPlaced(config, KeyOf(q), mask);
    PlacedOffMark(config, [MaskWrite(KeyOf(q).1, mask)], [MaskRegion(KeyOf(q).1)], p, mark);
  }

  lemma ValueMissesMark(config: GatewayConfig, q: PointConfig, p: PointConfig, cells: set<Cell>, mark: word)
    requires q in config.points && p.timeMarkAddress.Some? && MarkSpared(config, p)
    requires forall c :: c in cells ==> Covers(config, ValueRegion(q), c)
    ensures cells !! CellsOf(MarkWrite(p, mark))
  {
    hide Covers, CellsFrom;
    assert Known(config, ValueRegion(q));
    assert forall c :: c in CellsOf(MarkWrite(p, mark)) ==> c == MarkCell(p);
  }

  /** A step that reads no mark for the point leaves its register alone. */
  lemma StepOffMark(config: GatewayConfig, floats: Floats, s: State, event: Event, p: PointConfig, mark: word)
    requires Accepts(config) && p in config.points && p.timeMarkAddress.Some? && MarkSpared(config, p)
    requires MarkRead(config, floats, s, event, p) == None
    ensures StaysOff(config, floats, s, event, MarkWrite(p, mark))
  {
    hide Accepts, MarkSpared, OutcomeWrites, HandlerWrites, CloseWrites, Publishes, Off, Placed, PendingCells, CurrentPoint,
         AtPoint, MetadataWrites, Classify, PointStateIn, Skipped;
    assert Off([], MarkWrite(p, mark)) by { NothingOff(MarkWrite(p, mark)); }
    match event {
      case ClientRegisters(_, _, _) =>
      case ClientCoils(_, _, _) =>
      case ExchangeStart(_) =>
      case HandlerEnd(k, ack, readBacks) =>
        if k < |s.store.pending| && Publishes(config, floats, s, k, ack, readBacks) {
          HandlerOffMark(config, floats, s, k, ack, readBacks, p, mark);
        }
      case DeviceEnd(bus) =>
        if Enabled(config, s, event) {
          var regions := ClosePlaced(config, floats, s, bus);
          PlacedOffMark(config, CloseWrites(config, floats, s, bus), regions, p, mark);
        }
      case _ =>
        if Enabled(config, s, event) {
          TurnsAtPoint(config, s, event);
          if CurrentPoint(config, s, event.bus) != p {
            var regions := PointTurnPlaced(config, floats, s, event);
            PlacedOffMark(config, StepWrites(config, floats, s, event), regions, p, mark);
          } else if event.SkipPoint? {
            OwnSkipOffMark(config, floats, s, event, p, mark);
          } else {
            OwnReplyOffMark(config, floats, s, event, p, mark);
          }
        }
    }
  }

  /** A reply with a mark shows it. */
  lemma MarkIsShown(config: GatewayConfig, floats: Floats, s: State, event: Event, p: PointConfig)
    requires p in config.points && p.timeMarkAddress.Some? && p.timeMarkAddress != p.channelStatusAddress
    requires MarkRead(config, floats, s, event, p).Some? && Tracked(s.store)
    ensures var after := Step(config, floats, s, event).store;
            Tracked(after) && Shows(after, MarkWrite(p, MarkRead(config, floats, s, event, p).value))
  {
    hide CurrentPoint, AtPoint, ApplyOutcome, ValueWrites, Classify, Tracked, Shows, PublishAll, IsValue;
    var outcome := Classify(floats, p, event.exchange);
    MarkIsRead(floats, p, event.exchange);
    var mark := outcome.mark.value;
    var values := ValueWrites(p, outcome.words);
    var writes := values + MetadataWrites(p, Some(mark), CHANNEL_OK);
    OutcomePublishes(config, s, event.bus, outcome);
    StatusOffMark(p, CHANNEL_OK, mark);
    assert MetadataWrites(p, Some(mark), CHANNEL_OK) == [MarkWrite(p, mark)] + MetadataWrites(p, None, CHANNEL_OK);
    forall j | |values| < j < |writes| ensures CellsOf(writes[j]) !! CellsOf(MarkWrite(p, mark)) {
      assert writes[j] == MetadataWrites(p, None, CHANNEL_OK)[j - |values| - 1];
    }
    assert writes[|values|] == MarkWrite(p, mark);
    PublishAllShows(s.store, writes, |values|);
  }

  lemma StartShowsMark(config: GatewayConfig, floats: Floats, p: PointConfig)
    requires p.timeMarkAddress.Some? && MarkSpared(config, p)
    ensures var store := Start(config, floats).store; Tracked(store) && Shows(store, MarkWrite(p, 0))
  {
    hide MarkSpared, StartWrites, PublishAll, Placed;
    var regions := StartPlaced(config, floats);
    PlacedOffMark(config, StartWrites(config, floats), regions, p, 0);
    assert Shows(NO_STATE.store, MarkWrite(p, 0));
    PublishAllKeeps(NO_STATE.store, StartWrites(config, floats), MarkWrite(p, 0));
  }

  lemma {:induction false} MarkAlwaysShown(config: GatewayConfig, floats: Floats, events: seq<Event>, p: PointConfig)
    requires Accepts(config) && p in config.points && p.timeMarkAddress.Some? && MarkSpared(config, p)
    ensures var store := Reached(config, floats, events).store;
            Tracked(store) && Shows(store, MarkWrite(p, LastMark(config, floats, events, p)))
    decreases |events|
  {
    hide Accepts, MarkSpared, Tracked, Shows, Step, Start, MarkRead;
    if events == [] {
      NoEvents(config, floats);
      StartShowsMark(config, floats, p);
    } else {
      var before, last := events[..|events| - 1], events[|events| - 1];
      var s := Reached(config, floats, before);
      MarkAlwaysShown(config, floats, before, p);
      if MarkRead(config, floats, s, last, p).Some? {
        MarkApart(config, p);
        MarkIsShown(config, floats, s, last, p);
      } else {
        StepOffMark(config, floats, s, last, p, LastMark(config, floats, before, p));
        StepKeepsShown(config, floats, s, last, MarkWrite(p, LastMark(config, floats, before, p)));
      }
    }
  }

  /** In every reachable state, if the block has the register: a spared time mark register
      holds the mark of the last reply that carried one, wherever no client's write is or was
      in the way. */
  lemma MarkFollowsRuns(config: GatewayConfig, floats: Floats, size: nat, events: seq<Event>, p: PointConfig)
    requires Accepts(config) && p in config.points && p.timeMarkAddress.Some? && MarkSpared(config, p)
    requires Sizes(size, TouchedCells(config, p.registerType)) && InBlock(config, p.registerType, p.timeMarkAddress.value)
    requires ClientsInMap(events)
    ensures var store := Reached(config, floats, events).store;
            !IsPending(store.pending, MarkCell(p)) && MarkCell(p) !in store.stale ==>
            RegisterIs(RunBlock(config, floats, size, events, SlaveOf(p), p.registerType), p.timeMarkAddress.value,
                       Stored(p.registerType, LastMark(config, floats, events, p)))
  {
    hide Accepts, MarkSpared, Tracked, Shows, Reached, LastMark, IsPending, RunBlock, Sizes, TouchedCells, InBlock, Stored;
    MarkAlwaysShown(config, floats, events, p);
    PointNotNegative(config, p);
    InBlockRegisters(config, floats, size, events, MarkCell(p));
    var store := Reached(config, floats, events).store;
    if !IsPending(store.pending, MarkCell(p)) && MarkCell(p) !in store.stale {
      ShownCellsHold(store, MarkWrite(p, LastMark(config, floats, events, p)), MarkCell(p));
    }
  }
}
