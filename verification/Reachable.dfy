/** What holds of the registers in every reachable state, whatever pollers, client writes and
    write handlers did and in whatever order. */
module Reachable {
  import opened Payload
  import opened Registers
  import opened Config
  import opened RegisterMap
  import opened Status
  import opened Gateway
  import opened Layout
  import opened Slots
  import opened CacheAgreement
  import Conservation

  /* ---------- Start-up ---------- */

  lemma NothingTracked()
    ensures Tracked(NO_STATE.store)
  {}

  /** The registers of the untouched blocks show empty masks and nothing else. */
  lemma ZeroMaskShown(key: SlaveKey)
    ensures Shows(NO_STATE.store, MaskWrite(key.1, 0))
  {}

  function DeviceStart(config: GatewayConfig, floats: Floats, key: SlaveKey): seq<Write> {
    StatusWrites(config, floats, key.1, STATUS_OFFLINE) + DeviceTelemetry(config, key.1, INITIAL_DEVICE_STATE)
  }

  lemma OneDeviceStarts(config: GatewayConfig, floats: Floats, store: Store, key: SlaveKey, w: Write)
    requires Private(config, StatusRegion(key.1)) && Tracked(store) && w in StatusWrites(config, floats, key.1, STATUS_OFFLINE)
    ensures var writes := DeviceStart(config, floats, key);
            Tracked(PublishAll(store, writes)) && Shows(PublishAll(store, writes), w)
  {
    hide Private, StatusWrites, TelemetryWrites, PublishAll, Tracked, Shows, Within, Known;
    var a, b := StatusWrites(config, floats, key.1, STATUS_OFFLINE), DeviceTelemetry(config, key.1, INITIAL_DEVICE_STATE);
    var ra, rb := Repeat(StatusRegion(key.1), |a|), Repeat(TelemetryRegion(key.1), |b|);
    StatusPlaced(config, floats, key.1, STATUS_OFFLINE);
    TelemetryPlaced(config, key.1, 0, 0, 0, 0, 0);
    PlacedTogether(config, a, ra, b, rb);
    assert w == a[0] && (a + b)[0] == w;
    BatchShows(config, store, a + b, ra + rb, 0);
  }

  lemma StartRegions(config: GatewayConfig, floats: Floats, key: SlaveKey) returns (regions: seq<Region>)
    ensures Placed(config, DeviceStart(config, floats, key), regions)
    ensures forall r :: r in regions ==> r == StatusRegion(key.1) || r == TelemetryRegion(key.1)
  {
    hide StatusWrites, TelemetryWrites, Within, Known;
    var a, b := StatusWrites(config, floats, key.1, STATUS_OFFLINE), DeviceTelemetry(config, key.1, INITIAL_DEVICE_STATE);
    StatusPlaced(config, floats, key.1, STATUS_OFFLINE);
    TelemetryPlaced(config, key.1, 0, 0, 0, 0, 0);
    PlacedTogether(config, a, Repeat(StatusRegion(key.1), |a|), b, Repeat(TelemetryRegion(key.1), |b|));
    regions := Repeat(StatusRegion(key.1), |a|) + Repeat(TelemetryRegion(key.1), |b|);
  }

  lemma StartStep(config: GatewayConfig, floats: Floats, store: Store, keys: seq<SlaveKey>)
    requires keys != []
    ensures var last := keys[|keys| - 1];
            PublishAll(store, DeviceStartWrites(config, floats, keys)) ==
            PublishAll(PublishAll(store, DeviceStartWrites(config, floats, keys[..|keys| - 1])),
                       DeviceStart(config, floats, last))
  {
    hide StatusWrites, DeviceTelemetry, PublishAll;
    var last := keys[|keys| - 1];
    var init := DeviceStartWrites(config, floats, keys[..|keys| - 1]);
    var a, b := StatusWrites(config, floats, last.1, STATUS_OFFLINE), DeviceTelemetry(config, last.1, INITIAL_DEVICE_STATE);
    assert DeviceStartWrites(config, floats, keys) == init + (a + b);
    PublishAllConcat(store, init, a + b);
  }

  /** Starting the devices keeps what lies on other regions. */
  lemma {:induction false} DevicesStartElsewhere(config: GatewayConfig, floats: Floats, store: Store,
                                                 keys: seq<SlaveKey>, w: Write, own: Region)
    requires Private(config, own) && Cached(own) && Within(config, w, own)
    requires Tracked(store) && Shows(store, w)
    requires forall key :: key in keys ==> own != StatusRegion(key.1)
    ensures var after := PublishAll(store, DeviceStartWrites(config, floats, keys));
            Tracked(after) && Shows(after, w)
    decreases |keys|
  {
    hide Private, Known, Within, Tracked, Shows, PublishAll, DeviceStartWrites, StatusWrites, DeviceTelemetry;
    if keys == [] {
      assert DeviceStartWrites(config, floats, keys) == [] by { NoDevicesStart(config, floats); }
      assert PublishAll(store, []) == store by { NothingPublished(store); }
    } else {
      var init, last := keys[..|keys| - 1], keys[|keys| - 1];
      DevicesStartElsewhere(config, floats, store, init, w, own);
      StartStep(config, floats, store, keys);
      var regions := StartRegions(config, floats, last);
      BatchKeeps(config, PublishAll(store, DeviceStartWrites(config, floats, init)),
        StatusWrites(config, floats, last.1, STATUS_OFFLINE) + DeviceTelemetry(config, last.1,
          INITIAL_DEVICE_STATE), regions, w, own);
    }
  }

  lemma NoDevicesStart(config: GatewayConfig, floats: Floats)
    ensures DeviceStartWrites(config, floats, []) == []
  {}

  lemma NothingPublished(store: Store)
    ensures PublishAll(store, []) == store
  {}

  lemma {:induction false} DevicesStartHere(config: GatewayConfig, floats: Floats, store: Store, keys: seq<SlaveKey>,
                                            key: SlaveKey, w: Write)
    requires Private(config, StatusRegion(key.1)) && Tracked(store) && key in keys
    requires w in StatusWrites(config, floats, key.1, STATUS_OFFLINE)
    requires forall i, j :: 0 <= i < j < |keys| ==> keys[i].1 != keys[j].1
    ensures var after := PublishAll(store, DeviceStartWrites(config, floats, keys));
            Tracked(after) && Shows(after, w)
    decreases |keys|
  {
    hide Private, Known, Within, Tracked, Shows, PublishAll, DeviceStartWrites, StatusWrites, DeviceTelemetry;
    var init, last := keys[..|keys| - 1], keys[|keys| - 1];
    var before := PublishAll(store, DeviceStartWrites(config, floats, init));
    var writes := DeviceStart(config, floats, last);
    StartStep(config, floats, store, keys);
    TrackedAfterAll(store, DeviceStartWrites(config, floats, init));
    if key == last {
      OneDeviceStarts(config, floats, before, key, w);
    } else {
      DevicesStartHere(config, floats, store, init, key, w);
      var regions := StartRegions(config, floats, last);
      StatusPlaced(config, floats, key.1, STATUS_OFFLINE);
      var i :| 0 <= i < |keys| - 1 && keys[i] == key;
      assert StatusRegion(key.1) !in regions;
      BatchKeeps(config, before, writes, regions, w, StatusRegion(key.1));
    }
  }

  /** The service slave's part of the start-up publishes. */
  function ServiceStart(config: GatewayConfig, floats: Floats): seq<Write> {
    StatusWrites(config, floats, SERVICE_SLAVE_ID, STATUS_OFFLINE) +
    GatewayTelemetry(config, NO_STATE.counters) + LineWrites(NO_STATE.busStatuses, config.buses)
  }

  function ServiceRegions(config: GatewayConfig, floats: Floats): seq<Region> {
    Repeat(StatusRegion(SERVICE_SLAVE_ID), |StatusWrites(config, floats, SERVICE_SLAVE_ID, STATUS_OFFLINE)|) +
    Repeat(TelemetryRegion(SERVICE_SLAVE_ID), |GatewayTelemetry(config, NO_STATE.counters)|) +
    LineRegions(|config.buses|)
  }

  lemma ServiceStartPlaced(config: GatewayConfig, floats: Floats)
    ensures Placed(config, ServiceStart(config, floats), ServiceRegions(config, floats))
  {
    hide StatusWrites, TelemetryWrites, Within, Known;
    var a, b := StatusWrites(config, floats, SERVICE_SLAVE_ID, STATUS_OFFLINE), GatewayTelemetry(config, NO_STATE.counters);
    var ra, rb := Repeat(StatusRegion(SERVICE_SLAVE_ID), |a|), Repeat(TelemetryRegion(SERVICE_SLAVE_ID), |b|);
    StatusPlaced(config, floats, SERVICE_SLAVE_ID, STATUS_OFFLINE);
    TelemetryPlaced(config, SERVICE_SLAVE_ID, 0, 0, 0, 0, 0);
    LinesPlaced(config, NO_STATE.busStatuses);
    PlacedTogether(config, a, ra, b, rb);
    PlacedTogether(config, a + b, ra + rb, LineWrites(NO_STATE.busStatuses, config.buses), LineRegions(|config.buses|));
  }

  lemma EveryLineOffline(config: GatewayConfig)
    ensures GatewayStatus(config, NO_STATE) == STATUS_OFFLINE
  {
    var statuses := LineStatuses(NO_STATE.busStatuses, config.buses);
    if statuses != [] {
      assert statuses[0] == STATUS_OFFLINE;
    }
  }

  /** Where a slot's initial content comes from. */
  lemma SlotAtStart(config: GatewayConfig, floats: Floats, slot: Slot)
    ensures var now := SlotWrites(config, floats, Start(config, floats), slot);
            match slot
            case ValueSlot(_) => now == []
            case LineSlot(index) => index < |config.buses| ==> now == [LineWrite(NO_STATE.busStatuses, config.buses, index)]
            case GatewaySlot => now == StatusWrites(config, floats, SERVICE_SLAVE_ID, STATUS_OFFLINE)
            case DeviceSlot(key) => now == StatusWrites(config, floats, key.1, STATUS_OFFLINE)
            case MaskSlot(key) => now == [MaskWrite(key.1, 0)]
  {
    hide StartWrites, PublishAll, StatusWrites, GatewayStatus;
    EveryLineOffline(config);
    assert GatewayStatus(config, Start(config, floats)) == GatewayStatus(config, NO_STATE) by { SameLines(config, floats); }
  }

  lemma SameLines(config: GatewayConfig, floats: Floats)
    ensures GatewayStatus(config, Start(config, floats)) == GatewayStatus(config, NO_STATE)
  {
    hide StartWrites, PublishAll;
  }

  lemma ServiceThenDevices(config: GatewayConfig, floats: Floats)
    ensures Start(config, floats).store ==
            PublishAll(PublishAll(NO_STATE.store, ServiceStart(config, floats)),
                       DeviceStartWrites(config, floats, SlaveKeys(config.points)))
  {
    hide StatusWrites, TelemetryWrites, LineWrites, DeviceStartWrites, PublishAll;
    PublishAllConcat(NO_STATE.store, ServiceStart(config, floats),
      DeviceStartWrites(config, floats, SlaveKeys(config.points)));
  }

  /** After the service slave's publishes: every slot but the devices' is shown. */
  lemma ServiceStarted(config: GatewayConfig, floats: Floats, slot: Slot, w: Write)
    requires Owned(config, slot) && !slot.DeviceSlot?
    requires w in SlotWrites(config, floats, Start(config, floats), slot)
    ensures var store := PublishAll(NO_STATE.store, ServiceStart(config, floats));
            Tracked(store) && Shows(store, w)
  {
    hide Private, OnlyName, StatusWrites, TelemetryWrites, PublishAll, Tracked, Shows, Within, Known, SlotWrites, Start,
         SlaveKeys, NO_STATE;
    var writes, regions := ServiceStart(config, floats), ServiceRegions(config, floats);
    NothingTracked();
    ServiceStartPlaced(config, floats);
    SlotAtStart(config, floats, slot);
    StatusPlaced(config, floats, SERVICE_SLAVE_ID, STATUS_OFFLINE);
    match slot {
      case MaskSlot(key) =>
        ZeroMaskShown(key);
        MaskPlaced(config, key, 0);
        BatchKeeps(config, NO_STATE.store, writes, regions, w, MaskRegion(key.1));
      case LineSlot(index) =>
        BatchShows(config, NO_STATE.store, writes, regions, |writes| - |config.buses| + index);
      case GatewaySlot =>
        BatchShows(config, NO_STATE.store, writes, regions, 0);
      case _ =>
    }
  }

  lemma SlavesDiffer(config: GatewayConfig)
    requires Accepts(config)
    ensures var keys := SlaveKeys(config.points);
            && (forall i, j :: 0 <= i < j < |keys| ==> keys[i].1 != keys[j].1)
            && (forall key :: key in keys ==> key.1 != SERVICE_SLAVE_ID)
  {
    hide Accepts, SlaveKeys;
    var keys := SlaveKeys(config.points);
    Conservation.KeysAreDistinct(config.points);
    forall key | key in keys
      ensures key.1 != SERVICE_SLAVE_ID && forall other :: other in keys && other.1 == key.1 ==> other == key
    {
      KeyOwner(config, key);
    }
  }

  lemma StartAgrees(config: GatewayConfig, floats: Floats)
    requires Accepts(config)
    ensures Agreed(config, floats, Start(config, floats))
  {
    hide Accepts, KnownSlot, Private, OnlyName, StatusWrites, TelemetryWrites, PublishAll, Tracked, Shows, Within, Known,
         SlotWrites,
         Start, DeviceStartWrites, ServiceStart, StartWrites, SlaveKeys, NO_STATE;
    var keys := SlaveKeys(config.points);
    var start := Start(config, floats);
    var service := PublishAll(NO_STATE.store, ServiceStart(config, floats));
    NothingTracked();
    TrackedAfterAll(NO_STATE.store, ServiceStart(config, floats));
    TrackedAfterAll(service, DeviceStartWrites(config, floats, keys));
    ServiceThenDevices(config, floats);
    SlavesDiffer(config);
    forall slot | Owned(config, slot) ensures ShownSlot(config, floats, start, slot) {
      SlotAtStart(config, floats, slot);
      SlotRegion(config, slot);
      SlotPlaced(config, floats, start, slot);
      forall w | w in SlotWrites(config, floats, start, slot) ensures Shows(start.store, w) {
        if slot.DeviceSlot? {
          assert slot.key in keys by { DeviceKnown(config, slot); }
          DevicesStartHere(config, floats, service, keys, slot.key, w);
        } else {
          ServiceStarted(config, floats, slot, w);
          DevicesStartElsewhere(config, floats, service, keys, w, RegionOf(slot));
        }
      }
    }
  }

  lemma DeviceKnown(config: GatewayConfig, slot: Slot)
    requires KnownSlot(config, slot) && slot.DeviceSlot?
    ensures slot.key in SlaveKeys(config.points)
  {}

  /* ---------- Every step ---------- */

  lemma StepAgrees(config: GatewayConfig, floats: Floats, s: State, event: Event)
    requires Accepts(config) && Lawful(floats) && Agreed(config, floats, s)
    ensures Agreed(config, floats, Step(config, floats, s, event))
  {
    hide Accepts, Lawful, Agreed, ApplyOutcome, Classify, PassOver, CloseDevice, EndHandler, ClientWrite, CoilWrite,
         CurrentPoint;
    if Enabled(config, s, event) {
      match event {
        case SkipPoint(bus) => SkipAgrees(config, floats, s, bus);
        case ExchangeStart(bus) =>
          PollersDoNotShow(config, floats, s, s.pollers[bus := PollerIn(s.pollers, bus).(waiting := true)]);
        case PointReply(bus, exchange) => OutcomeAgrees(config, floats, s, bus, exchange);
        case DeviceEnd(bus) => CloseAgrees(config, floats, s, bus);
        case ClientRegisters(slave, address, words) => ClientWriteAgrees(config, floats, s, slave, address, words);
        case ClientCoils(slave, address, bits) => CoilWriteAgrees(config, floats, s, slave, address, bits);
        case HandlerEnd(k, ack, readBacks) => HandlerAgrees(config, floats, s, k, ack, readBacks);
      }
    }
  }

  lemma {:induction false} AlwaysAgreed(config: GatewayConfig, floats: Floats, events: seq<Event>)
    requires Accepts(config) && Lawful(floats)
    ensures Agreed(config, floats, Reached(config, floats, events))
    decreases |events|
  {
    hide Accepts, Lawful, Agreed, Step, Start;
    if events == [] {
      StartAgrees(config, floats);
    } else {
      var before := events[..|events| - 1];
      AlwaysAgreed(config, floats, before);
      StepAgrees(config, floats, Reached(config, floats, before), events[|events| - 1]);
    }
  }
}
