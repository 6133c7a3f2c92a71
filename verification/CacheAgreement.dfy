/** Cache agreement: in every reachable state the registers agree with the cached records. */
module CacheAgreement {
  import opened Core
  import opened Frame
  import opened ParameterHash
  import opened Payload
  import opened Registers
  import opened Config
  import opened RegisterMap
  import opened Health
  import opened Status
  import opened Gateway
  import opened Layout
  import opened Slots

  /* ---------- A point's reply or verified write ---------- */

  ghost predicate OthersSame(s: State, after: State, p: PointConfig) {
    && after.busStatuses == s.busStatuses && after.logicMasks == s.logicMasks
    && (forall key :: DeviceIn(after.deviceStates, key).status == DeviceIn(s.deviceStates, key).status)
    && (forall name :: name != p.name ==> ValueIn(after.pointValues, name) == ValueIn(s.pointValues, name))
  }

  ghost predicate AgreedBut(config: GatewayConfig, floats: Floats, s: State, p: PointConfig) {
    Tracked(s.store) && forall slot :: Owned(config, slot) && slot != ValueSlot(p) ==> ShownSlot(config, floats, s, slot)
  }

  lemma OtherSlotsSame(config: GatewayConfig, floats: Floats, s: State, after: State, p: PointConfig, slot: Slot)
    requires Accepts(config) && p in config.points && Owned(config, slot) && slot != ValueSlot(p)
    requires OthersSame(s, after, p)
    ensures SlotWrites(config, floats, after, slot) == SlotWrites(config, floats, s, slot)
  {
    hide Accepts, SlaveKeys, StatusWrites, PointWrites, AggregateStatus;
    if slot.ValueSlot? {
      PairFacts(config, p, slot.p);
    }
  }

  /** The point's value, if it is published, then its metadata. */
  lemma PointBatch(config: GatewayConfig, floats: Floats, s: State, after: State, p: PointConfig,
                   values: seq<Write>, mark: Option<word>, status: nat)
    requires Accepts(config) && p in config.points && status < 0x1_0000
    requires AgreedBut(config, floats, s, p) && OthersSame(s, after, p)
    requires after.store == PublishAll(s.store, values + MetadataWrites(p, mark, status))
    requires var shown := PointWrites(floats, p, ValueIn(after.pointValues, p.name));
             || values == shown
             || (values == [] && Agreed(config, floats, s) &&
                 ValueIn(after.pointValues, p.name) == ValueIn(s.pointValues, p.name))
    ensures Agreed(config, floats, after)
  {
    hide Accepts, Owned, PublishAll, MetadataWrites, OthersSame, Shows, Tracked, PointWrites, ShownSlot;
    var metadata := MetadataWrites(p, mark, status);
    var ra, rb := Repeat(ValueRegion(p), |values|), Repeat(MetadataRegion(p), |metadata|);
    MetadataPlaced(config, p, mark, status);
    if values != [] {
      ShownIsOwn(config, floats, after, p);
    }
    PlacedTogether(config, values, ra, metadata, rb);
    var writes, regions := values + metadata, ra + rb;
    TrackedAfterAll(s.store, writes);
    forall slot | Owned(config, slot) ensures ShownSlot(config, floats, after, slot) {
      if slot != ValueSlot(p) {
        OtherSlotsSame(config, floats, s, after, p, slot);
        OffThePoint(config, p, slot);
        SlotUntouched(config, floats, s, after, writes, regions, slot);
      } else if values != [] {
        SlotWritten(config, floats, s, after, writes, regions, slot, 0);
      } else if PointWrites(floats, p, ValueIn(after.pointValues, p.name)) == [] {
        SlotEmpty(config, floats, after, slot);
      } else {
        SlotUntouched(config, floats, s, after, writes, regions, slot);
      }
    }
  }

  lemma ShownIsOwn(config: GatewayConfig, floats: Floats, s: State, p: PointConfig)
    requires Accepts(config) && p in config.points
    ensures KnownSlot(config, ValueSlot(p))
    ensures var writes := PointWrites(floats, p, ValueIn(s.pointValues, p.name));
            |writes| <= 1 && Placed(config, writes, Repeat(ValueRegion(p), |writes|))
  {
    hide Accepts, Placed;
    SlotPlaced(config, floats, s, ValueSlot(p));
  }

  lemma OffThePoint(config: GatewayConfig, p: PointConfig, slot: Slot)
    requires Accepts(config) && p in config.points && Owned(config, slot) && slot != ValueSlot(p)
    ensures RegionOf(slot) != ValueRegion(p) && RegionOf(slot) != MetadataRegion(p)
  {
    hide Accepts;
    SlotsHaveTheirOwnRegion(config, slot, ValueSlot(p));
  }

  lemma ClassifiedValues(floats: Floats, p: PointConfig, exchange: Result<OwenFrame>)
    ensures match Classify(floats, p, exchange)
            case Succeeded(value, words, _) => PointWrites(floats, p, Some(value)) == ValueWrites(p, words)
            case Garbled(_, Some(value)) => PointWrites(floats, p, Some(value)) == []
            case Broken(Some(value)) => PointWrites(floats, p, Some(value)) == []
            case _ => true
  {
    hide DecodePayload, PublishedWords, HashParameterName, ValueWrites, TimeMark;
  }

  lemma OutcomeTouches(config: GatewayConfig, s: State, bus: string, outcome: Outcome)
    requires AtPoint(config, s, bus)
    ensures OthersSame(s, ApplyOutcome(config, s, bus, outcome), CurrentPoint(config, s, bus))
  {
    hide CurrentPoint, CurrentKey, AtPoint, PublishAll, MetadataWrites, ValueWrites, AfterFailure, AfterSuccess,
         AfterEmpty, WordStatus, PointStateIn, IncCounter, Passed, Failed, PollerIn;
  }

  lemma OutcomeAgrees(config: GatewayConfig, floats: Floats, s: State, bus: string, exchange: Result<OwenFrame>)
    requires Accepts(config) && Agreed(config, floats, s) && AtPoint(config, s, bus)
    ensures Agreed(config, floats, ApplyOutcome(config, s, bus, Classify(floats, CurrentPoint(config, s, bus), exchange)))
  {
    hide Accepts, Agreed, CurrentPoint, CurrentKey, AtPoint, PublishAll, MetadataWrites, ValueWrites, PointWrites,
         AfterFailure, AfterSuccess, AfterEmpty, WordStatus, PointStateIn, IncCounter, Passed, Failed, PollerIn,
         Classify, OthersSame, DeviceIn;
    var p := CurrentPoint(config, s, bus);
    var outcome := Classify(floats, p, exchange);
    var after := ApplyOutcome(config, s, bus, outcome);
    assert p in config.points by { CurrentPointKnown(config, s, bus); }
    AgreedIsAgreedBut(config, floats, s, p);
    ClassifiedValues(floats, p, exchange);
    OutcomeTouches(config, s, bus, outcome);
    match outcome {
      case Succeeded(value, words, mark) =>
        PointBatch(config, floats, s, after, p, ValueWrites(p, words), mark, CHANNEL_OK);
      case NoData =>
        assert PointWrites(floats, p, None) == [] by { NothingShown(floats, p); }
        assert [] + MetadataWrites(p, None, CHANNEL_DISABLED) == MetadataWrites(p, None, CHANNEL_DISABLED);
        PointBatch(config, floats, s, after, p, [], None, CHANNEL_DISABLED);
      case _ =>
        var status := WordStatus(after.pointStates[p.name]);
        assert [] + MetadataWrites(p, None, status) == MetadataWrites(p, None, status);
        PointBatch(config, floats, s, after, p, [], None, status);
    }
  }

  lemma NothingShown(floats: Floats, p: PointConfig)
    ensures PointWrites(floats, p, None) == []
  {}

  lemma CurrentPointKnown(config: GatewayConfig, s: State, bus: string)
    requires AtPoint(config, s, bus)
    ensures CurrentPoint(config, s, bus) in config.points
  {}

  lemma AgreedIsAgreedBut(config: GatewayConfig, floats: Floats, s: State, p: PointConfig)
    requires Agreed(config, floats, s)
    ensures AgreedBut(config, floats, s, p)
  {
    hide ShownSlot, Tracked, Owned;
  }

  lemma SkipAgrees(config: GatewayConfig, floats: Floats, s: State, bus: string)
    requires Accepts(config) && Agreed(config, floats, s) && AtPoint(config, s, bus)
    ensures Agreed(config, floats, PassOver(config, s, bus))
  {
    hide Accepts, Agreed, CurrentPoint, CurrentKey, AtPoint, PublishAll, MetadataWrites, PointWrites, AfterSkip,
         PointStateIn, Failed, PollerIn;
    var p := CurrentPoint(config, s, bus);
    assert p in config.points by { CurrentPointKnown(config, s, bus); }
    AgreedIsAgreedBut(config, floats, s, p);
    assert [] + MetadataWrites(p, None, CHANNEL_FAILED) == MetadataWrites(p, None, CHANNEL_FAILED);
    PointBatch(config, floats, s, PassOver(config, s, bus), p, [], None, CHANNEL_FAILED);
  }

  /* ---------- Masks and device results ---------- */

  lemma MaskSlotsSame(config: GatewayConfig, floats: Floats, s: State, key: SlaveKey, slot: Slot)
    requires slot != MaskSlot(key)
    ensures SlotWrites(config, floats, PublishMask(config, s, key), slot) == SlotWrites(config, floats, s, slot)
  {
    hide NextMask, Publish, StatusWrites, PointWrites, AggregateStatus;
  }

  lemma MaskSlotNew(config: GatewayConfig, floats: Floats, s: State, key: SlaveKey)
    ensures SlotWrites(config, floats, PublishMask(config, s, key), MaskSlot(key)) == [MaskWrite(key.1, NextMask(config, s, key))]
  {
    hide NextMask, Publish;
  }

  lemma OneWrite(store: Store, w: Write)
    ensures PublishAll(store, [w]) == Publish(store, w)
  {
    assert [w][1..] == [];
  }

  lemma MaskAgrees(config: GatewayConfig, floats: Floats, s: State, key: SlaveKey)
    requires Accepts(config) && Agreed(config, floats, s) && key in SlaveKeys(config.points)
    ensures Agreed(config, floats, PublishMask(config, s, key))
  {
    hide Accepts, KnownSlot, Private, OnlyName, SlaveKeys, PublishAll, Publish, Tracked, ShownSlot, SlotWrites, NextMask,
         MaskWrite;
    var after, w := PublishMask(config, s, key), MaskWrite(key.1, NextMask(config, s, key));
    var writes, regions := [w], [MaskRegion(key.1)];
    OneWrite(s.store, w);
    MaskPlaced(config, key, NextMask(config, s, key));
    TrackedAfterAll(s.store, writes);
    assert KnownSlot(config, MaskSlot(key)) by { MaskIsKnown(config, key); }
    forall slot | Owned(config, slot) ensures ShownSlot(config, floats, after, slot) {
      if slot == MaskSlot(key) {
        MaskSlotNew(config, floats, s, key);
        SlotWritten(config, floats, s, after, writes, regions, slot, 0);
      } else {
        MaskSlotsSame(config, floats, s, key, slot);
        SlotsHaveTheirOwnRegion(config, slot, MaskSlot(key));
        SlotUntouched(config, floats, s, after, writes, regions, slot);
      }
    }
  }

  lemma MaskIsKnown(config: GatewayConfig, key: SlaveKey)
    requires key in SlaveKeys(config.points)
    ensures KnownSlot(config, MaskSlot(key)) && KnownSlot(config, DeviceSlot(key))
  {}

  /** The regions a device result is published to, in order. */
  function RecordRegions(config: GatewayConfig, floats: Floats, s: State, key: SlaveKey): seq<Region> {
    Repeat(StatusRegion(key.1), |StatusWrites(config, floats, key.1, DeviceIn(s.deviceStates, key).status)|) +
    Repeat(TelemetryRegion(key.1), |DeviceTelemetry(config, key.1, DeviceIn(s.deviceStates, key))|) +
    Repeat(StatusRegion(SERVICE_SLAVE_ID), |StatusWrites(config, floats, SERVICE_SLAVE_ID, GatewayStatus(config, s))|) +
    Repeat(TelemetryRegion(SERVICE_SLAVE_ID), |GatewayTelemetry(config, s.counters)|) +
    LineRegions(|config.buses|)
  }

  lemma RecordPlaced(config: GatewayConfig, floats: Floats, s: State, key: SlaveKey)
    ensures Placed(config, RecordWrites(config, floats, s, key), RecordRegions(config, floats, s, key))
  {
    hide Placed, StatusWrites, TelemetryWrites, LineWrites, AggregateStatus, Repeat, LineRegions;
    var d, c := DeviceIn(s.deviceStates, key), s.counters;
    var w0, w1 := StatusWrites(config, floats, key.1, d.status), DeviceTelemetry(config, key.1, d);
    var w2, w3 := StatusWrites(config, floats, SERVICE_SLAVE_ID, GatewayStatus(config, s)), GatewayTelemetry(config, c);
    var r0, r1 := Repeat(StatusRegion(key.1), |w0|), Repeat(TelemetryRegion(key.1), |w1|);
    var r2, r3 := Repeat(StatusRegion(SERVICE_SLAVE_ID), |w2|), Repeat(TelemetryRegion(SERVICE_SLAVE_ID), |w3|);
    StatusPlaced(config, floats, key.1, d.status);
    TelemetryPlaced(config, key.1, d.lastErrorCode, d.success, d.timeout, d.protocolError, d.pollCycle);
    StatusPlaced(config, floats, SERVICE_SLAVE_ID, GatewayStatus(config, s));
    TelemetryPlaced(config, SERVICE_SLAVE_ID, c.lastErrorCode, c.success, c.timeout, c.protocolError, c.pollCycle);
    LinesPlaced(config, s.busStatuses);
    PlacedTogether(config, w0, r0, w1, r1);
    PlacedTogether(config, w0 + w1, r0 + r1, w2, r2);
    PlacedTogether(config, w0 + w1 + w2, r0 + r1 + r2, w3, r3);
    PlacedTogether(config, w0 + w1 + w2 + w3, r0 + r1 + r2 + r3, LineWrites(s.busStatuses, config.buses),
      LineRegions(|config.buses|));
  }

  /** What a device result leaves as it was. */
  lemma RecordedElsewhere(config: GatewayConfig, floats: Floats, s: State, key: SlaveKey, status: nat, code: word,
                          slot: Slot)
    requires slot.ValueSlot? || slot.MaskSlot? || (slot.DeviceSlot? && slot.key != key)
    ensures SlotWrites(config, floats, RecordDeviceResult(config, floats, s, key, status, code), slot) ==
            SlotWrites(config, floats, s, slot)
  {
    hide PublishAll, RecordWrites, StatusWrites, PointWrites, AggregateStatus, DevicesOn, Statuses;
  }

  lemma RecordOffRegion(config: GatewayConfig, floats: Floats, s: State, key: SlaveKey, slot: Slot)
    requires Accepts(config) && KnownSlot(config, slot) && key in SlaveKeys(config.points)
    requires slot.ValueSlot? || slot.MaskSlot? || (slot.DeviceSlot? && slot.key != key)
    ensures RegionOf(slot) !in RecordRegions(config, floats, s, key)
  {
    hide Accepts, SlaveKeys, StatusWrites, TelemetryWrites;
    KeyOwner(config, key);
    if slot.DeviceSlot? {
      KeyOwner(config, slot.key);
    }
  }

  /** The statuses a device result publishes are the new ones, and none of its later writes
      hits the same registers. */
  lemma RecordedHere(config: GatewayConfig, floats: Floats, s: State, key: SlaveKey, status: nat, code: word,
                     slot: Slot) returns (i: nat)
    requires Accepts(config) && KnownSlot(config, slot) && key in SlaveKeys(config.points)
    requires slot.LineSlot? || slot.GatewaySlot? || slot == DeviceSlot(key)
    ensures var recorded := Recorded(config, s, key, status, code);
            var now := SlotWrites(config, floats, RecordDeviceResult(config, floats, s, key, status, code), slot);
            var writes, regions := RecordWrites(config, floats, recorded, key), RecordRegions(config, floats, recorded, key);
            || now == []
            || (i < |writes| && i < |regions| && now == [writes[i]] && regions[i] == RegionOf(slot) &&
                RegionOf(slot) !in regions[i + 1..])
  {
    hide Accepts, SlaveKeys, StatusWrites, TelemetryWrites, PublishAll, Recorded, AggregateStatus, LineWrite;
    KeyOwner(config, key);
    var t := Recorded(config, s, key, status, code);
    StatusPlaced(config, floats, key.1, DeviceIn(t.deviceStates, key).status);
    StatusPlaced(config, floats, SERVICE_SLAVE_ID, GatewayStatus(config, t));
    var a := |StatusWrites(config, floats, key.1, DeviceIn(t.deviceStates, key).status)|;
    var b := |DeviceTelemetry(config, key.1, DeviceIn(t.deviceStates, key))|;
    var c := |StatusWrites(config, floats, SERVICE_SLAVE_ID, GatewayStatus(config, t))|;
    var d := |GatewayTelemetry(config, t.counters)|;
    i := if slot.LineSlot? then a + b + c + d + slot.index else if slot.GatewaySlot? then a + b else 0;
  }

  lemma RecordAgrees(config: GatewayConfig, floats: Floats, s: State, key: SlaveKey, status: nat, code: word)
    requires Accepts(config) && Agreed(config, floats, s) && key in SlaveKeys(config.points)
    ensures Agreed(config, floats, RecordDeviceResult(config, floats, s, key, status, code))
  {
    hide Accepts, KnownSlot, Private, OnlyName, SlaveKeys, PublishAll, Tracked, ShownSlot, SlotWrites, RecordWrites,
         RecordRegions;
    var recorded, after := Recorded(config, s, key, status, code), RecordDeviceResult(config, floats, s, key, status, code);
    var writes, regions := RecordWrites(config, floats, recorded, key), RecordRegions(config, floats, recorded, key);
    RecordPlaced(config, floats, recorded, key);
    TrackedAfterAll(s.store, writes);
    forall slot | Owned(config, slot) ensures ShownSlot(config, floats, after, slot) {
      if slot.LineSlot? || slot.GatewaySlot? || slot == DeviceSlot(key) {
        var i := RecordedHere(config, floats, s, key, status, code, slot);
        if SlotWrites(config, floats, after, slot) == [] {
          SlotEmpty(config, floats, after, slot);
        } else {
          SlotWritten(config, floats, s, after, writes, regions, slot, i);
        }
      } else {
        RecordedElsewhere(config, floats, s, key, status, code, slot);
        RecordOffRegion(config, floats, recorded, key, slot);
        SlotUntouched(config, floats, s, after, writes, regions, slot);
      }
    }
  }

  lemma PollersDoNotShow(config: GatewayConfig, floats: Floats, s: State, pollers: map<string, Poller>)
    requires Agreed(config, floats, s)
    ensures Agreed(config, floats, s.(pollers := pollers))
  {
    hide Owned, Tracked, Shows, StatusWrites, PointWrites;
    var after := s.(pollers := pollers);
    forall slot | Owned(config, slot) ensures ShownSlot(config, floats, after, slot) {
      assert ShownSlot(config, floats, s, slot);
      assert SlotWrites(config, floats, after, slot) == SlotWrites(config, floats, s, slot);
    }
  }

  lemma CloseAgrees(config: GatewayConfig, floats: Floats, s: State, bus: string)
    requires Accepts(config) && Agreed(config, floats, s) && OnDevice(config, s, bus)
    ensures Agreed(config, floats, CloseDevice(config, floats, s, bus))
  {
    hide Accepts, Agreed, PublishMask, RecordDeviceResult, SlaveKeys;
    var key, poller := CurrentKey(config, s, bus), PollerIn(s.pollers, bus);
    var status := DeviceStatus(|PointsOf(config.points, key)|, poller.failures, poller.protocolFailures);
    var masked := PublishMask(config, s, key);
    var recorded := RecordDeviceResult(config, floats, masked, key, status, poller.lastErrorCode);
    MaskAgrees(config, floats, s, key);
    RecordAgrees(config, floats, masked, key, status, poller.lastErrorCode);
    PollersDoNotShow(config, floats, recorded, recorded.pollers[bus := NextDevice(config, bus, poller)]);
  }

  /* ---------- Client writes and their handlers ---------- */

  /** A step that only changes the store, and keeps there whatever was shown. */
  lemma StoreOnly(config: GatewayConfig, floats: Floats, s: State, store: Store)
    requires Agreed(config, floats, s) && Tracked(store)
    requires forall w :: Shows(s.store, w) ==> Shows(store, w)
    ensures Agreed(config, floats, s.(store := store))
  {
    hide Owned, Tracked, Shows, StatusWrites, PointWrites;
    var after := s.(store := store);
    forall slot | Owned(config, slot) ensures ShownSlot(config, floats, after, slot) {
      assert ShownSlot(config, floats, s, slot);
      assert SlotWrites(config, floats, after, slot) == SlotWrites(config, floats, s, slot);
    }
  }

  lemma ClientWriteAgrees(config: GatewayConfig, floats: Floats, s: State, slave: int, address: int, words: seq<word>)
    requires Agreed(config, floats, s)
    ensures Agreed(config, floats, s.(store := ClientWrite(s.store, slave, address, words)))
  {
    hide Owned, ShownSlot, Shows, ClientWrite;
    var after := ClientWrite(s.store, slave, address, words);
    ClientWriteTracks(s.store, slave, address, words);
    forall w | Shows(s.store, w) ensures Shows(after, w) {
      ClientWriteKeeps(s.store, slave, address, words, w);
    }
    StoreOnly(config, floats, s, after);
  }

  lemma CoilWriteAgrees(config: GatewayConfig, floats: Floats, s: State, slave: int, address: int, bits: seq<word>)
    requires Agreed(config, floats, s)
    ensures Agreed(config, floats, s.(store := CoilWrite(s.store, slave, address, bits)))
  {
    hide Owned, ShownSlot, Shows, Assigned;
    var after := CoilWrite(s.store, slave, address, bits);
    assert Tracked(after);
    forall w | Shows(s.store, w) ensures Shows(after, w) {
      CoilWriteKeeps(s.store, slave, address, bits, w);
    }
    StoreOnly(config, floats, s, after);
  }

  lemma RejectAgrees(config: GatewayConfig, floats: Floats, s: State, k: nat)
    requires Agreed(config, floats, s) && k < |s.store.pending|
    ensures Agreed(config, floats, RejectWrite(s, k))
  {
    hide Owned, ShownSlot, Shows, Restore;
    WithoutTracks(s.store, k);
    forall w | Shows(s.store, w) ensures Shows(Restore(s.store, k), w) {
      RestoreKeeps(s.store, k, w);
    }
    StoreOnly(config, floats, s, Restore(s.store, k));
  }

  lemma {:induction false} WritableFound(points: seq<PointConfig>, slave: int, address: int, count: nat)
    requires WritableAt(points, slave, address, count).Some?
    ensures var p := WritableAt(points, slave, address, count).value;
            p in points && p.writable && SlaveOf(p) == slave && p.modbusAddress == address && RegisterCount(p) == count
  {
    var p := points[|points| - 1];
    if !(p.writable && SlaveOf(p) == slave && p.modbusAddress == address && RegisterCount(p) == count) {
      WritableFound(points[..|points| - 1], slave, address, count);
    }
  }

  lemma WritableIsPublished(config: GatewayConfig, p: PointConfig)
    requires Accepts(config) && p in config.points && p.writable
    ensures p.publishToModbus && p.registerType == HoldingRegister && WritablePair(p.protocolFormat, p.modbusDataType)
  {
    var i :| 0 <= i < |config.points| && config.points[i] == p;
    assert PointFieldsOk(BusNames(config.buses), config.points[i]);
  }

  /** The write in flight covers exactly the registers of its point. */
  lemma WriteOnItsPoint(config: GatewayConfig, write: PendingWrite, p: PointConfig)
    requires Accepts(config) && WritableAt(config.points, write.slave, write.address, |write.words|) == Some(p)
    ensures p in config.points && p.writable
    ensures forall c :: c in PendingCells(write) <==> Covers(config, ValueRegion(p), c)
  {
    hide Accepts, WritableAt;
    WritableFound(config.points, write.slave, write.address, |write.words|);
    WritableIsPublished(config, p);
  }

  lemma WithdrawAgrees(config: GatewayConfig, floats: Floats, s: State, k: nat, p: PointConfig)
    requires Accepts(config) && Agreed(config, floats, s) && k < |s.store.pending|
    requires p in config.points && forall c :: c in PendingCells(s.store.pending[k]) ==> Covers(config, ValueRegion(p), c)
    ensures AgreedBut(config, floats, s.(store := Withdraw(s.store, k)), p)
  {
    hide Accepts, KnownSlot, OnlyName, Shows, Known, Covers, SlotWrites, PendingCells;
    var after := s.(store := Withdraw(s.store, k));
    WithoutTracks(s.store, k);
    forall slot | Owned(config, slot) && slot != ValueSlot(p) ensures ShownSlot(config, floats, after, slot) {
      assert ShownSlot(config, floats, s, slot);
      SlotPlaced(config, floats, s, slot);
      SlotRegion(config, slot);
      SlotIgnoresStore(config, floats, s, Withdraw(s.store, k), slot);
      OffThePoint(config, p, slot);
      forall w | w in SlotWrites(config, floats, s, slot) ensures Shows(after.store, w) {
        assert Within(config, w, RegionOf(slot));
        assert Known(config, ValueRegion(p)) by { ValueKnown(config, p); }
        forall c | c in CellsOf(w) ensures c !in PendingCells(s.store.pending[k]) {
          assert Covers(config, RegionOf(slot), c);
        }
        WithdrawKeeps(s.store, k, w);
      }
    }
  }

  lemma ValueKnown(config: GatewayConfig, p: PointConfig)
    requires p in config.points
    ensures Known(config, ValueRegion(p))
  {}

  lemma SlotIgnoresStore(config: GatewayConfig, floats: Floats, s: State, store: Store, slot: Slot)
    ensures SlotWrites(config, floats, s.(store := store), slot) == SlotWrites(config, floats, s, slot)
  {
    hide StatusWrites, PointWrites;
  }

  /** The records a verified value changes first. */
  function WithValue(s: State, p: PointConfig, value: Value): State {
    s.(pointValues := s.pointValues[p.name := Some(value)],
       pointStates := s.pointStates[p.name := AfterSuccess(PointStateIn(s.pointStates, p.name))])
  }

  lemma AcceptAgrees(config: GatewayConfig, floats: Floats, s: State, k: nat, p: PointConfig, value: Value)
    requires Accepts(config) && Agreed(config, floats, s) && k < |s.store.pending|
    requires p in config.points && forall c :: c in PendingCells(s.store.pending[k]) ==> Covers(config, ValueRegion(p), c)
    requires PublishedWords(floats, p, value).Ok?
    ensures Agreed(config, floats, AcceptWrite(config, floats, s, k, p, value))
  {
    hide Accepts, Agreed, AgreedBut, PublishAll, MetadataWrites, ValueWrites, PublishedWords, Withdraw, PublishMask,
         AfterSuccess, PointStateIn, SlaveKeys, PendingCells, Covers;
    var words := PublishedWords(floats, p, value).value;
    var withdrawn := s.(store := Withdraw(s.store, k));
    var s1 := WithValue(s, p, value);
    var published := s1.(store := PublishAll(withdrawn.store, ValueWrites(p, words) + MetadataWrites(p, None, CHANNEL_OK)));
    WithdrawAgrees(config, floats, s, k, p);
    PointBatch(config, floats, withdrawn, published, p, ValueWrites(p, words), None, CHANNEL_OK);
    KeysOfPoints(config.points, KeyOf(p));
    MaskAgrees(config, floats, published, KeyOf(p));
  }

  lemma PublishesVerified(config: GatewayConfig, floats: Floats, p: PointConfig, words: seq<word>,
                          ack: Result<Option<OwenFrame>>, readBacks: seq<Result<OwenFrame>>)
    requires Accepts(config) && Lawful(floats) && p in config.points && p.writable
    requires WriteOutcome(floats, p, words, ack, readBacks).Ok?
    ensures PublishedWords(floats, p, WriteOutcome(floats, p, words, ack, readBacks).value).Ok?
  {
    hide Accepts, Lawful, EncodeRegisters, DecodePayload, DecodeRegisters, EncodePayload, AckAccepted, Verify;
    WritableIsPublished(config, p);
    WritablePairsPublish(p.protocolFormat, p.modbusDataType);
    var value := DecodeRegisters(floats, words, p.modbusDataType).value;
    var j := VerifiedByARead(floats, p, value, readBacks);
    DecodedValuesPublish(floats, readBacks[j].value.payload, p.protocolFormat, p.modbusDataType);
  }

  /** A verified value was read back from the device, and matches. */
  lemma {:induction false} VerifiedByARead(floats: Floats, p: PointConfig, expected: Value,
                                           readBacks: seq<Result<OwenFrame>>) returns (j: nat)
    requires Verify(floats, p, expected, readBacks).Ok?
    ensures j < |readBacks| && readBacks[j].Ok? && !readBacks[j].value.request
    ensures DecodePayload(floats, readBacks[j].value.payload, p.protocolFormat) == Verify(floats, p, expected, readBacks)
    ensures ValuesMatch(expected, Verify(floats, p, expected, readBacks).value)
  {
    hide DecodePayload, ValuesMatch;
    j := 0;
    if CheckRead(floats, p, expected, readBacks[0]).Err? {
      var rest := VerifiedByARead(floats, p, expected, readBacks[1..]);
      j := rest + 1;
    }
  }

  lemma HandlerAgrees(config: GatewayConfig, floats: Floats, s: State, k: nat,
                      ack: Result<Option<OwenFrame>>, readBacks: seq<Result<OwenFrame>>)
    requires Accepts(config) && Lawful(floats) && Agreed(config, floats, s) && k < |s.store.pending|
    ensures Agreed(config, floats, EndHandler(config, floats, s, k, ack, readBacks))
  {
    hide Accepts, Lawful, Agreed, RejectWrite, AcceptWrite, WritableAt, WriteOutcome, PublishedWords, PendingCells,
         Covers;
    var write := s.store.pending[k];
    var point := WritableAt(config.points, write.slave, write.address, |write.words|);
    RejectAgrees(config, floats, s, k);
    if point.Some? {
      var p, outcome := point.value, WriteOutcome(floats, point.value, write.words, ack, readBacks);
      WriteOnItsPoint(config, write, p);
      if outcome.Ok? {
        PublishesVerified(config, floats, p, write.words, ack, readBacks);
        AcceptAgrees(config, floats, s, k, p, outcome.value);
      }
    }
  }
}
