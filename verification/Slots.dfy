/** Which registers show which part of the cached state, and how batches of publishes keep
    them. */
module Slots {
  import opened Core
  import opened Payload
  import opened Registers
  import opened Config
  import opened RegisterMap
  import opened Status
  import opened Gateway
  import opened Layout

  /** A piece of cached state together with the registers that show it. */
  datatype Slot =
    | ValueSlot(p: PointConfig)
    | LineSlot(index: nat)
    | GatewaySlot
    | DeviceSlot(key: SlaveKey)
    | MaskSlot(key: SlaveKey)

  predicate KnownSlot(config: GatewayConfig, slot: Slot) {
    match slot
    case ValueSlot(p) => p in config.points
    case LineSlot(index) => index < |config.buses|
    case GatewaySlot => true
    case DeviceSlot(key) => key in SlaveKeys(config.points)
    case MaskSlot(key) => key in SlaveKeys(config.points)
  }

  function RegionOf(slot: Slot): Region {
    match slot
    case ValueSlot(p) => ValueRegion(p)
    case LineSlot(index) => LineRegion(index)
    case GatewaySlot => StatusRegion(SERVICE_SLAVE_ID)
    case DeviceSlot(key) => StatusRegion(key.1)
    case MaskSlot(key) => MaskRegion(key.1)
  }

  function GatewayStatus(config: GatewayConfig, s: State): nat {
    AggregateStatus(LineStatuses(s.busStatuses, config.buses))
  }

  function PointWrites(floats: Floats, p: PointConfig, value: Option<Value>): seq<Write> {
    match value
    case None => []
    case Some(v) =>
      match PublishedWords(floats, p, v)
      case Ok(words) => ValueWrites(p, words)
      case Err(_) => []
  }

  function MaskByte(mask: nat): nat { if mask < 0x100 then mask else 0 }

  /** What the registers of a slot should hold: at most one write. */
  function SlotWrites(config: GatewayConfig, floats: Floats, s: State, slot: Slot): seq<Write> {
    match slot
    case ValueSlot(p) => PointWrites(floats, p, ValueIn(s.pointValues, p.name))
    case LineSlot(index) => if index < |config.buses| then [LineWrite(s.busStatuses, config.buses, index)] else []
    case GatewaySlot => StatusWrites(config, floats, SERVICE_SLAVE_ID, GatewayStatus(config, s))
    case DeviceSlot(key) => StatusWrites(config, floats, key.1, DeviceIn(s.deviceStates, key).status)
    case MaskSlot(key) => [MaskWrite(key.1, MaskByte(LogicMaskIn(s.logicMasks, key)))]
  }

  ghost predicate ShownSlot(config: GatewayConfig, floats: Floats, s: State, slot: Slot) {
    Tracked(s.store) && forall w :: w in SlotWrites(config, floats, s, slot) ==> Shows(s.store, w)
  }

  /** A slot whose registers nothing else is published to. */
  ghost predicate Owned(config: GatewayConfig, slot: Slot) {
    && KnownSlot(config, slot) && Private(config, RegionOf(slot))
    && (slot.ValueSlot? ==> OnlyName(config, slot.p))
  }

  ghost predicate Agreed(config: GatewayConfig, floats: Floats, s: State) {
    Tracked(s.store) && forall slot :: Owned(config, slot) ==> ShownSlot(config, floats, s, slot)
  }

  /** For a published point of an accepted configuration that is exactly: no other point has
      its name, and its value is spared. */
  lemma ValueIsOwnedExactly(config: GatewayConfig, p: PointConfig)
    requires Accepts(config) && p in config.points && p.publishToModbus
    ensures Owned(config, ValueSlot(p)) <==> OnlyName(config, p) && ValueSpared(config, p)
  {
    hide Accepts, OnlyName, Private, ValueSpared;
    ValueIsPrivateExactly(config, p);
  }

  /** In an acceptable layout every slot is owned. */
  lemma LayoutOwnsEverySlot(config: GatewayConfig, slot: Slot)
    requires LayoutOk(config) && KnownSlot(config, slot)
    ensures Owned(config, slot)
  {
    hide LayoutOk, LaidOut, Accepts, OnlyName, Private, Known;
    LayoutFacts(config);
    SlotRegion(config, slot);
    LaidOutIsPrivate(config, RegionOf(slot));
  }

  /* ---------- Where writes land ---------- */

  ghost predicate Placed(config: GatewayConfig, writes: seq<Write>, regions: seq<Region>) {
    && |regions| == |writes|
    && forall i :: 0 <= i < |writes| ==> Within(config, writes[i], regions[i]) && Known(config, regions[i])
  }

  lemma PlacedTogether(config: GatewayConfig, a: seq<Write>, ra: seq<Region>, b: seq<Write>, rb: seq<Region>)
    requires Placed(config, a, ra) && Placed(config, b, rb)
    ensures Placed(config, a + b, ra + rb)
  {
    hide Within, Known;
  }

  function Repeat(region: Region, count: nat): (regions: seq<Region>)
    ensures |regions| == count && forall i :: 0 <= i < count ==> regions[i] == region
  {
    seq(count, i => region)
  }

  lemma {:induction false} KeysOfPoints(points: seq<PointConfig>, key: SlaveKey)
    ensures key in SlaveKeys(points) <==> exists p :: p in points && KeyOf(p) == key
  {
    if points != [] {
      var init, last := points[..|points| - 1], points[|points| - 1];
      KeysOfPoints(init, key);
      assert forall p :: p in points <==> p in init || p == last;
    }
  }

  lemma SlotRegion(config: GatewayConfig, slot: Slot)
    requires KnownSlot(config, slot)
    ensures Known(config, RegionOf(slot)) && Cached(RegionOf(slot))
  {
    hide SlaveKeys;
    if slot.MaskSlot? {
      KeysOfPoints(config.points, slot.key);
    }
  }

  lemma KeyOwner(config: GatewayConfig, key: SlaveKey)
    requires Accepts(config) && key in SlaveKeys(config.points)
    ensures key.1 != SERVICE_SLAVE_ID
    ensures forall other :: other in SlaveKeys(config.points) && other.1 == key.1 ==> other == key
  {
    hide Accepts, SlaveKeys;
    KeysOfPoints(config.points, key);
    var p :| p in config.points && KeyOf(p) == key;
    PointFacts(config, p);
    forall other | other in SlaveKeys(config.points) && other.1 == key.1 ensures other == key {
      KeysOfPoints(config.points, other);
      var q :| q in config.points && KeyOf(q) == other;
      if p != q {
        PairFacts(config, p, q);
      }
    }
  }

  lemma SlotsHaveTheirOwnRegion(config: GatewayConfig, slot: Slot, other: Slot)
    requires Accepts(config) && KnownSlot(config, slot) && KnownSlot(config, other) && slot != other
    ensures RegionOf(slot) != RegionOf(other)
  {
    hide Accepts, SlaveKeys;
    if slot.DeviceSlot? || slot.MaskSlot? {
      KeyOwner(config, slot.key);
    } else if other.DeviceSlot? {
      KeyOwner(config, other.key);
    }
  }

  lemma ValuePlaced(config: GatewayConfig, floats: Floats, p: PointConfig, value: Value, words: seq<word>)
    requires p in config.points && PublishedWords(floats, p, value) == Ok(words)
    ensures Placed(config, ValueWrites(p, words), Repeat(ValueRegion(p), |ValueWrites(p, words)|))
  {
    assert p.publishToModbus ==> Width(p.modbusDataType) == |words|;
  }

  lemma MetadataPlaced(config: GatewayConfig, p: PointConfig, mark: Option<word>, status: nat)
    requires p in config.points && status < 0x1_0000
    ensures Placed(config, MetadataWrites(p, mark, status), Repeat(MetadataRegion(p), |MetadataWrites(p, mark, status)|))
  {}

  lemma StatusPlaced(config: GatewayConfig, floats: Floats, slave: int, status: nat)
    ensures |StatusWrites(config, floats, slave, status)| <= 1
    ensures Placed(config, StatusWrites(config, floats, slave, status),
                   Repeat(StatusRegion(slave), |StatusWrites(config, floats, slave, status)|))
  {
    var encoded := EncodeRegisters(floats, Int(status), config.status.dataType);
    if encoded.Ok? {
      assert Width(config.status.dataType) == |encoded.value|;
    }
  }

  lemma TelemetryPlaced(config: GatewayConfig, slave: int, lastErrorCode: word, success: word, timeout: word,
                        protocolError: word, pollCycle: word)
    ensures var writes := TelemetryWrites(config, slave, lastErrorCode, success, timeout, protocolError, pollCycle);
            Placed(config, writes, Repeat(TelemetryRegion(slave), |writes|))
  {}

  function LineRegions(count: nat): (regions: seq<Region>)
    ensures |regions| == count && forall i :: 0 <= i < count ==> regions[i] == LineRegion(i)
  {
    seq(count, i requires 0 <= i < count => LineRegion(i))
  }

  lemma LinesPlaced(config: GatewayConfig, lines: map<string, nat>)
    ensures Placed(config, LineWrites(lines, config.buses), LineRegions(|config.buses|))
  {}

  lemma MaskPlaced(config: GatewayConfig, key: SlaveKey, mask: nat)
    requires mask < 0x100 && key in SlaveKeys(config.points)
    ensures Placed(config, [MaskWrite(key.1, mask)], [MaskRegion(key.1)])
  {
    hide SlaveKeys;
    KeysOfPoints(config.points, key);
  }

  lemma SlotPlaced(config: GatewayConfig, floats: Floats, s: State, slot: Slot)
    requires KnownSlot(config, slot)
    ensures var writes := SlotWrites(config, floats, s, slot);
            |writes| <= 1 && Placed(config, writes, Repeat(RegionOf(slot), |writes|))
  {
    hide SlaveKeys, StatusWrites, ValueWrites, EncodeRegisters, Within, Known, AggregateStatus;
    match slot {
      case ValueSlot(p) =>
        var value := ValueIn(s.pointValues, p.name);
        if value.Some? && PublishedWords(floats, p, value.value).Ok? {
          ValuePlaced(config, floats, p, value.value, PublishedWords(floats, p, value.value).value);
          AtMostOneValue(p, PublishedWords(floats, p, value.value).value);
        }
      case LineSlot(index) =>
        LinesPlaced(config, s.busStatuses);
      case GatewaySlot =>
        StatusPlaced(config, floats, SERVICE_SLAVE_ID, GatewayStatus(config, s));
      case DeviceSlot(key) =>
        StatusPlaced(config, floats, key.1, DeviceIn(s.deviceStates, key).status);
      case MaskSlot(key) =>
        MaskPlaced(config, key, MaskByte(LogicMaskIn(s.logicMasks, key)));
    }
  }

  lemma AtMostOneValue(p: PointConfig, words: seq<word>)
    ensures |ValueWrites(p, words)| <= 1
  {}

  /* ---------- One batch of publishes ---------- */

  /** A batch that stays off a slot's region keeps it shown. */
  lemma BatchKeeps(config: GatewayConfig, store: Store, writes: seq<Write>, regions: seq<Region>, w: Write, own: Region)
    requires Placed(config, writes, regions)
    requires Private(config, own) && own !in regions && Within(config, w, own)
    requires Tracked(store) && Shows(store, w)
    ensures Tracked(PublishAll(store, writes)) && Shows(PublishAll(store, writes), w)
  {
    hide Within, Known, Tracked, Shows, Private;
    forall i | 0 <= i < |writes| ensures CellsOf(writes[i]) !! CellsOf(w) {
      WritesApart(config, w, own, writes[i], regions[i]);
    }
    PublishAllKeeps(store, writes, w);
  }

  /** The last write of a batch to its region is shown. */
  lemma BatchShows(config: GatewayConfig, store: Store, writes: seq<Write>, regions: seq<Region>, i: nat)
    requires Placed(config, writes, regions) && Tracked(store)
    requires i < |writes| && Private(config, regions[i]) && regions[i] !in regions[i + 1..]
    ensures Tracked(PublishAll(store, writes)) && Shows(PublishAll(store, writes), writes[i])
  {
    hide Within, Known, Tracked, Shows, Private;
    forall j | i < j < |writes| ensures CellsOf(writes[j]) !! CellsOf(writes[i]) {
      assert regions[j] == regions[i + 1..][j - i - 1];
      WritesApart(config, writes[i], regions[i], writes[j], regions[j]);
    }
    PublishAllShows(store, writes, i);
  }

  /* The three ways a slot is shown after a batch: the batch stays off it, it writes the
     slot's registers last, or nothing is to be shown any more. */

  lemma SlotUntouched(config: GatewayConfig, floats: Floats, s: State, after: State, writes: seq<Write>,
                      regions: seq<Region>, slot: Slot)
    requires Owned(config, slot) && Placed(config, writes, regions)
    requires after.store == PublishAll(s.store, writes) && ShownSlot(config, floats, s, slot)
    requires SlotWrites(config, floats, after, slot) == SlotWrites(config, floats, s, slot) && RegionOf(slot) !in regions
    ensures ShownSlot(config, floats, after, slot)
  {
    hide KnownSlot, Private, OnlyName, Within, Known, Tracked, Shows, SlotWrites, PublishAll;
    TrackedAfterAll(s.store, writes);
    SlotPlaced(config, floats, after, slot);
    var now := SlotWrites(config, floats, after, slot);
    if now != [] {
      assert Within(config, now[0], RegionOf(slot));
      BatchKeeps(config, s.store, writes, regions, now[0], RegionOf(slot));
    }
  }

  lemma SlotWritten(config: GatewayConfig, floats: Floats, s: State, after: State, writes: seq<Write>,
                    regions: seq<Region>, slot: Slot, i: nat)
    requires Owned(config, slot) && Placed(config, writes, regions)
    requires Tracked(s.store) && after.store == PublishAll(s.store, writes)
    requires i < |writes| && regions[i] == RegionOf(slot) && RegionOf(slot) !in regions[i + 1..]
    requires SlotWrites(config, floats, after, slot) == [writes[i]]
    ensures ShownSlot(config, floats, after, slot)
  {
    hide KnownSlot, Private, OnlyName, Within, Known, Tracked, Shows, SlotWrites, PublishAll;
    BatchShows(config, s.store, writes, regions, i);
  }

  lemma SlotEmpty(config: GatewayConfig, floats: Floats, s: State, slot: Slot)
    requires Tracked(s.store) && SlotWrites(config, floats, s, slot) == []
    ensures ShownSlot(config, floats, s, slot)
  {}

  lemma TrackedAfterAll(store: Store, writes: seq<Write>)
    requires Tracked(store)
    ensures Tracked(PublishAll(store, writes))
  {
    PublishAllTracks(store, writes);
  }
}
