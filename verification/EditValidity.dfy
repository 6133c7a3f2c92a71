/** Edits and validity: when an edited configuration is accepted again. */
module EditValidity {
  import opened Core
  import opened Registers
  import opened Config
  import opened StableSort
  import opened ConfigEdit
  import opened EditLaws

  /* ---------- Compatibility does not depend on order ---------- */

  lemma CompatibleIsSymmetric(p: PointConfig, q: PointConfig)
    ensures Compatible(p, q) <==> Compatible(q, p)
  {
    hide PointCells;
  }

  ghost predicate CompatibleWithAll(s: seq<PointConfig>, p: PointConfig) {
    forall q :: q in s ==> Compatible(q, p)
  }

  lemma PairwiseOneMore(s: seq<PointConfig>, p: PointConfig)
    ensures PairwiseCompatible(s + [p]) <==> PairwiseCompatible(s) && CompatibleWithAll(s, p)
  {
    hide Compatible;
    var longer := s + [p];
    if PairwiseCompatible(longer) {
      forall q | q in s ensures Compatible(q, p) {
        var i :| 0 <= i < |s| && s[i] == q;
        assert Compatible(longer[i], longer[|s|]);
      }
      forall i, j | 0 <= i < j < |s| ensures Compatible(s[i], s[j]) {
        assert Compatible(longer[i], longer[j]);
      }
    }
  }

  lemma {:induction false} PairwiseInsert(s: seq<PointConfig>, p: PointConfig)
    ensures PairwiseCompatible(Insert(s, p)) <==> PairwiseCompatible(s) && CompatibleWithAll(s, p)
  {
    hide Compatible, KeyLess, PairwiseCompatible;
    if s == [] || !KeyLess(p, s[|s| - 1]) {
      PairwiseOneMore(s, p);
    } else {
      var init, last := s[..|s| - 1], s[|s| - 1];
      PairwiseInsert(init, p);
      InsertElements(init, p);
      PairwiseOneMore(Insert(init, p), last);
      PairwiseOneMore(init, last);
      SplitLast(s);
      CompatibleIsSymmetric(p, last);
      assert forall q :: q in s <==> q in init || q == last;
      assert CompatibleWithAll(Insert(init, p), last) <==> CompatibleWithAll(init, last) && Compatible(p, last);
      assert CompatibleWithAll(s, p) <==> CompatibleWithAll(init, p) && Compatible(last, p);
    }
  }

  lemma {:induction false} PairwiseSort(s: seq<PointConfig>)
    ensures PairwiseCompatible(Sort(s)) <==> PairwiseCompatible(s)
  {
    hide Compatible, PairwiseCompatible, Insert;
    if s != [] {
      var init, last := s[..|s| - 1], s[|s| - 1];
      PairwiseSort(init);
      PairwiseInsert(Sort(init), last);
      SortElements(init);
      PairwiseOneMore(init, last);
      SplitLast(s);
      assert CompatibleWithAll(Sort(init), last) <==> CompatibleWithAll(init, last);
    } else {
      assert Sort(s) == s;
    }
  }

  ghost predicate CrossCompatible(a: seq<PointConfig>, b: seq<PointConfig>) {
    forall p, q :: p in a && q in b ==> Compatible(p, q)
  }

  lemma {:induction false} PairwiseAppend(a: seq<PointConfig>, b: seq<PointConfig>)
    ensures PairwiseCompatible(a + b) <==> PairwiseCompatible(a) && PairwiseCompatible(b) && CrossCompatible(a, b)
    decreases |b|
  {
    hide Compatible, PairwiseCompatible;
    if b == [] {
      assert a + b == a;
      assert PairwiseCompatible(b) by { NothingToCompare(); }
    } else {
      var init, last := b[..|b| - 1], b[|b| - 1];
      PairwiseAppend(a, init);
      assert a + b == (a + init) + [last];
      PairwiseOneMore(a + init, last);
      PairwiseOneMore(init, last);
      SplitLast(b);
      assert forall q :: q in b <==> q in init || q == last;
      assert CompatibleWithAll(a + init, last) <==> CompatibleWithAll(a, last) && CompatibleWithAll(init, last);
      assert CrossCompatible(a, b) <==> CrossCompatible(a, init) && CompatibleWithAll(a, last);
    }
  }

  lemma NothingToCompare()
    ensures PairwiseCompatible([])
  {}

  lemma {:induction false} PairwiseFilter(keep: PointConfig -> bool, s: seq<PointConfig>)
    requires PairwiseCompatible(s)
    ensures PairwiseCompatible(Filter(keep, s))
  {
    hide Compatible, PairwiseCompatible;
    if s != [] {
      var init, last := s[..|s| - 1], s[|s| - 1];
      SplitLast(s);
      PairwiseOneMore(init, last);
      PairwiseFilter(keep, init);
      PairwiseOneMore(Filter(keep, init), last);
    }
  }

  /* ---------- The register layout of a device ---------- */

  /** The registers a TRM138 uses: values, channel statuses, set points. */
  function DeviceRegisters(): set<int> { Range(16, 16) + Range(40, 8) + Range(56, 16) }

  lemma DeviceCells(bus: string, device: int, base: int, c: int)
    requires 1 <= c <= CHANNEL_COUNT
    ensures forall a :: a in PointCells(ReadPoint(bus, device, base, c)) <==>
              a == 14 + 2 * c || a == 15 + 2 * c || a == 39 + c
    ensures forall a :: a in PointCells(SetpointPoint(bus, device, base, c)) <==> a == 54 + 2 * c || a == 55 + 2 * c
  {
    hide Prefix, Text;
  }

  datatype Kind = Reading | Setpoint | Alarm

  function PointOf(bus: string, device: int, base: int, c: int, kind: Kind): (p: PointConfig)
    ensures p.bus == bus && p.device == device && p.modbusSlaveId == Some(base) && p.registerType == HoldingRegister
    ensures p.publishToModbus <==> !kind.Alarm?
  {
    match kind
    case Reading => ReadPoint(bus, device, base, c)
    case Setpoint => SetpointPoint(bus, device, base, c)
    case Alarm => AlarmPoint(bus, device, base, c)
  }

  /** Points of different channels or kinds share no register. */
  lemma LayoutIsDisjoint(bus: string, device: int, base: int, c: int, kind: Kind, d: int, other: Kind)
    requires 1 <= c <= CHANNEL_COUNT && 1 <= d <= CHANNEL_COUNT && (c != d || kind != other)
    ensures Compatible(PointOf(bus, device, base, c, kind), PointOf(bus, device, base, d, other))
  {
    hide ReadPoint, SetpointPoint, AlarmPoint, PointCells;
    DeviceCells(bus, device, base, c);
    DeviceCells(bus, device, base, d);
    var p, q := PointOf(bus, device, base, c, kind), PointOf(bus, device, base, d, other);
    if !kind.Alarm? && !other.Alarm? {
      forall a | a in PointCells(p) ensures a !in PointCells(q) {}
      assert PointCells(p) !! PointCells(q);
    }
  }

  lemma {:induction false} DevicePointsForm(bus: string, device: int, base: int, channels: seq<int>)
    ensures forall p :: p in DevicePoints(bus, device, base, channels) <==>
              exists c, kind :: c in channels && p == PointOf(bus, device, base, c, kind)
  {
    hide ReadPoint, SetpointPoint, AlarmPoint;
    if channels != [] {
      var init, last := channels[..|channels| - 1], channels[|channels| - 1];
      DevicePointsForm(bus, device, base, init);
      assert forall c :: c in channels <==> c in init || c == last;
      forall p
        ensures p in DevicePoints(bus, device, base, channels) <==>
                exists c, kind :: c in channels && p == PointOf(bus, device, base, c, kind)
      {
        ThreePoints(bus, device, base, last, p);
        assert p in DevicePoints(bus, device, base, channels) <==>
               p in DevicePoints(bus, device, base, init) || p in ChannelPoints(bus, device, base, last);
      }
    }
  }

  lemma ThreePoints(bus: string, device: int, base: int, c: int, p: PointConfig)
    ensures p in ChannelPoints(bus, device, base, c) <==> exists kind :: p == PointOf(bus, device, base, c, kind)
  {
    hide ReadPoint, SetpointPoint, AlarmPoint;
    if p in ChannelPoints(bus, device, base, c) {
      assert || p == PointOf(bus, device, base, c, Reading)
             || p == PointOf(bus, device, base, c, Setpoint)
             || p == PointOf(bus, device, base, c, Alarm);
    }
  }

  predicate Distinct(channels: seq<int>) {
    && (forall i :: 0 <= i < |channels| ==> 1 <= channels[i] <= CHANNEL_COUNT)
    && forall i, j :: 0 <= i < j < |channels| ==> channels[i] != channels[j]
  }

  lemma {:induction false} DeviceIsCompatible(bus: string, device: int, base: int, channels: seq<int>)
    requires Distinct(channels)
    ensures PairwiseCompatible(DevicePoints(bus, device, base, channels))
  {
    hide ReadPoint, SetpointPoint, AlarmPoint, Compatible, PointOf;
    if channels != [] {
      var init, last := channels[..|channels| - 1], channels[|channels| - 1];
      DeviceIsCompatible(bus, device, base, init);
      ChannelIsCompatible(bus, device, base, last);
      DevicePointsForm(bus, device, base, init);
      forall p, q | p in DevicePoints(bus, device, base, init) && q in ChannelPoints(bus, device, base, last)
        ensures Compatible(p, q)
      {
        var c, kind :| c in init && p == PointOf(bus, device, base, c, kind);
        ThreePoints(bus, device, base, last, q);
        var other :| q == PointOf(bus, device, base, last, other);
        LayoutIsDisjoint(bus, device, base, c, kind, last, other);
      }
      PairwiseAppend(DevicePoints(bus, device, base, init), ChannelPoints(bus, device, base, last));
    }
  }

  lemma ChannelIsCompatible(bus: string, device: int, base: int, c: int)
    requires 1 <= c <= CHANNEL_COUNT
    ensures PairwiseCompatible(ChannelPoints(bus, device, base, c))
  {
    hide ReadPoint, SetpointPoint, AlarmPoint, Compatible;
    LayoutIsDisjoint(bus, device, base, c, Reading, c, Setpoint);
    LayoutIsDisjoint(bus, device, base, c, Reading, c, Alarm);
    LayoutIsDisjoint(bus, device, base, c, Setpoint, c, Alarm);
  }

  /* ---------- Rebuilding a device ---------- */

  /** Status and telemetry stay off the registers a TRM138 uses, as the defaults do. */
  predicate ServiceOffDevices(config: GatewayConfig) {
    && ReservedCells(config, HoldingRegister) !! DeviceRegisters()
    && (config.status.enabled && config.status.registerType == HoldingRegister ==> HasRegisters(config.status.dataType))
  }

  const DEFAULT_STATUS := StatusConfig(true, HoldingRegister, 1, Uint16Type)
  const DEFAULT_TELEMETRY := TelemetryConfig(true, HoldingRegister, 2, 3, 4, 5, 6)

  lemma DefaultsStayOff(config: GatewayConfig)
    requires config.status == DEFAULT_STATUS && config.telemetry == DEFAULT_TELEMETRY
    ensures ServiceOffDevices(config) && SharedOkButPort(config)
  {
    hide Range, Accepts;
    assert forall a :: a in StatusCells(config.status) <==> a == 1;
    assert forall a :: a in DeviceRegisters() ==> a >= 16;
    assert forall a :: a in ReservedCells(config, HoldingRegister) ==> a <= 6;
  }

  predicate SharedOkButPort(config: GatewayConfig) {
    StatusOk(config.status) && TelemetryOk(config.telemetry) && ServiceCellsApart(config.status, config.telemetry)
  }

  lemma PointsInRegisters(bus: string, device: int, base: int, c: int, kind: Kind)
    requires 1 <= c <= CHANNEL_COUNT && !kind.Alarm?
    ensures PointCells(PointOf(bus, device, base, c, kind)) <= DeviceRegisters()
    ensures HasRegisters(PointOf(bus, device, base, c, kind).modbusDataType)
  {
    hide Prefix, Text;
    hide PointCells;
    DeviceCells(bus, device, base, c);
  }

  /** A device's points pass the tests of one point exactly when its base address is a free
      kind of slave id. */
  lemma PointFieldsExactly(config: GatewayConfig, bus: string, device: int, base: int, c: int, kind: Kind)
    requires bus in BusNames(config.buses) && 1 <= device <= MAX_DEVICES_PER_BUS && 1 <= c <= CHANNEL_COUNT
    ensures PointFieldsOk(BusNames(config.buses), PointOf(bus, device, base, c, kind)) <==> 2 <= base <= 247
  {
    hide Prefix, Text, BusNames;
  }

  lemma MappingFollows(config: GatewayConfig, bus: string, device: int, base: int, c: int, kind: Kind)
    requires ServiceOffDevices(config) && 1 <= c <= CHANNEL_COUNT
    ensures MappingOk(config, PointOf(bus, device, base, c, kind))
  {
    hide ReadPoint, SetpointPoint, AlarmPoint, PointCells, ReservedCells, DeviceRegisters;
    if !kind.Alarm? {
      PointsInRegisters(bus, device, base, c, kind);
    }
  }

  ghost predicate EachOk(config: GatewayConfig, points: seq<PointConfig>) {
    forall p :: p in points ==> PointFieldsOk(BusNames(config.buses), p) && MappingOk(config, p)
  }

  lemma AcceptsByElement(config: GatewayConfig, points: seq<PointConfig>)
    ensures Accepts(config.(points := points)) <==>
            BusesOk(config.buses) && SharedOk(config) && EachOk(config, points) && PairwiseCompatible(points)
  {
    hide BusesOk, SharedOkButPort, PointFieldsOk, PairwiseCompatible, ReservedCells;
    var edited := config.(points := points);
    assert SharedOk(edited) <==> SharedOk(config);
    assert forall p :: MappingOk(edited, p) <==> MappingOk(config, p) by { MappingSame(config, points); }
    if PointsOk(edited) {
      forall p | p in points ensures PointFieldsOk(BusNames(config.buses), p) && MappingOk(config, p) {
        var i :| 0 <= i < |points| && points[i] == p;
        assert PointFieldsOk(BusNames(edited.buses), edited.points[i]);
      }
    }
  }

  lemma MappingSame(config: GatewayConfig, points: seq<PointConfig>)
    ensures forall p :: MappingOk(config.(points := points), p) <==> MappingOk(config, p)
  {
    assert forall t :: ReservedCells(config.(points := points), t) == ReservedCells(config, t);
  }

  ghost predicate SlaveFree(points: seq<PointConfig>, bus: string, device: int, base: int) {
    forall p :: p in points && !OfDevice(p, bus, device) ==> SlaveOf(p) != base
  }

  lemma OthersExactly(others: seq<PointConfig>, bus: string, device: int, base: int, channels: seq<int>)
    requires forall p :: p in others ==> !OfDevice(p, bus, device)
    requires DevicePoints(bus, device, base, channels) != []
    ensures CrossCompatible(others, DevicePoints(bus, device, base, channels)) <==> forall p :: p in others ==> SlaveOf(p) != base
  {
    hide DevicePoints, PointCells;
    var own := DevicePoints(bus, device, base, channels);
    var first := own[0];
    assert first in own;
    if CrossCompatible(others, own) {
      forall p | p in others ensures SlaveOf(p) != base {
        assert Compatible(p, first);
      }
    }
  }

  /** A configuration whose device is rebuilt on some base address and channels is accepted
      again exactly when that address is a slave id in 2..247 no other device has. */
  lemma RebuiltIsAccepted(config: GatewayConfig, bus: string, device: int, base: int, channels: set<int>)
    requires Accepts(config) && ServiceOffDevices(config) && ChannelsOk(channels)
    requires bus in BusNames(config.buses) && 1 <= device <= MAX_DEVICES_PER_BUS
    ensures Accepts(config.(points := Rebuilt(config.points, bus, device, base, channels))) <==>
            2 <= base <= 247 && SlaveFree(config.points, bus, device, base)
  {
    hide Accepts, ServiceOffDevices, BusesOk, SharedOk, PairwiseCompatible, PointFieldsOk, MappingOk, DevicePoints,
         Ascending, Sort, Filter, PointOf;
    var others, order := WithoutDevice(config.points, bus, device), Ascending(channels, CHANNEL_COUNT);
    var own := DevicePoints(bus, device, base, order);
    var points := Rebuilt(config.points, bus, device, base, channels);
    AcceptsByElement(config, config.points);
    assert config.(points := config.points) == config;
    AcceptsByElement(config, points);
    SortElements(others + own);
    PairwiseSort(others + own);
    PairwiseAppend(others, own);
    PairwiseFilter(p => !OfDevice(p, bus, device), config.points);
    NotEmpty(bus, device, base, channels);
    AscendingFrom(channels, CHANNEL_COUNT);
    OrderIsDistinct(channels);
    DeviceIsCompatible(bus, device, base, order);
    OthersExactly(others, bus, device, base, order);
    DevicePointsForm(bus, device, base, order);
    forall p | p in own ensures (PointFieldsOk(BusNames(config.buses), p) <==> 2 <= base <= 247) && MappingOk(config, p) {
      var c, kind :| c in order && p == PointOf(bus, device, base, c, kind);
      PointFieldsExactly(config, bus, device, base, c, kind);
      MappingFollows(config, bus, device, base, c, kind);
    }
    assert own[0] in own && forall p :: p in points <==> p in others || p in own;
  }

  lemma OrderIsDistinct(channels: set<int>)
    ensures Distinct(Ascending(channels, CHANNEL_COUNT))
  {
    hide Ascending;
    AscendingFrom(channels, CHANNEL_COUNT);
    var order := Ascending(channels, CHANNEL_COUNT);
    forall i | 0 <= i < |order| ensures 1 <= order[i] <= CHANNEL_COUNT {
      assert order[i] in order;
    }
  }

  /* ---------- The edits ---------- */

  lemma AddingRebuilds(busNames: set<string>, points: seq<PointConfig>, line: int, base: int, channels: set<int>)
    requires Added(busNames, points, line, base, channels).Ok?
    ensures var (device, extended) := Added(busNames, points, line, base, channels).value;
            var bus := ResolveBusName(busNames, line);
            && bus in busNames && ChannelsOk(channels) && 1 <= device <= MAX_DEVICES_PER_BUS
            && (forall p :: p in points ==> !OfDevice(p, bus, device))
            && extended == Rebuilt(points, bus, device, base, channels)
  {
    hide Sort, Filter, DevicePoints, ResolveBusName, FirstFree, DevicesOfLine, Ascending;
    var bus := ResolveBusName(busNames, line);
    var device := Added(busNames, points, line, base, channels).value.0;
    LeastFreeIsFirst(DevicesOfLine(points, bus), 1);
    InLine(points, bus, device);
    FilterAll(p => !OfDevice(p, bus, device), points);
  }

  /** Adding a device gives an accepted configuration exactly when its base address can be a
      slave id and is not one yet; neither is checked by the edit itself. */
  lemma AddIsAccepted(config: GatewayConfig, line: int, base: int, channels: set<int>)
    requires Accepts(config) && ServiceOffDevices(config)
    requires Added(BusNames(config.buses), config.points, line, base, channels).Ok?
    ensures Accepts(config.(points := Added(BusNames(config.buses), config.points, line, base, channels).value.1)) <==>
            2 <= base <= 247 && forall p :: p in config.points ==> SlaveOf(p) != base
  {
    hide Accepts, ServiceOffDevices, Added, Rebuilt, BusNames, ResolveBusName, ChannelsOk;
    var busNames := BusNames(config.buses);
    AddingRebuilds(busNames, config.points, line, base, channels);
    RebuiltIsAccepted(config, ResolveBusName(busNames, line),
      Added(busNames, config.points, line, base, channels).value.0, base, channels);
  }

  lemma UpdatingRebuilds(busNames: set<string>, points: seq<PointConfig>, line: int, channels: set<int>,
                         selector: Selector)
    requires Updated(busNames, points, line, channels, selector).Ok?
    ensures var bus := ResolveBusName(busNames, line);
            var device := MatchDevice(selector, points, bus);
            && ChannelsOk(channels) && device.Ok? && device.value in DevicesOfLine(points, bus)
            && Updated(busNames, points, line, channels, selector).value.1 ==
               Rebuilt(points, bus, device.value, Updated(busNames, points, line, channels, selector).value.0, channels)
  {
    hide Rebuilt, ResolveBusName, Readings;
  }

  lemma KnownDevice(config: GatewayConfig, bus: string, device: int)
    requires Accepts(config) && device in DevicesOfLine(config.points, bus)
    ensures bus in BusNames(config.buses) && 1 <= device <= MAX_DEVICES_PER_BUS
  {
    var i :| 0 <= i < |config.points| && config.points[i].bus == bus && config.points[i].device == device;
    assert PointFieldsOk(BusNames(config.buses), config.points[i]);
  }

  /** Updating channels likewise: the base address found must be a slave id free but for the
      device itself. */
  lemma UpdateIsAccepted(config: GatewayConfig, line: int, channels: set<int>, selector: Selector)
    requires Accepts(config) && ServiceOffDevices(config)
    requires Updated(BusNames(config.buses), config.points, line, channels, selector).Ok?
    ensures var (base, points) := Updated(BusNames(config.buses), config.points, line, channels, selector).value;
            var bus := ResolveBusName(BusNames(config.buses), line);
            Accepts(config.(points := points)) <==>
            2 <= base <= 247 && SlaveFree(config.points, bus, MatchDevice(selector, config.points, bus).value, base)
  {
    hide Accepts, ServiceOffDevices, Updated, Rebuilt, BusNames, ResolveBusName, ChannelsOk, MatchDevice,
         DevicesOfLine, SlaveFree;
    var busNames := BusNames(config.buses);
    var bus := ResolveBusName(busNames, line);
    UpdatingRebuilds(busNames, config.points, line, channels, selector);
    var device := MatchDevice(selector, config.points, bus).value;
    KnownDevice(config, bus, device);
    RebuiltIsAccepted(config, bus, device, Updated(busNames, config.points, line, channels, selector).value.0,
      channels);
  }

  /** Removing a device never makes an accepted configuration unacceptable. */
  lemma RemoveIsAccepted(config: GatewayConfig, line: int, selector: Selector)
    requires Accepts(config) && Removed(BusNames(config.buses), config.points, line, selector).Ok?
    ensures Accepts(config.(points := Removed(BusNames(config.buses), config.points, line, selector).value))
  {
    hide Accepts, BusesOk, SharedOk, PairwiseCompatible, PointFieldsOk, MappingOk, Filter, BusNames, ResolveBusName,
         MatchDevice;
    var busNames := BusNames(config.buses);
    var bus := ResolveBusName(busNames, line);
    var device := MatchDevice(selector, config.points, bus).value;
    AcceptsByElement(config, config.points);
    assert config.(points := config.points) == config;
    AcceptsByElement(config, WithoutDevice(config.points, bus, device));
    PairwiseFilter(p => !OfDevice(p, bus, device), config.points);
  }
}
