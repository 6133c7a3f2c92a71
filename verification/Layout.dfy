/** Who owns which cells of the Modbus map, and when owners stay apart. */
module Layout {
  import opened Registers
  import opened Config
  import opened RegisterMap
  import opened Gateway

  datatype Region =
    | ValueRegion(p: PointConfig)
    | MetadataRegion(p: PointConfig)
    | StatusRegion(slave: int)
    | TelemetryRegion(slave: int)
    | LineRegion(index: nat)
    | MaskRegion(slave: int)

  predicate Covers(config: GatewayConfig, region: Region, c: Cell) {
    match region
    case ValueRegion(p) =>
      p.publishToModbus && c.slave == SlaveOf(p) && c.registerType == p.registerType && c.address in ValueCells(p)
    case MetadataRegion(p) =>
      c.slave == SlaveOf(p) && c.registerType == p.registerType && c.address in MetadataCells(p)
    case StatusRegion(slave) =>
      config.status.enabled && c.slave == slave && c.registerType == config.status.registerType &&
      c.address in StatusCells(config.status)
    case TelemetryRegion(slave) =>
      config.telemetry.enabled && c.slave == slave && c.registerType == config.telemetry.registerType &&
      c.address in TelemetryCells(config.telemetry)
    case LineRegion(index) => c == Cell(SERVICE_SLAVE_ID, HoldingRegister, SERVICE_LINE_STATUS_BASE + index)
    case MaskRegion(slave) => c == Cell(slave, HoldingRegister, MASK_REGISTER)
  }

  /** Regions a configuration really has. */
  predicate Known(config: GatewayConfig, region: Region) {
    match region
    case ValueRegion(p) => p in config.points
    case MetadataRegion(p) => p in config.points
    case StatusRegion(_) => true
    case TelemetryRegion(_) => true
    case LineRegion(index) => index < |config.buses|
    case MaskRegion(slave) => exists p :: p in config.points && SlaveOf(p) == slave
  }

  /** Regions whose content the cached state determines. */
  predicate Cached(region: Region) {
    !region.MetadataRegion? && !region.TelemetryRegion?
  }

  /** No other region of the configuration meets this one. */
  ghost predicate Private(config: GatewayConfig, region: Region) {
    forall other, c :: Known(config, other) && other != region && Covers(config, region, c) ==> !Covers(config, other, c)
  }

  lemma PointFacts(config: GatewayConfig, p: PointConfig)
    requires Accepts(config) && p in config.points
    ensures MappingOk(config, p) && SlaveOf(p) != SERVICE_SLAVE_ID
    ensures p.publishToModbus ==> PointCells(p) !! ReservedCells(config, p.registerType)
  {
    var i :| 0 <= i < |config.points| && config.points[i] == p;
    assert PointFieldsOk(BusNames(config.buses), config.points[i]);
  }

  lemma PairFacts(config: GatewayConfig, p: PointConfig, q: PointConfig)
    requires Accepts(config) && p in config.points && q in config.points && p != q
    ensures KeyOf(p) == KeyOf(q) <==> SlaveOf(p) == SlaveOf(q)
    ensures SharesBlock(p, q) ==> PointCells(p) !! PointCells(q)
  {
    hide PointFieldsOk, MappingOk, PointCells;
    var i :| 0 <= i < |config.points| && config.points[i] == p;
    var j :| 0 <= j < |config.points| && config.points[j] == q;
    if i < j {
      assert Compatible(config.points[i], config.points[j]);
    } else {
      assert Compatible(config.points[j], config.points[i]);
    }
  }

  /* ---------- Exactly which values are private ---------- */

  predicate OnlyName(config: GatewayConfig, p: PointConfig) {
    forall q :: q in config.points && q.name == p.name ==> q == p
  }

  lemma OnlyOneNamed(config: GatewayConfig, p: PointConfig, q: PointConfig)
    requires OnlyName(config, p) && q in config.points && q.name == p.name
    ensures q == p
  {}

  /** `q` is not published, but its metadata goes to the block that `p` is in. */
  predicate HiddenBeside(p: PointConfig, q: PointConfig) {
    !q.publishToModbus && SlaveOf(q) == SlaveOf(p) && q.registerType == p.registerType
  }

  /** What an accepted configuration may still do to a published point's value registers:
      the point's own time mark and channel status, metadata of points that are not
      published, and the logic mask. */
  predicate ValueSpared(config: GatewayConfig, p: PointConfig) {
    && MetadataCells(p) !! ValueCells(p)
    && (p.registerType.HoldingRegister? ==> MASK_REGISTER !in ValueCells(p))
    && forall q :: q in config.points && HiddenBeside(p, q) ==> MetadataCells(q) !! ValueCells(p)
  }

  lemma SparedValueApart(config: GatewayConfig, p: PointConfig, other: Region, c: Cell)
    requires Accepts(config) && p in config.points && p.publishToModbus && ValueSpared(config, p)
    requires Known(config, other) && other != ValueRegion(p) && Covers(config, ValueRegion(p), c)
    ensures !Covers(config, other, c)
  {
    hide Accepts, ValueCells, MetadataCells, StatusCells, TelemetryCells, MappingOk;
    PointFacts(config, p);
    if (other.ValueRegion? || other.MetadataRegion?) && other.p != p {
      PairFacts(config, p, other.p);
    }
  }

  /** The only ways a publish can hit another point's value are those. */
  lemma ValueIsPrivateExactly(config: GatewayConfig, p: PointConfig)
    requires Accepts(config) && p in config.points && p.publishToModbus
    ensures Private(config, ValueRegion(p)) <==> ValueSpared(config, p)
  {
    hide Accepts, Known, ValueCells, MetadataCells;
    if ValueSpared(config, p) {
      forall other, c | Known(config, other) && other != ValueRegion(p) && Covers(config, ValueRegion(p), c)
        ensures !Covers(config, other, c)
      {
        SparedValueApart(config, p, other, c);
      }
    }
    if Private(config, ValueRegion(p)) {
      assert Known(config, MetadataRegion(p)) && Known(config, MaskRegion(SlaveOf(p))) by { PointRegionsKnown(config, p); }
      forall a | a in ValueCells(p) ensures a !in MetadataCells(p) && (p.registerType.HoldingRegister? ==> a != MASK_REGISTER) {
        var c := Cell(SlaveOf(p), p.registerType, a);
        assert Covers(config, ValueRegion(p), c);
        assert !Covers(config, MetadataRegion(p), c) && !Covers(config, MaskRegion(SlaveOf(p)), c);
      }
      forall q, a | q in config.points && SlaveOf(q) == SlaveOf(p) && q.registerType == p.registerType && a in ValueCells(p)
        ensures a !in MetadataCells(q)
      {
        PointRegionsKnown(config, q);
        var c := Cell(SlaveOf(p), p.registerType, a);
        assert Covers(config, ValueRegion(p), c) && !Covers(config, MetadataRegion(q), c);
      }
    }
  }

  lemma PointRegionsKnown(config: GatewayConfig, p: PointConfig)
    requires p in config.points
    ensures Known(config, MetadataRegion(p)) && Known(config, ValueRegion(p)) && Known(config, MaskRegion(SlaveOf(p)))
  {}

  /* ---------- A layout in which everything is private ---------- */

  predicate DistinctNames(points: seq<PointConfig>) {
    forall i, j :: 0 <= i < j < |points| ==> points[i].name != points[j].name
  }

  /** What the validator does not ask of a point: its value is spared, no metadata lies on the
      mask, and metadata of a point that is not published lies off the status registers. */
  predicate PointLaidOut(config: GatewayConfig, p: PointConfig) {
    && (p.publishToModbus ==> ValueSpared(config, p))
    && (p.registerType.HoldingRegister? ==> MASK_REGISTER !in MetadataCells(p))
    && (!p.publishToModbus && config.status.enabled && config.status.registerType == p.registerType ==>
          MetadataCells(p) !! StatusCells(config.status))
  }

  predicate ServiceRegistersFree(config: GatewayConfig) {
    var reserved := ReservedCells(config, HoldingRegister);
    MASK_REGISTER !in reserved && Range(SERVICE_LINE_STATUS_BASE, |config.buses|) !! reserved
  }

  predicate LaidOut(config: GatewayConfig) {
    ServiceRegistersFree(config) && forall p :: p in config.points ==> PointLaidOut(config, p)
  }

  predicate LayoutOk(config: GatewayConfig) {
    && Accepts(config)
    && DistinctNames(config.points)
    && LaidOut(config)
    && (config.status.enabled ==> HasRegisters(config.status.dataType))
  }

  lemma NamesTellPoints(points: seq<PointConfig>, i: nat, j: nat)
    requires DistinctNames(points) && i < |points| && j < |points|
    ensures points[i].name == points[j].name <==> i == j
  {}

  lemma LayoutFacts(config: GatewayConfig)
    requires LayoutOk(config)
    ensures Accepts(config) && |config.buses| <= MAX_BUSES && ServiceRegistersFree(config)
    ensures ServiceCellsApart(config.status, config.telemetry)
    ensures LaidOut(config) && forall p :: p in config.points ==> OnlyName(config, p)
  {
    hide PointsOk, PointLaidOut;
    forall p | p in config.points ensures OnlyName(config, p) {
      var i :| 0 <= i < |config.points| && config.points[i] == p;
      forall q | q in config.points && q.name == p.name ensures q == p {
        var j :| 0 <= j < |config.points| && config.points[j] == q;
        NamesTellPoints(config.points, i, j);
      }
    }
  }

  lemma ServiceApart(config: GatewayConfig, own: Region, other: Region, c: Cell)
    requires Accepts(config) && LaidOut(config) && Known(config, own) && Known(config, other) && own != other
    requires own.StatusRegion? || own.LineRegion? || own.MaskRegion?
    requires Covers(config, own, c)
    ensures !Covers(config, other, c)
  {
    hide Accepts, ValueCells, MetadataCells, StatusCells, TelemetryCells, MappingOk;
    SharedFacts(config);
    if other.MetadataRegion? || other.ValueRegion? {
      PointFacts(config, other.p);
    }
    if own.MaskRegion? {
      var p :| p in config.points && SlaveOf(p) == own.slave;
      PointFacts(config, p);
    }
    if other.MaskRegion? {
      var p :| p in config.points && SlaveOf(p) == other.slave;
      PointFacts(config, p);
    }
  }

  lemma SharedFacts(config: GatewayConfig)
    requires Accepts(config)
    ensures |config.buses| <= MAX_BUSES && ServiceCellsApart(config.status, config.telemetry)
  {
    hide PointsOk;
  }

  lemma LaidOutIsPrivate(config: GatewayConfig, own: Region)
    requires Accepts(config) && LaidOut(config) && Known(config, own) && Cached(own)
    ensures Private(config, own)
  {
    hide Accepts, Covers, Known, ValueSpared, ServiceRegistersFree;
    if own.ValueRegion? {
      assert own.p in config.points by { KnownPoint(config, own); }
      if own.p.publishToModbus {
        ValueIsPrivateExactly(config, own.p);
      } else {
        NothingCovered(config, own.p);
      }
    } else {
      forall other, c | Known(config, other) && other != own && Covers(config, own, c) ensures !Covers(config, other, c) {
        ServiceApart(config, own, other, c);
      }
    }
  }

  ghost predicate AllPrivate(config: GatewayConfig) {
    forall region :: Known(config, region) && Cached(region) ==> Private(config, region)
  }

  lemma NotShared(config: GatewayConfig, own: Region, other: Region, c: Cell)
    requires AllPrivate(config) && Known(config, own) && Cached(own) && Known(config, other) && other != own
    ensures !(Covers(config, own, c) && Covers(config, other, c))
  {
    hide Covers, Known;
  }

  lemma PrivatePointLaidOut(config: GatewayConfig, p: PointConfig)
    requires Accepts(config) && AllPrivate(config) && p in config.points
    ensures PointLaidOut(config, p)
  {
    hide Accepts, AllPrivate, ValueCells, MetadataCells, StatusCells;
    PointRegionsKnown(config, p);
    if p.publishToModbus {
      assert Private(config, ValueRegion(p)) by { OnePrivate(config, ValueRegion(p)); }
      ValueIsPrivateExactly(config, p);
    }
    NotShared(config, MaskRegion(SlaveOf(p)), MetadataRegion(p), Cell(SlaveOf(p), HoldingRegister, MASK_REGISTER));
    forall a | a in MetadataCells(p)
      ensures config.status.enabled && config.status.registerType == p.registerType ==> a !in StatusCells(config.status)
    {
      NotShared(config, StatusRegion(SlaveOf(p)), MetadataRegion(p), Cell(SlaveOf(p), p.registerType, a));
    }
  }

  lemma OnePrivate(config: GatewayConfig, region: Region)
    requires AllPrivate(config) && Known(config, region) && Cached(region)
    ensures Private(config, region)
  {}

  lemma PrivateServiceFree(config: GatewayConfig, p: PointConfig)
    requires AllPrivate(config) && p in config.points
    ensures ServiceRegistersFree(config)
  {
    hide AllPrivate, StatusCells, TelemetryCells;
    PointRegionsKnown(config, p);
    var mask := Cell(SlaveOf(p), HoldingRegister, MASK_REGISTER);
    NotShared(config, MaskRegion(SlaveOf(p)), StatusRegion(SlaveOf(p)), mask);
    NotShared(config, MaskRegion(SlaveOf(p)), TelemetryRegion(SlaveOf(p)), mask);
    forall a | a in Range(SERVICE_LINE_STATUS_BASE, |config.buses|) ensures a !in ReservedCells(config, HoldingRegister) {
      var line, c := LineRegion(a - SERVICE_LINE_STATUS_BASE), Cell(SERVICE_SLAVE_ID, HoldingRegister, a);
      NotShared(config, line, StatusRegion(SERVICE_SLAVE_ID), c);
      NotShared(config, line, TelemetryRegion(SERVICE_SLAVE_ID), c);
    }
  }

  /** Of an accepted configuration with points, every cell has at most one owner among the
      cached regions, and nothing else hits it, exactly if it is laid out like that. */
  lemma RegionsArePrivateExactly(config: GatewayConfig)
    requires Accepts(config) && config.points != []
    ensures AllPrivate(config) <==> LaidOut(config)
  {
    hide Accepts, Private, Known, PointLaidOut, ServiceRegistersFree;
    if LaidOut(config) {
      forall region | Known(config, region) && Cached(region) ensures Private(config, region) {
        LaidOutIsPrivate(config, region);
      }
    }
    if AllPrivate(config) {
      PrivateServiceFree(config, config.points[0]);
      forall p | p in config.points ensures PointLaidOut(config, p) {
        PrivatePointLaidOut(config, p);
      }
    }
  }

  lemma NothingCovered(config: GatewayConfig, p: PointConfig)
    requires !p.publishToModbus
    ensures Private(config, ValueRegion(p))
  {}

  lemma KnownPoint(config: GatewayConfig, region: Region)
    requires Known(config, region) && region.ValueRegion?
    ensures region.p in config.points
  {}

  /** All cells of a write lie in one region. */
  ghost predicate Within(config: GatewayConfig, w: Write, region: Region) {
    forall c :: c in CellsOf(w) ==> Covers(config, region, c)
  }

  lemma WritesApart(config: GatewayConfig, w: Write, region: Region, v: Write, other: Region)
    requires Private(config, region) && Known(config, other) && region != other
    requires Within(config, w, region) && Within(config, v, other)
    ensures CellsOf(v) !! CellsOf(w)
  {
    hide Covers, Known;
  }
}
