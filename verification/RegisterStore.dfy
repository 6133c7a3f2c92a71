/** The published register blocks: sizing, in-place publishing and write notices. */
module RegisterStore {
  import opened Core
  import opened Config
  import opened Registers

  /** Python's `values[start : start + len(new)] = new`: a slice past the end is clamped, so
      the list then grows, and what was meant for a far index lands right behind the end. */
  function SliceAssign(values: seq<word>, start: nat, updates: seq<word>): seq<word> {
    var low := if start <= |values| then start else |values|;
    var high := if start + |updates| <= |values| then start + |updates| else |values|;
    values[..low] + updates + values[high..]
  }

  function Slice(values: seq<word>, start: nat, count: nat): seq<word> {
    var low := if start <= |values| then start else |values|;
    var high := if start + count <= |values| then start + count else |values|;
    values[low..high]
  }

  lemma SliceAssignInRange(values: seq<word>, start: nat, updates: seq<word>)
    requires start + |updates| <= |values|
    ensures |SliceAssign(values, start, updates)| == |values|
    ensures forall i :: 0 <= i < |values| ==>
              SliceAssign(values, start, updates)[i] ==
              if start <= i < start + |updates| then updates[i - start] else values[i]
  {}

  datatype WriteNotice = WriteNotice(address: nat, values: seq<word>, previous: seq<word>)

  /** A holding-register block that reports client writes, and only those. */
  class ObservableDataBlock {
    var values: seq<word>
    var callbacksSuspended: bool
    var notices: seq<WriteNotice>

    constructor (size: nat)
      ensures values == seq(size, _ => 0) && !callbacksSuspended && notices == []
    {
      values := seq(size, _ => 0);
      callbacksSuspended := false;
      notices := [];
    }

    /** A write from the Modbus server. */
    method SetValues(address: nat, updates: seq<word>)
      requires address >= 1
      modifies this
      ensures values == SliceAssign(old(values), address, updates)
      ensures callbacksSuspended == old(callbacksSuspended)
      ensures notices == old(notices) +
              if old(callbacksSuspended) then []
              else [WriteNotice(address - 1, updates, Slice(old(values), address, |updates|))]
    {
      var oldValues := Slice(values, address, |updates|);
      values := SliceAssign(values, address, updates);
      if !callbacksSuspended {
        notices := notices + [WriteNotice(address - 1, updates, oldValues)];
      }
    }

    /** A write by the gateway itself. */
    method SetValuesInternal(address: nat, updates: seq<word>)
      modifies this
      ensures values == SliceAssign(old(values), address, updates)
      ensures !callbacksSuspended && notices == old(notices)
    {
      callbacksSuspended := true;
      values := SliceAssign(values, address, updates);
      callbacksSuspended := false;
    }

    /** Publishing cell `address` of the Modbus map: the block is indexed one higher. A
        publish inside the block changes exactly its own cells, never the block's size,
        and is never mistaken for a client's write. */
    method SetSlaveValues(address: nat, words: seq<word>)
      requires address + 1 + |words| <= |values|
      modifies this
      ensures |values| == old(|values|) && notices == old(notices)
      ensures forall i :: 0 <= i < |values| ==>
                values[i] == if address + 1 <= i < address + 1 + |words| then words[i - address - 1] else old(values)[i]
    {
      SliceAssignInRange(values, address + 1, words);
      SetValuesInternal(address + 1, words);
    }
  }

  /** Restoring what a client's write reported as its previous values undoes the write. */
  lemma RestoreUndoesWrite(values: seq<word>, start: nat, updates: seq<word>)
    requires start + |updates| <= |values|
    ensures SliceAssign(SliceAssign(values, start, updates), start, Slice(values, start, |updates|)) == values
  {
    SliceAssignInRange(values, start, updates);
    SliceAssignInRange(SliceAssign(values, start, updates), start, Slice(values, start, |updates|));
  }

  /* ---------- Sizing ---------- */

  function SizingWidth(t: DataType): nat {
    if t.BoolType? || t.Uint16Type? || t.Int16Type? then 1 else 2
  }

  /** Every cell of blocks of these register types that publishing can touch. */
  function TouchedByPoint(p: PointConfig, types: set<RegisterType>): set<int> {
    if p.publishToModbus && p.registerType in types
    then Range(p.modbusAddress, SizingWidth(p.modbusDataType)) + MetadataCells(p)
    else {}
  }

  function TouchedByPoints(points: seq<PointConfig>, types: set<RegisterType>): set<int> {
    if points == [] then {}
    else TouchedByPoints(points[..|points| - 1], types) + TouchedByPoint(points[|points| - 1], types)
  }

  function TouchedByService(status: StatusConfig, telemetry: TelemetryConfig, types: set<RegisterType>): set<int> {
    (if status.enabled && status.registerType in types then Range(status.address, SizingWidth(status.dataType)) else {}) +
    (if telemetry.enabled && telemetry.registerType in types then TelemetryCells(telemetry) else {})
  }

  function Elements(xs: seq<int>): set<int> { set i | 0 <= i < |xs| :: xs[i] }

  function Larger(a: int, b: int): int { if a >= b then a else b }

  /** `size` is the least block size that holds all of `cells` after the index shift. */
  ghost predicate Sizes(size: int, cells: set<int>) {
    && size >= 1
    && (forall a :: a in cells ==> a + 2 <= size)
    && (size > 1 ==> size - 2 in cells)
  }

  lemma SizesWith(size: int, cells: set<int>, a: int)
    requires Sizes(size, cells) && a >= 0
    ensures Sizes(Larger(size, a + 2), cells + {a})
  {}

  lemma SizesWithRange(size: int, cells: set<int>, start: int, t: DataType)
    requires Sizes(size, cells) && start >= 0
    ensures Sizes(Larger(size, start + SizingWidth(t) + 1), cells + Range(start, SizingWidth(t)))
  {
    var last := start + SizingWidth(t) - 1;
    SizesWith(size, cells, last);
    assert last in Range(start, SizingWidth(t));
  }

  predicate AddressesNotNegative(points: seq<PointConfig>, status: StatusConfig, telemetry: TelemetryConfig) {
    && (forall i :: 0 <= i < |points| ==>
          points[i].modbusAddress >= 0 && NotNegative(points[i].timeMarkAddress) && NotNegative(points[i].channelStatusAddress))
    && (status.enabled ==> status.address >= 0)
    && (telemetry.enabled ==> forall a :: a in TelemetryCells(telemetry) ==> a >= 0)
  }

  lemma SizesOfNothing()
    ensures Sizes(1, {})
  {}

  lemma SizesWithPoint(size: int, cells: set<int>, p: PointConfig)
    requires Sizes(size, cells) && p.modbusAddress >= 0
    requires NotNegative(p.timeMarkAddress) && NotNegative(p.channelStatusAddress)
    ensures Sizes(SizeWithPoint(size, p), cells + Range(p.modbusAddress, SizingWidth(p.modbusDataType)) + MetadataCells(p))
  {
    hide Sizes;
    var values := cells + Range(p.modbusAddress, SizingWidth(p.modbusDataType));
    SizesWithRange(size, cells, p.modbusAddress, p.modbusDataType);
    var s := Larger(size, p.modbusAddress + SizingWidth(p.modbusDataType) + 1);
    if p.timeMarkAddress.Some? {
      SizesWith(s, values, p.timeMarkAddress.value);
      s, values := Larger(s, p.timeMarkAddress.value + 2), values + {p.timeMarkAddress.value};
    }
    if p.channelStatusAddress.Some? {
      SizesWith(s, values, p.channelStatusAddress.value);
      values := values + {p.channelStatusAddress.value};
    }
    assert values == cells + Range(p.modbusAddress, SizingWidth(p.modbusDataType)) + MetadataCells(p);
  }

  function SizeWithPoint(size: int, p: PointConfig): int {
    var s := Larger(size, p.modbusAddress + SizingWidth(p.modbusDataType) + 1);
    var t := if p.timeMarkAddress.Some? then Larger(s, p.timeMarkAddress.value + 2) else s;
    if p.channelStatusAddress.Some? then Larger(t, p.channelStatusAddress.value + 2) else t
  }

  method CalcSize(points: seq<PointConfig>, status: StatusConfig, telemetry: TelemetryConfig,
                  types: set<RegisterType>, extra: seq<int>) returns (size: int)
    requires AddressesNotNegative(points, status, telemetry)
    requires forall i :: 0 <= i < |extra| ==> extra[i] >= 0
    ensures Sizes(size, TouchedByPoints(points, types) + TouchedByService(status, telemetry, types) + Elements(extra))
  {
    hide Sizes, Larger, TelemetryCells, SizingWidth, MetadataCells, Range, SizeWithPoint;
    size := 1;
    SizesOfNothing();
    for i := 0 to |points|
      invariant Sizes(size, TouchedByPoints(points[..i], types))
    {
      assert points[..i + 1][..i] == points[..i];
      var p := points[i];
      if p.publishToModbus && p.registerType in types {
        SizesWithPoint(size, TouchedByPoints(points[..i], types), p);
        size := SizeWithPoint(size, p);
        assert TouchedByPoints(points[..i + 1], types) ==
               TouchedByPoints(points[..i], types) + Range(p.modbusAddress,
                 SizingWidth(p.modbusDataType)) + MetadataCells(p);
      } else {
        assert TouchedByPoints(points[..i + 1], types) == TouchedByPoints(points[..i], types);
      }
    }
    assert points[..|points|] == points;
    ghost var cells := TouchedByPoints(points, types);
    if status.enabled && status.registerType in types {
      SizesWithRange(size, cells, status.address, status.dataType);
      size := Larger(size, status.address + SizingWidth(status.dataType) + 1);
      cells := cells + Range(status.address, SizingWidth(status.dataType));
    }
    if telemetry.enabled && telemetry.registerType in types {
      SizesWithTelemetry(size, cells, telemetry);
      size := SizeWithTelemetry(size, telemetry);
      cells := cells + TelemetryCells(telemetry);
    }
    assert cells == TouchedByPoints(points, types) + TouchedByService(status, telemetry, types);
    assert cells + Elements(extra[..0]) == cells;
    for i := 0 to |extra|
      invariant Sizes(size, cells + Elements(extra[..i]))
    {
      SizesWith(size, cells + Elements(extra[..i]), extra[i]);
      size := Larger(size, extra[i] + 2);
      ElementsExtended(extra, i);
      assert cells + Elements(extra[..i + 1]) == cells + Elements(extra[..i]) + {extra[i]};
    }
    assert extra[..|extra|] == extra;
  }

  lemma ElementsExtended(xs: seq<int>, i: nat)
    requires i < |xs|
    ensures Elements(xs[..i + 1]) == Elements(xs[..i]) + {xs[i]}
  {
    assert forall k :: 0 <= k < i ==> xs[..i + 1][k] == xs[..i][k];
    forall a | a in Elements(xs[..i]) ensures a in Elements(xs[..i + 1]) {
      var k :| 0 <= k < i && xs[..i][k] == a;
      assert xs[..i + 1][k] == a;
    }
    assert xs[..i + 1][i] == xs[i];
  }

  function SizeWithTelemetry(size: int, t: TelemetryConfig): int {
    Larger(Larger(Larger(Larger(Larger(size, t.lastErrorCode + 2), t.successCounter + 2),
      t.timeoutCounter + 2), t.protocolErrorCounter + 2), t.pollCycleCounter + 2)
  }

  lemma SizesWithTelemetry(size: int, cells: set<int>, t: TelemetryConfig)
    requires Sizes(size, cells) && forall a :: a in TelemetryCells(t) ==> a >= 0
    ensures Sizes(SizeWithTelemetry(size, t), cells + TelemetryCells(t))
  {}

  /* ---------- Every publish of an accepted configuration stays inside ---------- */

  const REGISTER_TYPES: set<RegisterType> := {HoldingRegister, InputRegister}
  const BIT_TYPES: set<RegisterType> := {Coil, DiscreteInput}

  function TypesLike(t: RegisterType): set<RegisterType> {
    if t in BIT_TYPES then BIT_TYPES else REGISTER_TYPES
  }

  function ExtraLike(t: RegisterType): seq<int> {
    if t in BIT_TYPES then [] else [MASK_REGISTER]
  }

  function TouchedCells(config: GatewayConfig, t: RegisterType): set<int> {
    TouchedByPoints(config.points, TypesLike(t)) +
    TouchedByService(config.status, config.telemetry, TypesLike(t)) + Elements(ExtraLike(t))
  }

  lemma {:induction false} TouchedMember(points: seq<PointConfig>, types: set<RegisterType>, i: nat)
    requires i < |points|
    ensures TouchedByPoint(points[i], types) <= TouchedByPoints(points, types)
  {
    if i < |points| - 1 {
      TouchedMember(points[..|points| - 1], types, i);
    }
  }

  /** Blocks of coils and discrete inputs are sized alike, and so are those of registers. */
  predicate SizedAlike(t: RegisterType, u: RegisterType) {
    (t in {Coil, DiscreteInput} && u in {Coil, DiscreteInput})
    || (t in {HoldingRegister, InputRegister} && u in {HoldingRegister, InputRegister})
  }

  lemma {:induction false} TouchedExactly(points: seq<PointConfig>, types: set<RegisterType>, a: int)
    ensures a in TouchedByPoints(points, types) <==>
            exists i :: 0 <= i < |points| && a in TouchedByPoint(points[i], types)
  {
    hide TouchedByPoint;
    if points != [] {
      var init, last := points[..|points| - 1], |points| - 1;
      TouchedExactly(init, types, a);
      assert forall i :: 0 <= i < last ==> init[i] == points[i];
    }
  }

  /** Which cells a block is sized for: those of published points of its kind with their
      metadata, of statuses and telemetry of its kind, and register 48, but no coil 48. */
  lemma CountedExactly(config: GatewayConfig, t: RegisterType, a: int)
    requires Accepts(config) && KnownRegisterType(t)
    ensures a in TouchedCells(config, t) <==>
            || (exists i :: 0 <= i < |config.points| && config.points[i].publishToModbus
                  && SizedAlike(config.points[i].registerType, t) && a in PointCells(config.points[i]))
            || (config.status.enabled && SizedAlike(config.status.registerType, t)
                  && config.status.address <= a < config.status.address + SizingWidth(config.status.dataType))
            || (config.telemetry.enabled && SizedAlike(config.telemetry.registerType, t) && a in TelemetryCells(config.telemetry))
            || (a == 48 && t in {HoldingRegister, InputRegister})
  {
    hide Accepts, PointCells, TelemetryCells, MetadataCells;
    TouchedExactly(config.points, TypesLike(t), a);
    forall i | 0 <= i < |config.points|
      ensures a in TouchedByPoint(config.points[i], TypesLike(t)) <==>
              config.points[i].publishToModbus && SizedAlike(config.points[i].registerType, t) && a in PointCells(config.points[i])
    {
      if config.points[i].publishToModbus {
        PublishedShape(config, i);
        CellsAreCounted(config.points[i]);
      }
    }
    ExtraCounted(t, a);
  }

  lemma CellsAreCounted(p: PointConfig)
    requires SizingWidth(p.modbusDataType) == Width(p.modbusDataType)
    ensures PointCells(p) == Range(p.modbusAddress, SizingWidth(p.modbusDataType)) + MetadataCells(p)
  {}

  lemma ExtraCounted(t: RegisterType, a: int)
    requires KnownRegisterType(t)
    ensures a in Elements(ExtraLike(t)) <==> a == 48 && t in {HoldingRegister, InputRegister}
  {
    if ExtraLike(t) != [] {
      assert ExtraLike(t)[0] == 48;
    }
  }

  lemma PublishedShape(config: GatewayConfig, i: nat)
    requires Accepts(config) && i < |config.points| && config.points[i].publishToModbus
    ensures HasRegisters(config.points[i].modbusDataType)
    ensures SizingWidth(config.points[i].modbusDataType) == Width(config.points[i].modbusDataType)
    ensures forall a :: a in PointCells(config.points[i]) ==> a >= 0
  {
    assert PointFieldsOk(BusNames(config.buses), config.points[i]) && MappingOk(config, config.points[i]);
  }

  predicate OnBlock(p: PointConfig, t: RegisterType) {
    p.publishToModbus && p.registerType == t
  }

  /** Whatever a published point, the status or telemetry registers, the logic mask or a
      line status writes lies inside the block, for every accepted configuration. */
  lemma PublishesStayInside(config: GatewayConfig, t: RegisterType, size: int)
    requires Accepts(config) && KnownRegisterType(t) && Sizes(size, TouchedCells(config, t))
    ensures forall i, a :: 0 <= i < |config.points| && OnBlock(config.points[i], t) && a in PointCells(config.points[i]) ==>
              0 <= a && a + 1 < size
    ensures forall a :: a in ReservedCells(config, t) ==> 0 <= a && a + 1 < size
    ensures t.HoldingRegister? ==> MASK_REGISTER + 1 < size
  {
    forall i, a | 0 <= i < |config.points| && OnBlock(config.points[i], t) && a in PointCells(config.points[i])
      ensures 0 <= a && a + 1 < size
    {
      TouchedMember(config.points, TypesLike(t), i);
      var p := config.points[i];
      PublishedShape(config, i);
      assert a in TouchedByPoint(p, TypesLike(t));
    }
    forall a | a in ReservedCells(config, t) ensures 0 <= a && a + 1 < size {
      assert a in TouchedByService(config.status, config.telemetry, TypesLike(t));
    }
    if t.HoldingRegister? {
      assert ExtraLike(t)[0] in Elements(ExtraLike(t));
    }
  }

  /* ---------- Metadata of points that are not published ---------- */

  /** What goes to map address `a` reaches its cell in a block exactly when the block is long
      enough. Otherwise the block grows by one and the word lands right behind its old end. */
  lemma PublishLandsExactly(values: seq<word>, a: nat, w: word)
    ensures var after := SliceAssign(values, a + 1, [w]);
            && (|after| == |values| && a + 1 < |after| && after[a + 1] == w <==> a + 1 < |values|)
            && (a + 1 >= |values| ==> after == values + [w])
  {
    if a + 1 >= |values| {
      assert values[..|values|] == values;
    }
  }

  /** In a block sized for a configuration an address is inside exactly when it is not above
      every cell that was counted. */
  lemma InsideExactly(cells: set<int>, size: int, a: nat)
    requires Sizes(size, cells)
    ensures a + 1 < size <==> exists b :: b in cells && a <= b
  {
    if a + 1 < size {
      assert size - 2 in cells;
    }
  }

  /** The sizing skips points that are not published, but their metadata is still written:
      it reaches its register exactly when some counted cell lies at or above it. */
  lemma UnpublishedMetadataEscapes(config: GatewayConfig, p: PointConfig, a: int, values: seq<word>, w: word)
    requires Accepts(config) && p in config.points && !p.publishToModbus && a in MetadataCells(p)
    requires Sizes(|values|, TouchedCells(config, p.registerType))
    ensures TouchedByPoint(p, TypesLike(p.registerType)) == {}
    ensures a >= 0
    ensures var after := SliceAssign(values, a + 1, [w]);
            && (|after| == |values| && a + 1 < |after| && after[a + 1] == w <==>
                exists b :: b in TouchedCells(config, p.registerType) && a <= b)
            && (|after| != |values| ==> after == values + [w])
  {
    hide Sizes, TouchedCells, SliceAssign;
    MetadataNotNegative(config, p);
    PublishLandsExactly(values, a, w);
    InsideExactly(TouchedCells(config, p.registerType), |values|, a);
    if a + 1 < |values| {
      SliceAssignInRange(values, a + 1, [w]);
    }
  }

  lemma MetadataNotNegative(config: GatewayConfig, p: PointConfig)
    requires Accepts(config) && p in config.points
    ensures forall a :: a in MetadataCells(p) ==> a >= 0
  {
    var i :| 0 <= i < |config.points| && config.points[i] == p;
    assert PointFieldsOk(BusNames(config.buses), config.points[i]);
  }
}
