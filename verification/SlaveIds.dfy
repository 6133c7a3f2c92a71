/** Resolving the Modbus slave ids of a loaded configuration. */
module SlaveIds {
  import opened Core
  import opened Config
  import opened ConfigEdit
  import opened EditLaws

  function ExplicitIds(points: seq<PointConfig>, bus: string, device: int): set<int> {
    set p | p in points && OfDevice(p, bus, device) && p.modbusSlaveId.Some? :: p.modbusSlaveId.value
  }

  predicate AtMostOne(ids: set<int>) { forall a, b :: a in ids && b in ids ==> a == b }

  /** The explicit id if there is one, else the device's smallest address. */
  ghost predicate ResolvesTo(points: seq<PointConfig>, bus: string, device: int, id: int) {
    var ids := ExplicitIds(points, bus, device);
    if ids == {} then IsLeast(DeviceOnly(points, bus, device), id) else ids == {id}
  }

  /* ---------- What stops resolution ---------- */

  const DEFAULT_BUS_SLAVE_BASES: seq<int> := [10, 50, 90, 130]

  /** A line has a slave base, or is among the first four, which have defaults: 10, 50, and so
      on in steps of 40. */
  predicate HasBase(buses: seq<BusConfig>, i: nat)
    requires i < |buses|
  {
    buses[i].modbusSlaveBase.Some? || i < 4
  }

  predicate AllBases(buses: seq<BusConfig>) { forall i :: 0 <= i < |buses| ==> HasBase(buses, i) }

  function WithBase(buses: seq<BusConfig>, i: nat): BusConfig
    requires i < |buses| && HasBase(buses, i)
  {
    if buses[i].modbusSlaveBase.Some? then buses[i]
    else buses[i].(modbusSlaveBase := Some(10 + 40 * i))
  }

  datatype Obstacle = NoDefaultBase | InconsistentIds | UnknownLine

  /** A device's explicit ids must agree; without one its line must exist, although only the
      device's own addresses are used. */
  ghost predicate Stops(points: seq<PointConfig>, lines: set<string>, p: PointConfig, obstacle: Obstacle) {
    var ids := ExplicitIds(points, p.bus, p.device);
    match obstacle
    case NoDefaultBase => false
    case InconsistentIds => !AtMostOne(ids)
    case UnknownLine => ids == {} && p.bus !in lines
  }

  ghost predicate Resolvable(points: seq<PointConfig>, lines: set<string>, p: PointConfig) {
    !Stops(points, lines, p, InconsistentIds) && !Stops(points, lines, p, UnknownLine)
  }

  ghost predicate AllResolvable(points: seq<PointConfig>, lines: set<string>) {
    forall i :: 0 <= i < |points| ==> Resolvable(points, lines, points[i])
  }

  /** The first point, in the order of the configuration, whose device is stopped. */
  ghost predicate FirstStop(points: seq<PointConfig>, lines: set<string>, obstacle: Obstacle) {
    exists i :: 0 <= i < |points| && StopsAt(points, lines, i, obstacle)
  }

  ghost predicate StopsAt(points: seq<PointConfig>, lines: set<string>, i: nat, obstacle: Obstacle)
    requires i < |points|
  {
    Stops(points, lines, points[i], obstacle) && forall k :: 0 <= k < i ==> Resolvable(points, lines, points[k])
  }

  /** What resolution does to one point: only the slave id is set. */
  ghost predicate PointResolved(points: seq<PointConfig>, before: PointConfig, after: PointConfig) {
    && after.modbusSlaveId.Some?
    && after == before.(modbusSlaveId := after.modbusSlaveId)
    && ResolvesTo(points, before.bus, before.device, after.modbusSlaveId.value)
  }

  ghost predicate Resolved(before: seq<PointConfig>, after: seq<PointConfig>) {
    |after| == |before| && forall i :: 0 <= i < |before| ==> PointResolved(before, before[i], after[i])
  }

  lemma OneId(points: seq<PointConfig>, bus: string, device: int, a: int, b: int)
    requires ResolvesTo(points, bus, device, a) && ResolvesTo(points, bus, device, b)
    ensures a == b
  {
    var ids := ExplicitIds(points, bus, device);
    if ids != {} {
      assert a in ids && b in ids;
    }
  }

  /** The id of one device, found by scanning its points. */
  method DeviceId(points: seq<PointConfig>, lines: set<string>, p: PointConfig) returns (id: int, obstacle: Option<Obstacle>)
    requires p in points
    ensures obstacle.None? <==> Resolvable(points, lines, p)
    ensures obstacle.None? ==> ResolvesTo(points, p.bus, p.device, id)
    ensures obstacle.Some? ==> Stops(points, lines, p, obstacle.value)
  {
    var own := DeviceOnly(points, p.bus, p.device);
    var ids := ExplicitIds(points, p.bus, p.device);
    if exists a, b :: a in ids && b in ids && a != b {
      return 0, Some(InconsistentIds);
    }
    if exists a :: a in ids {
      var a :| a in ids;
      assert ids == {a};
      return a, None;
    }
    assert ids == {};
    if p.bus !in lines {
      return 0, Some(UnknownLine);
    }
    LeastIsLeast(own);
    return LeastAddress(own), None;
  }

  lemma IdSet(points: seq<PointConfig>, p: PointConfig, id: int)
    requires ResolvesTo(points, p.bus, p.device, id)
    ensures PointResolved(points, p, p.(modbusSlaveId := Some(id)))
  {}

  /** Gives lines without a slave base their default; the fifth has none. */
  method DefaultBases(buses: array<BusConfig>) returns (complete: bool)
    modifies buses
    ensures complete <==> AllBases(old(buses[..]))
    ensures complete ==> forall i :: 0 <= i < buses.Length ==> buses[i] == WithBase(old(buses[..]), i)
    ensures BusNames(buses[..]) == BusNames(old(buses[..]))
  {
    ghost var before := buses[..];
    for i := 0 to buses.Length
      invariant forall k :: i <= k < buses.Length ==> buses[k] == before[k]
      invariant forall k :: 0 <= k < i ==> HasBase(before, k) && buses[k] == WithBase(before, k)
    {
      if buses[i].modbusSlaveBase.None? {
        if i >= |DEFAULT_BUS_SLAVE_BASES| {
          assert !HasBase(before, i);
          SameNames(before, buses[..]);
          return false;
        }
        buses[i] := buses[i].(modbusSlaveBase := Some(DEFAULT_BUS_SLAVE_BASES[i]));
      }
    }
    SameNames(before, buses[..]);
    complete := true;
  }

  lemma SameNames(a: seq<BusConfig>, b: seq<BusConfig>)
    requires |a| == |b| && forall i :: 0 <= i < |a| ==> a[i].name == b[i].name
    ensures BusNames(a) == BusNames(b)
  {
    forall i | 0 <= i < |a| ensures a[i].name in BusNames(b) && b[i].name in BusNames(a) {
      assert b[i].name in BusNames(b) && a[i].name in BusNames(a);
    }
  }

  /** Rewrites points and lines in place, and stops at the first obstacle. */
  method ResolveModbusSlaveIds(points: array<PointConfig>, buses: array<BusConfig>) returns (obstacle: Option<Obstacle>)
    modifies points, buses
    ensures obstacle == Some(NoDefaultBase) <==> !AllBases(old(buses[..]))
    ensures obstacle.None? <==> AllBases(old(buses[..])) && AllResolvable(old(points[..]), BusNames(old(buses[..])))
    ensures obstacle.None? ==> Resolved(old(points[..]), points[..])
    ensures obstacle.None? ==> forall i :: 0 <= i < buses.Length ==> buses[i] == WithBase(old(buses[..]), i)
    ensures obstacle.Some? && obstacle != Some(NoDefaultBase) ==>
              FirstStop(old(points[..]), BusNames(old(buses[..])), obstacle.value)
  {
    hide PointResolved, AtMostOne, ExplicitIds, Stops;
    var before := points[..];
    var lines := BusNames(buses[..]);
    ghost var given := buses[..];
    var complete := DefaultBases(buses);
    if !complete {
      return Some(NoDefaultBase);
    }
    for i := 0 to points.Length
      invariant forall k :: 0 <= k < buses.Length ==> buses[k] == WithBase(given, k)
      invariant forall k :: i <= k < points.Length ==> points[k] == before[k]
      invariant forall k :: 0 <= k < i ==> Resolvable(before, lines, before[k])
      invariant forall k :: 0 <= k < i ==> PointResolved(before, before[k], points[k])
    {
      var p := before[i];
      var id, stopped := DeviceId(before, lines, p);
      if stopped.Some? {
        StopsReally(before, lines, p, stopped.value);
        assert StopsAt(before, lines, i, stopped.value);
        return stopped;
      }
      points[i] := p.(modbusSlaveId := Some(id));
      assert PointResolved(before, p, points[i]) by { IdSet(before, p, id); }
    }
    obstacle := None;
  }

  lemma StopsReally(points: seq<PointConfig>, lines: set<string>, p: PointConfig, obstacle: Obstacle)
    requires Stops(points, lines, p, obstacle)
    ensures obstacle != NoDefaultBase && !Resolvable(points, lines, p)
  {}

  /** Resolution makes the slave id a function of the device, and keeps explicit ids. */
  lemma ResolutionIsConsistent(before: seq<PointConfig>, after: seq<PointConfig>, i: nat, j: nat)
    requires Resolved(before, after) && i < |before| && j < |before|
    ensures SameDevice(before[i], before[j]) ==> after[i].modbusSlaveId == after[j].modbusSlaveId
    ensures before[i].modbusSlaveId.Some? ==> after[i].modbusSlaveId == before[i].modbusSlaveId
  {
    if SameDevice(before[i], before[j]) {
      OneId(before, before[i].bus, before[i].device, after[i].modbusSlaveId.value, after[j].modbusSlaveId.value);
    }
    if before[i].modbusSlaveId.Some? {
      assert before[i] in before && before[i].modbusSlaveId.value in ExplicitIds(before, before[i].bus, before[i].device);
    }
  }

  /** A configuration the validator accepts is resolvable and left exactly as it is. */
  lemma AcceptedIsResolved(config: GatewayConfig, after: seq<PointConfig>)
    requires Accepts(config)
    ensures AllBases(config.buses) && AllResolvable(config.points, BusNames(config.buses))
    ensures forall i :: 0 <= i < |config.buses| ==> WithBase(config.buses, i) == config.buses[i]
    ensures Resolved(config.points, after) ==> after == config.points
  {
    var points := config.points;
    forall i | 0 <= i < |points|
      ensures points[i].modbusSlaveId.Some? && Resolvable(points, BusNames(config.buses), points[i])
    {
      assert PointFieldsOk(BusNames(config.buses), points[i]);
      DeviceHasOneSlave(config, points[i]);
      assert points[i].modbusSlaveId.value in ExplicitIds(points, points[i].bus, points[i].device);
    }
    if Resolved(points, after) {
      forall i | 0 <= i < |points| ensures after[i] == points[i] {
        ResolutionIsConsistent(points, after, i, i);
      }
    }
  }

  lemma DeviceHasOneSlave(config: GatewayConfig, p: PointConfig)
    requires Accepts(config) && p in config.points
    ensures AtMostOne(ExplicitIds(config.points, p.bus, p.device))
  {
    hide PointFieldsOk, MappingOk, PointCells;
    var points := config.points;
    forall q, r | q in points && r in points && OfDevice(q, p.bus, p.device) && OfDevice(r, p.bus, p.device) &&
                  q.modbusSlaveId.Some? && r.modbusSlaveId.Some?
      ensures q.modbusSlaveId == r.modbusSlaveId
    {
      var i :| 0 <= i < |points| && points[i] == q;
      var j :| 0 <= j < |points| && points[j] == r;
      if i < j {
        assert Compatible(points[i], points[j]);
      } else if j < i {
        assert Compatible(points[j], points[i]);
      }
    }
  }
}
