/** What edits keep and what they undo. */
module EditLaws {
  import opened Core
  import opened Config
  import opened StableSort
  import opened ConfigEdit

  /* ---------- Filtering ---------- */

  lemma {:induction false} FilterAppend(keep: PointConfig -> bool, a: seq<PointConfig>, b: seq<PointConfig>)
    ensures Filter(keep, a + b) == Filter(keep, a) + Filter(keep, b)
    decreases |b|
  {
    if b == [] {
      assert a + b == a;
    } else {
      FilterAppend(keep, a, b[..|b| - 1]);
      assert (a + b)[..|a| + |b| - 1] == a + b[..|b| - 1];
    }
  }

  lemma {:induction false} FilterAll(keep: PointConfig -> bool, s: seq<PointConfig>)
    requires forall p :: p in s ==> keep(p)
    ensures Filter(keep, s) == s
  {
    if s != [] {
      FilterAll(keep, s[..|s| - 1]);
      SplitLast(s);
      assert keep(s[|s| - 1]);
    }
  }

  lemma FilterNone(keep: PointConfig -> bool, s: seq<PointConfig>)
    requires forall p :: p in s ==> !keep(p)
    ensures Filter(keep, s) == []
  {
    if Filter(keep, s) != [] {
      assert Filter(keep, s)[0] in Filter(keep, s);
    }
  }

  lemma InLine(points: seq<PointConfig>, bus: string, device: int)
    ensures device in DevicesOfLine(points, bus) <==> exists p :: p in points && OfDevice(p, bus, device)
  {
    if device in DevicesOfLine(points, bus) {
      var i :| 0 <= i < |points| && points[i].bus == bus && points[i].device == device;
      assert points[i] in points && OfDevice(points[i], bus, device);
    }
    if exists p :: p in points && OfDevice(p, bus, device) {
      var p :| p in points && OfDevice(p, bus, device);
      var i :| 0 <= i < |points| && points[i] == p;
      assert points[i].bus == bus && points[i].device == device;
    }
  }

  /** The sorted list of other points and a device's points, seen without that device. */
  lemma WithoutItsPoints(others: seq<PointConfig>, own: seq<PointConfig>, bus: string, device: int)
    requires forall p :: p in others ==> !OfDevice(p, bus, device)
    requires forall p :: p in own ==> OfDevice(p, bus, device)
    ensures WithoutDevice(Sort(others + own), bus, device) == Sort(others)
  {
    hide Sort, Filter;
    var keep := (p: PointConfig) => !OfDevice(p, bus, device);
    FilterSort(keep, others + own);
    FilterAppend(keep, others, own);
    FilterAll(keep, others);
    FilterNone(keep, own);
    assert others + [] == others;
  }

  /* ---------- Adding, then removing ---------- */

  /** On a sorted list, adding a device and removing it again restores the list exactly. */
  lemma AddThenRemove(busNames: set<string>, points: seq<PointConfig>, line: int, base: int, channels: set<int>,
                      selector: Selector)
    requires Sorted(points) && Added(busNames, points, line, base, channels).Ok?
    requires var (device, extended) := Added(busNames, points, line, base, channels).value;
             MatchDevice(selector, extended, ResolveBusName(busNames, line)) == Ok(device)
    ensures Removed(busNames, Added(busNames, points, line, base, channels).value.1, line, selector) == Ok(points)
  {
    hide Sort, Sorted, Filter, WithoutDevice, DevicePoints, ResolveBusName, MatchDevice, FirstFree, DevicesOfLine;
    var bus := ResolveBusName(busNames, line);
    var device := Added(busNames, points, line, base, channels).value.0;
    LeastFreeIsFirst(DevicesOfLine(points, bus), 1);
    InLine(points, bus, device);
    WithoutItsPoints(points, DevicePoints(bus, device, base, Ascending(channels, CHANNEL_COUNT)), bus, device);
    SortedIsFixed(points);
  }

  /** A device that exists is found by its number. */
  lemma FoundByNumber(points: seq<PointConfig>, bus: string, device: int)
    requires device in DevicesOfLine(points, bus)
    ensures MatchDevice(Selector(Some(device), None, None), points, bus) == Ok(device)
  {
    var selector := Selector(Some(device), None, None);
    assert Selected(selector, points, bus) == {device};
  }

  lemma AddedIsFoundByNumber(busNames: set<string>, points: seq<PointConfig>, line: int, base: int, channels: set<int>)
    requires Added(busNames, points, line, base, channels).Ok?
    ensures var (device, extended) := Added(busNames, points, line, base, channels).value;
            MatchDevice(Selector(Some(device), None, None), extended, ResolveBusName(busNames, line)) == Ok(device)
  {
    hide Sort, ResolveBusName, MatchDevice, FirstFree, DevicesOfLine;
    var bus := ResolveBusName(busNames, line);
    var (device, extended) := Added(busNames, points, line, base, channels).value;
    var own := DevicePoints(bus, device, base, Ascending(channels, CHANNEL_COUNT));
    NotEmpty(bus, device, base, channels);
    SortElements(points + own);
    assert own[0] in points + own by { assert (points + own)[|points|] == own[0]; }
    InLine(extended, bus, device);
    FoundByNumber(extended, bus, device);
  }

  /** In particular by the number the addition gave it: every device that can be added can be
      removed by that number, and the sorted list is then what it was. */
  lemma AddThenRemoveByNumber(busNames: set<string>, points: seq<PointConfig>, line: int, base: int, channels: set<int>)
    requires Sorted(points) && Added(busNames, points, line, base, channels).Ok?
    ensures var (device, extended) := Added(busNames, points, line, base, channels).value;
            Removed(busNames, extended, line, Selector(Some(device), None, None)) == Ok(points)
  {
    hide Sort, Sorted, Filter, WithoutDevice, DevicePoints, ResolveBusName, MatchDevice, FirstFree, DevicesOfLine, Removed,
         Added;
    var device := Added(busNames, points, line, base, channels).value.0;
    AddedIsFoundByNumber(busNames, points, line, base, channels);
    AddThenRemove(busNames, points, line, base, channels, Selector(Some(device), None, None));
  }

  lemma NotEmpty(bus: string, device: int, base: int, channels: set<int>)
    requires ChannelsOk(channels)
    ensures Ascending(channels, CHANNEL_COUNT) != []
    ensures DevicePoints(bus, device, base, Ascending(channels, CHANNEL_COUNT)) != []
  {
    var c := SomeElement(channels);
    assert c in Ascending(channels, CHANNEL_COUNT);
  }

  /* ---------- Updating channels ---------- */

  lemma {:induction false} AscendingFrom(channels: set<int>, limit: nat)
    ensures forall i, j :: 0 <= i < j < |Ascending(channels, limit)| ==>
              Ascending(channels, limit)[i] < Ascending(channels, limit)[j]
  {
    if limit > 0 {
      AscendingFrom(channels, limit - 1);
      var rest := Ascending(channels, limit - 1);
      forall i | 0 <= i < |rest| ensures rest[i] < limit {
        assert rest[i] in rest;
      }
    }
  }

  predicate IsLeast(s: seq<PointConfig>, address: int) {
    (forall p :: p in s ==> address <= p.address) && exists p :: p in s && p.address == address
  }

  lemma {:induction false} LeastIsLeast(s: seq<PointConfig>)
    requires s != []
    ensures IsLeast(s, LeastAddress(s))
  {
    var init, last := s[..|s| - 1], s[|s| - 1];
    if |s| > 1 {
      LeastIsLeast(init);
      var p :| p in init && p.address == LeastAddress(init);
      assert p in s;
    }
    assert last in s;
    assert forall p :: p in s <==> p in init || p == last;
  }

  lemma LeastIsUnique(s: seq<PointConfig>, a: int, b: int)
    requires IsLeast(s, a) && IsLeast(s, b)
    ensures a == b
  {}

  lemma {:induction false} DeviceReadings(bus: string, device: int, base: int, channels: seq<int>)
    ensures forall p :: p in DevicePoints(bus, device, base, channels) && p.parameter == "rEAd" <==>
                        exists c :: c in channels && p == ReadPoint(bus, device, base, c)
  {
    hide Prefix, Text;
    if channels != [] {
      var init, last := channels[..|channels| - 1], channels[|channels| - 1];
      DeviceReadings(bus, device, base, init);
      assert forall c :: c in channels <==> c in init || c == last;
      forall p
        ensures p in DevicePoints(bus, device, base, channels) && p.parameter == "rEAd" <==>
                exists c :: c in channels && p == ReadPoint(bus, device, base, c)
      {
        OneChannel(bus, device, base, last, p);
      }
    }
  }

  lemma OneChannel(bus: string, device: int, base: int, channel: int, p: PointConfig)
    ensures p in ChannelPoints(bus, device, base, channel) && p.parameter == "rEAd" <==>
            p == ReadPoint(bus, device, base, channel)
  {
    hide Prefix, Text;
  }

  /** The base address an update finds: that of the smallest channel present. */
  lemma FoundBase(others: seq<PointConfig>, bus: string, device: int, base: int, channels: set<int>)
    requires ChannelsOk(channels) && forall p :: p in others ==> !OfDevice(p, bus, device)
    ensures var own := DevicePoints(bus, device, base, Ascending(channels, CHANNEL_COUNT));
            var readings := Readings(Sort(others + own), bus, device);
            readings != [] && LeastAddress(readings) == base + Ascending(channels, CHANNEL_COUNT)[0] - 1
  {
    hide Sort, Prefix, Text, DevicePoints, Ascending, ReadPoint;
    var order := Ascending(channels, CHANNEL_COUNT);
    var own := DevicePoints(bus, device, base, order);
    var readings := Readings(Sort(others + own), bus, device);
    SortElements(others + own);
    DeviceReadings(bus, device, base, order);
    NotEmpty(bus, device, base, channels);
    AscendingFrom(channels, CHANNEL_COUNT);
    forall p ensures p in readings <==> exists c :: c in order && p == ReadPoint(bus, device, base, c) {
      assert p in others + own <==> p in others || p in own;
    }
    assert ReadPoint(bus, device, base, order[0]) in readings;
    forall c ensures ReadPoint(bus, device, base, c).address == base + c - 1 { ReadAddress(bus, device, base, c); }
    LeastIsLeast(readings);
    LeastIsUnique(readings, LeastAddress(readings), base + order[0] - 1);
  }

  lemma ReadAddress(bus: string, device: int, base: int, channel: int)
    ensures ReadPoint(bus, device, base, channel).address == base + channel - 1
  {
    hide Prefix, Text;
  }

  lemma FirstIsOne(channels: set<int>)
    requires ChannelsOk(channels)
    ensures Ascending(channels, CHANNEL_COUNT) != []
    ensures Ascending(channels, CHANNEL_COUNT)[0] == 1 <==> 1 in channels
  {
    hide Ascending;
    NotEmpty("", 0, 0, channels);
    AscendingFrom(channels, CHANNEL_COUNT);
    var order := Ascending(channels, CHANNEL_COUNT);
    assert order[0] in order;
    if 1 in channels {
      var i :| 0 <= i < |order| && order[i] == 1;
    }
  }

  /** The same device rebuilt on two different bases gives different lists. */
  lemma RebuiltApart(points: seq<PointConfig>, bus: string, device: int, a: int, b: int, channels: set<int>)
    requires ChannelsOk(channels) && a != b
    ensures Rebuilt(points, bus, device, a, channels) != Rebuilt(points, bus, device, b, channels)
  {
    hide Sort, DevicePoints, Ascending, Filter;
    var others, order := WithoutDevice(points, bus, device), Ascending(channels, CHANNEL_COUNT);
    var own, other := DevicePoints(bus, device, a, order), DevicePoints(bus, device, b, order);
    NotEmpty(bus, device, a, channels);
    SortElements(others + own);
    SortElements(others + other);
    var p := own[0];
    assert p in own && OfDevice(p, bus, device) && p.modbusSlaveId == Some(a);
    assert p in others + own by { assert (others + own)[|others|] == p; }
    assert p !in others && p !in other;
  }

  /** Two updates by device number are the second alone exactly when the first includes
      channel 1; otherwise the base address has moved up to the first channel kept. */
  lemma SecondUpdateAlone(busNames: set<string>, points: seq<PointConfig>, line: int, device: int, first: set<int>,
                          second: set<int>)
    requires ChannelsOk(second) && Updated(busNames, points, line, first, Selector(Some(device), None, None)).Ok?
    ensures var selector := Selector(Some(device), None, None);
            var once := Updated(busNames, points, line, first, selector).value;
            var twice := Updated(busNames, once.1, line, second, selector);
            && twice.Ok?
            && twice.value.0 == once.0 + Ascending(first, CHANNEL_COUNT)[0] - 1
            && (twice == Updated(busNames, points, line, second, selector) <==> 1 in first)
  {
    hide Sort, Filter, DevicePoints, ResolveBusName, MatchDevice, DevicesOfLine, Ascending;
    var selector := Selector(Some(device), None, None);
    var bus := ResolveBusName(busNames, line);
    var base := LeastAddress(Readings(points, bus, device));
    var others, order := WithoutDevice(points, bus, device), Ascending(first, CHANNEL_COUNT);
    var own := DevicePoints(bus, device, base, order);
    var once := Rebuilt(points, bus, device, base, first);
    assert MatchDevice(selector, points, bus) == Ok(device) by { MatchedNumber(points, bus, device); }
    assert device in DevicesOfLine(once, bus) by {
      NotEmpty(bus, device, base, first);
      SortElements(others + own);
      assert own[0] in others + own by { assert (others + own)[|others|] == own[0]; }
      InLine(once, bus, device);
    }
    FoundByNumber(once, bus, device);
    FoundBase(others, bus, device, base, first);
    FirstIsOne(first);
    var moved := base + order[0] - 1;
    WithoutItsPoints(others, own, bus, device);
    SortAppend(others, DevicePoints(bus, device, moved, Ascending(second, CHANNEL_COUNT)));
    assert Rebuilt(once, bus, device, moved, second) == Rebuilt(points, bus, device, moved, second);
    if moved != base {
      RebuiltApart(points, bus, device, moved, base, second);
    }
  }

  lemma MatchedNumber(points: seq<PointConfig>, bus: string, device: int)
    requires MatchDevice(Selector(Some(device), None, None), points, bus).Ok?
    ensures MatchDevice(Selector(Some(device), None, None), points, bus) == Ok(device)
  {}

  lemma RebuiltSlave(points: seq<PointConfig>, bus: string, device: int, base: int, channels: set<int>, slave: int)
    requires ChannelsOk(channels)
    ensures OnSlave(Rebuilt(points, bus, device, base, channels), bus, device, slave) <==> slave == base
  {
    hide Sort, DevicePoints, Ascending, Filter;
    var others, own := WithoutDevice(points, bus, device), DevicePoints(bus, device, base, Ascending(channels, CHANNEL_COUNT));
    NotEmpty(bus, device, base, channels);
    SortElements(others + own);
    assert own[0] in others + own by { assert (others + own)[|others|] == own[0]; }
    assert own[0] in Rebuilt(points, bus, device, base, channels);
    assert OfDevice(own[0], bus, device) && own[0].modbusSlaveId == Some(base);
    forall p | p in others + own && OfDevice(p, bus, device) ensures p.modbusSlaveId == Some(base) {
      assert p in own;
    }
  }

  predicate OnSlave(points: seq<PointConfig>, bus: string, device: int, slave: int) {
    forall p :: p in points && OfDevice(p, bus, device) ==> p.modbusSlaveId == Some(slave)
  }

  /** After an update a device is on slave id `slave` exactly when that is the smallest
      address of its measuring points found before the update. */
  lemma SlaveAfterUpdate(busNames: set<string>, points: seq<PointConfig>, line: int, channels: set<int>, selector: Selector,
                         slave: int)
    requires Updated(busNames, points, line, channels, selector).Ok?
    ensures var bus := ResolveBusName(busNames, line);
            var found := MatchDevice(selector, points, bus);
            && found.Ok?
            && (OnSlave(Updated(busNames, points, line, channels, selector).value.1, bus, found.value, slave) <==>
                IsLeast(Readings(points, bus, found.value), slave))
  {
    hide Sort, Filter, ResolveBusName, MatchDevice, Rebuilt, OnSlave, IsLeast, LeastAddress;
    var bus := ResolveBusName(busNames, line);
    var device := MatchDevice(selector, points, bus).value;
    var readings := Readings(points, bus, device);
    RebuiltSlave(points, bus, device, LeastAddress(readings), channels, slave);
    LeastIsLeast(readings);
    if IsLeast(readings, slave) {
      LeastIsUnique(readings, slave, LeastAddress(readings));
    }
  }

  /** So a device made by the tools on base `base` keeps its slave id exactly when it has
      channel 1. */
  lemma KeepsSlaveExactly(busNames: set<string>, others: seq<PointConfig>, line: int, device: int, base: int,
                          before: set<int>, after: set<int>)
    requires LineOk(line) && ChannelsOk(before) && ChannelsOk(after)
    requires forall p :: p in others ==> !OfDevice(p, ResolveBusName(busNames, line), device)
    ensures var bus := ResolveBusName(busNames, line);
            var points := Sort(others + DevicePoints(bus, device, base, Ascending(before, CHANNEL_COUNT)));
            var updated := Updated(busNames, points, line, after, Selector(Some(device), None, None));
            && OnSlave(points, bus, device, base)
            && updated.Ok?
            && (OnSlave(updated.value.1, bus, device, base) <==> 1 in before)
  {
    hide Sort, Filter, ResolveBusName, MatchDevice, Rebuilt, IsLeast, LeastAddress, DevicePoints, Ascending, DevicesOfLine;
    var bus := ResolveBusName(busNames, line);
    var own := DevicePoints(bus, device, base, Ascending(before, CHANNEL_COUNT));
    var points, selector := Sort(others + own), Selector(Some(device), None, None);
    SortElements(others + own);
    assert OnSlave(points, bus, device, base) by {
      forall p | p in others + own && OfDevice(p, bus, device) ensures p.modbusSlaveId == Some(base) {
        assert p in own;
      }
    }
    NotEmpty(bus, device, base, before);
    assert own[0] in others + own by { assert (others + own)[|others|] == own[0]; }
    InLine(points, bus, device);
    FoundByNumber(points, bus, device);
    FoundBase(others, bus, device, base, before);
    RebuiltSlave(points, bus, device, LeastAddress(Readings(points, bus, device)), after, base);
    FirstIsOne(before);
  }
}
