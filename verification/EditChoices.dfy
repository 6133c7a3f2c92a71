/** Which edits go through, for which device, and which points they leave. */
module EditChoices {
  import opened Core
  import opened Config
  import opened StableSort
  import opened ConfigEdit
  import opened EditLaws

  /** The two lines by either of their names; the newer one unless only the older is known. */
  lemma NameOfLine(busNames: set<string>, line: int)
    requires line == 1 || line == 2
    ensures var canonical, legacy := if line == 1 then "line1" else "line2", if line == 1 then "bus1" else "bus2";
            ResolveBusName(busNames, line) == if canonical in busNames || legacy !in busNames then canonical else legacy
  {
    assert Text(1) == "1" && Text(2) == "2";
    assert "line" + "1" == "line1" && "line" + "2" == "line2" && "bus" + "1" == "bus1" && "bus" + "2" == "bus2";
  }

  /** A device of the line that meets everything the selector asks. */
  predicate Meant(selector: Selector, points: seq<PointConfig>, bus: string, device: int) {
    && (exists p :: p in points && p.bus == bus && p.device == device)
    && (selector.device.None? || selector.device == Some(device))
    && (selector.base.Some? ==> IsLeast(DeviceOnly(points, bus, device), selector.base.value))
    && (selector.tag.Some? ==>
          exists p :: p in points && TagOf(points, p) == selector.tag.value && p.bus == bus && p.device == device
                      && IsLeast(DeviceOnly(points, bus, device), p.address))
  }

  /** The tag that a device whose smallest address is the point's has. */
  function TagOf(points: seq<PointConfig>, p: PointConfig): string { "a" + Text(p.address) }

  lemma SelectsMeant(selector: Selector, points: seq<PointConfig>, bus: string, device: int)
    ensures device in Selected(selector, points, bus) <==> Meant(selector, points, bus, device)
  {
    hide LeastAddress, Text;
    InLine(points, bus, device);
    var own := DeviceOnly(points, bus, device);
    if device in DevicesOfLine(points, bus) {
      assert own != [];
      LeastIsLeast(own);
      forall a | IsLeast(own, a) ensures a == LeastAddress(own) {
        LeastIsUnique(own, a, LeastAddress(own));
      }
      var q :| q in own && q.address == LeastAddress(own);
      assert q in points && TagOf(points, q) == "a" + Text(LeastAddress(own));
    }
  }

  /** A device is picked exactly if it is the only one meant; none or several are refused. */
  lemma MatchedExactly(selector: Selector, points: seq<PointConfig>, bus: string, device: int)
    ensures MatchDevice(selector, points, bus) == Ok(device) <==>
            Meant(selector, points, bus, device)
            && forall other :: Meant(selector, points, bus, other) ==> other == device
  {
    hide Selected, Meant;
    forall d ensures d in Selected(selector, points, bus) <==> Meant(selector, points, bus, d) {
      SelectsMeant(selector, points, bus, d);
    }
    if Meant(selector, points, bus, device) && forall other :: Meant(selector, points, bus, other) ==> other == device {
      forall d ensures d in Selected(selector, points, bus) <==> d in {device} {
        SelectsMeant(selector, points, bus, d);
      }
      assert Selected(selector, points, bus) == {device};
    }
  }

  predicate NumberIsFree(points: seq<PointConfig>, bus: string, device: int) {
    forall p :: p in points ==> !(p.bus == bus && p.device == device)
  }

  /** A device can be added exactly if its line is one of the two and known, its channels are
      some of the eight, none of its addresses is taken on the line, and one of 32 numbers is
      free; it gets the smallest. */
  lemma AddedExactly(busNames: set<string>, points: seq<PointConfig>, line: int, base: int, channels: set<int>)
    ensures var bus, added := ResolveBusName(busNames, line), Added(busNames, points, line, base, channels);
            && (added.Ok? <==>
                  && 1 <= line <= 2 && bus in busNames
                  && channels != {} && (forall c :: c in channels ==> 1 <= c <= 8)
                  && (forall p, c :: p in points && p.bus == bus && c in channels ==> p.address != base + c - 1)
                  && (exists d :: 1 <= d <= 32 && NumberIsFree(points, bus, d)))
            && (added.Ok? ==>
                  var device := added.value.0;
                  && 1 <= device <= 32 && NumberIsFree(points, bus, device)
                  && forall d :: 1 <= d < device ==> !NumberIsFree(points, bus, d))
  {
    hide Sort, DevicePoints, ResolveBusName;
    var bus := ResolveBusName(busNames, line);
    FreeAddresses(points, bus, base, channels);
    forall d ensures NumberIsFree(points, bus, d) <==> d !in DevicesOfLine(points, bus) {
      InLine(points, bus, d);
    }
    LeastFreeIsFirst(DevicesOfLine(points, bus), 1);
  }

  lemma FreeAddresses(points: seq<PointConfig>, bus: string, base: int, channels: set<int>)
    ensures AddressesFree(points, bus, base, channels) <==>
            forall p, c :: p in points && p.bus == bus && c in channels ==> p.address != base + c - 1
  {
    if AddressesFree(points, bus, base, channels) {
      forall p, c | p in points && p.bus == bus && c in channels ensures p.address != base + c - 1 {
        var i :| 0 <= i < |points| && points[i] == p;
        assert points[i].address - base + 1 !in channels;
      }
    }
    if forall p, c :: p in points && p.bus == bus && c in channels ==> p.address != base + c - 1 {
      forall i | 0 <= i < |points| && points[i].bus == bus ensures points[i].address - base + 1 !in channels {
        assert points[i] in points;
      }
    }
  }

  /** A removal leaves exactly the other points, in their order. */
  lemma RemovedLeaves(busNames: set<string>, points: seq<PointConfig>, line: int, selector: Selector, device: int)
    requires 1 <= line <= 2 && MatchDevice(selector, points, ResolveBusName(busNames, line)) == Ok(device)
    ensures var bus, remaining := ResolveBusName(busNames, line), Removed(busNames, points, line, selector);
            && remaining.Ok?
            && (forall p :: p in remaining.value <==> p in points && !(p.bus == bus && p.device == device))
            && (Sorted(points) ==> Sorted(remaining.value))
  {
    hide ResolveBusName, MatchDevice, Sort, Filter;
    if Sorted(points) {
      FilterSort(p => !OfDevice(p, ResolveBusName(busNames, line), device), points);
      SortedIsFixed(points);
      SortSorts(Filter(p => !OfDevice(p, ResolveBusName(busNames, line), device), points));
    }
  }

  /** A device's channels can be changed exactly if it is found, the channels are some of the
      eight, and it has a measuring point; its base becomes the smallest measuring address. */
  lemma UpdatedExactly(busNames: set<string>, points: seq<PointConfig>, line: int, channels: set<int>, selector: Selector)
    ensures var bus, updated := ResolveBusName(busNames, line), Updated(busNames, points, line, channels, selector);
            && (updated.Ok? <==>
                  && 1 <= line <= 2 && channels != {} && (forall c :: c in channels ==> 1 <= c <= 8)
                  && exists device :: MatchDevice(selector, points, bus) == Ok(device) && MeasuresAt(points, bus, device))
            && (updated.Ok? ==>
                  var device := MatchDevice(selector, points, bus).value;
                  && (forall p :: p in points && p.bus == bus && p.device == device && p.parameter == "rEAd" ==>
                        updated.value.0 <= p.address)
                  && exists p :: p in points && p.bus == bus && p.device == device && p.parameter == "rEAd"
                                 && p.address == updated.value.0)
  {
    hide ResolveBusName, MatchDevice, Rebuilt, LeastAddress;
    var bus := ResolveBusName(busNames, line);
    var found := MatchDevice(selector, points, bus);
    if found.Ok? {
      var readings := Readings(points, bus, found.value);
      if readings != [] {
        assert readings[0] in readings;
        assert MeasuresAt(points, bus, found.value);
        LeastIsLeast(readings);
      }
    }
  }

  predicate MeasuresAt(points: seq<PointConfig>, bus: string, device: int) {
    exists p :: p in points && p.bus == bus && p.device == device && p.parameter == "rEAd"
  }
}
