/** Configurations built with the editing tools meet everything cache agreement needs. */
module ToolBuilt {
  import opened Core
  import opened EditLaws
  import opened Registers
  import opened Config
  import Gateway
  import opened Layout
  import opened StableSort
  import opened ConfigEdit
  import opened EditValidity

  /* ---------- Point names tell points apart ---------- */

  predicate IsDigit(c: char) { '0' <= c <= '9' }

  lemma {:induction false} OnlyDigits(n: nat)
    ensures forall i :: 0 <= i < |Digits(n)| ==> IsDigit(Digits(n)[i])
  {
    if n >= 10 {
      OnlyDigits(n / 10);
    }
  }

  lemma {:induction false} DigitsAreInjective(m: nat, n: nat)
    requires Digits(m) == Digits(n)
    ensures m == n
  {
    if m >= 10 && n >= 10 {
      assert Digits(m)[..|Digits(m)| - 1] == Digits(m / 10) && Digits(n)[..|Digits(n)| - 1] == Digits(n / 10);
      DigitsAreInjective(m / 10, n / 10);
      LastDigit(m);
      LastDigit(n);
    }
  }

  lemma LastDigit(n: nat)
    ensures Digits(n)[|Digits(n)| - 1] as int == '0' as int + n % 10
  {}

  lemma SignShows(n: int)
    ensures IsDigit(Text(n)[0]) <==> n >= 0
    ensures n < 0 ==> Text(n)[1..] == Digits(-n)
  {
    OnlyDigits(if n >= 0 then n else -n);
  }

  lemma TextIsInjective(m: int, n: int)
    requires Text(m) == Text(n)
    ensures m == n
  {
    SignShows(m);
    SignShows(n);
    if m >= 0 {
      DigitsAreInjective(m, n);
    } else {
      DigitsAreInjective(-m, -n);
    }
  }

  predicate FirstUnderscore(s: string, i: nat) {
    i < |s| && s[i] == '_' && forall j :: 0 <= j < i ==> s[j] != '_'
  }

  lemma NumberEnds(n: int, x: string)
    ensures var s := Text(n) + "_" + x;
            FirstUnderscore(s, |Text(n)|) && s[..|Text(n)|] == Text(n) && s[|Text(n)| + 1..] == x
  {
    hide Digits;
    OnlyDigits(if n >= 0 then n else -n);
  }

  lemma OneFirst(s: string, i: nat, j: nat)
    requires FirstUnderscore(s, i) && FirstUnderscore(s, j)
    ensures i == j
  {}

  /** A number ends at the first underscore. */
  lemma SameNumber(m: int, n: int, x: string, y: string)
    requires Text(m) + "_" + x == Text(n) + "_" + y
    ensures m == n && x == y
  {
    hide Text;
    NumberEnds(m, x);
    NumberEnds(n, y);
    OneFirst(Text(m) + "_" + x, |Text(m)|, |Text(n)|);
    TextIsInjective(m, n);
  }

  function Suffix(channel: int, kind: Kind): string {
    match kind
    case Reading => "read_R" + Text(ValueRegisterStart(channel))
    case Setpoint => "sp_R" + Text(SetpointRegisterStart(channel))
    case Alarm => "alt_internal"
  }

  lemma Regroup(base: string, channel: string, suffix: string)
    ensures "a" + base + "_ch" + channel + ("_" + suffix) == "a" + (base + "_" + ("ch" + (channel + "_" + suffix)))
  {
    assert "_ch" == "_" + "ch";
  }

  lemma SuffixOfName(bus: string, device: int, base: int, c: int, kind: Kind)
    ensures PointOf(bus, device, base, c, kind).name == Prefix(base, c) + ("_" + Suffix(c, kind))
  {
    hide Text, Prefix;
    assert "_read_R" == "_" + "read_R" && "_sp_R" == "_" + "sp_R" && "_alt_internal" == "_" + "alt_internal";
  }

  lemma NameOf(bus: string, device: int, base: int, c: int, kind: Kind)
    ensures PointOf(bus, device, base, c, kind).name == "a" + (Text(base) + "_" + ("ch" + (Text(c) + "_" + Suffix(c, kind))))
  {
    hide Text, PointOf, Suffix;
    SuffixOfName(bus, device, base, c, kind);
    Regroup(Text(base), Text(c), Suffix(c, kind));
  }

  lemma SameTail(head: string, x: string, y: string)
    requires head + x == head + y
    ensures x == y
  {
    assert (head + x)[|head|..] == x && (head + y)[|head|..] == y;
  }

  lemma SuffixTellsKind(c: int, kind: Kind, other: Kind)
    requires Suffix(c, kind) == Suffix(c, other)
    ensures kind == other
  {
    hide Text;
    assert Suffix(c, Reading)[0] == 'r' && Suffix(c, Setpoint)[0] == 's' && Suffix(c, Alarm)[0] == 'a';
  }

  /** Equal names mean the same base address, channel and kind of point. */
  lemma NamesTell(bus: string, device: int, base: int, c: int, kind: Kind,
                  otherBus: string, otherDevice: int, otherBase: int, d: int, otherKind: Kind)
    requires PointOf(bus, device, base, c, kind).name == PointOf(otherBus, otherDevice, otherBase, d, otherKind).name
    ensures base == otherBase && c == d && kind == otherKind
  {
    hide Text, Suffix, PointOf;
    NameOf(bus, device, base, c, kind);
    NameOf(otherBus, otherDevice, otherBase, d, otherKind);
    var x, y := Text(c) + "_" + Suffix(c, kind), Text(d) + "_" + Suffix(d, otherKind);
    SameTail("a", Text(base) + "_" + ("ch" + x), Text(otherBase) + "_" + ("ch" + y));
    SameNumber(base, otherBase, "ch" + x, "ch" + y);
    SameTail("ch", x, y);
    SameNumber(c, d, Suffix(c, kind), Suffix(d, otherKind));
    SuffixTellsKind(c, kind, otherKind);
  }

  /* ---------- Points made by the tools ---------- */

  ghost predicate MadeByTools(p: PointConfig) {
    exists c, kind :: 1 <= c <= CHANNEL_COUNT && p == PointOf(p.bus, p.device, SlaveOf(p), c, kind)
  }

  ghost predicate AllMadeByTools(points: seq<PointConfig>) {
    (forall p :: p in points ==> MadeByTools(p)) && DistinctNames(points)
  }

  ghost predicate NewNames(points: seq<PointConfig>, p: PointConfig) {
    forall q :: q in points ==> q.name != p.name
  }

  lemma NamesOneMore(s: seq<PointConfig>, p: PointConfig)
    ensures DistinctNames(s + [p]) <==> DistinctNames(s) && NewNames(s, p)
  {
    var longer := s + [p];
    assert forall i :: 0 <= i < |s| ==> longer[i] == s[i];
    if DistinctNames(longer) {
      forall q | q in s ensures q.name != p.name {
        var i :| 0 <= i < |s| && s[i] == q;
        assert longer[i].name != longer[|s|].name;
      }
    }
  }

  lemma {:induction false} NamesInsert(s: seq<PointConfig>, p: PointConfig)
    requires DistinctNames(s) && NewNames(s, p)
    ensures DistinctNames(Insert(s, p))
  {
    hide KeyLess, DistinctNames;
    if s == [] || !KeyLess(p, s[|s| - 1]) {
      NamesOneMore(s, p);
    } else {
      var init, last := s[..|s| - 1], s[|s| - 1];
      SplitLast(s);
      NamesOneMore(init, last);
      NamesInsert(init, p);
      InsertElements(init, p);
      NamesOneMore(Insert(init, p), last);
    }
  }

  lemma {:induction false} NamesSort(s: seq<PointConfig>)
    requires DistinctNames(s)
    ensures DistinctNames(Sort(s))
  {
    hide DistinctNames, Insert;
    if s != [] {
      var init, last := s[..|s| - 1], s[|s| - 1];
      SplitLast(s);
      NamesOneMore(init, last);
      NamesSort(init);
      SortElements(init);
      NamesInsert(Sort(init), last);
    } else {
      assert Sort(s) == s;
    }
  }

  lemma {:induction false} NamesFilter(keep: PointConfig -> bool, s: seq<PointConfig>)
    requires DistinctNames(s)
    ensures DistinctNames(Filter(keep, s))
  {
    hide DistinctNames;
    if s != [] {
      var init, last := s[..|s| - 1], s[|s| - 1];
      SplitLast(s);
      NamesOneMore(init, last);
      NamesFilter(keep, init);
      NamesOneMore(Filter(keep, init), last);
    } else {
      assert Filter(keep, s) == s;
    }
  }

  lemma {:induction false} NamesAppend(a: seq<PointConfig>, b: seq<PointConfig>)
    requires DistinctNames(a) && DistinctNames(b) && forall p, q :: p in a && q in b ==> p.name != q.name
    ensures DistinctNames(a + b)
    decreases |b|
  {
    hide DistinctNames;
    if b == [] {
      assert a + b == a;
    } else {
      var init, last := b[..|b| - 1], b[|b| - 1];
      SplitLast(b);
      NamesOneMore(init, last);
      NamesAppend(a, init);
      assert a + b == (a + init) + [last];
      NamesOneMore(a + init, last);
    }
  }

  lemma {:induction false} DeviceNames(bus: string, device: int, base: int, channels: seq<int>)
    requires EditValidity.Distinct(channels)
    ensures DistinctNames(DevicePoints(bus, device, base, channels))
  {
    hide ReadPoint, SetpointPoint, AlarmPoint, PointOf;
    if channels != [] {
      var init, last := channels[..|channels| - 1], channels[|channels| - 1];
      DeviceNames(bus, device, base, init);
      ChannelNames(bus, device, base, last);
      DevicePointsForm(bus, device, base, init);
      forall p, q | p in DevicePoints(bus, device, base, init) && q in ChannelPoints(bus, device, base, last)
        ensures p.name != q.name
      {
        var c, kind :| c in init && p == PointOf(bus, device, base, c, kind);
        ThreePoints(bus, device, base, last, q);
        var other :| q == PointOf(bus, device, base, last, other);
        if p.name == q.name {
          NamesTell(bus, device, base, c, kind, bus, device, base, last, other);
        }
      }
      NamesAppend(DevicePoints(bus, device, base, init), ChannelPoints(bus, device, base, last));
    }
  }

  lemma ChannelNames(bus: string, device: int, base: int, c: int)
    ensures DistinctNames(ChannelPoints(bus, device, base, c))
  {
    hide ReadPoint, SetpointPoint, AlarmPoint;
    KindsDiffer(bus, device, base, c, Reading, Setpoint);
    KindsDiffer(bus, device, base, c, Reading, Alarm);
    KindsDiffer(bus, device, base, c, Setpoint, Alarm);
  }

  lemma KindsDiffer(bus: string, device: int, base: int, c: int, kind: Kind, other: Kind)
    requires kind != other
    ensures PointOf(bus, device, base, c, kind).name != PointOf(bus, device, base, c, other).name
  {
    hide PointOf;
    if PointOf(bus, device, base, c, kind).name == PointOf(bus, device, base, c, other).name {
      NamesTell(bus, device, base, c, kind, bus, device, base, c, other);
    }
  }

  /** Rebuilding a device on a slave id no other device has keeps all points as the tools
      make them, with distinct names. */
  lemma RebuiltIsMadeByTools(points: seq<PointConfig>, bus: string, device: int, base: int, channels: set<int>)
    requires AllMadeByTools(points) && ChannelsOk(channels) && SlaveFree(points, bus, device, base)
    ensures AllMadeByTools(Rebuilt(points, bus, device, base, channels))
  {
    hide Sort, Filter, DevicePoints, Ascending, PointOf, DistinctNames;
    var others, order := WithoutDevice(points, bus, device), Ascending(channels, CHANNEL_COUNT);
    var own := DevicePoints(bus, device, base, order);
    OrderIsDistinct(channels);
    DevicePointsForm(bus, device, base, order);
    DeviceNames(bus, device, base, order);
    NamesFilter(p => !OfDevice(p, bus, device), points);
    forall p, q | p in others && q in own ensures p.name != q.name {
      var c, kind :| 1 <= c <= CHANNEL_COUNT && p == PointOf(p.bus, p.device, SlaveOf(p), c, kind);
      var d, other :| d in order && q == PointOf(bus, device, base, d, other);
      if p.name == q.name {
        NamesTell(p.bus, p.device, SlaveOf(p), c, kind, bus, device, base, d, other);
      }
    }
    NamesAppend(others, own);
    NamesSort(others + own);
    SortElements(others + own);
    forall p | p in own ensures MadeByTools(p) {
      var c, kind :| c in order && p == PointOf(bus, device, base, c, kind);
      assert SlaveOf(p) == base by { SlaveOfOwn(bus, device, base, c, kind); }
      assert p == PointOf(p.bus, p.device, SlaveOf(p), c, kind);
    }
    assert forall p :: p in Rebuilt(points, bus, device, base, channels) <==> p in others || p in own;
  }

  lemma SlaveOfOwn(bus: string, device: int, base: int, c: int, kind: Kind)
    ensures SlaveOf(PointOf(bus, device, base, c, kind)) == base
  {}

  /** A point's metadata lies off its own value, and nothing of it on the logic mask. */
  predicate Unobtrusive(p: PointConfig) {
    && MASK_REGISTER !in PointCells(p)
    && if p.publishToModbus then MetadataCells(p) !! ValueCells(p) else MetadataCells(p) == {}
  }

  /** An accepted configuration of such points, with the default status and telemetry
      registers, meets every condition of the cache agreement theorem. */
  lemma ToolBuiltIsLaidOut(config: GatewayConfig)
    requires Accepts(config) && AllMadeByTools(config.points)
    requires config.status == DEFAULT_STATUS && config.telemetry == DEFAULT_TELEMETRY
    ensures LayoutOk(config)
    ensures forall p :: p in config.points && p.publishToModbus ==> AlwaysPublishes(p.protocolFormat, p.modbusDataType)
  {
    hide Accepts, DistinctNames, PointOf, ValueCells, MetadataCells, StatusCells, Range, ServiceRegistersFree;
    DefaultRegisters(config);
    forall p | p in config.points
      ensures Unobtrusive(p) && (p.publishToModbus ==> AlwaysPublishes(p.protocolFormat, p.modbusDataType))
    {
      var c, kind :| 1 <= c <= CHANNEL_COUNT && p == PointOf(p.bus, p.device, SlaveOf(p), c, kind);
      PointIsLaidOut(p.bus, p.device, SlaveOf(p), c, kind);
    }
  }

  lemma DefaultRegisters(config: GatewayConfig)
    requires Accepts(config) && config.status == DEFAULT_STATUS && config.telemetry == DEFAULT_TELEMETRY
    ensures ServiceRegistersFree(config) && HasRegisters(config.status.dataType)
  {
    hide PointsOk, Range;
    assert forall a :: a in StatusCells(config.status) <==> a == 1;
    assert forall a :: a in ReservedCells(config, HoldingRegister) ==> a <= 6;
  }

  lemma PointIsLaidOut(bus: string, device: int, base: int, c: int, kind: Kind)
    requires 1 <= c <= CHANNEL_COUNT
    ensures var p := PointOf(bus, device, base, c, kind);
            Unobtrusive(p) && (p.publishToModbus ==> AlwaysPublishes(p.protocolFormat, p.modbusDataType))
  {
    hide Prefix, Text;
    DeviceCells(bus, device, base, c);
  }

  /* ---------- From nothing to a configuration that works ---------- */

  /** A new document with one line: default service registers and no points. */
  function NewConfig(): GatewayConfig {
    GatewayConfig([BusConfig("line1", SerialConfig(8, "N", 1, 1000, 8), 1000, 0, 0, Some(10))], 15020,
                  DEFAULT_STATUS, DEFAULT_TELEMETRY, HealthConfig(10, 5), [])
  }

  lemma NewConfigIsAccepted()
    ensures Accepts(NewConfig()) && BusNames(NewConfig().buses) == {"line1"}
  {
    hide Range;
    DefaultsStayOff(NewConfig());
    assert NewConfig().buses[0].name == "line1";
  }

  lemma FirstLine()
    ensures ResolveBusName({"line1"}, 1) == "line1"
  {
    assert Text(1) == "1";
    assert "line" + "1" == "line1";
  }

  /** The first device can be added on any base address and channels; the result is accepted,
      and the cache agreement theorem applies to it, exactly for addresses 2..247. */
  lemma FirstDevice(base: int, channels: set<int>)
    requires ChannelsOk(channels)
    ensures Added({"line1"}, [], 1, base, channels).Ok?
    ensures var config := NewConfig().(points := Added({"line1"}, [], 1, base, channels).value.1);
            && (Accepts(config) <==> 2 <= base <= 247)
            && (Accepts(config) ==> LayoutOk(config) && config.points != [])
  {
    hide Accepts, LayoutOk, Rebuilt, Sort, DevicePoints, ResolveBusName, ServiceOffDevices, ChannelsOk, DistinctNames;
    FirstLine();
    NewConfigIsAccepted();
    DefaultsStayOff(NewConfig());
    assert DevicesOfLine([], "line1") == {};
    assert Added({"line1"}, [], 1, base, channels).Ok?;
    var (device, points) := Added({"line1"}, [], 1, base, channels).value;
    AddIsAccepted(NewConfig(), 1, base, channels);
    AddingRebuilds({"line1"}, [], 1, base, channels);
    assert AllMadeByTools([]) by { NothingMade(); }
    RebuiltIsMadeByTools([], "line1", device, base, channels);
    var config := NewConfig().(points := points);
    if Accepts(config) {
      ToolBuiltIsLaidOut(config);
    }
    assert |points| > 0 by { NotEmptyRebuilt("line1", device, base, channels); }
  }

  lemma NothingMade()
    ensures AllMadeByTools([])
  {}

  lemma NotEmptyRebuilt(bus: string, device: int, base: int, channels: set<int>)
    requires ChannelsOk(channels)
    ensures |Rebuilt([], bus, device, base, channels)| > 0
  {
    hide DevicePoints, Ascending, ChannelsOk;
    NotEmpty(bus, device, base, channels);
  }
}
