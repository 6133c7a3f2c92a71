/** Device, line and gateway status over whole runs. */
module StatusHierarchy {
  import opened Core
  import opened Frame
  import opened Payload
  import opened Config
  import opened RegisterMap
  import opened Health
  import opened Status
  import opened Gateway
  import opened Replies
  import Conservation

  /* ---------- Lines aggregate their devices ---------- */

  function DeviceStatusesOn(config: GatewayConfig, s: State, bus: string): seq<nat> {
    Statuses(s.deviceStates, DevicesOn(config, bus))
  }

  ghost predicate LinesAggregate(config: GatewayConfig, s: State) {
    forall bus :: LineIn(s.busStatuses, bus) == AggregateStatus(DeviceStatusesOn(config, s, bus))
  }

  lemma SameStatuses(config: GatewayConfig, s: State, after: State)
    requires LinesAggregate(config, s) && after.busStatuses == s.busStatuses
    requires forall key :: DeviceIn(after.deviceStates, key).status == DeviceIn(s.deviceStates, key).status
    ensures LinesAggregate(config, after)
  {
    hide AggregateStatus, DevicesOn, DeviceIn;
    forall bus ensures LineIn(after.busStatuses, bus) == AggregateStatus(DeviceStatusesOn(config, after, bus)) {
      assert DeviceStatusesOn(config, after, bus) == DeviceStatusesOn(config, s, bus);
    }
  }

  lemma RecordAggregates(config: GatewayConfig, floats: Floats, s: State, key: SlaveKey, status: nat, code: word)
    requires LinesAggregate(config, s)
    ensures LinesAggregate(config, RecordDeviceResult(config, floats, s, key, status, code))
  {
    hide AggregateStatus, RecordWrites, PublishAll;
    var after := RecordDeviceResult(config, floats, s, key, status, code);
    forall bus ensures LineIn(after.busStatuses, bus) == AggregateStatus(DeviceStatusesOn(config, after, bus)) {
      if bus != key.0 {
        assert DeviceStatusesOn(config, after, bus) == DeviceStatusesOn(config, s, bus);
      }
    }
  }

  lemma OutcomeKeepsStatuses(config: GatewayConfig, s: State, bus: string, outcome: Outcome)
    requires AtPoint(config, s, bus)
    ensures var after := ApplyOutcome(config, s, bus, outcome);
            && after.busStatuses == s.busStatuses && after.logicMasks == s.logicMasks
            && forall key :: DeviceIn(after.deviceStates, key).status == DeviceIn(s.deviceStates, key).status
  {
    hide CurrentPoint, CurrentKey, AtPoint, PublishAll, MetadataWrites, ValueWrites, AfterFailure, AfterSuccess,
         AfterEmpty, WordStatus, PointStateIn, IncCounter, Passed, Failed, PollerIn, WithStored;
  }

  lemma StepAggregates(config: GatewayConfig, floats: Floats, s: State, event: Event)
    requires LinesAggregate(config, s)
    ensures LinesAggregate(config, Step(config, floats, s, event))
  {
    hide LinesAggregate, ApplyOutcome, Classify, RecordDeviceResult, EndHandler, PublishAll, Publish, ClientWrite,
         CoilWrite, NextMask, CurrentPoint, MetadataWrites, DeviceStatus;
    var after := Step(config, floats, s, event);
    if !Enabled(config, s, event) {
    } else {
      match event {
        case PointReply(bus, exchange) =>
          OutcomeKeepsStatuses(config, s, bus, Classify(floats, CurrentPoint(config, s, bus), exchange));
          SameStatuses(config, s, after);
        case DeviceEnd(bus) =>
          var key, poller := CurrentKey(config, s, bus), PollerIn(s.pollers, bus);
          var status := DeviceStatus(|PointsOf(config.points, key)|, poller.failures, poller.protocolFailures);
          var masked := PublishMask(config, s, key);
          SameStatuses(config, s, masked);
          RecordAggregates(config, floats, masked, key, status, poller.lastErrorCode);
          SameStatuses(config, RecordDeviceResult(config, floats, masked, key, status, poller.lastErrorCode), after);
        case HandlerEnd(k, ack, readBacks) =>
          Conservation.HandlersCountNothing(config, floats, s, k, ack, readBacks);
          SameStatuses(config, s, after);
        case _ =>
          SameStatuses(config, s, after);
      }
    }
  }

  /** In every reachable state each line's status is the aggregate of its devices'. */
  lemma {:induction false} LinesAlwaysAggregate(config: GatewayConfig, floats: Floats, events: seq<Event>)
    ensures LinesAggregate(config, Reached(config, floats, events))
    decreases |events|
  {
    hide Step, StartWrites, PublishAll;
    if events == [] {
      forall bus ensures AggregateStatus(DeviceStatusesOn(config, Start(config, floats), bus)) == STATUS_OFFLINE {
        var statuses := DeviceStatusesOn(config, Start(config, floats), bus);
        if statuses != [] {
          assert statuses[0] == STATUS_OFFLINE;
        }
      }
    } else {
      var before := events[..|events| - 1];
      LinesAlwaysAggregate(config, floats, before);
      StepAggregates(config, floats, Reached(config, floats, before), events[|events| - 1]);
    }
  }

  /** Statuses are the four defined ones, and a mask has eight bits. */
  ghost predicate RecordsInRange(s: State) {
    && (forall key :: 1 <= DeviceIn(s.deviceStates, key).status <= 4)
    && (forall key :: LogicMaskIn(s.logicMasks, key) < 0x100)
  }

  lemma StepInRange(config: GatewayConfig, floats: Floats, s: State, event: Event)
    requires RecordsInRange(s)
    ensures RecordsInRange(Step(config, floats, s, event))
  {
    hide ApplyOutcome, Classify, EndHandler, CloseDevice, PublishAll, ClientWrite, CoilWrite, CurrentPoint,
         MetadataWrites, PointsOf;
    var after := Step(config, floats, s, event);
    if Enabled(config, s, event) {
      match event {
        case PointReply(bus, exchange) =>
          OutcomeKeepsStatuses(config, s, bus, Classify(floats, CurrentPoint(config, s, bus), exchange));
        case HandlerEnd(k, ack, readBacks) =>
          Conservation.HandlersCountNothing(config, floats, s, k, ack, readBacks);
          HandlerMasks(config, floats, s, k, ack, readBacks);
        case DeviceEnd(bus) =>
          CloseInRange(config, floats, s, bus);
        case _ =>
      }
    }
  }

  lemma MaskInRange(config: GatewayConfig, s: State, key: SlaveKey)
    ensures NextMask(config, s, key) < 0x100
  {}

  lemma CloseInRange(config: GatewayConfig, floats: Floats, s: State, bus: string)
    requires RecordsInRange(s) && OnDevice(config, s, bus)
    ensures RecordsInRange(CloseDevice(config, floats, s, bus))
  {
    hide RecordWrites, PublishAll, Publish, NextMask, CurrentKey, PointsOf, AggregateStatus, NextDevice, PollerIn;
    MaskInRange(config, s, CurrentKey(config, s, bus));
    forall key ensures LogicMaskIn(CloseDevice(config, floats, s, bus).logicMasks, key) < 0x100 {
      assert LogicMaskIn(s.logicMasks, key) < 0x100;
    }
    forall key ensures 1 <= DeviceIn(CloseDevice(config, floats, s, bus).deviceStates, key).status <= 4 {
      assert 1 <= DeviceIn(s.deviceStates, key).status <= 4;
    }
  }

  lemma HandlerMasks(config: GatewayConfig, floats: Floats, s: State, k: nat,
                     ack: Result<Option<OwenFrame>>, readBacks: seq<Result<OwenFrame>>)
    requires k < |s.store.pending| && RecordsInRange(s)
    ensures forall key :: LogicMaskIn(EndHandler(config, floats, s, k, ack, readBacks).logicMasks, key) < 0x100
  {
    hide WriteOutcome, WritableAt, AcceptWrite, Restore;
    var write := s.store.pending[k];
    var point := WritableAt(config.points, write.slave, write.address, |write.words|);
    if point.Some? && WriteOutcome(floats, point.value, write.words, ack, readBacks).Ok? {
      AcceptMasks(config, floats, s, k, point.value,
        WriteOutcome(floats, point.value, write.words, ack, readBacks).value);
    }
  }

  lemma AcceptMasks(config: GatewayConfig, floats: Floats, s: State, k: nat, p: PointConfig, value: Value)
    requires k < |s.store.pending| && RecordsInRange(s)
    ensures forall key :: LogicMaskIn(AcceptWrite(config, floats, s, k, p, value).logicMasks, key) < 0x100
  {
    hide PublishAll, Publish, Withdraw, Restore, PublishedWords, ValueWrites, MetadataWrites, PointStateIn,
         AfterSuccess, NextMask;
    forall before: State ensures NextMask(config, before, KeyOf(p)) < 0x100 {
      MaskInRange(config, before, KeyOf(p));
    }
    forall key ensures LogicMaskIn(AcceptWrite(config, floats, s, k, p, value).logicMasks, key) < 0x100 {
      assert LogicMaskIn(s.logicMasks, key) < 0x100;
    }
  }

  lemma {:induction false} RecordsAlwaysInRange(config: GatewayConfig, floats: Floats, events: seq<Event>)
    ensures RecordsInRange(Reached(config, floats, events))
    decreases |events|
  {
    hide Step, StartWrites, PublishAll;
    if events != [] {
      RecordsAlwaysInRange(config, floats, events[..|events| - 1]);
      StepInRange(config, floats, Reached(config, floats, events[..|events| - 1]), events[|events| - 1]);
    }
  }

  function DeviceGroups(config: GatewayConfig, s: State): (groups: seq<seq<nat>>)
    ensures |groups| == |config.buses|
    ensures forall i :: 0 <= i < |groups| ==> groups[i] == DeviceStatusesOn(config, s, config.buses[i].name)
  {
    seq(|config.buses|, i requires 0 <= i < |config.buses| => DeviceStatusesOn(config, s, config.buses[i].name))
  }

  predicate EveryDeviceHas(config: GatewayConfig, s: State, status: nat) {
    forall i, j :: 0 <= i < |config.buses| && 0 <= j < |DevicesOn(config, config.buses[i].name)| ==>
      DeviceIn(s.deviceStates, DevicesOn(config, config.buses[i].name)[j]).status == status
  }

  predicate HasDevices(config: GatewayConfig, bus: string) { DevicesOn(config, bus) != [] }

  /** In every reachable state the gateway's status is not the flat aggregate over all
      devices exactly when a line without devices masks that all devices are healthy, or
      that all answer garbage. */
  lemma GatewayStatusIsFlat(config: GatewayConfig, floats: Floats, events: seq<Event>)
    requires config.buses != []
    ensures var s := Reached(config, floats, events);
            AggregateStatus(LineStatuses(s.busStatuses, config.buses)) != AggregateStatus(Flatten(DeviceGroups(config, s))) <==>
            && (exists i :: 0 <= i < |config.buses| && !HasDevices(config, config.buses[i].name))
            && (exists i :: 0 <= i < |config.buses| && HasDevices(config, config.buses[i].name))
            && (EveryDeviceHas(config, s, 1) || EveryDeviceHas(config, s, 4))
  {
    hide Reached, AggregateStatus, Flatten, DevicesOn, DeviceIn;
    var s := Reached(config, floats, events);
    var groups := DeviceGroups(config, s);
    LinesAlwaysAggregate(config, floats, events);
    assert LineStatuses(s.busStatuses, config.buses) == Aggregates(groups);
    TwoLevelsAreFlat(groups);
    assert forall i :: 0 <= i < |groups| ==> (groups[i] != [] <==> HasDevices(config, config.buses[i].name));
    DevicesInGroups(config, s, STATUS_OK);
    DevicesInGroups(config, s, STATUS_PROTOCOL_ERROR);
  }

  lemma DevicesInGroups(config: GatewayConfig, s: State, status: nat)
    ensures EveryDevice(DeviceGroups(config, s), status) <==> EveryDeviceHas(config, s, status)
  {
    hide DevicesOn, DeviceIn;
    var groups := DeviceGroups(config, s);
    forall i, j | 0 <= i < |config.buses| && 0 <= j < |DevicesOn(config, config.buses[i].name)|
      ensures j < |groups[i]| && groups[i][j] == DeviceIn(s.deviceStates, DevicesOn(config, config.buses[i].name)[j]).status
    {}
    if EveryDevice(groups, status) {
      forall i, j | 0 <= i < |config.buses| && 0 <= j < |DevicesOn(config, config.buses[i].name)|
        ensures DeviceIn(s.deviceStates, DevicesOn(config, config.buses[i].name)[j]).status == status
      {
        assert groups[i][j] == status;
      }
    }
  }

  /* ---------- A device's status classifies its cycle ---------- */

  /** What became of one point in a device's cycle. */
  datatype Fate = PassedOver | Took(p: PointConfig, exchange: Result<OwenFrame>)

  predicate FailedFate(floats: Floats, fate: Fate) { fate.PassedOver? || EndsBadly(floats, fate.p, fate.exchange) }

  predicate GarbledFate(floats: Floats, fate: Fate) { fate.Took? && IsProtocolError(floats, fate.p, fate.exchange) }

  /** The fates of the points of the device a line's poller is at, in order. */
  function CycleFates(config: GatewayConfig, floats: Floats, events: seq<Event>, bus: string): seq<Fate> {
    if events == [] then []
    else
      var before, last := events[..|events| - 1], events[|events| - 1];
      var s, fates := Reached(config, floats, before), CycleFates(config, floats, before, bus);
      if !Enabled(config, s, last) then fates
      else
        match last
        case SkipPoint(b) => if b == bus then fates + [PassedOver] else fates
        case PointReply(b, exchange) =>
          if b == bus then fates + [Took(CurrentPoint(config, s, b), exchange)] else fates
        case DeviceEnd(b) => if b == bus then [] else fates
        case _ => fates
  }

  function FailureCount(floats: Floats, fates: seq<Fate>): nat {
    if fates == [] then 0
    else FailureCount(floats, fates[..|fates| - 1]) + (if FailedFate(floats, fates[|fates| - 1]) then 1 else 0)
  }

  function GarbledCount(floats: Floats, fates: seq<Fate>): nat {
    if fates == [] then 0
    else GarbledCount(floats, fates[..|fates| - 1]) + (if GarbledFate(floats, fates[|fates| - 1]) then 1 else 0)
  }

  /** The error a cycle leaves behind: that of its last attempt that failed, zero for none. */
  function LastError(floats: Floats, fates: seq<Fate>): word {
    if fates == [] then 0
    else
      match fates[|fates| - 1]
      case Took(p, exchange) =>
        if EndsBadly(floats, p, exchange) then ErrorNumber(floats, p, exchange)
        else LastError(floats, fates[..|fates| - 1])
      case PassedOver => LastError(floats, fates[..|fates| - 1])
  }

  lemma GarbledFails(floats: Floats, fate: Fate)
    ensures GarbledFate(floats, fate) ==> FailedFate(floats, fate)
  {
    hide EndsBadly, IsProtocolError, IsValue, IsEmpty, IsTimeout, IsIoFailure;
    if fate.Took? {
      OneOfFive(floats, fate.p, fate.exchange);
    }
  }

  lemma {:induction false} CountsSay(floats: Floats, fates: seq<Fate>)
    ensures GarbledCount(floats, fates) <= FailureCount(floats, fates) <= |fates|
    ensures FailureCount(floats, fates) == 0 <==> forall i :: 0 <= i < |fates| ==> !FailedFate(floats, fates[i])
    ensures FailureCount(floats, fates) == |fates| <==> forall i :: 0 <= i < |fates| ==> FailedFate(floats, fates[i])
    ensures GarbledCount(floats, fates) == |fates| <==> forall i :: 0 <= i < |fates| ==> GarbledFate(floats, fates[i])
  {
    hide GarbledFate, FailedFate;
    if fates != [] {
      var init, last := fates[..|fates| - 1], |fates| - 1;
      GarbledFails(floats, fates[last]);
      CountsSay(floats, init);
      assert forall i :: 0 <= i < last ==> init[i] == fates[i];
    }
  }

  /** A line's poller has counted exactly the fates of the cycle so far. */
  predicate Counted(floats: Floats, s: State, bus: string, fates: seq<Fate>) {
    var poller := PollerIn(s.pollers, bus);
    && poller.point == |fates|
    && poller.failures == FailureCount(floats, fates)
    && poller.protocolFailures == GarbledCount(floats, fates)
    && poller.lastErrorCode == LastError(floats, fates)
  }

  lemma OneMoreFate(floats: Floats, fates: seq<Fate>, fate: Fate)
    ensures FailureCount(floats, fates + [fate]) == FailureCount(floats, fates) + (if FailedFate(floats, fate) then 1 else 0)
    ensures GarbledCount(floats, fates + [fate]) == GarbledCount(floats, fates) + (if GarbledFate(floats, fate) then 1 else 0)
    ensures LastError(floats, fates + [fate]) ==
            if fate.Took? && EndsBadly(floats, fate.p, fate.exchange) then ErrorNumber(floats, fate.p, fate.exchange)
            else LastError(floats, fates)
  {
    assert (fates + [fate])[..|fates|] == fates;
  }

  lemma ReplyCounted(config: GatewayConfig, floats: Floats, s: State, bus: string, exchange: Result<OwenFrame>,
                     line: string, fates: seq<Fate>)
    requires Enabled(config, s, PointReply(bus, exchange)) && Counted(floats, s, line, fates)
    ensures Counted(floats, Step(config, floats, s, PointReply(bus, exchange)), line,
                    if line == bus then fates + [Took(CurrentPoint(config, s, bus), exchange)] else fates)
  {
    hide CurrentPoint, AtPoint, Step, FailureCount, GarbledCount, LastError, ErrorNumber, PollerIn, DeviceIn, ValueIn,
         PointStateIn, EndsBadly, IsProtocolError;
    ReplyIsRecorded(config, floats, s, bus, exchange);
    OneMoreFate(floats, fates, Took(CurrentPoint(config, s, bus), exchange));
  }

  lemma CloseResets(config: GatewayConfig, floats: Floats, s: State, bus: string)
    requires OnDevice(config, s, bus)
    ensures var after := CloseDevice(config, floats, s, bus);
            after.pollers == s.pollers[bus := NextDevice(config, bus, PollerIn(s.pollers, bus))]
  {
    hide PublishAll, RecordWrites, NextMask, Publish, CurrentKey, NextDevice, DeviceStatus, AggregateStatus, PollerIn,
         DeviceIn;
  }

  lemma StepCounted(config: GatewayConfig, floats: Floats, events: seq<Event>, bus: string)
    requires events != []
    requires var before := events[..|events| - 1];
             Counted(floats, Reached(config, floats, before), bus, CycleFates(config, floats, before, bus))
    ensures Counted(floats, Reached(config, floats, events), bus, CycleFates(config, floats, events, bus))
  {
    hide Start, ApplyOutcome, Classify, CloseDevice, EndHandler, PublishAll, ClientWrite, CoilWrite, CurrentPoint,
         CurrentKey, FailureCount, GarbledCount, LastError, MetadataWrites, AfterSkip, PointStateIn;
    var before, last := events[..|events| - 1], events[|events| - 1];
    var s, fates := Reached(config, floats, before), CycleFates(config, floats, before, bus);
    if Enabled(config, s, last) {
      match last {
        case SkipPoint(b) =>
          OneMoreFate(floats, fates, PassedOver);
        case PointReply(b, exchange) =>
          ReplyCounted(config, floats, s, b, exchange, bus, fates);
        case DeviceEnd(b) =>
          CloseResets(config, floats, s, b);
          NothingYet(floats);
        case HandlerEnd(k, ack, readBacks) =>
          Conservation.HandlersCountNothing(config, floats, s, k, ack, readBacks);
        case _ =>
      }
    }
  }

  lemma NothingYet(floats: Floats)
    ensures FailureCount(floats, []) == 0 && GarbledCount(floats, []) == 0 && LastError(floats, []) == 0
  {}

  lemma {:induction false} FatesAreCounted(config: GatewayConfig, floats: Floats, events: seq<Event>, bus: string)
    ensures Counted(floats, Reached(config, floats, events), bus, CycleFates(config, floats, events, bus))
    decreases |events|
  {
    hide Step, PublishAll, StartWrites, Counted, CycleFates;
    if events == [] {
      assert Counted(floats, Start(config, floats), bus, []) by { NothingCountedAtStart(config, floats, bus); }
      assert CycleFates(config, floats, [], bus) == [] by { NoFates(config, floats, bus); }
    } else {
      FatesAreCounted(config, floats, events[..|events| - 1], bus);
      StepCounted(config, floats, events, bus);
    }
  }

  lemma NothingCountedAtStart(config: GatewayConfig, floats: Floats, bus: string)
    ensures Counted(floats, Start(config, floats), bus, [])
  {
    hide PublishAll, StartWrites;
  }

  lemma NoFates(config: GatewayConfig, floats: Floats, bus: string)
    ensures CycleFates(config, floats, [], bus) == []
  {}

  /** The status that classifies what became of a device's points, and the last failed
      attempt's error. */
  ghost predicate Classified(floats: Floats, status: nat, lastErrorCode: word, fates: seq<Fate>) {
    && (status == 1 <==> forall i :: 0 <= i < |fates| ==> !FailedFate(floats, fates[i]))
    && (status == 4 <==> fates != [] && forall i :: 0 <= i < |fates| ==> GarbledFate(floats, fates[i]))
    && (status == 3 <==>
          && fates != [] && (forall i :: 0 <= i < |fates| ==> FailedFate(floats, fates[i]))
          && exists i :: 0 <= i < |fates| && !GarbledFate(floats, fates[i]))
    && 1 <= status <= 4
    && lastErrorCode == LastError(floats, fates)
  }

  /** Closing a device's cycle, after any run, records the status of its points' fates, one
      fate a point. */
  lemma DeviceStatusClassifiesItsCycle(config: GatewayConfig, floats: Floats, events: seq<Event>, bus: string)
    requires AtDeviceEnd(config, Reached(config, floats, events), bus)
    ensures var s, fates := Reached(config, floats, events), CycleFates(config, floats, events, bus);
            var key := CurrentKey(config, s, bus);
            var d := DeviceIn(Step(config, floats, s, DeviceEnd(bus)).deviceStates, key);
            |fates| == |PointsOf(config.points, key)| && Classified(floats, d.status, d.lastErrorCode, fates)
  {
    hide Reached, PublishAll, RecordWrites, NextMask, Publish, FailureCount, GarbledCount, LastError, PointsOf,
         DevicesOn, AggregateStatus, FailedFate, GarbledFate;
    FatesAreCounted(config, floats, events, bus);
    CountsSay(floats, CycleFates(config, floats, events, bus));
  }

  /** The fates of the cycle of a device, or of any, that was closed last. */
  function LastCycle(config: GatewayConfig, floats: Floats, events: seq<Event>, key: Option<SlaveKey>): Option<seq<Fate>> {
    if events == [] then None
    else
      var before, last := events[..|events| - 1], events[|events| - 1];
      var s := Reached(config, floats, before);
      if Enabled(config, s, last) && last.DeviceEnd? && (key == None || key == Some(CurrentKey(config, s, last.bus)))
      then Some(CycleFates(config, floats, before, last.bus))
      else LastCycle(config, floats, before, key)
  }

  /** Only closing a cycle changes a status or a recorded error. */
  lemma OnlyClosesRecord(config: GatewayConfig, floats: Floats, s: State, event: Event, key: SlaveKey)
    ensures var d, after := DeviceIn(s.deviceStates, key), Step(config, floats, s, event);
            && (!(event.DeviceEnd? && Enabled(config, s, event)) ==> after.counters.lastErrorCode == s.counters.lastErrorCode)
            && (!(event.DeviceEnd? && Enabled(config, s, event) && CurrentKey(config, s, event.bus) == key) ==>
                  && DeviceIn(after.deviceStates, key).status == d.status
                  && DeviceIn(after.deviceStates, key).lastErrorCode == d.lastErrorCode)
            && (event.DeviceEnd? && Enabled(config, s, event) ==>
                  && after.counters.lastErrorCode == PollerIn(s.pollers, event.bus).lastErrorCode)
  {
    hide CurrentPoint, CurrentKey, AtPoint, AtDeviceEnd, ApplyOutcome, Classify, CloseDevice, EndHandler, PassOver, ClientWrite,
         CoilWrite, IsValue, IsTimeout, IsIoFailure, IsProtocolError, Skipped, PointStateIn;
    if Enabled(config, s, event) {
      match event {
        case PointReply(bus, exchange) => ReplyIsRecorded(config, floats, s, bus, exchange);
        case DeviceEnd(bus) => CloseIsRecorded(config, floats, s, bus);
        case SkipPoint(bus) => SkipIsRecorded(config, floats, s, bus);
        case HandlerEnd(k, ack, readBacks) => Conservation.HandlersCountNothing(config, floats, s, k, ack, readBacks);
        case _ =>
      }
    }
  }

  /** In every reachable state a device's status and error are those of its last closed
      cycle, the gateway's error that of the cycle closed last anywhere; offline and none
      before the first. */
  lemma {:induction false} RecordsTellTheLastCycle(config: GatewayConfig, floats: Floats, events: seq<Event>, key: SlaveKey)
    ensures var s, own := Reached(config, floats, events), LastCycle(config, floats, events, Some(key));
            var d, any := DeviceIn(s.deviceStates, key), LastCycle(config, floats, events, None);
            && (own.None? ==> d.status == 3 && d.lastErrorCode == 0)
            && (own.Some? ==> Classified(floats, d.status, d.lastErrorCode, own.value))
            && s.counters.lastErrorCode == if any.None? then 0 else LastError(floats, any.value)
    decreases |events|
  {
    hide Step, Classified, LastError, Reached, CycleFates, PointsOf;
    if events == [] {
      NothingHappened(config, floats);
    } else {
      var before, last := events[..|events| - 1], events[|events| - 1];
      var s := Reached(config, floats, before);
      RecordsTellTheLastCycle(config, floats, before, key);
      StepOfRun(config, floats, events);
      OnlyClosesRecord(config, floats, s, last, key);
      if last.DeviceEnd? && Enabled(config, s, last) {
        FatesAreCounted(config, floats, before, last.bus);
        DeviceStatusClassifiesItsCycle(config, floats, before, last.bus);
      }
    }
  }
}
