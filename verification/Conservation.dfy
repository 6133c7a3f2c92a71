/** Counter conservation: the gateway's counters are the sums of the devices' counters. */
module Conservation {
  import opened Core
  import opened Frame
  import opened Payload
  import opened Config
  import opened RegisterMap
  import opened Gateway
  import opened Health

  datatype Counter = SuccessCount | TimeoutCount | ProtocolErrorCount | PollCycleCount

  function Pick(d: DeviceState, counter: Counter): word {
    match counter
    case SuccessCount => d.success
    case TimeoutCount => d.timeout
    case ProtocolErrorCount => d.protocolError
    case PollCycleCount => d.pollCycle
  }

  function Sum(devices: map<SlaveKey, DeviceState>, keys: seq<SlaveKey>, counter: Counter): nat {
    if keys == [] then 0
    else Sum(devices, keys[..|keys| - 1], counter) + Pick(DeviceIn(devices, keys[|keys| - 1]), counter)
  }

  function PickTotal(c: GatewayCounters, counter: Counter): word {
    match counter
    case SuccessCount => c.success
    case TimeoutCount => c.timeout
    case ProtocolErrorCount => c.protocolError
    case PollCycleCount => c.pollCycle
  }

  /** Modulo the 16-bit wrap-around every gateway counter is the sum over all devices; the
      timeouts also count the generic I/O failures, which no device counts. */
  predicate Agrees(config: GatewayConfig, s: State, counter: Counter) {
    PickTotal(s.counters, counter) ==
    (Sum(s.deviceStates, SlaveKeys(config.points), counter) + (if counter.TimeoutCount? then s.ioFailures else 0)) % 0x1_0000
  }

  predicate Conserved(config: GatewayConfig, s: State) {
    forall counter: Counter :: Agrees(config, s, counter)
  }

  predicate Distinct(keys: seq<SlaveKey>) {
    forall i, j :: 0 <= i < j < |keys| ==> keys[i] != keys[j]
  }

  lemma {:induction false} KeysAreDistinct(points: seq<PointConfig>)
    ensures Distinct(SlaveKeys(points))
  {
    if points != [] {
      KeysAreDistinct(points[..|points| - 1]);
    }
  }

  lemma {:induction false} SumElsewhere(devices: map<SlaveKey, DeviceState>, keys: seq<SlaveKey>, counter: Counter,
                                        key: SlaveKey, d: DeviceState)
    requires key !in keys || Pick(d, counter) == Pick(DeviceIn(devices, key), counter)
    ensures Sum(devices[key := d], keys, counter) == Sum(devices, keys, counter)
  {
    if keys != [] {
      SumElsewhere(devices, keys[..|keys| - 1], counter, key, d);
    }
  }

  /** Counting one event at one device changes the sum by one, modulo the wrap-around. */
  lemma {:induction false} SumCounts(devices: map<SlaveKey, DeviceState>, keys: seq<SlaveKey>, counter: Counter,
                                     key: SlaveKey, d: DeviceState)
    requires Distinct(keys) && key in keys
    requires Pick(d, counter) == IncCounter(Pick(DeviceIn(devices, key), counter))
    ensures exists wraps: int :: Sum(devices[key := d], keys, counter) == Sum(devices, keys, counter) + 1 - 0x1_0000 * wraps
  {
    var init, last := keys[..|keys| - 1], keys[|keys| - 1];
    var before := Pick(DeviceIn(devices, key), counter);
    if last == key {
      SumElsewhere(devices, init, counter, key, d);
      var wraps := if before == 0xFFFF then 1 else 0;
      assert Sum(devices[key := d], keys, counter) == Sum(devices, keys, counter) + 1 - 0x1_0000 * wraps;
    } else {
      SumCounts(devices, init, counter, key, d);
      var wraps: int :| Sum(devices[key := d], init, counter) == Sum(devices, init, counter) + 1 - 0x1_0000 * wraps;
      assert Sum(devices[key := d], keys, counter) == Sum(devices, keys, counter) + 1 - 0x1_0000 * wraps;
    }
  }

  lemma WrappedIncrement(sum: nat, next: nat, extra: nat)
    requires exists wraps: int :: next == sum + 1 - 0x1_0000 * wraps
    ensures (next + extra) % 0x1_0000 == ((sum + extra) % 0x1_0000 + 1) % 0x1_0000
  {}

  /** One event counted by the gateway and by one device. */
  lemma CountedTwice(config: GatewayConfig, s: State, after: State, key: SlaveKey, d: DeviceState, counter: Counter)
    requires key in SlaveKeys(config.points) && Conserved(config, s)
    requires after.deviceStates == s.deviceStates[key := d] && after.ioFailures == s.ioFailures
    requires Pick(d, counter) == IncCounter(Pick(DeviceIn(s.deviceStates, key), counter))
    requires PickTotal(after.counters, counter) == IncCounter(PickTotal(s.counters, counter))
    requires forall other: Counter :: other != counter ==>
               && Pick(d, other) == Pick(DeviceIn(s.deviceStates, key), other)
               && PickTotal(after.counters, other) == PickTotal(s.counters, other)
    ensures Conserved(config, after)
  {
    hide Sum, SlaveKeys, Pick, PickTotal, DeviceIn;
    var keys := SlaveKeys(config.points);
    forall other: Counter ensures Agrees(config, after, other) {
      assert Agrees(config, s, other);
      if other == counter {
        KeysAreDistinct(config.points);
        SumCounts(s.deviceStates, keys, counter, key, d);
        WrappedIncrement(Sum(s.deviceStates, keys, counter), Sum(after.deviceStates, keys, counter),
                         if counter.TimeoutCount? then s.ioFailures else 0);
      } else {
        SumElsewhere(s.deviceStates, keys, other, key, d);
      }
    }
  }

  lemma IoFailureCounted(config: GatewayConfig, s: State, after: State)
    requires Conserved(config, s)
    requires after.deviceStates == s.deviceStates && after.ioFailures == s.ioFailures + 1
    requires after.counters == s.counters.(timeout := IncCounter(s.counters.timeout))
    ensures Conserved(config, after)
  {
    hide Sum, SlaveKeys;
    forall counter: Counter ensures Agrees(config, after, counter) {
      assert Agrees(config, s, counter);
    }
  }

  lemma NothingCounted(config: GatewayConfig, s: State, after: State)
    requires Conserved(config, s)
    requires after.deviceStates == s.deviceStates && after.counters == s.counters && after.ioFailures == s.ioFailures
    ensures Conserved(config, after)
  {
    hide Sum, SlaveKeys;
    forall counter: Counter ensures Agrees(config, after, counter) {
      assert Agrees(config, s, counter);
    }
  }

  lemma OutcomeConserves(config: GatewayConfig, s: State, bus: string, outcome: Outcome)
    requires AtPoint(config, s, bus) && Conserved(config, s)
    ensures Conserved(config, ApplyOutcome(config, s, bus, outcome))
  {
    hide Conserved, SlaveKeys, PublishAll, ValueWrites, MetadataWrites, PointsOf, CurrentPoint, AfterSuccess,
         AfterEmpty, AfterFailure, PointStateIn, WithStored, WordStatus, Passed, Failed, PollerIn;
    var key, after := CurrentKey(config, s, bus), ApplyOutcome(config, s, bus, outcome);
    match outcome {
      case Succeeded(_, _, _) =>
        CountedTwice(config, s, after, key, after.deviceStates[key], SuccessCount);
      case NoReply =>
        CountedTwice(config, s, after, key, after.deviceStates[key], TimeoutCount);
      case Garbled(_, _) =>
        CountedTwice(config, s, after, key, after.deviceStates[key], ProtocolErrorCount);
      case Broken(_) =>
        IoFailureCounted(config, s, after);
      case NoData =>
        NothingCounted(config, s, after);
    }
  }

  lemma RecordConserves(config: GatewayConfig, floats: Floats, s: State, key: SlaveKey, status: nat, code: word)
    requires key in SlaveKeys(config.points) && Conserved(config, s)
    ensures Conserved(config, RecordDeviceResult(config, floats, s, key, status, code))
  {
    hide Conserved, SlaveKeys, PublishAll, RecordWrites;
    var after := RecordDeviceResult(config, floats, s, key, status, code);
    CountedTwice(config, s, after, key, after.deviceStates[key], PollCycleCount);
  }

  /** What no write handler touches. */
  predicate SamePolling(s: State, after: State) {
    && after.deviceStates == s.deviceStates && after.counters == s.counters && after.ioFailures == s.ioFailures
    && after.busStatuses == s.busStatuses && after.pollers == s.pollers
  }

  lemma AcceptCountsNothing(config: GatewayConfig, floats: Floats, s: State, k: nat, p: PointConfig, value: Value)
    requires k < |s.store.pending|
    ensures SamePolling(s, AcceptWrite(config, floats, s, k, p, value))
  {
    hide PublishAll, Publish, Withdraw, Restore, NextMask, PublishedWords, ValueWrites, MetadataWrites, PointStateIn,
         AfterSuccess;
  }

  lemma HandlersCountNothing(config: GatewayConfig, floats: Floats, s: State, k: nat,
                             ack: Result<Option<OwenFrame>>, readBacks: seq<Result<OwenFrame>>)
    requires k < |s.store.pending|
    ensures SamePolling(s, EndHandler(config, floats, s, k, ack, readBacks))
  {
    hide WriteOutcome, WritableAt, AcceptWrite, Restore;
    var w := s.store.pending[k];
    var point := WritableAt(config.points, w.slave, w.address, |w.words|);
    if point.Some? {
      var outcome := WriteOutcome(floats, point.value, w.words, ack, readBacks);
      if outcome.Ok? {
        AcceptCountsNothing(config, floats, s, k, point.value, outcome.value);
      }
    }
  }

  lemma StepConserves(config: GatewayConfig, floats: Floats, s: State, event: Event)
    requires Conserved(config, s)
    ensures Conserved(config, Step(config, floats, s, event))
  {
    hide Conserved, ApplyOutcome, Classify, RecordDeviceResult, EndHandler, PublishAll, ClientWrite, CoilWrite,
         SlaveKeys, NextMask;
    var after := Step(config, floats, s, event);
    if !Enabled(config, s, event) {
    } else {
      match event {
        case PointReply(bus, exchange) =>
          OutcomeConserves(config, s, bus, Classify(floats, CurrentPoint(config, s, bus), exchange));
        case DeviceEnd(bus) =>
          var key, poller := CurrentKey(config, s, bus), PollerIn(s.pollers, bus);
          var status := Status.DeviceStatus(|PointsOf(config.points, key)|, poller.failures, poller.protocolFailures);
          var masked := PublishMask(config, s, key);
          NothingCounted(config, s, masked);
          RecordConserves(config, floats, masked, key, status, poller.lastErrorCode);
          NothingCounted(config, RecordDeviceResult(config, floats, masked, key, status, poller.lastErrorCode), after);
        case HandlerEnd(k, ack, readBacks) =>
          HandlersCountNothing(config, floats, s, k, ack, readBacks);
          NothingCounted(config, s, after);
        case _ =>
          NothingCounted(config, s, after);
      }
    }
  }

  lemma {:induction false} NothingCountedYet(keys: seq<SlaveKey>, counter: Counter)
    ensures Sum(map[], keys, counter) == 0
  {
    if keys != [] {
      NothingCountedYet(keys[..|keys| - 1], counter);
    }
  }

  /** In every reachable state of interleaved lines and write handlers the counters agree. */
  lemma {:induction false} CountersAreConserved(config: GatewayConfig, floats: Floats, events: seq<Event>)
    ensures Conserved(config, Reached(config, floats, events))
    decreases |events|
  {
    hide Step, PublishAll, StartWrites, SlaveKeys;
    if events == [] {
      forall counter: Counter ensures Agrees(config, Start(config, floats), counter) {
        NothingCountedYet(SlaveKeys(config.points), counter);
      }
    } else {
      var before := events[..|events| - 1];
      CountersAreConserved(config, floats, before);
      StepConserves(config, floats, Reached(config, floats, before), events[|events| - 1]);
    }
  }
}
