/** Points of one name on several lines: health records are kept by name, so one line's poller
    can change a record while another waits for a reply. Exactly when that leaves a healthy
    point that is passed over. */
module SharedNames {
  import opened Core
  import opened Frame
  import opened Payload
  import opened Config
  import opened RegisterMap
  import opened Health
  import opened Status
  import opened Gateway
  import opened CacheAgreement
  import opened HealthRuns
  import opened Requests
  import ParameterHash
  import Slots

  /* ---------- Runs made of polls ---------- */

  /** An event of a poller whose exchanges all end in garbage, as they can for every point. */
  predicate IsPolling(event: Event) {
    event.SkipPoint? || event.ExchangeStart? || event.DeviceEnd? || (event.PointReply? && event.exchange == Err(ValueFault))
  }

  predicate ByPollers(events: seq<Event>) { forall i :: 0 <= i < |events| ==> IsPolling(events[i]) }

  lemma {:induction false} PollersWriteNothing(config: GatewayConfig, floats: Floats, events: seq<Event>, name: string)
    requires ByPollers(events)
    ensures Written !in HealthHistory(config, floats, events, name)
    decreases |events|
  {
    hide Reached, Classify, CurrentPoint, AttemptOf, KeptFor;
    if events != [] {
      var before, last := events[..|events| - 1], events[|events| - 1];
      PollersWriteNothing(config, floats, before, name);
      assert IsPolling(last);
    }
  }

  /** A line's poller is somewhere in its cycle and not waiting. */
  predicate Ready(config: GatewayConfig, s: State, bus: string) {
    OnDevice(config, s, bus) && !PollerIn(s.pollers, bus).waiting
    && PollerIn(s.pollers, bus).point <= |PointsOf(config.points, CurrentKey(config, s, bus))|
  }

  ghost predicate OthersStay(s: State, after: State, bus: string) {
    forall b :: b != bus ==> PollerIn(after.pollers, b) == PollerIn(s.pollers, b)
  }

  predicate StandsAt(s: State, bus: string, device: nat, point: nat) {
    PollerIn(s.pollers, bus).device == device && PollerIn(s.pollers, bus).point == point
  }

  lemma SkipGoesOn(config: GatewayConfig, floats: Floats, s: State, bus: string)
    requires Enabled(config, s, SkipPoint(bus))
    ensures var p, before := CurrentPoint(config, s, bus), PollerIn(s.pollers, bus);
            var after := Step(config, floats, s, SkipPoint(bus));
            && OthersStay(s, after, bus) && StandsAt(after, bus, before.device, before.point + 1) && Ready(config, after, bus)
            && after.pointStates == s.pointStates[p.name := AfterSkip(PointStateIn(s.pointStates, p.name))]
  {
    hide PublishAll, MetadataWrites, Skipped, PointStateIn, AfterSkip, PointsOf, DevicesOn;
  }

  lemma GarbageGoesOn(config: GatewayConfig, floats: Floats, s: State, bus: string)
    requires Enabled(config, s, PointReply(bus, Err(ValueFault)))
    ensures var p, before := CurrentPoint(config, s, bus), PollerIn(s.pollers, bus);
            var after := Step(config, floats, s, PointReply(bus, Err(ValueFault)));
            && OthersStay(s, after, bus) && StandsAt(after, bus, before.device, before.point + 1) && Ready(config, after, bus)
            && after.pointStates ==
               s.pointStates[p.name := AfterFailure(PointStateIn(s.pointStates, p.name), config.health, CHANNEL_PROTOCOL_ERROR)]
  {
    hide PublishAll, MetadataWrites, PointStateIn, AfterFailure, PointsOf, DevicesOn, WordStatus, IncCounter, DeviceIn;
  }

  lemma AskGoesOn(config: GatewayConfig, floats: Floats, s: State, bus: string)
    requires Enabled(config, s, ExchangeStart(bus))
    ensures var after := Step(config, floats, s, ExchangeStart(bus));
            && OthersStay(s, after, bus) && after.pointStates == s.pointStates
            && StandsAt(after, bus, PollerIn(s.pollers, bus).device, PollerIn(s.pollers, bus).point)
            && AtPoint(config, after, bus) && PollerIn(after.pollers, bus).waiting
            && CurrentPoint(config, after, bus) == CurrentPoint(config, s, bus)
  {
    hide Skipped, PointStateIn, PointsOf, DevicesOn;
  }

  lemma EndGoesOn(config: GatewayConfig, floats: Floats, s: State, bus: string)
    requires AtDeviceEnd(config, s, bus)
    ensures var after, device := Step(config, floats, s, DeviceEnd(bus)), PollerIn(s.pollers, bus).device;
            && OthersStay(s, after, bus) && Ready(config, after, bus) && after.pointStates == s.pointStates
            && StandsAt(after, bus, if device + 1 < |DevicesOn(config, bus)| then device + 1 else 0, 0)
  {
    hide PublishAll, RecordWrites, NextMask, Publish, DeviceStatus, AggregateStatus, DeviceIn, PointsOf, DevicesOn, Recorded;
    CloseHealth(config, floats, s, bus);
    ClosePollers(config, floats, s, bus);
  }

  /** Let a line's poller take one turn: it passes the point over, or asks it in vain, or
      closes the device. */
  lemma OneTurn(config: GatewayConfig, floats: Floats, events: seq<Event>, bus: string) returns (after: seq<Event>)
    requires ByPollers(events) && Ready(config, Reached(config, floats, events), bus)
    ensures ByPollers(after)
    ensures var s, t := Reached(config, floats, events), Reached(config, floats, after);
            var device, point := PollerIn(s.pollers, bus).device, PollerIn(s.pollers, bus).point;
            && Ready(config, t, bus) && OthersStay(s, t, bus)
            && if AtPoint(config, s, bus) then
                 var name := CurrentPoint(config, s, bus).name;
                 var state := PointStateIn(s.pointStates, name);
                 && StandsAt(t, bus, device, point + 1)
                 && t.pointStates ==
                    s.pointStates[name := if Skipped(state) then AfterSkip(state)
                                          else AfterFailure(state, config.health, CHANNEL_PROTOCOL_ERROR)]
               else
                 && StandsAt(t, bus, if device + 1 < |DevicesOn(config, bus)| then device + 1 else 0, 0)
                 && t.pointStates == s.pointStates
  {
    hide Reached, Step, CurrentPoint, AfterSkip, AfterFailure, Skipped, PointStateIn, PointsOf, DevicesOn;
    var s := Reached(config, floats, events);
    if AtPoint(config, s, bus) {
      if Skipped(PointStateIn(s.pointStates, CurrentPoint(config, s, bus).name)) {
        after := events + [SkipPoint(bus)];
        ThenEvent(config, floats, events, SkipPoint(bus));
        SkipGoesOn(config, floats, s, bus);
      } else {
        var asked := events + [ExchangeStart(bus)];
        after := asked + [PointReply(bus, Err(ValueFault))];
        ThenEvent(config, floats, events, ExchangeStart(bus));
        ThenEvent(config, floats, asked, PointReply(bus, Err(ValueFault)));
        AskGoesOn(config, floats, s, bus);
        GarbageGoesOn(config, floats, Reached(config, floats, asked), bus);
      }
    } else {
      after := events + [DeviceEnd(bus)];
      ThenEvent(config, floats, events, DeviceEnd(bus));
      EndGoesOn(config, floats, s, bus);
    }
  }

  /* ---------- Reaching a point ---------- */

  /** Where a line's cycle takes a point's turn. */
  predicate TurnIsAt(config: GatewayConfig, q: PointConfig, bus: string, device: nat, point: nat) {
    device < |DevicesOn(config, bus)| && point < |PointsOf(config.points, DevicesOn(config, bus)[device])|
    && PointsOf(config.points, DevicesOn(config, bus)[device])[point] == q
  }

  lemma HasATurn(config: GatewayConfig, q: PointConfig) returns (device: nat, point: nat)
    requires q in config.points
    ensures TurnIsAt(config, q, q.bus, device, point)
  {
    hide SlaveKeys;
    Slots.KeysOfPoints(config.points, KeyOf(q));
    var keys := DevicesOn(config, q.bus);
    assert KeyOf(q) in keys;
    device :| 0 <= device < |keys| && keys[device] == KeyOf(q);
    var points := PointsOf(config.points, KeyOf(q));
    assert q in points;
    point :| 0 <= point < |points| && points[point] == q;
  }

  predicate Past(device: nat, point: nat, targetDevice: nat, targetPoint: nat) {
    device > targetDevice || (device == targetDevice && point > targetPoint)
  }

  /** The point looked for, or any of its name. */
  predicate Found(p: PointConfig, q: PointConfig, exact: bool) {
    if exact then p == q else p.name == q.name
  }

  /** Turn after turn the poller gets to every point of its line. */
  lemma {:induction false} GoTo(config: GatewayConfig, floats: Floats, events: seq<Event>, q: PointConfig, exact: bool,
                                device: nat, point: nat) returns (after: seq<Event>)
    requires ByPollers(events) && Ready(config, Reached(config, floats, events), q.bus)
    requires TurnIsAt(config, q, q.bus, device, point)
    ensures ByPollers(after)
    ensures var s, t := Reached(config, floats, events), Reached(config, floats, after);
            && Ready(config, t, q.bus) && OthersStay(s, t, q.bus)
            && AtPoint(config, t, q.bus) && Found(CurrentPoint(config, t, q.bus), q, exact)
            && (!exact ==> PointStateIn(t.pointStates, q.name) == PointStateIn(s.pointStates, q.name))
    decreases Past(PollerIn(Reached(config, floats, events).pollers, q.bus).device,
                   PollerIn(Reached(config, floats, events).pollers, q.bus).point, device, point),
              |DevicesOn(config, q.bus)| - PollerIn(Reached(config, floats, events).pollers, q.bus).device,
              |PointsOf(config.points, CurrentKey(config, Reached(config, floats, events), q.bus))| -
                PollerIn(Reached(config, floats, events).pollers, q.bus).point
  {
    hide Reached, AfterSkip, AfterFailure, Skipped, PointsOf, DevicesOn, ByPollers;
    var s := Reached(config, floats, events);
    if AtPoint(config, s, q.bus) && Found(CurrentPoint(config, s, q.bus), q, exact) {
      after := events;
    } else {
      var next := OneTurn(config, floats, events, q.bus);
      var t := Reached(config, floats, next);
      TargetIsAhead(config, s, q, exact, device, point);
      after := GoTo(config, floats, next, q, exact, device, point);
    }
  }

  /** A point that is not the one looked for is not its place either. */
  lemma TargetIsAhead(config: GatewayConfig, s: State, q: PointConfig, exact: bool, device: nat, point: nat)
    requires Ready(config, s, q.bus) && TurnIsAt(config, q, q.bus, device, point)
    requires AtPoint(config, s, q.bus) ==> !Found(CurrentPoint(config, s, q.bus), q, exact)
    ensures !StandsAt(s, q.bus, device, point)
  {
    hide PointsOf, DevicesOn;
  }

  /* ---------- Clearing and causing a fault ---------- */

  /** One turn at a point of the name moves its record on. */
  lemma TurnAt(config: GatewayConfig, floats: Floats, events: seq<Event>, q: PointConfig) returns (after: seq<Event>)
    requires ByPollers(events) && Ready(config, Reached(config, floats, events), q.bus) && q in config.points
    ensures ByPollers(after)
    ensures var s, t := Reached(config, floats, events), Reached(config, floats, after);
            var state := PointStateIn(s.pointStates, q.name);
            && Ready(config, t, q.bus) && OthersStay(s, t, q.bus)
            && PointStateIn(t.pointStates, q.name) ==
               if Skipped(state) then AfterSkip(state) else AfterFailure(state, config.health, CHANNEL_PROTOCOL_ERROR)
  {
    hide Reached, AfterSkip, AfterFailure, Skipped, Ready, CurrentPoint, ByPollers;
    var device, point := HasATurn(config, q);
    var there := GoTo(config, floats, events, q, false, device, point);
    after := OneTurn(config, floats, there, q.bus);
  }

  /** Any record runs out of cycles to skip. */
  lemma {:induction false} Drain(config: GatewayConfig, floats: Floats, events: seq<Event>, q: PointConfig)
    returns (after: seq<Event>)
    requires ByPollers(events) && Ready(config, Reached(config, floats, events), q.bus) && q in config.points
    ensures ByPollers(after)
    ensures var s, t := Reached(config, floats, events), Reached(config, floats, after);
            && Ready(config, t, q.bus) && OthersStay(s, t, q.bus) && !Skipped(PointStateIn(t.pointStates, q.name))
    decreases PointStateIn(Reached(config, floats, events).pointStates, q.name).recoverySkipCycles
  {
    hide Reached, AfterFailure, Ready, ByPollers;
    if Skipped(PointStateIn(Reached(config, floats, events).pointStates, q.name)) {
      var next := TurnAt(config, floats, events, q);
      after := Drain(config, floats, next, q);
    } else {
      after := events;
    }
  }

  /** Enough garbage makes any record one to be passed over, if R is more than one. */
  lemma {:induction false} Fault(config: GatewayConfig, floats: Floats, events: seq<Event>, q: PointConfig)
    returns (after: seq<Event>)
    requires ByPollers(events) && Ready(config, Reached(config, floats, events), q.bus) && q in config.points
    requires config.health.recoveryPollIntervalCycles >= 2
    ensures ByPollers(after)
    ensures var s, t := Reached(config, floats, events), Reached(config, floats, after);
            && Ready(config, t, q.bus) && OthersStay(s, t, q.bus) && Skipped(PointStateIn(t.pointStates, q.name))
    decreases config.health.faultAfterFailures -
              PointStateIn(Reached(config, floats, events).pointStates, q.name).consecutiveFailures
  {
    hide Reached, Ready, ByPollers;
    if Skipped(PointStateIn(Reached(config, floats, events).pointStates, q.name)) {
      after := events;
    } else {
      var next := TurnAt(config, floats, events, q);
      if Skipped(PointStateIn(Reached(config, floats, next).pointStates, q.name)) {
        after := next;
      } else {
        after := Fault(config, floats, next, q);
      }
    }
  }

  /* ---------- Points that can be asked ---------- */

  function LineBits(buses: seq<BusConfig>, bus: string): int {
    if buses == [] then 8
    else if buses[0].name == bus then buses[0].serial.addressBits
    else LineBits(buses[1..], bus)
  }

  /** A request for the point can be built. */
  predicate CanBeAsked(config: GatewayConfig, p: PointConfig) {
    PollRequest(p, LineBits(config.buses, p.bus)).Ok?
  }

  /** An exchange with a point for which no request can be built ends in that fault. */
  predicate CanEndIn(config: GatewayConfig, p: PointConfig, exchange: Result<OwenFrame>) {
    CanBeAsked(config, p) || exchange == Err(ValueFault)
  }

  ghost predicate Realistic(config: GatewayConfig, floats: Floats, events: seq<Event>) {
    forall i :: 0 <= i < |events| && events[i].PointReply? &&
                AtPoint(config, Reached(config, floats, events[..i]), events[i].bus) ==>
      CanEndIn(config, CurrentPoint(config, Reached(config, floats, events[..i]), events[i].bus), events[i].exchange)
  }

  lemma GarbageIsRealistic(config: GatewayConfig, floats: Floats, events: seq<Event>)
    requires ByPollers(events)
    ensures Realistic(config, floats, events)
  {
    hide Reached, CanBeAsked, CurrentPoint, AtPoint;
    forall i | 0 <= i < |events| && events[i].PointReply? ensures events[i].exchange == Err(ValueFault) {
      assert IsPolling(events[i]);
    }
  }

  lemma OneMoreRealistic(config: GatewayConfig, floats: Floats, events: seq<Event>, event: Event)
    requires Realistic(config, floats, events)
    requires event.PointReply? && AtPoint(config, Reached(config, floats, events), event.bus) ==>
               CanEndIn(config, CurrentPoint(config, Reached(config, floats, events), event.bus), event.exchange)
    ensures Realistic(config, floats, events + [event])
  {
    hide Reached, CanEndIn, CurrentPoint, AtPoint;
    var longer := events + [event];
    assert longer[..|events|] == events;
    forall i | 0 <= i < |longer| && longer[i].PointReply? && AtPoint(config, Reached(config, floats, longer[..i]), longer[i].bus)
      ensures CanEndIn(config, CurrentPoint(config, Reached(config, floats, longer[..i]), longer[i].bus), longer[i].exchange)
    {
      if i < |events| {
        assert longer[..i] == events[..i] && longer[i] == events[i];
      }
    }
  }

  lemma RealisticPrefix(config: GatewayConfig, floats: Floats, events: seq<Event>)
    requires Realistic(config, floats, events) && events != []
    ensures Realistic(config, floats, events[..|events| - 1])
    ensures var before, last := events[..|events| - 1], events[|events| - 1];
            last.PointReply? && AtPoint(config, Reached(config, floats, before), last.bus) ==>
              CanEndIn(config, CurrentPoint(config, Reached(config, floats, before), last.bus), last.exchange)
  {
    hide Reached, CanEndIn, CurrentPoint, AtPoint;
    var before := events[..|events| - 1];
    forall i | 0 <= i < |before| ensures before[..i] == events[..i] && before[i] == events[i] {}
  }

  lemma AskedHasHash(config: GatewayConfig, p: PointConfig)
    requires CanBeAsked(config, p)
    ensures ParameterHash.HashParameterName(p.parameter).Ok?
  {
    hide ParameterHash.HashParameterName;
  }

  /* ---------- Exactly when a healthy point can be passed over ---------- */

  /** `p` can be asked, and `q` on another line has its name. */
  predicate Endangers(config: GatewayConfig, p: PointConfig, q: PointConfig) {
    p in config.points && q in config.points && p.name == q.name && p.bus != q.bus && CanBeAsked(config, p)
  }

  ghost predicate CanRelapse(config: GatewayConfig, name: string) {
    config.health.recoveryPollIntervalCycles >= 2 && exists p, q :: Endangers(config, p, q) && p.name == name
  }

  function EmptyReply(p: PointConfig): Result<OwenFrame>
    requires ParameterHash.HashParameterName(p.parameter).Ok?
  {
    Ok(OwenFrame(0, false, ParameterHash.HashParameterName(p.parameter).value, []))
  }

  lemma ReadyAtStart(config: GatewayConfig, floats: Floats, q: PointConfig)
    requires q in config.points
    ensures Ready(config, Start(config, floats), q.bus)
  {
    hide PublishAll, StartWrites, DevicesOn, PointsOf;
    var device, point := HasATurn(config, q);
  }

  lemma ReadyToo(config: GatewayConfig, s: State, after: State, bus: string, own: string)
    requires Ready(config, s, bus) && OthersStay(s, after, own) && bus != own
    ensures Ready(config, after, bus) && AtPoint(config, after, bus) == AtPoint(config, s, bus)
    ensures AtPoint(config, s, bus) ==> CurrentPoint(config, after, bus) == CurrentPoint(config, s, bus)
  {}

  lemma StillThere(config: GatewayConfig, s: State, after: State, bus: string, own: string)
    requires AtPoint(config, s, bus) && OthersStay(s, after, own) && bus != own
    ensures AtPoint(config, after, bus) && CurrentPoint(config, after, bus) == CurrentPoint(config, s, bus)
    ensures PollerIn(after.pollers, bus) == PollerIn(s.pollers, bus)
  {}

  /** The late reply clears the failures and leaves the cycles to skip. */
  lemma LateReply(config: GatewayConfig, floats: Floats, s: State, p: PointConfig)
    requires AtPoint(config, s, p.bus) && CurrentPoint(config, s, p.bus) == p && PollerIn(s.pollers, p.bus).waiting
    requires ParameterHash.HashParameterName(p.parameter).Ok? && Skipped(PointStateIn(s.pointStates, p.name))
    ensures var state := PointStateIn(Step(config, floats, s, PointReply(p.bus, EmptyReply(p))).pointStates, p.name);
            Skipped(state) && state.channelStatus == CHANNEL_DISABLED
  {
    hide CurrentPoint, AtPoint, PublishAll, MetadataWrites, ParameterHash.HashParameterName;
  }

  /** The run: `p` is asked while it is healthy, `q` answers garbage until it is failed, and
      then the empty reply of `p` arrives. */
  lemma RelapseRun(config: GatewayConfig, floats: Floats, p: PointConfig, q: PointConfig) returns (events: seq<Event>)
    requires Endangers(config, p, q) && config.health.recoveryPollIntervalCycles >= 2
    ensures Realistic(config, floats, events) && Written !in HealthHistory(config, floats, events, p.name)
    ensures var state := PointStateIn(Reached(config, floats, events).pointStates, p.name);
            Skipped(state) && state.channelStatus == CHANNEL_DISABLED
  {
    hide Reached, Ready, ByPollers, AtPoint, CurrentPoint, Skipped, PointStateIn, ParameterHash.HashParameterName, Start,
         CanBeAsked, Realistic, HealthEventsOf;
    AskedHasHash(config, p);
    var device, point := HasATurn(config, p);
    assert Reached(config, floats, []) == Start(config, floats) by { NoEvents(config, floats); }
    assert ByPollers([]) by { NoPolls(); }
    ReadyAtStart(config, floats, p);
    ReadyAtStart(config, floats, q);
    var there := GoTo(config, floats, [], p, true, device, point);
    ReadyToo(config, Start(config, floats), Reached(config, floats, there), q.bus, p.bus);
    var clear := Drain(config, floats, there, q);
    ReadyToo(config, Reached(config, floats, there), Reached(config, floats, clear), p.bus, q.bus);
    var s := Reached(config, floats, clear);
    var asked := clear + [ExchangeStart(p.bus)];
    assert Enabled(config, s, ExchangeStart(p.bus)) by { DueNow(config, s, p); }
    ThenEvent(config, floats, clear, ExchangeStart(p.bus));
    AskGoesOn(config, floats, s, p.bus);
    ReadyToo(config, s, Reached(config, floats, asked), q.bus, p.bus);
    assert ByPollers(asked) by { OnePollMore(clear, ExchangeStart(p.bus)); }
    var failed := Fault(config, floats, asked, q);
    StillThere(config, Reached(config, floats, asked), Reached(config, floats, failed), p.bus, q.bus);
    var reply := PointReply(p.bus, EmptyReply(p));
    events := failed + [reply];
    ThenEvent(config, floats, failed, reply);
    LateReply(config, floats, Reached(config, floats, failed), p);
    GarbageIsRealistic(config, floats, failed);
    OneMoreRealistic(config, floats, failed, reply);
    PollersWriteNothing(config, floats, failed, p.name);
    ReplyWritesNothing(config, floats, failed, reply, p.name);
  }

  lemma ReplyWritesNothing(config: GatewayConfig, floats: Floats, events: seq<Event>, reply: Event, name: string)
    requires reply.PointReply? && Written !in HealthHistory(config, floats, events, name)
    ensures Written !in HealthHistory(config, floats, events + [reply], name)
  {
    hide Reached, Classify, CurrentPoint, AtPoint, AttemptOf;
    assert (events + [reply])[..|events|] == events;
  }

  lemma DueNow(config: GatewayConfig, s: State, p: PointConfig)
    requires Ready(config, s, p.bus) && AtPoint(config, s, p.bus) && CurrentPoint(config, s, p.bus) == p
    requires !Skipped(PointStateIn(s.pointStates, p.name))
    ensures Enabled(config, s, ExchangeStart(p.bus))
  {}

  lemma NoPolls()
    ensures ByPollers([])
  {}

  lemma OnePollMore(events: seq<Event>, event: Event)
    requires ByPollers(events) && IsPolling(event)
    ensures ByPollers(events + [event])
  {}

  /** Points that cannot be asked only ever fail. */
  lemma {:induction false} FailingStaysSound(config: GatewayConfig, floats: Floats, events: seq<Event>, name: string)
    requires ValidHealth(config.health) && Written !in HealthHistory(config, floats, events, name)
    requires Realistic(config, floats, events)
    requires forall p :: p in config.points && p.name == name ==> !CanBeAsked(config, p)
    ensures SoundWhenPolled(PointStateIn(Reached(config, floats, events).pointStates, name), config.health)
    decreases |events|
  {
    hide Step, HealthEventsOf, Start, HealthStep, Skipped, PointStateIn, CanBeAsked, Sound, Realistic, CanEndIn, CurrentPoint,
         AtPoint;
    if events == [] {
      HealthyAtStart(config, floats, name);
      FirstIsSound(config.health);
    } else {
      var before, last := events[..|events| - 1], events[|events| - 1];
      var s := Reached(config, floats, before);
      var own := HealthEventsOf(config, floats, s, last, name);
      RealisticPrefix(config, floats, events);
      FailingStaysSound(config, floats, before, name);
      StepHealth(config, floats, s, last, name);
      if own != [] {
        assert own[0] in HealthHistory(config, floats, events, name);
        assert own[0].Answered? ==> Fails(own[0].attempt) by { AnswersFail(config, floats, s, last, name); }
        StepKeepsExactly(PointStateIn(s.pointStates, name), config.health, own[0]);
      }
    }
  }

  lemma AnswersFail(config: GatewayConfig, floats: Floats, s: State, event: Event, name: string)
    requires forall p :: p in config.points && p.name == name ==> !CanBeAsked(config, p)
    requires event.PointReply? && AtPoint(config, s, event.bus) ==>
               CanEndIn(config, CurrentPoint(config, s, event.bus), event.exchange)
    requires HealthEventsOf(config, floats, s, event, name) != []
    ensures var own := HealthEventsOf(config, floats, s, event, name)[0]; own.Answered? ==> Fails(own.attempt)
  {
    hide CurrentPoint, AtPoint, KeptFor, CanBeAsked;
    if Enabled(config, s, event) && event.PointReply? {
      CurrentPointKnown(config, s, event.bus);
    }
  }

  /** In all runs without a kept write only failed points are passed over exactly if R is one,
      or the name is on one line only, or none of its points can be asked. The validator
      asks for none of these. */
  lemma OnlyFailedAreSkippedExactly(config: GatewayConfig, floats: Floats, name: string)
    requires ValidHealth(config.health)
    ensures (forall events :: Realistic(config, floats, events) && Written !in HealthHistory(config, floats, events, name) ==>
               SoundWhenPolled(PointStateIn(Reached(config, floats, events).pointStates, name), config.health)) <==>
            !CanRelapse(config, name)
  {
    hide Reached, HealthHistory, CanBeAsked, Realistic;
    if CanRelapse(config, name) {
      var p, q :| Endangers(config, p, q) && p.name == name;
      var events := RelapseRun(config, floats, p, q);
      assert !SoundWhenPolled(PointStateIn(Reached(config, floats, events).pointStates, name), config.health);
    } else {
      forall events | Realistic(config, floats, events) && Written !in HealthHistory(config, floats, events, name)
        ensures SoundWhenPolled(PointStateIn(Reached(config, floats, events).pointStates, name), config.health)
      {
        HealthIsSound(config, floats, events, name);
        if config.health.recoveryPollIntervalCycles >= 2 && !OneLine(config, name) {
          NeverAsked(config, name);
          FailingStaysSound(config, floats, events, name);
        }
      }
    }
  }

  lemma NeverAsked(config: GatewayConfig, name: string)
    requires config.health.recoveryPollIntervalCycles >= 2 && !CanRelapse(config, name) && !OneLine(config, name)
    ensures forall p :: p in config.points && p.name == name ==> !CanBeAsked(config, p)
  {
    hide CanBeAsked;
    var a, b :| a in config.points && b in config.points && a.name == name && b.name == name && a.bus != b.bus;
    forall p | p in config.points && p.name == name ensures !CanBeAsked(config, p) {
      var other := if p.bus == a.bus then b else a;
      assert !Endangers(config, p, other);
    }
  }
}
