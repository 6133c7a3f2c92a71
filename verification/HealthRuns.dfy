/** The health of every point over whole runs of the gateway: each point's record evolves as
    the machine of `Health` does on the events that concern it. */
module HealthRuns {
  import opened Core
  import opened Frame
  import opened Payload
  import opened Config
  import opened RegisterMap
  import opened Health
  import opened Status
  import opened Gateway
  import opened Confirmation
  import opened Replies
  import Conservation

  function AttemptOf(floats: Floats, p: PointConfig, exchange: Result<OwenFrame>): Attempt {
    if IsValue(floats, p, exchange) then Replied
    else if IsEmpty(p, exchange) then RepliedEmpty
    else if IsTimeout(exchange) then TimedOut
    else if IsIoFailure(floats, p, exchange) then BrokenLine
    else GarbledReply
  }

  /** The point a handler's write took on, if it did. */
  function KeptFor(config: GatewayConfig, floats: Floats, s: State, k: nat,
                   ack: Result<Option<OwenFrame>>, readBacks: seq<Result<OwenFrame>>): Option<string>
    requires k < |s.store.pending|
  {
    var write := s.store.pending[k];
    match WritableAt(config.points, write.slave, write.address, |write.words|)
    case None => None
    case Some(p) => if Taken(floats, p, write.words, ack, readBacks).Some? then Some(p.name) else None
  }

  /** What one step means for the health record of the points named `name`. */
  function HealthEventsOf(config: GatewayConfig, floats: Floats, s: State, event: Event,
                          name: string): (r: seq<HealthEvent>)
    ensures |r| <= 1
  {
    if !Enabled(config, s, event) then []
    else
      match event
      case SkipPoint(bus) => if CurrentPoint(config, s, bus).name == name then [TurnSkipped] else []
      case PointReply(bus, exchange) =>
        var p := CurrentPoint(config, s, bus);
        if p.name == name then [Answered(AttemptOf(floats, p, exchange))] else []
      case HandlerEnd(k, ack, readBacks) =>
        if KeptFor(config, floats, s, k, ack, readBacks) == Some(name) then [Written] else []
      case _ => []
  }

  function HealthHistory(config: GatewayConfig, floats: Floats, events: seq<Event>, name: string): seq<HealthEvent> {
    if events == [] then []
    else
      var before, last := events[..|events| - 1], events[|events| - 1];
      HealthHistory(config, floats, before, name) +
      HealthEventsOf(config, floats, Reached(config, floats, before), last, name)
  }

  function HealthAfter(state: PointState, health: HealthConfig, events: seq<HealthEvent>): PointState
    requires |events| <= 1
  {
    if events == [] then state else HealthStep(state, health, events[0])
  }

  lemma ReplyHealth(config: GatewayConfig, floats: Floats, s: State, bus: string, exchange: Result<OwenFrame>, name: string)
    requires Enabled(config, s, PointReply(bus, exchange))
    ensures var p, before := CurrentPoint(config, s, bus), PointStateIn(s.pointStates, name);
            PointStateIn(Step(config, floats, s, PointReply(bus, exchange)).pointStates, name) ==
            if p.name == name then HealthStep(before, config.health, Answered(AttemptOf(floats, p, exchange))) else before
  {
    hide CurrentPoint, AtPoint, Step, PollerIn, DeviceIn, ValueIn, PointStateIn, IsValue, IsEmpty, IsTimeout, IsProtocolError,
         IsIoFailure;
    ReplyIsRecorded(config, floats, s, bus, exchange);
    OneOfFive(floats, CurrentPoint(config, s, bus), exchange);
  }

  lemma HandlerHealth(config: GatewayConfig, floats: Floats, s: State, k: nat,
                      ack: Result<Option<OwenFrame>>, readBacks: seq<Result<OwenFrame>>, name: string)
    requires k < |s.store.pending|
    ensures var before := PointStateIn(s.pointStates, name);
            PointStateIn(EndHandler(config, floats, s, k, ack, readBacks).pointStates, name) ==
            if KeptFor(config, floats, s, k, ack, readBacks) == Some(name) then AfterSuccess(before) else before
  {
    hide WritableAt, WriteOutcome, AcceptWrite, Restore, Taken;
    var write := s.store.pending[k];
    var point := WritableAt(config.points, write.slave, write.address, |write.words|);
    if point.Some? {
      OutcomeIsTaken(floats, point.value, write.words, ack, readBacks);
      if Taken(floats, point.value, write.words, ack, readBacks).Some? {
        AcceptHealth(config, floats, s, k, point.value, Taken(floats, point.value, write.words, ack, readBacks).value);
      }
    }
  }

  lemma AcceptHealth(config: GatewayConfig, floats: Floats, s: State, k: nat, p: PointConfig, value: Value)
    requires k < |s.store.pending|
    ensures AcceptWrite(config, floats, s, k, p, value).pointStates ==
            s.pointStates[p.name := AfterSuccess(PointStateIn(s.pointStates, p.name))]
  {
    hide PublishAll, Publish, Withdraw, Restore, NextMask, PublishedWords, ValueWrites, MetadataWrites, PointStateIn,
         AfterSuccess;
  }

  lemma CloseHealth(config: GatewayConfig, floats: Floats, s: State, bus: string)
    requires OnDevice(config, s, bus)
    ensures CloseDevice(config, floats, s, bus).pointStates == s.pointStates
  {
    hide RecordWrites, PublishAll, Publish, NextMask, CurrentKey, PointsOf, DevicesOn, NextDevice, PollerIn, DeviceIn;
  }

  lemma StepHealth(config: GatewayConfig, floats: Floats, s: State, event: Event, name: string)
    ensures PointStateIn(Step(config, floats, s, event).pointStates, name) ==
            HealthAfter(PointStateIn(s.pointStates, name), config.health, HealthEventsOf(config, floats, s, event, name))
  {
    hide ApplyOutcome, Classify, EndHandler, CloseDevice, PublishAll, ClientWrite, CoilWrite, CurrentPoint,
         MetadataWrites, KeptFor, AttemptOf, AfterFailure, AfterEmpty;
    if Enabled(config, s, event) {
      match event {
        case PointReply(bus, exchange) =>
          ReplyHealth(config, floats, s, bus, exchange, name);
        case DeviceEnd(bus) =>
          CloseHealth(config, floats, s, bus);
        case HandlerEnd(k, ack, readBacks) =>
          HandlerHealth(config, floats, s, k, ack, readBacks, name);
        case _ =>
      }
    }
  }

  lemma OneMoreEvent(state: PointState, health: HealthConfig, history: seq<HealthEvent>, more: seq<HealthEvent>)
    requires |more| <= 1
    ensures HealthRun(state, health, history + more) == HealthAfter(HealthRun(state, health, history), health, more)
  {
    if more == [] {
      assert history + more == history;
    } else {
      assert (history + more)[..|history|] == history;
    }
  }

  /** The gateway's record of a point is the health machine run on the point's own events. */
  lemma {:induction false} HealthRefines(config: GatewayConfig, floats: Floats, events: seq<Event>, name: string)
    ensures PointStateIn(Reached(config, floats, events).pointStates, name) ==
            HealthRun(INITIAL_POINT_STATE, config.health, HealthHistory(config, floats, events, name))
    decreases |events|
  {
    hide Step, HealthEventsOf, PublishAll, StartWrites, HealthStep;
    if events != [] {
      var before, last := events[..|events| - 1], events[|events| - 1];
      HealthRefines(config, floats, before, name);
      StepHealth(config, floats, Reached(config, floats, before), last, name);
      OneMoreEvent(INITIAL_POINT_STATE, config.health, HealthHistory(config, floats, before, name),
        HealthEventsOf(config, floats, Reached(config, floats, before), last, name));
    }
  }

  /* ---------- Points asked when they are due ---------- */

  /** All points of a name are on one line, so that one poller takes their turns. */
  predicate OneLine(config: GatewayConfig, name: string) {
    forall p, q :: p in config.points && q in config.points && p.name == name && q.name == name ==> p.bus == q.bus
  }

  predicate Asking(config: GatewayConfig, s: State, bus: string, name: string) {
    AtPoint(config, s, bus) && PollerIn(s.pollers, bus).waiting && CurrentPoint(config, s, bus).name == name
  }

  /** Nobody waits for a reply of a point that is to be passed over. */
  ghost predicate AskedWhenDue(config: GatewayConfig, s: State, name: string) {
    forall bus :: Asking(config, s, bus, name) ==> !Skipped(PointStateIn(s.pointStates, name))
  }

  lemma OutcomePollers(config: GatewayConfig, s: State, bus: string, outcome: Outcome)
    requires AtPoint(config, s, bus)
    ensures var before, after := PollerIn(s.pollers, bus), ApplyOutcome(config, s, bus, outcome).pollers;
            after == s.pollers[bus := PollerIn(after, bus)] && !PollerIn(after, bus).waiting
            && PollerIn(after, bus).device == before.device && PollerIn(after, bus).point == before.point + 1
  {
    hide CurrentPoint, CurrentKey, AtPoint, PublishAll, MetadataWrites, ValueWrites, AfterFailure, AfterSuccess,
         AfterEmpty, WordStatus, PointStateIn, IncCounter, DeviceIn, WithStored;
  }

  lemma ClosePollers(config: GatewayConfig, floats: Floats, s: State, bus: string)
    requires OnDevice(config, s, bus)
    ensures var after := CloseDevice(config, floats, s, bus).pollers;
            after == s.pollers[bus := NextDevice(config, bus, PollerIn(s.pollers, bus))] && !PollerIn(after, bus).waiting
  {
    hide PublishAll, RecordWrites, NextMask, Publish, CurrentKey, DeviceStatus, AggregateStatus, DeviceIn;
  }

  /** Every event leaves all pollers but its own line's alone, and its own waits afterwards
      exactly if it has just started an exchange. */
  lemma StepPollers(config: GatewayConfig, floats: Floats, s: State, event: Event, bus: string)
    ensures var before, after := PollerIn(s.pollers, bus), PollerIn(Step(config, floats, s, event).pollers, bus);
            && (!OnLine(event, bus) || !Enabled(config, s, event) ==> after == before)
            && (event.ExchangeStart? && Enabled(config, s, event) && OnLine(event, bus) ==> after == before.(waiting := true))
            && (OnLine(event, bus) && Enabled(config, s, event) && !event.ExchangeStart? ==> !after.waiting)
  {
    hide ApplyOutcome, Classify, CloseDevice, EndHandler, PublishAll, ClientWrite, CoilWrite, CurrentPoint, MetadataWrites,
         Skipped, PointStateIn, AfterSkip;
    if Enabled(config, s, event) {
      match event {
        case PointReply(b, exchange) =>
          OutcomePollers(config, s, b, Classify(floats, CurrentPoint(config, s, b), exchange));
        case DeviceEnd(b) =>
          ClosePollers(config, floats, s, b);
        case HandlerEnd(k, ack, readBacks) =>
          Conservation.HandlersCountNothing(config, floats, s, k, ack, readBacks);
        case _ =>
      }
    }
  }

  /** A poller is at a point of its own line. */
  lemma PointOnItsLine(config: GatewayConfig, s: State, bus: string)
    requires AtPoint(config, s, bus)
    ensures CurrentPoint(config, s, bus) in config.points && CurrentPoint(config, s, bus).bus == bus
  {}

  /** Where a poller is follows from its own record alone. */
  lemma SamePlace(config: GatewayConfig, s: State, after: State, bus: string)
    requires PollerIn(after.pollers, bus).device == PollerIn(s.pollers, bus).device
    requires PollerIn(after.pollers, bus).point == PollerIn(s.pollers, bus).point
    ensures AtPoint(config, after, bus) == AtPoint(config, s, bus)
    ensures AtPoint(config, s, bus) ==> CurrentPoint(config, after, bus) == CurrentPoint(config, s, bus)
    ensures AtDeviceEnd(config, after, bus) == AtDeviceEnd(config, s, bus)
  {}

  /** The point whose turn an event ends, on which line. */
  lemma EventsOfLine(config: GatewayConfig, floats: Floats, s: State, event: Event, name: string)
    requires HealthEventsOf(config, floats, s, event, name) != []
    ensures Enabled(config, s, event)
    ensures !event.HandlerEnd? ==>
              (event.SkipPoint? || event.PointReply?) && AtPoint(config, s, event.bus)
              && CurrentPoint(config, s, event.bus).name == name
    ensures event.HandlerEnd? ==> HealthEventsOf(config, floats, s, event, name) == [Written]
  {
    hide CurrentPoint, AtPoint, KeptFor, Classify, AttemptOf;
  }

  lemma StepAskedWhenDue(config: GatewayConfig, floats: Floats, s: State, event: Event, name: string)
    requires OneLine(config, name) && AskedWhenDue(config, s, name)
    ensures AskedWhenDue(config, Step(config, floats, s, event), name)
  {
    hide Step, CurrentPoint, AtPoint, Skipped, PointStateIn, HealthEventsOf, OneLine;
    var after := Step(config, floats, s, event);
    forall bus | Asking(config, after, bus, name) ensures !Skipped(PointStateIn(after.pointStates, name)) {
      StepPollers(config, floats, s, event, bus);
      SamePlace(config, s, after, bus);
      StepHealth(config, floats, s, event, name);
      if event.ExchangeStart? && OnLine(event, bus) && Enabled(config, s, event) {
        assert HealthEventsOf(config, floats, s, event, name) == [] by { NotYetAnswered(config, floats, s, event, name); }
        assert !Skipped(PointStateIn(s.pointStates, name)) by { AskedNow(config, s, bus); }
      } else {
        assert Asking(config, s, bus, name);
        if HealthEventsOf(config, floats, s, event, name) != [] {
          EventsOfLine(config, floats, s, event, name);
          if !event.HandlerEnd? {
            PointOnItsLine(config, s, bus);
            PointOnItsLine(config, s, event.bus);
            SameLine(config, CurrentPoint(config, s, bus), CurrentPoint(config, s, event.bus), name);
            assert false;
          }
          assert !Skipped(HealthStep(PointStateIn(s.pointStates, name), config.health, Written)) by {
            WrittenStaysDue(PointStateIn(s.pointStates, name), config.health);
          }
        }
      }
    }
  }

  lemma WrittenStaysDue(state: PointState, health: HealthConfig)
    requires !Skipped(state)
    ensures !Skipped(HealthStep(state, health, Written))
  {}

  lemma NotYetAnswered(config: GatewayConfig, floats: Floats, s: State, event: Event, name: string)
    requires event.ExchangeStart?
    ensures HealthEventsOf(config, floats, s, event, name) == []
  {}

  lemma AskedNow(config: GatewayConfig, s: State, bus: string)
    requires Enabled(config, s, ExchangeStart(bus))
    ensures !Skipped(PointStateIn(s.pointStates, CurrentPoint(config, s, bus).name))
  {}

  lemma SameLine(config: GatewayConfig, p: PointConfig, q: PointConfig, name: string)
    requires OneLine(config, name) && p in config.points && q in config.points && p.name == name && q.name == name
    ensures p.bus == q.bus
  {}

  lemma {:induction false} AlwaysAskedWhenDue(config: GatewayConfig, floats: Floats, events: seq<Event>, name: string)
    requires OneLine(config, name)
    ensures AskedWhenDue(config, Reached(config, floats, events), name)
    decreases |events|
  {
    hide Step, AskedWhenDue, OneLine, Start;
    if events == [] {
      assert AskedWhenDue(config, Start(config, floats), name) by { NobodyAsksAtStart(config, floats, name); }
    } else {
      var before := events[..|events| - 1];
      AlwaysAskedWhenDue(config, floats, before, name);
      StepAskedWhenDue(config, floats, Reached(config, floats, before), events[|events| - 1], name);
    }
  }

  lemma NobodyAsksAtStart(config: GatewayConfig, floats: Floats, name: string)
    ensures AskedWhenDue(config, Start(config, floats), name)
  {
    hide PublishAll, StartWrites;
  }

  /** On one line, every turn passed over was to be passed over and every exchange was due. */
  lemma TurnsOfOneLine(config: GatewayConfig, floats: Floats, before: seq<Event>, last: Event, name: string)
    requires OneLine(config, name)
    requires HealthEventsOf(config, floats, Reached(config, floats, before), last, name) != []
    ensures var s := Reached(config, floats, before);
            var own := HealthEventsOf(config, floats, s, last, name)[0];
            !own.Written? ==> (own.TurnSkipped? <==> Skipped(PointStateIn(s.pointStates, name)))
  {
    hide Reached, AtPoint, CurrentPoint, KeptFor, Skipped, Classify, AttemptOf;
    var s := Reached(config, floats, before);
    AlwaysAskedWhenDue(config, floats, before, name);
    if last.PointReply? {
      assert Asking(config, s, last.bus, name);
    }
  }

  /** In every reachable state a point is reported failed exactly after F failures in a row,
      and fewer than R cycles are left to skip. If all points of its name are on one line and
      no write to them was ever kept, only failed points are skipped. */
  lemma {:induction false} HealthIsSound(config: GatewayConfig, floats: Floats, events: seq<Event>, name: string)
    requires ValidHealth(config.health)
    ensures var state := PointStateIn(Reached(config, floats, events).pointStates, name);
            && Sound(state, config.health)
            && (OneLine(config, name) && Written !in HealthHistory(config, floats, events, name) ==>
                  SoundWhenPolled(state, config.health))
    decreases |events|
  {
    hide Step, HealthEventsOf, Start, Sound, HealthStep, Skipped, PointStateIn, OneLine;
    if events == [] {
      assert PointStateIn(Start(config, floats).pointStates, name) == INITIAL_POINT_STATE by {
        HealthyAtStart(config, floats, name);
      }
      FirstIsSound(config.health);
    } else {
      var before, last := events[..|events| - 1], events[|events| - 1];
      var s := Reached(config, floats, before);
      var own := HealthEventsOf(config, floats, s, last, name);
      HealthIsSound(config, floats, before, name);
      StepHealth(config, floats, s, last, name);
      if own != [] {
        var state := PointStateIn(s.pointStates, name);
        assert own[0] in HealthHistory(config, floats, events, name);
        StepKeepsSound(state, config.health, own[0]);
        if OneLine(config, name) && Written !in HealthHistory(config, floats, events, name) {
          TurnsOfOneLine(config, floats, before, last, name);
          StepKeepsExactly(state, config.health, own[0]);
        }
      }
    }
  }

  lemma HealthyAtStart(config: GatewayConfig, floats: Floats, name: string)
    ensures PointStateIn(Start(config, floats).pointStates, name) == INITIAL_POINT_STATE
  {
    hide PublishAll, StartWrites;
  }

  /* ---------- The recovery schedule of a run ---------- */

  ghost predicate OnlyFailures(history: seq<HealthEvent>) {
    forall i :: 0 <= i < |history| ==> history[i].TurnSkipped? || (history[i].Answered? && Fails(history[i].attempt))
  }

  /** How each turn of a history ended, as an endless list of failures. */
  function AttemptsOf(history: seq<HealthEvent>): nat -> Attempt {
    (turn: nat) =>
      if 1 <= turn <= |history| && history[turn - 1].Answered? then history[turn - 1].attempt else TimedOut
  }

  lemma MoreAttempts(history: seq<HealthEvent>, more: seq<HealthEvent>, health: HealthConfig, turns: nat)
    requires turns <= |history|
    ensures Failing(health, AttemptsOf(history + more), turns) == Failing(health, AttemptsOf(history), turns)
  {
    hide HealthStep;
    if turns > 0 {
      MoreAttempts(history, more, health, turns - 1);
    }
  }

  /** A record that only knew failures is where the schedule says it is after as many turns. */
  lemma {:induction false} FailingRun(config: GatewayConfig, floats: Floats, events: seq<Event>, name: string)
    requires OneLine(config, name) && OnlyFailures(HealthHistory(config, floats, events, name))
    ensures var history := HealthHistory(config, floats, events, name);
            PointStateIn(Reached(config, floats, events).pointStates, name) ==
            Failing(config.health, AttemptsOf(history), |history|)
    decreases |events|
  {
    hide Step, HealthEventsOf, Start, HealthStep, Skipped, PointStateIn, OneLine, Failing;
    if events == [] {
      HealthyAtStart(config, floats, name);
      NoTurnYet(config.health, AttemptsOf([]));
    } else {
      var before, last := events[..|events| - 1], events[|events| - 1];
      var s := Reached(config, floats, before);
      var earlier, own := HealthHistory(config, floats, before, name), HealthEventsOf(config, floats, s, last, name);
      assert HealthHistory(config, floats, events, name) == earlier + own;
      assert OnlyFailures(earlier) by {
        assert forall i :: 0 <= i < |earlier| ==> earlier[i] == (earlier + own)[i];
      }
      FailingRun(config, floats, before, name);
      StepHealth(config, floats, s, last, name);
      if own == [] {
        assert earlier + own == earlier;
      } else {
        TurnsOfOneLine(config, floats, before, last, name);
        assert (earlier + own)[|earlier|] == own[0];
        MoreAttempts(earlier, own, config.health, |earlier|);
        OneMoreCycle(config.health, AttemptsOf(earlier + own), |earlier|);
      }
    }
  }

  lemma NoTurnYet(health: HealthConfig, attempts: nat -> Attempt)
    ensures Failing(health, attempts, 0) == INITIAL_POINT_STATE
  {}

  /** Points of a name that are all on one line and whose exchanges have all failed are asked
      in their turns 1..F and then exactly in F+R, F+2R, and so on; in all others they are
      passed over. A point with a name of its own takes one turn a cycle. */
  lemma RecoveryScheduleInRuns(config: GatewayConfig, floats: Floats, events: seq<Event>, bus: string)
    requires ValidHealth(config.health) && AtPoint(config, Reached(config, floats, events), bus)
    requires var name := CurrentPoint(config, Reached(config, floats, events), bus).name;
             OneLine(config, name) && OnlyFailures(HealthHistory(config, floats, events, name))
    ensures var s := Reached(config, floats, events);
            var turn := |HealthHistory(config, floats, events, CurrentPoint(config, s, bus).name)| + 1;
            var due := turn <= config.health.faultAfterFailures
                       || exists rounds: nat ::
                            turn == config.health.faultAfterFailures + rounds * config.health.recoveryPollIntervalCycles;
            if PollerIn(s.pollers, bus).waiting then due
            else (Enabled(config, s, ExchangeStart(bus)) <==> due) && (Enabled(config, s, SkipPoint(bus)) <==> !due)
  {
    hide Reached, HealthHistory, CurrentPoint, Failing, OneLine;
    var s := Reached(config, floats, events);
    var name := CurrentPoint(config, s, bus).name;
    var history := HealthHistory(config, floats, events, name);
    FailingRun(config, floats, events, name);
    RecoverySchedule(config.health, AttemptsOf(history), |history| + 1);
    AlwaysAskedWhenDue(config, floats, events, name);
    if PollerIn(s.pollers, bus).waiting {
      assert Asking(config, s, bus, name);
    }
  }
}
