/** The logic masks over whole runs: every bit remembers as the law of last exits says. */
module LogicRuns {
  import opened Core
  import opened Frame
  import opened Payload
  import opened Config
  import opened RegisterMap
  import opened Health
  import opened LogicUnit
  import opened Gateway
  import opened Confirmation
  import opened LogicMasks

  /** The point whose verified value a handler publishes, if it gets that far. */
  function PublishedFor(config: GatewayConfig, floats: Floats, s: State, k: nat,
                        ack: Result<Option<OwenFrame>>, readBacks: seq<Result<OwenFrame>>): Option<PointConfig>
    requires k < |s.store.pending|
  {
    var write := s.store.pending[k];
    match WritableAt(config.points, write.slave, write.address, |write.words|)
    case None => None
    case Some(p) =>
      match Taken(floats, p, write.words, ack, readBacks)
      case None => None
      case Some(value) => if PublishedWords(floats, p, value).Ok? then Some(p) else None
  }

  /** Whether a step evaluates a device's logic units: at the end of the device's cycle, and
      after a kept write to one of its points. */
  predicate Evaluates(config: GatewayConfig, floats: Floats, s: State, event: Event, key: SlaveKey) {
    Enabled(config, s, event) &&
    match event
    case DeviceEnd(bus) => CurrentKey(config, s, bus) == key
    case HandlerEnd(k, ack, readBacks) =>
      var p := PublishedFor(config, floats, s, k, ack, readBacks);
      p.Some? && KeyOf(p.value) == key
    case _ => false
  }

  /** A unit's inputs at each of its evaluations in a run. */
  function UnitHistory(config: GatewayConfig, floats: Floats, events: seq<Event>, key: SlaveKey, i: nat): seq<Inputs> {
    if events == [] then []
    else
      var before, last := events[..|events| - 1], events[|events| - 1];
      var earlier := UnitHistory(config, floats, before, key, i);
      if Evaluates(config, floats, Reached(config, floats, before), last, key)
      then earlier + [InputsAt(Reached(config, floats, events).pointValues, PointsOf(config.points, key), key.1 + i)]
      else earlier
  }

  function EvolveUnit(history: seq<Inputs>): bool {
    if history == [] then false
    else Output(history[|history| - 1], EvolveUnit(history[..|history| - 1]))
  }

  function UnitBit(s: State, key: SlaveKey, i: nat): bool { BitAt(LogicMaskIn(s.logicMasks, key), i) }

  /** What one step does to a bit. */
  predicate UnitStep(config: GatewayConfig, floats: Floats, s: State, after: State, event: Event, key: SlaveKey, i: nat) {
    UnitBit(after, key, i) ==
    if Evaluates(config, floats, s, event, key)
    then Output(InputsAt(after.pointValues, PointsOf(config.points, key), key.1 + i), UnitBit(s, key, i))
    else UnitBit(s, key, i)
  }

  lemma MaskStep(config: GatewayConfig, s: State, evaluated: SlaveKey, key: SlaveKey, i: nat)
    requires i < LOGIC_UNIT_COUNT
    ensures var after := PublishMask(config, s, evaluated);
            && after.pointValues == s.pointValues
            && UnitBit(after, key, i) ==
               if key == evaluated
               then Output(InputsAt(s.pointValues, PointsOf(config.points, key), key.1 + i), UnitBit(s, key, i))
               else UnitBit(s, key, i)
  {
    hide NextMask, Publish, Output, InputsAt, BitAt, PointsOf;
    MaskFollowsChannels(config, s, evaluated, i);
  }

  lemma CloseStep(config: GatewayConfig, floats: Floats, s: State, bus: string, key: SlaveKey, i: nat)
    requires i < LOGIC_UNIT_COUNT && Enabled(config, s, DeviceEnd(bus))
    ensures UnitStep(config, floats, s, CloseDevice(config, floats, s, bus), DeviceEnd(bus), key, i)
  {
    hide CurrentKey, PublishAll, RecordWrites, PublishMask, Output, InputsAt, BitAt, PointsOf, DevicesOn,
         NextDevice, PollerIn, DeviceIn;
    MaskStep(config, s, CurrentKey(config, s, bus), key, i);
  }

  lemma AcceptStep(config: GatewayConfig, floats: Floats, s: State, k: nat, p: PointConfig, value: Value, key: SlaveKey, i: nat)
    requires i < LOGIC_UNIT_COUNT && k < |s.store.pending|
    ensures var after := AcceptWrite(config, floats, s, k, p, value);
            UnitBit(after, key, i) ==
            if PublishedWords(floats, p, value).Ok? && key == KeyOf(p)
            then Output(InputsAt(after.pointValues, PointsOf(config.points, key), key.1 + i), UnitBit(s, key, i))
            else UnitBit(s, key, i)
  {
    hide PublishAll, PublishedWords, ValueWrites, MetadataWrites, Withdraw, Restore, PublishMask, AfterSuccess, PointStateIn,
         Output, InputsAt, BitAt, PointsOf, KeyOf;
    if PublishedWords(floats, p, value).Ok? {
      var words := PublishedWords(floats, p, value).value;
      var s1 := s.(pointValues := s.pointValues[p.name := Some(value)],
                   pointStates := s.pointStates[p.name := AfterSuccess(PointStateIn(s.pointStates, p.name))],
                   store := PublishAll(Withdraw(s.store, k), ValueWrites(p, words) + MetadataWrites(p, None, CHANNEL_OK)));
      assert UnitBit(s1, key, i) == UnitBit(s, key, i);
      MaskStep(config, s1, KeyOf(p), key, i);
    }
  }

  lemma HandlerStep(config: GatewayConfig, floats: Floats, s: State, k: nat, ack: Result<Option<OwenFrame>>,
                    readBacks: seq<Result<OwenFrame>>, key: SlaveKey, i: nat)
    requires i < LOGIC_UNIT_COUNT && Enabled(config, s, HandlerEnd(k, ack, readBacks))
    ensures UnitStep(config, floats, s, EndHandler(config, floats, s, k, ack, readBacks), HandlerEnd(k, ack, readBacks), key, i)
  {
    hide WritableAt, WriteOutcome, AcceptWrite, Restore, PublishedWords, Output, InputsAt, BitAt, PointsOf, Taken;
    var write := s.store.pending[k];
    var point := WritableAt(config.points, write.slave, write.address, |write.words|);
    if point.Some? {
      OutcomeIsTaken(floats, point.value, write.words, ack, readBacks);
      if Taken(floats, point.value, write.words, ack, readBacks).Some? {
        AcceptStep(config, floats, s, k, point.value, Taken(floats, point.value, write.words, ack, readBacks).value, key, i);
      }
    }
  }

  lemma StepUnit(config: GatewayConfig, floats: Floats, s: State, event: Event, key: SlaveKey, i: nat)
    requires i < LOGIC_UNIT_COUNT
    ensures UnitStep(config, floats, s, Step(config, floats, s, event), event, key, i)
  {
    hide ApplyOutcome, Classify, EndHandler, CloseDevice, PublishAll, ClientWrite, CoilWrite, CurrentPoint, CurrentKey,
         MetadataWrites, Output, InputsAt, BitAt, PointsOf, PublishedFor;
    if Enabled(config, s, event) {
      match event {
        case PointReply(bus, exchange) =>
          OutcomeKeepsMasks(config, s, bus, Classify(floats, CurrentPoint(config, s, bus), exchange));
        case DeviceEnd(bus) => CloseStep(config, floats, s, bus, key, i);
        case HandlerEnd(k, ack, readBacks) => HandlerStep(config, floats, s, k, ack, readBacks, key, i);
        case _ =>
      }
    }
  }

  lemma OutcomeKeepsMasks(config: GatewayConfig, s: State, bus: string, outcome: Outcome)
    requires AtPoint(config, s, bus)
    ensures ApplyOutcome(config, s, bus, outcome).logicMasks == s.logicMasks
  {
    hide CurrentPoint, CurrentKey, AtPoint, PublishAll, MetadataWrites, ValueWrites, AfterFailure, AfterSuccess, AfterEmpty,
         WordStatus, PointStateIn, IncCounter, Passed, Failed, PollerIn, DeviceIn, WithStored;
  }

  /** In every reachable state bit i of a device's mask is the unit evolved over its own
      evaluations from off. */
  lemma {:induction false} UnitRefines(config: GatewayConfig, floats: Floats, events: seq<Event>, key: SlaveKey, i: nat)
    requires i < 8
    ensures UnitBit(Reached(config, floats, events), key, i) == EvolveUnit(UnitHistory(config, floats, events, key, i))
    decreases |events|
  {
    hide Step, Evaluates, Start, Output, InputsAt, BitAt, PointsOf;
    if events == [] {
      assert !UnitBit(Start(config, floats), key, i) by { OffAtStart(config, floats, key, i); }
    } else {
      var before, last := events[..|events| - 1], events[|events| - 1];
      var history := UnitHistory(config, floats, before, key, i);
      UnitRefines(config, floats, before, key, i);
      StepUnit(config, floats, Reached(config, floats, before), last, key, i);
      assert forall inputs: Inputs :: (history + [inputs])[..|history|] == history;
    }
  }

  lemma {:induction false} NoBits(i: nat)
    ensures !BitAt(0, i)
  {
    if i > 0 {
      NoBits(i - 1);
    }
  }

  lemma OffAtStart(config: GatewayConfig, floats: Floats, key: SlaveKey, i: nat)
    ensures !UnitBit(Start(config, floats), key, i)
  {
    hide PublishAll, StartWrites;
    NoBits(i);
  }

  /* ---------- Last exits ---------- */

  predicate SteadySince(history: seq<Inputs>, since: nat, setpoint: real, hysteresis: real, mode: int) {
    since <= |history| &&
    forall j :: since <= j < |history| ==>
      history[j].setpoint == Some(setpoint) && history[j].hysteresis == hysteresis && history[j].mode == Some(mode)
  }

  /** The measured values of the evaluations from `since` on. */
  function Samples(history: seq<Inputs>, since: nat): (samples: seq<Option<real>>)
    requires since <= |history|
    ensures |samples| == |history| - since
    ensures forall j :: 0 <= j < |samples| ==> samples[j] == history[since + j].channel
  {
    seq(|history| - since, j requires 0 <= j < |history| - since => history[since + j].channel)
  }

  lemma {:induction false} SteadyUnitEvolves(history: seq<Inputs>, since: nat, setpoint: real, hysteresis: real, mode: int)
    requires SteadySince(history, since, setpoint, hysteresis, mode)
    ensures EvolveUnit(history) ==
            Evolve(Samples(history, since), setpoint, hysteresis, mode, EvolveUnit(history[..since]))
    decreases |history|
  {
    hide Output;
    if since == |history| {
      assert history[..since] == history;
    } else {
      var last := |history| - 1;
      var init := history[..last];
      SteadyUnitEvolves(init, since, setpoint, hysteresis, mode);
      assert init[..since] == history[..since];
      assert Samples(history, since)[..last - since] == Samples(init, since);
      assert history[last] == Inputs(Samples(history, since)[last - since], Some(setpoint), hysteresis, Some(mode));
    }
  }

  /** In every reachable state: as long as a unit's set point, hysteresis and hysteresis mode
      have not changed since evaluation `since`, its bit is on exactly when the last
      evaluation from then on that was outside the band, or without a value, switched it on;
      without such an evaluation it still is what it was then. */
  lemma LastExitInRuns(config: GatewayConfig, floats: Floats, events: seq<Event>, key: SlaveKey, i: nat, since: nat,
                       setpoint: real, hysteresis: real, mode: int)
    requires i < 8 && (mode == 1 || mode == 2) && hysteresis >= 0.0
    requires SteadySince(UnitHistory(config, floats, events, key, i), since, setpoint, hysteresis, mode)
    ensures var history := UnitHistory(config, floats, events, key, i);
            var samples := Samples(history, since);
            var bit := UnitBit(Reached(config, floats, events), key, i);
            && ((forall k :: 0 <= k < |samples| ==> !Decisive(samples[k], setpoint, hysteresis)) ==>
                  bit == EvolveUnit(history[..since]))
            && (forall k: nat :: LastDecisive(samples, setpoint, hysteresis, k) ==>
                  bit == SwitchesOn(samples[k], setpoint, hysteresis, mode))
  {
    hide Reached, UnitHistory, EvolveUnit, Evolve, Decisive, LastDecisive, SwitchesOn, UnitBit;
    var history := UnitHistory(config, floats, events, key, i);
    UnitRefines(config, floats, events, key, i);
    SteadyUnitEvolves(history, since, setpoint, hysteresis, mode);
    LastExitLaw(Samples(history, since), setpoint, hysteresis, mode, EvolveUnit(history[..since]));
  }

  /* ---------- Modes without memory ---------- */

  lemma {:induction false} BandsAreNotNegative(config: GatewayConfig, floats: Floats, events: seq<Event>, key: SlaveKey, i: nat)
    ensures forall inputs :: inputs in UnitHistory(config, floats, events, key, i) ==> inputs.hysteresis >= 0.0
    decreases |events|
  {
    hide Evaluates, Reached, InputsAt;
    if events != [] {
      BandsAreNotNegative(config, floats, events[..|events| - 1], key, i);
      BandIsNotNegative(Reached(config, floats, events).pointValues, PointsOf(config.points, key), key.1 + i);
    }
  }

  /** In every reachable state a bit whose unit was last evaluated in mode 3 is on exactly if
      the measured value was nearer to the set point than the hysteresis, in mode 4 exactly if
      it was farther, whatever the bit was before; in any mode but 1 to 4, and without a value,
      set point or mode, it is off, as it is before the first evaluation. */
  lemma BandInRuns(config: GatewayConfig, floats: Floats, events: seq<Event>, key: SlaveKey, i: nat)
    requires i < 8
    ensures var history := UnitHistory(config, floats, events, key, i);
            var bit := UnitBit(Reached(config, floats, events), key, i);
            if history == [] then !bit
            else
              var last := history[|history| - 1];
              if last.channel.None? || last.setpoint.None? || last.mode.None? then !bit
              else
                && (last.mode.value == 3 ==> (bit <==> Distance(last) < last.hysteresis))
                && (last.mode.value == 4 ==> (bit <==> Distance(last) > last.hysteresis))
                && (last.mode.value < 1 || last.mode.value > 4 ==> !bit)
  {
    hide Reached, UnitHistory, Output, UnitBit;
    var history := UnitHistory(config, floats, events, key, i);
    UnitRefines(config, floats, events, key, i);
    BandsAreNotNegative(config, floats, events, key, i);
    if history != [] {
      OutputFollowsMode(history[|history| - 1], EvolveUnit(history[..|history| - 1]));
    }
  }
}
