/** Channel status registers over whole runs: they agree with the points' health records. */
module ChannelStatus {
  import opened Core
  import opened Frame
  import opened ParameterHash
  import opened Payload
  import opened Registers
  import opened Config
  import opened RegisterMap
  import opened Health
  import opened Status
  import opened Gateway
  import opened Confirmation
  import opened Layout
  import opened Slots
  import opened CacheAgreement
  import opened HealthRuns
  import opened WriteHandling
  import opened Telemetry
  import opened RegisterStore
  import opened Steps
  import opened Blocks

  /** Nothing but the point's own channel status is published to its register. */
  ghost predicate StatusSpared(config: GatewayConfig, p: PointConfig)
    requires p.channelStatusAddress.Some?
  {
    && OnlyName(config, p) && p.timeMarkAddress != p.channelStatusAddress
    && forall other :: Known(config, other) && other != MetadataRegion(p) ==> !Covers(config, other, StatusCell(p))
  }

  /** A client's write to a register. */
  predicate ClientHits(event: Event, c: Cell) {
    match event
    case ClientRegisters(slave, address, words) => c in CellsOf(Write(slave, HoldingRegister, address, words))
    case ClientCoils(slave, address, bits) => c in CellsOf(Write(slave, Coil, address, bits))
    case _ => false
  }

  ghost predicate OffWrites(pending: seq<PendingWrite>, c: Cell) {
    WellFormed(pending) && forall k :: 0 <= k < |pending| ==> c !in PendingCells(pending[k])
  }

  /** Writes placed in other regions stay off the register. */
  lemma PlacedElsewhere(config: GatewayConfig, writes: seq<Write>, regions: seq<Region>, p: PointConfig)
    requires p.channelStatusAddress.Some? && StatusSpared(config, p)
    requires Placed(config, writes, regions) && MetadataRegion(p) !in regions
    ensures forall i :: 0 <= i < |writes| ==> StatusCell(p) !in CellsOf(writes[i])
  {
    hide Covers, Known, CellsFrom;
    forall i | 0 <= i < |writes| ensures StatusCell(p) !in CellsOf(writes[i]) {
      assert Within(config, writes[i], regions[i]) && regions[i] in regions;
    }
  }

  lemma MaskElsewhere(config: GatewayConfig, s: State, key: SlaveKey, p: PointConfig)
    requires p.channelStatusAddress.Some? && StatusSpared(config, p) && key in SlaveKeys(config.points)
    ensures var after := PublishMask(config, s, key).store;
            At(after, StatusCell(p)) == At(s.store, StatusCell(p)) && after.pending == s.store.pending
  {
    hide Placed, NextMask, CellsFrom, SlaveKeys, StatusSpared;
    var w := MaskWrite(key.1, NextMask(config, s, key));
    MaskPlaced(config, key, NextMask(config, s, key));
    PlacedElsewhere(config, [w], [MaskRegion(key.1)], p);
    assert StatusCell(p) !in CellsOf([w][0]);
    AssignedElsewhere(s.store.registers, w, StatusCell(p));
  }

  lemma WithdrawnOff(store: Store, k: nat, c: Cell)
    requires k < |store.pending| && OffWrites(store.pending, c)
    ensures OffWrites(Without(store.pending, k), c)
  {
    var rest := Without(store.pending, k);
    assert forall i :: 0 <= i < |rest| ==> rest[i] == store.pending[if i < k then i else i + 1];
  }

  lemma RestoreElsewhere(store: Store, k: nat, c: Cell)
    requires k < |store.pending| && OffWrites(store.pending, c)
    ensures c !in CellsOf(RestoreWrite(store.pending[k]))
  {
    hide CellsFrom;
  }

  /** What publishes a value has kept a write to its point. */
  lemma PublishesItsOwn(config: GatewayConfig, floats: Floats, s: State, k: nat, ack: Result<Option<OwenFrame>>,
                        readBacks: seq<Result<OwenFrame>>)
    requires k < |s.store.pending| && Publishes(config, floats, s, k, ack, readBacks)
    ensures var write := s.store.pending[k];
            var p := WritableAt(config.points, write.slave, write.address, |write.words|);
            p.Some? && KeptFor(config, floats, s, k, ack, readBacks) == Some(p.value.name)
  {
    hide WritableAt, WriteOutcome, PublishedWords, Taken;
    var write := s.store.pending[k];
    var p := WritableAt(config.points, write.slave, write.address, |write.words|).value;
    OutcomeIsTaken(floats, p, write.words, ack, readBacks);
  }

  /** A handler that keeps no write to the point. */
  lemma HandlerElsewhere(config: GatewayConfig, floats: Floats, s: State, k: nat, ack: Result<Option<OwenFrame>>,
                         readBacks: seq<Result<OwenFrame>>, p: PointConfig)
    requires Accepts(config) && p.channelStatusAddress.Some? && StatusSpared(config, p)
    requires k < |s.store.pending| && OffWrites(s.store.pending, StatusCell(p))
    requires KeptFor(config, floats, s, k, ack, readBacks) != Some(p.name)
    ensures var writes := HandlerWrites(config, floats, s, k, ack, readBacks);
            forall i :: 0 <= i < |writes| ==> StatusCell(p) !in CellsOf(writes[i])
  {
    hide Accepts, StatusSpared, WritableAt, WriteOutcome, PublishedWords, HandlerWrites, OffWrites, Placed, CellsFrom, Taken;
    if Publishes(config, floats, s, k, ack, readBacks) {
      PublishesItsOwn(config, floats, s, k, ack, readBacks);
      var q, regions := HandlerPlaced(config, floats, s, k, ack, readBacks);
      PlacedElsewhere(config, HandlerWrites(config, floats, s, k, ack, readBacks), regions, p);
    } else {
      UnpublishedRestores(config, floats, s, k, ack, readBacks);
      RestoreElsewhere(s.store, k, StatusCell(p));
    }
  }

  /* ---------- Runs ---------- */

  ghost predicate StatusAgrees(s: State, p: PointConfig)
    requires p.channelStatusAddress.Some?
  {
    At(s.store, StatusCell(p)) == Stored(p.registerType, WordStatus(PointStateIn(s.pointStates, p.name)))
  }

  /** An event that is none of the point's own writes nothing to its register. */
  lemma WritesElsewhere(config: GatewayConfig, floats: Floats, s: State, event: Event, p: PointConfig)
    requires Accepts(config) && p.channelStatusAddress.Some? && StatusSpared(config, p)
    requires OffWrites(s.store.pending, StatusCell(p)) && !ClientHits(event, StatusCell(p))
    requires HealthEventsOf(config, floats, s, event, p.name) == []
    ensures var writes := StepWrites(config, floats, s, event);
            forall i :: 0 <= i < |writes| ==> StatusCell(p) !in CellsOf(writes[i])
  {
    hide Accepts, StatusSpared, OffWrites, Classify, OutcomeWrites, CloseWrites, HandlerWrites, MetadataWrites, CurrentPoint,
         AtPoint, KeptFor, CellsFrom, AttemptOf, Placed, PointStateIn, Skipped;
    if Enabled(config, s, event) {
      match event {
        case DeviceEnd(bus) =>
          var regions := ClosePlaced(config, floats, s, bus);
          PlacedElsewhere(config, CloseWrites(config, floats, s, bus), regions, p);
        case HandlerEnd(k, ack, readBacks) => HandlerElsewhere(config, floats, s, k, ack, readBacks, p);
        case ExchangeStart(_) =>
        case ClientRegisters(_, _, _) =>
        case ClientCoils(_, _, _) =>
        case _ =>
          var regions := PointTurnPlaced(config, floats, s, event);
          PlacedElsewhere(config, StepWrites(config, floats, s, event), regions, p);
      }
    }
  }

  /** So it leaves the register alone. */
  lemma StepElsewhere(config: GatewayConfig, floats: Floats, s: State, event: Event, p: PointConfig)
    requires Accepts(config) && p.channelStatusAddress.Some? && StatusSpared(config, p)
    requires OffWrites(s.store.pending, StatusCell(p)) && !ClientHits(event, StatusCell(p))
    requires HealthEventsOf(config, floats, s, event, p.name) == []
    ensures var after := Step(config, floats, s, event).store;
            At(after, StatusCell(p)) == At(s.store, StatusCell(p)) && OffWrites(after.pending, StatusCell(p))
  {
    hide Accepts, StatusSpared, Enabled, Step, StepWrites, HealthEventsOf, CellsFrom;
    WritesElsewhere(config, floats, s, event, p);
    StepAssigns(config, floats, s, event);
    AssignedOff(s.store.registers, StepWrites(config, floats, s, event), StatusCell(p));
    PendingMoves(config, floats, s, event);
    if event.HandlerEnd? && Enabled(config, s, event) {
      WithdrawnOff(s.store, event.k, StatusCell(p));
    } else if event.ClientRegisters? {
      NewWriteOff(config, floats, s, event, StatusCell(p));
    } else {
      assert Step(config, floats, s, event).store.pending == s.store.pending by { NothingEnded(config, floats, s, event); }
    }
  }

  lemma NothingEnded(config: GatewayConfig, floats: Floats, s: State, event: Event)
    requires !event.ClientRegisters? && !(event.HandlerEnd? && Enabled(config, s, event))
    ensures Step(config, floats, s, event).store.pending == s.store.pending
  {
    hide Enabled, Step;
    PendingMoves(config, floats, s, event);
    if !Enabled(config, s, event) {
      NotEnabled(config, floats, s, event);
    }
  }

  lemma NotEnabled(config: GatewayConfig, floats: Floats, s: State, event: Event)
    requires !Enabled(config, s, event)
    ensures Step(config, floats, s, event) == s
  {}

  lemma NewWriteOff(config: GatewayConfig, floats: Floats, s: State, event: Event, c: Cell)
    requires event.ClientRegisters? && OffWrites(s.store.pending, c) && !ClientHits(event, c)
    ensures OffWrites(Step(config, floats, s, event).store.pending, c)
  {
    hide CellsFrom;
  }

  /** A poll of the point shows its new status, and a point passed over is a failed one. */
  lemma StepHere(config: GatewayConfig, floats: Floats, s: State, event: Event, p: PointConfig)
    requires p in config.points && p.channelStatusAddress.Some? && OnlyName(config, p)
    requires |HealthEventsOf(config, floats, s, event, p.name)| == 1
    requires !HealthEventsOf(config, floats, s, event, p.name)[0].Written?
    requires SoundWhenPolled(PointStateIn(s.pointStates, p.name), config.health)
    ensures StatusAgrees(Step(config, floats, s, event), p)
    ensures Step(config, floats, s, event).store.pending == s.store.pending
  {
    hide ApplyOutcome, Classify, CurrentPoint, KeptFor, AttemptOf, PublishAll, MetadataWrites, Stored, Sound;
    match event {
      case SkipPoint(bus) =>
        CurrentPointKnown(config, s, bus);
        SkipIsShown(config, s, bus);
        PendingAfterAll(s.store, MetadataWrites(p, None, CHANNEL_FAILED));
      case PointReply(bus, exchange) =>
        CurrentPointKnown(config, s, bus);
        ReplyIsShown(config, floats, s, bus, exchange);
        OutcomePending(config, s, bus, Classify(floats, p, exchange));
      case _ =>
    }
  }

  lemma {:induction false} StatusCellAgrees(config: GatewayConfig, floats: Floats, events: seq<Event>, p: PointConfig)
    requires Accepts(config) && ValidHealth(config.health)
    requires p in config.points && p.channelStatusAddress.Some? && StatusSpared(config, p)
    requires forall i :: 0 <= i < |events| ==> !ClientHits(events[i], StatusCell(p))
    requires Written !in HealthHistory(config, floats, events, p.name)
    ensures var s := Reached(config, floats, events);
            && OffWrites(s.store.pending, StatusCell(p))
            && (HealthHistory(config, floats, events, p.name) != [] ==> StatusAgrees(s, p))
    decreases |events|
  {
    hide Accepts, StatusSpared, OffWrites, Step, HealthEventsOf, Start, ClientHits, StatusAgrees, SoundWhenPolled;
    if events == [] {
      assert OffWrites(Start(config, floats).store.pending, StatusCell(p)) by { NothingPendingAtStart(config, floats, p); }
    } else {
      var before, last := events[..|events| - 1], events[|events| - 1];
      var s := Reached(config, floats, before);
      var own := HealthEventsOf(config, floats, s, last, p.name);
      assert forall i :: 0 <= i < |before| ==> before[i] == events[i];
      StatusCellAgrees(config, floats, before, p);
      assert OneLine(config, p.name) by { NamedOnce(config, p); }
      HealthIsSound(config, floats, before, p.name);
      StepHealth(config, floats, s, last, p.name);
      if own == [] {
        StepElsewhere(config, floats, s, last, p);
        SameStatus(s, Step(config, floats, s, last), p);
      } else {
        assert own[0] in HealthHistory(config, floats, events, p.name);
        assert OnlyName(config, p) by { NamedOnce(config, p); }
        StepHere(config, floats, s, last, p);
      }
    }
  }

  /** The channel status register as a client reads it, in a block made for the configuration. */
  ghost predicate StatusRegisterIs(config: GatewayConfig, floats: Floats, size: nat, events: seq<Event>, p: PointConfig,
                                   status: word)
    requires p.channelStatusAddress.Some?
  {
    RegisterIs(RunBlock(config, floats, size, events, SlaveOf(p), p.registerType), p.channelStatusAddress.value,
               Stored(p.registerType, status))
  }

  /** In every run in which no write to the point is kept and no client writes its channel
      status register, if the block has that register: once the point has been polled or
      passed over, the register holds its recorded status. */
  lemma ChannelStatusAgrees(config: GatewayConfig, floats: Floats, size: nat, events: seq<Event>, p: PointConfig)
    requires Accepts(config) && p in config.points && p.channelStatusAddress.Some? && StatusSpared(config, p)
    requires Sizes(size, TouchedCells(config, p.registerType))
    requires InBlock(config, p.registerType, p.channelStatusAddress.value)
    requires ClientsInMap(events) && forall i :: 0 <= i < |events| ==> !ClientHits(events[i], StatusCell(p))
    requires Written !in HealthHistory(config, floats, events, p.name)
    requires HealthHistory(config, floats, events, p.name) != []
    ensures StatusRegisterIs(config, floats, size, events, p,
              WordStatus(PointStateIn(Reached(config, floats, events).pointStates, p.name)))
  {
    hide Accepts, StatusSpared, Reached, HealthHistory, RunBlock, Sizes, TouchedCells, InBlock, ClientHits, Stored;
    HealthIsValid(config);
    StatusCellAgrees(config, floats, events, p);
    PointNotNegative(config, p);
    InBlockRegisters(config, floats, size, events, StatusCell(p));
  }

  lemma HealthIsValid(config: GatewayConfig)
    requires Accepts(config)
    ensures ValidHealth(config.health)
  {}

  /* ---------- With kept writes ---------- */

  /** The last event of the point's own decides: passed over, it shows as failed; polled or
      written, as recorded then. */
  function ShownStatus(config: GatewayConfig, floats: Floats, events: seq<Event>, p: PointConfig): word {
    if events == [] then 0
    else
      var before, last := events[..|events| - 1], events[|events| - 1];
      if HealthEventsOf(config, floats, Reached(config, floats, before), last, p.name) == []
      then ShownStatus(config, floats, before, p)
      else if last.SkipPoint? then CHANNEL_FAILED
      else WordStatus(PointStateIn(Reached(config, floats, events).pointStates, p.name))
  }

  ghost predicate Holds(s: State, p: PointConfig, status: word)
    requires p.channelStatusAddress.Some?
  {
    At(s.store, StatusCell(p)) == Stored(p.registerType, status)
  }

  lemma KeptWriteShows(config: GatewayConfig, floats: Floats, s: State, k: nat, p: PointConfig, value: Value)
    requires p in config.points && p.channelStatusAddress.Some? && StatusSpared(config, p)
    requires k < |s.store.pending| && OffWrites(s.store.pending, StatusCell(p)) && PublishedWords(floats, p, value).Ok?
    ensures var after := AcceptWrite(config, floats, s, k, p, value);
            Holds(after, p, CHANNEL_OK) && OffWrites(after.store.pending, StatusCell(p))
  {
    hide StatusSpared, PublishAll, MetadataWrites, ValueWrites, PublishedWords, PublishMask, AfterSuccess, PointStateIn,
         SlaveKeys, OffWrites, Stored;
    var words, withdrawn := PublishedWords(floats, p, value).value, Withdraw(s.store, k);
    WithdrawnOff(s.store, k, StatusCell(p));
    MetadataHolds(withdrawn, ValueWrites(p, words), p, None, CHANNEL_OK);
    PendingAfterAll(withdrawn, ValueWrites(p, words) + MetadataWrites(p, None, CHANNEL_OK));
    KeysOfPoints(config.points, KeyOf(p));
    var s1 := WithValue(s, p, value).(store :=
      PublishAll(withdrawn, ValueWrites(p, words) + MetadataWrites(p, None, CHANNEL_OK)));
    MaskElsewhere(config, s1, KeyOf(p), p);
  }

  lemma HandlerHere(config: GatewayConfig, floats: Floats, s: State, k: nat, ack: Result<Option<OwenFrame>>,
                    readBacks: seq<Result<OwenFrame>>, p: PointConfig)
    requires Accepts(config) && Lawful(floats) && p in config.points && p.channelStatusAddress.Some? && StatusSpared(config, p)
    requires k < |s.store.pending| && OffWrites(s.store.pending, StatusCell(p))
    requires KeptFor(config, floats, s, k, ack, readBacks) == Some(p.name)
    ensures var after := EndHandler(config, floats, s, k, ack, readBacks);
            && Holds(after, p, WordStatus(PointStateIn(after.pointStates, p.name)))
            && OffWrites(after.store.pending, StatusCell(p))
  {
    hide Accepts, Lawful, StatusSpared, WritableAt, WriteOutcome, AcceptWrite, Restore, OffWrites, PublishedWords, Holds,
         PointStateIn, OnlyName, Taken;
    var write := s.store.pending[k];
    var q := WritableAt(config.points, write.slave, write.address, |write.words|).value;
    OutcomeIsTaken(floats, q, write.words, ack, readBacks);
    var value := WriteOutcome(floats, q, write.words, ack, readBacks).value;
    WritableFound(config.points, write.slave, write.address, |write.words|);
    assert q == p by { NamedOnce(config, p); OnlyOneNamed(config, p, q); }
    PublishesVerified(config, floats, p, write.words, ack, readBacks);
    KeptWriteShows(config, floats, s, k, p, value);
    AcceptHealth(config, floats, s, k, p, value);
    OkAfterSuccess(s, p);
  }

  lemma OkAfterSuccess(s: State, p: PointConfig)
    ensures var states := s.pointStates[p.name := AfterSuccess(PointStateIn(s.pointStates, p.name))];
            WordStatus(PointStateIn(states, p.name)) == CHANNEL_OK
  {}

  /** An event of the point's own leaves its new status in the register, or failed. */
  lemma StepShows(config: GatewayConfig, floats: Floats, s: State, event: Event, p: PointConfig)
    requires Accepts(config) && Lawful(floats) && p in config.points && p.channelStatusAddress.Some? && StatusSpared(config, p)
    requires OffWrites(s.store.pending, StatusCell(p))
    requires HealthEventsOf(config, floats, s, event, p.name) != []
    ensures var after := Step(config, floats, s, event);
            && Holds(after, p, if event.SkipPoint? then CHANNEL_FAILED else WordStatus(PointStateIn(after.pointStates, p.name)))
            && OffWrites(after.store.pending, StatusCell(p))
  {
    hide Accepts, Lawful, StatusSpared, ApplyOutcome, Classify, CurrentPoint, KeptFor, AttemptOf, PublishAll, MetadataWrites,
         Stored, Sound, OffWrites, OnlyName, EndHandler;
    NamedOnce(config, p);
    match event {
      case SkipPoint(bus) =>
        CurrentPointKnown(config, s, bus);
        OnlyOneNamed(config, p, CurrentPoint(config, s, bus));
        SkipIsShown(config, s, bus);
        PendingAfterAll(s.store, MetadataWrites(p, None, CHANNEL_FAILED));
      case PointReply(bus, exchange) =>
        CurrentPointKnown(config, s, bus);
        OnlyOneNamed(config, p, CurrentPoint(config, s, bus));
        ReplyIsShown(config, floats, s, bus, exchange);
        OutcomePending(config, s, bus, Classify(floats, p, exchange));
      case HandlerEnd(k, ack, readBacks) =>
        HandlerHere(config, floats, s, k, ack, readBacks, p);
      case _ =>
    }
  }

  lemma {:induction false} StatusCellHolds(config: GatewayConfig, floats: Floats, events: seq<Event>, p: PointConfig)
    requires Accepts(config) && Lawful(floats) && p in config.points && p.channelStatusAddress.Some? && StatusSpared(config, p)
    requires forall i :: 0 <= i < |events| ==> !ClientHits(events[i], StatusCell(p))
    ensures var s := Reached(config, floats, events);
            && OffWrites(s.store.pending, StatusCell(p))
            && (HealthHistory(config, floats, events, p.name) != [] ==> Holds(s, p, ShownStatus(config, floats, events, p)))
    decreases |events|
  {
    hide Accepts, Lawful, StatusSpared, OffWrites, Step, HealthEventsOf, Start, ClientHits, Stored;
    if events == [] {
      assert OffWrites(Start(config, floats).store.pending, StatusCell(p)) by { NothingPendingAtStart(config, floats, p); }
    } else {
      var before, last := events[..|events| - 1], events[|events| - 1];
      var s := Reached(config, floats, before);
      assert forall i :: 0 <= i < |before| ==> before[i] == events[i];
      StatusCellHolds(config, floats, before, p);
      if HealthEventsOf(config, floats, s, last, p.name) == [] {
        StepElsewhere(config, floats, s, last, p);
      } else {
        StepShows(config, floats, s, last, p);
      }
    }
  }

  /** In every run in which no client writes the register itself, if the block has it: once
      the point has been polled, passed over or written, it holds what the last of these
      events shows. */
  lemma ChannelStatusHolds(config: GatewayConfig, floats: Floats, size: nat, events: seq<Event>, p: PointConfig)
    requires Accepts(config) && Lawful(floats) && p in config.points && p.channelStatusAddress.Some? && StatusSpared(config, p)
    requires Sizes(size, TouchedCells(config, p.registerType))
    requires InBlock(config, p.registerType, p.channelStatusAddress.value)
    requires ClientsInMap(events) && forall i :: 0 <= i < |events| ==> !ClientHits(events[i], StatusCell(p))
    requires HealthHistory(config, floats, events, p.name) != []
    ensures StatusRegisterIs(config, floats, size, events, p, ShownStatus(config, floats, events, p))
  {
    hide Accepts, Lawful, StatusSpared, Reached, HealthHistory, RunBlock, Sizes, TouchedCells, InBlock, ClientHits, Stored,
         ShownStatus;
    StatusCellHolds(config, floats, events, p);
    PointNotNegative(config, p);
    InBlockRegisters(config, floats, size, events, StatusCell(p));
  }

  /** So passing a point over leaves register and record in agreement exactly when the record
      says failed, which after a kept write it does not. */
  lemma SkipAgreesExactly(config: GatewayConfig, s: State, bus: string)
    requires AtPoint(config, s, bus) && CurrentPoint(config, s, bus).channelStatusAddress.Some?
    requires CurrentPoint(config, s, bus).registerType in {HoldingRegister, InputRegister}
    requires Sound(PointStateIn(s.pointStates, CurrentPoint(config, s, bus).name), config.health)
    ensures StatusAgrees(PassOver(config, s, bus), CurrentPoint(config, s, bus)) <==>
            WordStatus(PointStateIn(s.pointStates, CurrentPoint(config, s, bus).name)) == CHANNEL_FAILED
  {
    hide CurrentPoint, AtPoint, PublishAll, MetadataWrites, Failed, PollerIn;
    SkipIsShown(config, s, bus);
  }

  lemma NothingPendingAtStart(config: GatewayConfig, floats: Floats, p: PointConfig)
    requires p.channelStatusAddress.Some?
    ensures OffWrites(Start(config, floats).store.pending, StatusCell(p))
  {
    hide StartWrites, PublishAll;
    PendingAfterAll(NO_STATE.store, StartWrites(config, floats));
  }

  lemma NamedOnce(config: GatewayConfig, p: PointConfig)
    requires p.channelStatusAddress.Some? && StatusSpared(config, p)
    ensures OnlyName(config, p)
  {}

  lemma SameStatus(s: State, after: State, p: PointConfig)
    requires p.channelStatusAddress.Some?
    requires At(after.store, StatusCell(p)) == At(s.store, StatusCell(p))
    requires PointStateIn(after.pointStates, p.name) == PointStateIn(s.pointStates, p.name)
    ensures StatusAgrees(s, p) ==> StatusAgrees(after, p)
  {}

  /** Exactly the channel status registers of an accepted configuration that are spared: those
      off the point's own value and time mark, off the logic mask, and off the metadata of
      points that are not published. */
  lemma StatusSparedExactly(config: GatewayConfig, p: PointConfig)
    requires Accepts(config) && p in config.points && p.publishToModbus && p.channelStatusAddress.Some?
    ensures var a := p.channelStatusAddress.value;
            StatusSpared(config, p) <==>
            && OnlyName(config, p) && p.timeMarkAddress != p.channelStatusAddress
            && a !in ValueCells(p) && !(p.registerType.HoldingRegister? && a == MASK_REGISTER)
            && forall q :: q in config.points && HiddenBeside(p, q) ==> a !in MetadataCells(q)
  {
    hide Accepts, OnlyName, ValueCells, StatusCells, TelemetryCells, MappingOk;
    var a, c := p.channelStatusAddress.value, StatusCell(p);
    PointFacts(config, p);
    PointRegionsKnown(config, p);
    forall q | q in config.points && q.publishToModbus && q != p
      ensures !Covers(config, ValueRegion(q), c) && !Covers(config, MetadataRegion(q), c)
    {
      PairFacts(config, p, q);
    }
    forall q | q in config.points ensures Known(config, MetadataRegion(q)) {}
    if StatusSpared(config, p) {
      assert !Covers(config, ValueRegion(p), c) && !Covers(config, MaskRegion(SlaveOf(p)), c);
      forall q | q in config.points && HiddenBeside(p, q) ensures a !in MetadataCells(q) {
        assert !Covers(config, MetadataRegion(q), c);
      }
    }
  }
}
