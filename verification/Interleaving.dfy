/** The gateway's records and its lines in one machine, at the grain of single exchanges: how
    runs of the one and interleavings on the other belong together. */
module Interleaving {
  import opened Core
  import opened Frame
  import opened Payload
  import opened Registers
  import opened Config
  import opened RegisterMap
  import opened Health
  import opened Gateway
  import opened Confirmation
  import opened CacheAgreement
  import opened HealthRuns
  import opened Steps
  import opened BusLock
  import opened Blocks

  /* ---------- The joint machine ---------- */

  /** How far the handler of a client's write is: not yet at the lock, or with task `h` at the
      line, the write's reply once it has one, and the read-backs it made. */
  datatype Progress = Fresh | Going(h: nat, ack: Option<Result<Option<OwenFrame>>>, made: seq<Result<OwenFrame>>)

  /** An event with the length the trace had right after it. */
  datatype Stamped = Stamped(event: Event, at: nat)

  /** `writes` has one entry for every client's write in flight, in the same order. */
  datatype Whole = Whole(gateway: State, lines: Lines, writes: seq<Progress>, history: seq<Stamped>, actions: seq<Action>)

  datatype Move =
    | Elsewhere(event: Event)
    | Asks(bus: string)
    | PollerTakesLine(bus: string)
    | PollerHears(bus: string, exchange: Result<OwenFrame>)
    | WriteComes(slave: int, address: int, words: seq<word>)
    | GivesUp(k: nat)
    | Queues(k: nat)
    | HandlerTakesLine(k: nat)
    | HandlerHearsAck(k: nat, ack: Result<Option<OwenFrame>>)
    | HandlerHearsRead(k: nat, exchange: Result<OwenFrame>)

  /** The value a write asks for, if the registers mean one and the device can be sent it. */
  function Wanted(floats: Floats, p: PointConfig, words: seq<word>): Result<Value> {
    var value :- DecodeRegisters(floats, words, p.modbusDataType);
    var payload :- EncodePayload(floats, value, p.protocolFormat);
    Ok(value)
  }

  predicate CanQueue(config: GatewayConfig, floats: Floats, s: State, k: nat)
    requires k < |s.store.pending|
  {
    var p := PointWritten(config, s, k);
    p.Some? && Wanted(floats, p.value, s.store.pending[k].words).Ok?
  }

  predicate IsGoing(w: Whole, k: nat) { k < |w.writes| && k < |w.gateway.store.pending| && w.writes[k].Going? }

  predicate Possible(config: GatewayConfig, floats: Floats, w: Whole, move: Move) {
    match move
    case Elsewhere(event) => (event.SkipPoint? || event.DeviceEnd? || event.ClientCoils?) && Enabled(config, w.gateway, event)
    case Asks(bus) => Enabled(config, w.gateway, ExchangeStart(bus))
    case PollerTakesLine(bus) => Can(w.lines, PollerLocks(bus))
    case PollerHears(bus, _) => Can(w.lines, PollerExchanges(bus, true))
    case WriteComes(_, _, _) => true
    case GivesUp(k) =>
      k < |w.writes| && k < |w.gateway.store.pending| && w.writes[k].Fresh? && !CanQueue(config, floats, w.gateway, k)
    case Queues(k) =>
      k < |w.writes| && k < |w.gateway.store.pending| && w.writes[k].Fresh? && CanQueue(config, floats, w.gateway, k)
    case HandlerTakesLine(k) => IsGoing(w, k) && Can(w.lines, HandlerLocks(w.writes[k].h))
    case HandlerHearsAck(k, _) => IsGoing(w, k) && w.writes[k].ack.None? && Can(w.lines, HandlerWrites(w.writes[k].h, true))
    case HandlerHearsRead(k, _) =>
      IsGoing(w, k) && w.writes[k].ack.Some? && CanQueue(config, floats, w.gateway, k)
      && Can(w.lines, HandlerReads(w.writes[k].h, true)) && |w.writes[k].made| < READ_BACKS
  }

  /** The exchange ends the request. */
  predicate EndsRequest(retries: string -> nat, w: Whole, bus: string, exchange: Result<OwenFrame>) {
    exchange.Ok? || PollerOf(w.lines, bus).attempt >= retries(bus) + 1
  }

  /** Read-backs that were not made any more count as failed. */
  function Padded(made: seq<Result<OwenFrame>>): (padded: seq<Result<OwenFrame>>)
    requires |made| <= READ_BACKS
    ensures |padded| == READ_BACKS && padded[..|made|] == made
  {
    made + seq(READ_BACKS - |made|, _ => Err(RuntimeFault))
  }

  predicate ReadOk(config: GatewayConfig, floats: Floats, s: State, k: nat, exchange: Result<OwenFrame>)
    requires k < |s.store.pending| && CanQueue(config, floats, s, k)
  {
    var p := PointWritten(config, s, k).value;
    CheckRead(floats, p, Wanted(floats, p, s.store.pending[k].words).value, exchange).Ok?
  }

  function EventOf(config: GatewayConfig, floats: Floats, retries: string -> nat, w: Whole, move: Move): Option<Event>
    requires Possible(config, floats, w, move)
  {
    match move
    case Elsewhere(event) => Some(event)
    case Asks(bus) => Some(ExchangeStart(bus))
    case PollerHears(bus, exchange) =>
      if EndsRequest(retries, w, bus, exchange) then Some(PointReply(bus, exchange)) else None
    case WriteComes(slave, address, words) => Some(ClientRegisters(slave, address, words))
    case GivesUp(k) => Some(HandlerEnd(k, Err(OtherFault), Padded([])))
    case HandlerHearsAck(k, ack) => if ack.Err? then Some(HandlerEnd(k, ack, Padded([]))) else None
    case HandlerHearsRead(k, exchange) =>
      var made := w.writes[k].made + [exchange];
      if ReadOk(config, floats, w.gateway, k, exchange) || |made| == READ_BACKS
      then Some(HandlerEnd(k, w.writes[k].ack.value, Padded(made))) else None
    case _ => None
  }

  function ActionOf(config: GatewayConfig, floats: Floats, w: Whole, move: Move): Option<Action>
    requires Possible(config, floats, w, move)
  {
    match move
    case Asks(bus) => Some(NextRequest(bus))
    case PollerTakesLine(bus) => Some(PollerLocks(bus))
    case PollerHears(bus, exchange) => Some(PollerExchanges(bus, exchange.Ok?))
    case Queues(k) => Some(WriteArrives(PointWritten(config, w.gateway, k).value.bus))
    case HandlerTakesLine(k) => Some(HandlerLocks(w.writes[k].h))
    case HandlerHearsAck(k, ack) => Some(HandlerWrites(w.writes[k].h, ack.Ok?))
    case HandlerHearsRead(k, exchange) => Some(HandlerReads(w.writes[k].h, ReadOk(config, floats, w.gateway, k, exchange)))
    case _ => None
  }

  function WritesAfter(config: GatewayConfig, floats: Floats, w: Whole, move: Move): seq<Progress>
    requires Possible(config, floats, w, move)
  {
    match move
    case WriteComes(_, _, _) => w.writes + [Fresh]
    case GivesUp(k) => w.writes[..k] + w.writes[k + 1..]
    case Queues(k) => w.writes[k := Going(|w.lines.handlers|, None, [])]
    case HandlerHearsAck(k, ack) =>
      if ack.Err? then w.writes[..k] + w.writes[k + 1..] else w.writes[k := w.writes[k].(ack := Some(ack))]
    case HandlerHearsRead(k, exchange) =>
      var made := w.writes[k].made + [exchange];
      if ReadOk(config, floats, w.gateway, k, exchange) || |made| == READ_BACKS then w.writes[..k] + w.writes[k + 1..]
      else w.writes[k := w.writes[k].(made := made)]
    case _ => w.writes
  }

  function Moved(config: GatewayConfig, floats: Floats, retries: string -> nat, w: Whole, move: Move): Whole {
    if !Possible(config, floats, w, move) then w
    else
      var event, action := EventOf(config, floats, retries, w, move), ActionOf(config, floats, w, move);
      var lines := if action.Some? then Do(retries, w.lines, action.value) else w.lines;
      Whole(if event.Some? then Step(config, floats, w.gateway, event.value) else w.gateway, lines,
            WritesAfter(config, floats, w, move),
            if event.Some? then w.history + [Stamped(event.value, |lines.trace|)] else w.history,
            if action.Some? then w.actions + [action.value] else w.actions)
  }

  function After(config: GatewayConfig, floats: Floats, retries: string -> nat, moves: seq<Move>): Whole
    decreases |moves|
  {
    if moves == [] then Whole(Start(config, floats), AT_REST, [], [], [])
    else Moved(config, floats, retries, After(config, floats, retries, moves[..|moves| - 1]), moves[|moves| - 1])
  }

  function Events(history: seq<Stamped>): (events: seq<Event>)
    ensures |events| == |history| && forall i :: 0 <= i < |history| ==> events[i] == history[i].event
  {
    seq(|history|, i requires 0 <= i < |history| => history[i].event)
  }

  /* ---------- How the two machines belong together ---------- */

  /** A poller waits for a reply exactly while its request is under way. */
  ghost predicate PollersAgree(config: GatewayConfig, w: Whole) {
    forall bus :: PollerAgrees(config, w, bus)
  }

  predicate PollerAgrees(config: GatewayConfig, w: Whole, bus: string) {
    && (PollerIn(w.gateway.pollers, bus).waiting <==> !PollerOf(w.lines, bus).stage.Resting?)
    && (PollerIn(w.gateway.pollers, bus).waiting ==> AtPoint(config, w.gateway, bus))
  }

  /** A write's progress is its handler's. */
  predicate WriteAgrees(config: GatewayConfig, floats: Floats, w: Whole, k: nat)
    requires k < |w.writes| == |w.gateway.store.pending|
  {
    w.writes[k].Going? ==>
      var h := w.writes[k].h;
      && CanQueue(config, floats, w.gateway, k) && h < |w.lines.handlers|
      && w.lines.handlers[h].bus == PointWritten(config, w.gateway, k).value.bus
      && match w.writes[k].ack
         case None => w.writes[k].made == [] && (w.lines.handlers[h].stage.Waiting? || w.lines.handlers[h].stage.Writing?)
         case Some(ack) =>
           && ack.Ok? && w.lines.handlers[h].stage == Verifying(|w.writes[k].made|) && |w.writes[k].made| < READ_BACKS
           && Wrote(w.lines.handlers[h].bus, h, true) in w.lines.trace
           && forall j :: 0 <= j < |w.writes[k].made| ==> !ReadOk(config, floats, w.gateway, k, w.writes[k].made[j])
  }

  ghost predicate WritesAgree(config: GatewayConfig, floats: Floats, w: Whole) {
    && |w.writes| == |w.gateway.store.pending|
    && (forall k :: 0 <= k < |w.writes| ==> WriteAgrees(config, floats, w, k))
    && (forall i, k :: 0 <= i < k < |w.writes| && w.writes[i].Going? && w.writes[k].Going? ==> w.writes[i].h != w.writes[k].h)
  }

  ghost predicate Coupled(config: GatewayConfig, floats: Floats, retries: string -> nat, w: Whole) {
    && PollersAgree(config, w) && WritesAgree(config, floats, w)
    && w.gateway == Reached(config, floats, Events(w.history))
    && w.lines == Runs(retries, w.actions)
  }

  /* ---------- Nothing in a joint move is refused ---------- */

  lemma MoveIsEnabled(config: GatewayConfig, floats: Floats, retries: string -> nat, w: Whole, move: Move)
    requires PollersAgree(config, w) && WritesAgree(config, floats, w) && Possible(config, floats, w, move)
    ensures var event := EventOf(config, floats, retries, w, move); event.Some? ==> Enabled(config, w.gateway, event.value)
    ensures var action := ActionOf(config, floats, w, move); action.Some? ==> Can(w.lines, action.value)
  {
    hide AtPoint, AtDeviceEnd, CurrentPoint, PointWritten, CanQueue, ReadOk, CheckRead, Wanted, LockOf;
    match move {
      case Asks(bus) => assert PollerAgrees(config, w, bus);
      case PollerHears(bus, _) => assert PollerAgrees(config, w, bus);
      case HandlerTakesLine(k) => assert WriteAgrees(config, floats, w, k);
      case _ =>
    }
  }

  /* ---------- Every joint move keeps them together ---------- */

  lemma PollerStaysCoupled(config: GatewayConfig, floats: Floats, retries: string -> nat, w: Whole, move: Move, bus: string)
    requires PollersAgree(config, w) && WritesAgree(config, floats, w) && Possible(config, floats, w, move)
    ensures PollerAgrees(config, Moved(config, floats, retries, w, move), bus)
  {
    hide AtPoint, AtDeviceEnd, CurrentPoint, PointWritten, CanQueue, ReadOk, WritesAgree, Step, WritesAfter, Log, Skipped,
         PointStateIn;
    var after := Moved(config, floats, retries, w, move);
    var event := EventOf(config, floats, retries, w, move);
    assert PollerAgrees(config, w, bus);
    MoveIsEnabled(config, floats, retries, w, move);
    PollerMoves(config, floats, retries, w, move, bus);
    if event.Some? {
      StepPollers(config, floats, w.gateway, event.value, bus);
      NotAtBoth(config, w.gateway, bus);
      if PollerIn(after.gateway.pollers, bus).waiting {
        SamePlace(config, w.gateway, after.gateway, bus);
      }
    }
  }

  lemma NotAtBoth(config: GatewayConfig, s: State, bus: string)
    ensures AtPoint(config, s, bus) ==> !AtDeviceEnd(config, s, bus)
  {}

  /** What a move does to a line's request. */
  lemma PollerMoves(config: GatewayConfig, floats: Floats, retries: string -> nat, w: Whole, move: Move, bus: string)
    requires Possible(config, floats, w, move)
    ensures var before, after := PollerOf(w.lines, bus).stage, PollerOf(Moved(config, floats, retries, w, move).lines, bus).stage;
            match move
            case Asks(b) => (b == bus && before.Resting? ==> after.Asking?) && (b != bus ==> after == before)
            case PollerTakesLine(b) => if b == bus then before.Asking? && after.Exchanging? else after == before
            case PollerHears(b, exchange) =>
              if b == bus then before.Exchanging? && (after.Resting? <==> EndsRequest(retries, w, bus, exchange))
              else after == before
            case _ => after == before
  {
    hide Step, WritesAfter, PointWritten, CanQueue, ReadOk, EventOf, AtPoint, AtDeviceEnd;
  }

  /** A write that a move does not concern keeps agreeing, wherever it is now in the list. */
  lemma WriteStays(config: GatewayConfig, floats: Floats, w: Whole, after: Whole, i: nat, j: nat)
    requires i < |w.writes| == |w.gateway.store.pending| && WriteAgrees(config, floats, w, i)
    requires j < |after.writes| == |after.gateway.store.pending|
    requires after.writes[j] == w.writes[i] && after.gateway.store.pending[j] == w.gateway.store.pending[i]
    requires w.writes[i].Going? ==>
               w.writes[i].h < |after.lines.handlers| && after.lines.handlers[w.writes[i].h] == w.lines.handlers[w.writes[i].h]
    requires forall e :: e in w.lines.trace ==> e in after.lines.trace
    ensures WriteAgrees(config, floats, after, j)
  {
    hide WritableAt, Wanted, CheckRead;
    SameWrite(config, floats, w.gateway, i, after.gateway, j);
  }

  lemma SameWrite(config: GatewayConfig, floats: Floats, s: State, i: nat, after: State, j: nat)
    requires i < |s.store.pending| && j < |after.store.pending| && after.store.pending[j] == s.store.pending[i]
    ensures PointWritten(config, after, j) == PointWritten(config, s, i)
    ensures CanQueue(config, floats, after, j) == CanQueue(config, floats, s, i)
    ensures CanQueue(config, floats, s, i) ==>
              forall exchange :: ReadOk(config, floats, after, j, exchange) == ReadOk(config, floats, s, i, exchange)
  {
    hide WritableAt, Wanted, CheckRead;
  }

  /** The write a move is about. */
  function Concerned(move: Move): Option<nat> {
    match move
    case GivesUp(k) => Some(k)
    case Queues(k) => Some(k)
    case HandlerTakesLine(k) => Some(k)
    case HandlerHearsAck(k, _) => Some(k)
    case HandlerHearsRead(k, _) => Some(k)
    case _ => None
  }

  predicate Drives(w: Whole, move: Move, h: nat) {
    Concerned(move).Some? && IsGoing(w, Concerned(move).value) && w.writes[Concerned(move).value].h == h
  }

  /** A move touches no handler but its own, and the trace only grows. */
  lemma HandlerMoves(config: GatewayConfig, floats: Floats, retries: string -> nat, w: Whole, move: Move)
    requires Possible(config, floats, w, move)
    ensures var after := Moved(config, floats, retries, w, move).lines;
            && (forall e :: e in w.lines.trace ==> e in after.trace)
            && |after.handlers| >= |w.lines.handlers|
            && (forall h :: 0 <= h < |w.lines.handlers| && !Drives(w, move, h) ==> after.handlers[h] == w.lines.handlers[h])
  {
    hide Step, WritesAfter, PointWritten, CanQueue, ReadOk, EventOf, AtPoint, AtDeviceEnd, LockOf;
  }

  /** Its write, unless the handler has ended. */
  lemma OwnWriteAgrees(config: GatewayConfig, floats: Floats, retries: string -> nat, w: Whole, move: Move)
    requires WritesAgree(config, floats, w) && Possible(config, floats, w, move) && Concerned(move).Some?
    requires EventOf(config, floats, retries, w, move).None?
    ensures var after, k := Moved(config, floats, retries, w, move), Concerned(move).value;
            && k < |after.writes| == |w.writes| && after.gateway == w.gateway
            && (forall j :: 0 <= j < |w.writes| && j != k ==> after.writes[j] == w.writes[j])
            && after.writes[k].Going? && (w.writes[k].Going? ==> after.writes[k].h == w.writes[k].h)
            && (w.writes[k].Fresh? ==> after.writes[k].h == |w.lines.handlers|)
            && WriteAgrees(config, floats, after, k)
  {
    hide PointWritten, CanQueue, ReadOk, Step, LockOf;
    assert WriteAgrees(config, floats, w, Concerned(move).value);
  }

  /** A finished write leaves both lists. */
  lemma EndedWriteLeaves(config: GatewayConfig, floats: Floats, retries: string -> nat, w: Whole, move: Move)
    requires WritesAgree(config, floats, w) && Possible(config, floats, w, move) && Concerned(move).Some?
    requires EventOf(config, floats, retries, w, move).Some?
    ensures var after, k := Moved(config, floats, retries, w, move), Concerned(move).value;
            && k < |w.writes| && after.writes == w.writes[..k] + w.writes[k + 1..]
            && after.gateway.store.pending == Without(w.gateway.store.pending, k)
  {
    hide PointWritten, CanQueue, ReadOk, Step, LockOf, Without;
    PendingMoves(config, floats, w.gateway, EventOf(config, floats, retries, w, move).value);
  }

  /** A move about no write leaves them as they are, or adds one. */
  lemma OtherWritesStay(config: GatewayConfig, floats: Floats, retries: string -> nat, w: Whole, move: Move)
    requires WritesAgree(config, floats, w) && Possible(config, floats, w, move) && Concerned(move).None?
    ensures var after := Moved(config, floats, retries, w, move);
            && |after.writes| == |after.gateway.store.pending| && |w.writes| <= |after.writes|
            && after.writes[..|w.writes|] == w.writes
            && after.gateway.store.pending[..|w.writes|] == w.gateway.store.pending
            && forall j :: |w.writes| <= j < |after.writes| ==> after.writes[j].Fresh?
  {
    hide PointWritten, CanQueue, ReadOk, Step, LockOf, WriteAgrees, Enabled;
    var event := EventOf(config, floats, retries, w, move);
    if event.Some? {
      PendingMoves(config, floats, w.gateway, event.value);
    }
  }

  lemma WritesStayCoupled(config: GatewayConfig, floats: Floats, retries: string -> nat, w: Whole, move: Move)
    requires WritesAgree(config, floats, w) && Possible(config, floats, w, move)
    ensures WritesAgree(config, floats, Moved(config, floats, retries, w, move))
  {
    hide Moved, Possible, WritesAfter, EventOf, WriteAgrees;
    var after := Moved(config, floats, retries, w, move);
    HandlerMoves(config, floats, retries, w, move);
    forall i | 0 <= i < |w.writes| ensures w.writes[i].Going? ==> w.writes[i].h < |w.lines.handlers| {
      HandlerIsThere(config, floats, w, i);
    }
    if Concerned(move).None? {
      OtherWritesStay(config, floats, retries, w, move);
      forall j | 0 <= j < |after.writes| ensures WriteAgrees(config, floats, after, j) {
        if j < |w.writes| {
          assert after.writes[j] == after.writes[..|w.writes|][j];
          assert after.gateway.store.pending[j] == after.gateway.store.pending[..|w.writes|][j];
          WriteStays(config, floats, w, after, j, j);
        } else {
          FreshAgrees(config, floats, after, j);
        }
      }
      assert forall j :: 0 <= j < |after.writes| && after.writes[j].Going? ==> j < |w.writes| && after.writes[j] == w.writes[j];
    } else if EventOf(config, floats, retries, w, move).None? {
      OwnWriteAgrees(config, floats, retries, w, move);
      var k := Concerned(move).value;
      forall j | 0 <= j < |after.writes| && j != k ensures WriteAgrees(config, floats, after, j) {
        WriteStays(config, floats, w, after, j, j);
      }
    } else {
      EndedWriteLeaves(config, floats, retries, w, move);
      var k := Concerned(move).value;
      forall j | 0 <= j < |after.writes| ensures WriteAgrees(config, floats, after, j) {
        WriteStays(config, floats, w, after, if j < k then j else j + 1, j);
      }
    }
  }

  lemma HandlerIsThere(config: GatewayConfig, floats: Floats, w: Whole, i: nat)
    requires i < |w.writes| == |w.gateway.store.pending| && WriteAgrees(config, floats, w, i)
    ensures w.writes[i].Going? ==> w.writes[i].h < |w.lines.handlers|
  {
    hide PointWritten, CanQueue, ReadOk;
  }

  lemma FreshAgrees(config: GatewayConfig, floats: Floats, w: Whole, j: nat)
    requires j < |w.writes| == |w.gateway.store.pending| && w.writes[j].Fresh?
    ensures WriteAgrees(config, floats, w, j)
  {}

  /* ---------- What the trace says of the events ---------- */

  /** The exchange before `at` is a read-back that found the value, after the handler's own
      write, and from the write on the line was the handler's. */
  ghost predicate Undisturbed(trace: seq<Entry>, at: nat, bus: string) {
    && 0 < at <= |trace|
    && trace[at - 1].ReadBack? && trace[at - 1].bus == bus && trace[at - 1].ok
    && exists i :: 0 <= i < at - 1 && OwnFrom(trace, i, at, bus)
  }

  predicate OwnFrom(trace: seq<Entry>, i: nat, at: nat, bus: string)
    requires i < at - 1 < |trace| && trace[at - 1].ReadBack?
  {
    && trace[i] == Wrote(bus, trace[at - 1].h, true)
    && forall m :: i <= m < at && trace[m].bus == bus ==> IsBy(trace[m], trace[at - 1].h)
  }

  /** The last exchange before a reply was the point's request, and the last of it; before a
      kept write it was a read-back of an undisturbed handler. */
  ghost predicate Witnessed(config: GatewayConfig, floats: Floats, retries: string -> nat, trace: seq<Entry>, s: State,
                            stamped: Stamped) {
    match stamped.event
    case PointReply(bus, exchange) =>
      0 < stamped.at <= |trace| &&
      var last := trace[stamped.at - 1];
      last.Polled? && last.bus == bus && last.ok == exchange.Ok? && (last.ok || last.attempt == retries(bus) + 1)
    case HandlerEnd(k, ack, readBacks) =>
      k < |s.store.pending| && PointWritten(config, s, k).Some? &&
      Taken(floats, PointWritten(config, s, k).value, s.store.pending[k].words, ack, readBacks).Some? ==>
        Undisturbed(trace, stamped.at, PointWritten(config, s, k).value.bus)
    case _ => true
  }

  lemma StillWitnessed(config: GatewayConfig, floats: Floats, retries: string -> nat, trace: seq<Entry>, longer: seq<Entry>,
                       s: State, stamped: Stamped)
    requires Witnessed(config, floats, retries, trace, s, stamped) && trace <= longer
    ensures Witnessed(config, floats, retries, longer, s, stamped)
  {
    hide PointWritten, Taken, IsBy;
    if stamped.event.HandlerEnd? && stamped.event.k < |s.store.pending| && PointWritten(config, s, stamped.event.k).Some?
       && Undisturbed(trace, stamped.at, PointWritten(config, s, stamped.event.k).value.bus) {
      var bus := PointWritten(config, s, stamped.event.k).value.bus;
      var i :| 0 <= i < stamped.at - 1 && OwnFrom(trace, i, stamped.at, bus);
      assert OwnFrom(longer, i, stamped.at, bus);
    }
  }

  lemma VerifiedWasRead(config: GatewayConfig, floats: Floats, s: State, k: nat, readBacks: seq<Result<OwenFrame>>)
    requires k < |s.store.pending| && CanQueue(config, floats, s, k)
    requires var p := PointWritten(config, s, k).value;
             Verify(floats, p, Wanted(floats, p, s.store.pending[k].words).value, readBacks).Ok?
    ensures exists j :: 0 <= j < |readBacks| && ReadOk(config, floats, s, k, readBacks[j])
  {
    hide DecodePayload, ValuesMatch, Verify, PointWritten, Wanted;
    var p := PointWritten(config, s, k).value;
    var j := VerifiedByARead(floats, p, Wanted(floats, p, s.store.pending[k].words).value, readBacks);
    assert ReadOk(config, floats, s, k, readBacks[j]);
  }

  /** A handler that never found the value does not keep it. */
  lemma RefusedUnlessRead(config: GatewayConfig, floats: Floats, s: State, k: nat, ack: Result<Option<OwenFrame>>,
                          readBacks: seq<Result<OwenFrame>>)
    requires k < |s.store.pending|
    requires CanQueue(config, floats, s, k) ==>
               ack.Err? || forall j :: 0 <= j < |readBacks| ==> !ReadOk(config, floats, s, k, readBacks[j])
    ensures PointWritten(config, s, k).Some? ==>
              Taken(floats, PointWritten(config, s, k).value, s.store.pending[k].words, ack, readBacks) == None
  {
    hide DecodeRegisters, EncodePayload, DecodePayload, ValuesMatch, Verify, AckAccepted, PointWritten, Taken;
    var p := PointWritten(config, s, k);
    if p.Some? {
      OutcomeIsTaken(floats, p.value, s.store.pending[k].words, ack, readBacks);
    }
    if p.Some? && CanQueue(config, floats, s, k) && ack.Ok? {
      var value := Wanted(floats, p.value, s.store.pending[k].words).value;
      if Verify(floats, p.value, value, readBacks).Ok? {
        VerifiedWasRead(config, floats, s, k, readBacks);
      }
    }
  }

  lemma PaddedRead(config: GatewayConfig, floats: Floats, s: State, k: nat, made: seq<Result<OwenFrame>>)
    requires k < |s.store.pending| && CanQueue(config, floats, s, k) && |made| <= READ_BACKS
    requires forall j :: 0 <= j < |made| ==> !ReadOk(config, floats, s, k, made[j])
    ensures forall j :: 0 <= j < READ_BACKS ==> !ReadOk(config, floats, s, k, Padded(made)[j])
  {
    hide CanQueue, PointWritten, Wanted;
  }

  lemma ReadIsUndisturbed(trace: seq<Entry>, last: Entry)
    requires last.ReadBack? && last.ok && Wrote(last.bus, last.h, true) in trace && WritesAreShielded(trace + [last])
    ensures Undisturbed(trace + [last], |trace| + 1, last.bus)
  {
    hide IsBy;
    var longer := trace + [last];
    var i :| 0 <= i < |trace| && trace[i] == Wrote(last.bus, last.h, true);
    assert ReadsBack(longer[|trace|], longer[i].h);
    assert IsBy(longer[i], last.h) && IsBy(last, last.h) by { OwnEntries(longer[i], last); }
    assert OwnFrom(longer, i, |trace| + 1, last.bus);
  }

  lemma OwnEntries(wrote: Entry, last: Entry)
    requires last.ReadBack? && wrote.Wrote? && wrote.h == last.h
    ensures IsBy(wrote, last.h) && IsBy(last, last.h)
  {}

  /** The event of a move is witnessed by the trace right after it. */
  lemma MoveIsWitnessed(config: GatewayConfig, floats: Floats, retries: string -> nat, w: Whole, move: Move)
    requires Coupled(config, floats, retries, w) && Possible(config, floats, w, move)
    requires EventOf(config, floats, retries, w, move).Some?
    requires WritesAreShielded(Moved(config, floats, retries, w, move).lines.trace)
    requires forall bus :: StageInBounds(retries, w.lines, bus)
    ensures var after := Moved(config, floats, retries, w, move);
            Witnessed(config, floats, retries, after.lines.trace, w.gateway,
                      Stamped(EventOf(config, floats, retries, w, move).value, |after.lines.trace|))
  {
    hide PointWritten, CanQueue, ReadOk, Step, LockOf, Taken, Reached, Runs, Enabled, Undisturbed, WritesAreShielded,
         Padded, AtPoint;
    match move {
      case PollerHears(bus, exchange) => assert StageInBounds(retries, w.lines, bus);
      case GivesUp(k) => RefusedUnlessRead(config, floats, w.gateway, k, Err(OtherFault), Padded([]));
      case HandlerHearsAck(k, ack) => RefusedUnlessRead(config, floats, w.gateway, k, ack, Padded([]));
      case HandlerHearsRead(k, exchange) =>
        assert WriteAgrees(config, floats, w, k);
        var made, h := w.writes[k].made + [exchange], w.writes[k].h;
        if ReadOk(config, floats, w.gateway, k, exchange) {
          ReadIsUndisturbed(w.lines.trace, ReadBack(w.lines.handlers[h].bus, h, |made|, true));
        } else {
          PaddedRead(config, floats, w.gateway, k, made);
          RefusedUnlessRead(config, floats, w.gateway, k, w.writes[k].ack.value, Padded(made));
        }
      case _ =>
    }
  }

  /* ---------- Whole runs ---------- */

  ghost predicate AllWitnessed(config: GatewayConfig, floats: Floats, retries: string -> nat, w: Whole) {
    forall i :: 0 <= i < |w.history| ==>
      var before := Reached(config, floats, Events(w.history)[..i]);
      && Enabled(config, before, w.history[i].event)
      && Witnessed(config, floats, retries, w.lines.trace, before, w.history[i])
  }

  lemma MoveGrowsTrace(config: GatewayConfig, floats: Floats, retries: string -> nat, w: Whole, move: Move)
    ensures w.lines.trace <= Moved(config, floats, retries, w, move).lines.trace
  {
    hide Step, WritesAfter, PointWritten, CanQueue, ReadOk, EventOf, Possible, LockOf;
  }

  lemma MoveStaysWitnessed(config: GatewayConfig, floats: Floats, retries: string -> nat, w: Whole, move: Move)
    requires Coupled(config, floats, retries, w) && AllWitnessed(config, floats, retries, w)
    requires Possible(config, floats, w, move)
    requires WritesAreShielded(Moved(config, floats, retries, w, move).lines.trace)
    requires forall bus :: StageInBounds(retries, w.lines, bus)
    ensures AllWitnessed(config, floats, retries, Moved(config, floats, retries, w, move))
  {
    hide Coupled, Possible, EventOf, ActionOf, WritesAfter, Enabled, Witnessed, Step, Do, Reached, WritesAreShielded,
         StageInBounds;
    var after := Moved(config, floats, retries, w, move);
    var event := EventOf(config, floats, retries, w, move);
    MoveGrowsTrace(config, floats, retries, w, move);
    forall i | 0 <= i < |after.history|
      ensures Enabled(config, Reached(config, floats, Events(after.history)[..i]), after.history[i].event)
      ensures Witnessed(config, floats, retries, after.lines.trace, Reached(config, floats, Events(after.history)[..i]),
                        after.history[i])
    {
      assert Events(after.history)[..i] == Events(w.history)[..i];
      var before := Reached(config, floats, Events(w.history)[..i]);
      if i < |w.history| {
        StillWitnessed(config, floats, retries, w.lines.trace, after.lines.trace, before, w.history[i]);
      } else {
        assert Events(w.history)[..i] == Events(w.history);
        CoupledParts(config, floats, retries, w);
        MoveIsEnabled(config, floats, retries, w, move);
        MoveIsWitnessed(config, floats, retries, w, move);
      }
    }
  }

  lemma CoupledParts(config: GatewayConfig, floats: Floats, retries: string -> nat, w: Whole)
    requires Coupled(config, floats, retries, w)
    ensures PollersAgree(config, w) && WritesAgree(config, floats, w)
    ensures w.gateway == Reached(config, floats, Events(w.history)) && w.lines == Runs(retries, w.actions)
  {}

  lemma MoveStaysCoupled(config: GatewayConfig, floats: Floats, retries: string -> nat, w: Whole, move: Move)
    requires Coupled(config, floats, retries, w) && Possible(config, floats, w, move)
    ensures Coupled(config, floats, retries, Moved(config, floats, retries, w, move))
  {
    hide Possible, EventOf, ActionOf, WritesAfter, WritesAgree, PollerAgrees, Step, Do, Reached;
    var after := Moved(config, floats, retries, w, move);
    forall bus ensures PollerAgrees(config, after, bus) {
      PollerStaysCoupled(config, floats, retries, w, move, bus);
    }
    WritesStayCoupled(config, floats, retries, w, move);
    var event, action := EventOf(config, floats, retries, w, move), ActionOf(config, floats, w, move);
    if event.Some? {
      assert Events(after.history) == Events(w.history) + [event.value];
      ThenEvent(config, floats, Events(w.history), event.value);
    }
    if action.Some? {
      assert after.actions[..|after.actions| - 1] == w.actions;
    }
  }

  lemma StartIsCoupled(config: GatewayConfig, floats: Floats, retries: string -> nat)
    ensures Coupled(config, floats, retries, After(config, floats, retries, []))
  {
    hide StartWrites, PublishAll;
    NoEvents(config, floats);
    PendingAfterAll(NO_STATE.store, StartWrites(config, floats));
  }

  /** In every joint run, in whatever order tasks and clients move: the records are those of
      a run of the gateway in which every event was enabled, and the lines those of an
      interleaving, so that nothing comes between a write and its read-backs. Before every
      reply of the run the last exchange was the end of that line's request, the one success
      or the last failure, and every kept write was confirmed by a read-back of its own
      handler with nobody else on the line since it wrote. */
  lemma {:induction false} RunsBelongTogether(config: GatewayConfig, floats: Floats, retries: string -> nat, moves: seq<Move>)
    ensures var w := After(config, floats, retries, moves);
            && w.gateway == Reached(config, floats, Events(w.history))
            && w.lines == Runs(retries, w.actions) && WritesAreShielded(w.lines.trace)
            && AllWitnessed(config, floats, retries, w) && Coupled(config, floats, retries, w)
    decreases |moves|
  {
    hide Moved, Coupled, Reached, WritesAreShielded, AllWitnessed, Runs;
    if moves == [] {
      StartIsCoupled(config, floats, retries);
      assert AllWitnessed(config, floats, retries, After(config, floats, retries, [])) by {
        NothingToWitness(config, floats, retries);
      }
    } else {
      var before, last := moves[..|moves| - 1], moves[|moves| - 1];
      var w := After(config, floats, retries, before);
      RunsBelongTogether(config, floats, retries, before);
      if Possible(config, floats, w, last) {
        MoveStaysCoupled(config, floats, retries, w, last);
        CoupledParts(config, floats, retries, Moved(config, floats, retries, w, last));
        BusExclusivity(retries, Moved(config, floats, retries, w, last).actions);
        RunsStayOrderly(retries, w.actions);
        MoveStaysWitnessed(config, floats, retries, w, last);
      } else {
        assert Moved(config, floats, retries, w, last) == w by { NotMoved(config, floats, retries, w, last); }
      }
    }
    CoupledParts(config, floats, retries, After(config, floats, retries, moves));
    BusExclusivity(retries, After(config, floats, retries, moves).actions);
  }

  lemma NothingToWitness(config: GatewayConfig, floats: Floats, retries: string -> nat)
    ensures AllWitnessed(config, floats, retries, After(config, floats, retries, []))
  {}

  lemma NotMoved(config: GatewayConfig, floats: Floats, retries: string -> nat, w: Whole, move: Move)
    requires !Possible(config, floats, w, move)
    ensures Moved(config, floats, retries, w, move) == w
  {}

  /* ---------- Every run of the gateway arises ---------- */

  predicate PollerIdle(w: Whole, bus: string) { !PollerOf(w.lines, bus).stage.Exchanging? && LockOf(w.lines, bus).Free? }

  /** Nobody is at a line, and no handler has begun. */
  ghost predicate Idle(config: GatewayConfig, floats: Floats, retries: string -> nat, w: Whole) {
    && Coupled(config, floats, retries, w)
    && (forall bus :: PollerIdle(w, bus))
    && (forall k :: 0 <= k < |w.writes| ==> w.writes[k].Fresh?)
  }

  lemma ThenMove(config: GatewayConfig, floats: Floats, retries: string -> nat, moves: seq<Move>, move: Move)
    ensures After(config, floats, retries, moves + [move]) ==
            Moved(config, floats, retries, After(config, floats, retries, moves), move)
  {
    hide Moved;
    assert (moves + [move])[..|moves|] == moves;
  }

  /** One exchange of a request; what it leaves undecided is asked again. */
  lemma OneExchange(config: GatewayConfig, floats: Floats, retries: string -> nat, moves: seq<Move>, bus: string,
                    exchange: Result<OwenFrame>) returns (more: seq<Move>)
    requires Idle(config, floats, retries, After(config, floats, retries, moves))
    requires PollerOf(After(config, floats, retries, moves).lines, bus).stage.Asking?
    ensures var w, after := After(config, floats, retries, moves), After(config, floats, retries, more);
            && Idle(config, floats, retries, after)
            && if EndsRequest(retries, w, bus, exchange)
               then after.gateway == Step(config, floats, w.gateway, PointReply(bus, exchange))
               else after.gateway == w.gateway &&
                    PollerOf(after.lines, bus) == PollerOf(w.lines, bus).(attempt := PollerOf(w.lines, bus).attempt + 1)
  {
    hide Coupled, Step, After, AtPoint;
    var w := After(config, floats, retries, moves);
    var taken := moves + [PollerTakesLine(bus)];
    more := taken + [PollerHears(bus, exchange)];
    ThenMove(config, floats, retries, moves, PollerTakesLine(bus));
    ThenMove(config, floats, retries, taken, PollerHears(bus, exchange));
    assert PollerIdle(w, bus);
    MoveStaysCoupled(config, floats, retries, w, PollerTakesLine(bus));
    MoveStaysCoupled(config, floats, retries, After(config, floats, retries, taken), PollerHears(bus, exchange));
    var after := After(config, floats, retries, more);
    forall b ensures PollerIdle(after, b) {
      assert PollerIdle(w, b);
    }
  }

  /** A reply of the gateway's run: the first exchange is it, or all of them fail alike. */
  lemma {:induction false} ReplyArises(config: GatewayConfig, floats: Floats, retries: string -> nat, moves: seq<Move>,
                                       bus: string, exchange: Result<OwenFrame>) returns (more: seq<Move>)
    requires Idle(config, floats, retries, After(config, floats, retries, moves))
    requires PollerOf(After(config, floats, retries, moves).lines, bus).stage.Asking?
    ensures Idle(config, floats, retries, After(config, floats, retries, more))
    ensures After(config, floats, retries, more).gateway ==
            Step(config, floats, After(config, floats, retries, moves).gateway, PointReply(bus, exchange))
    decreases retries(bus) + 1 - PollerOf(After(config, floats, retries, moves).lines, bus).attempt
  {
    hide Idle, Step, After;
    more := OneExchange(config, floats, retries, moves, bus, exchange);
    if !EndsRequest(retries, After(config, floats, retries, moves), bus, exchange) {
      more := ReplyArises(config, floats, retries, more, bus, exchange);
    }
  }

  /** Only the handler of write `k` is at a line, `bus`. */
  ghost predicate Serving(config: GatewayConfig, floats: Floats, retries: string -> nat, w: Whole, k: nat, bus: string) {
    && Coupled(config, floats, retries, w)
    && k < |w.writes| == |w.gateway.store.pending| && CanQueue(config, floats, w.gateway, k)
    && w.writes[k].Going? && w.writes[k].h < |w.lines.handlers| && w.lines.handlers[w.writes[k].h].bus == bus
    && (forall j :: 0 <= j < |w.writes| && j != k ==> w.writes[j].Fresh?)
    && (forall b :: !PollerOf(w.lines, b).stage.Exchanging? && (b != bus ==> LockOf(w.lines, b).Free?))
  }

  /** A handler's exchange concerns its own line only, and frees it when it is the last. */
  lemma HandlerMovesLine(config: GatewayConfig, floats: Floats, retries: string -> nat, w: Whole, move: Move, k: nat,
                         bus: string)
    requires Possible(config, floats, w, move) && (move.HandlerHearsAck? || move.HandlerHearsRead?) && move.k == k
    requires w.lines.handlers[w.writes[k].h].bus == bus
    requires move.HandlerHearsRead? ==> w.lines.handlers[w.writes[k].h].stage.made == |w.writes[k].made|
    ensures var after := Moved(config, floats, retries, w, move).lines;
            && (forall b :: PollerOf(after, b) == PollerOf(w.lines, b))
            && (forall b :: b != bus ==> LockOf(after, b) == LockOf(w.lines, b))
            && (EventOf(config, floats, retries, w, move).Some? ==> LockOf(after, bus).Free?)
  {
    hide Step, WritesAfter, CanQueue, PointWritten, ReadOk;
  }

  lemma ServedIsIdle(w: Whole, after: Whole, bus: string)
    requires forall b :: !PollerOf(w.lines, b).stage.Exchanging? && (b != bus ==> LockOf(w.lines, b).Free?)
    requires forall b :: PollerOf(after.lines, b) == PollerOf(w.lines, b)
    requires forall b :: b != bus ==> LockOf(after.lines, b) == LockOf(w.lines, b)
    requires LockOf(after.lines, bus).Free?
    ensures forall b :: PollerIdle(after, b)
  {
    hide PollerOf, LockOf;
    forall b ensures PollerIdle(after, b) {
      assert !PollerOf(w.lines, b).stage.Exchanging? && (b != bus ==> LockOf(w.lines, b).Free?);
    }
  }

  lemma WriteIsCoupled(config: GatewayConfig, floats: Floats, retries: string -> nat, w: Whole, k: nat)
    requires Coupled(config, floats, retries, w) && k < |w.writes|
    ensures |w.writes| == |w.gateway.store.pending| && WriteAgrees(config, floats, w, k)
  {
    hide WriteAgrees;
  }

  /** What the gateway makes of a write is decided by its reply and the read-backs up to the
      first that finds the value. */
  lemma SameVerdict(config: GatewayConfig, floats: Floats, s: State, k: nat, ack: Result<Option<OwenFrame>>,
                    readBacks: seq<Result<OwenFrame>>, n: nat)
    requires k < |s.store.pending| && CanQueue(config, floats, s, k) && n < |readBacks| == READ_BACKS
    requires forall j :: 0 <= j < n ==> !ReadOk(config, floats, s, k, readBacks[j])
    requires ReadOk(config, floats, s, k, readBacks[n]) || n + 1 == READ_BACKS
    ensures EndHandler(config, floats, s, k, ack, Padded(readBacks[..n + 1])) == EndHandler(config, floats, s, k, ack, readBacks)
  {
    hide AcceptWrite, RejectWrite, WritableAt, CheckRead, AckAccepted, DecodeRegisters, EncodePayload;
    var p := PointWritten(config, s, k).value;
    var value := Wanted(floats, p, s.store.pending[k].words).value;
    assert readBacks == [readBacks[0], readBacks[1], readBacks[2]];
    if n + 1 == READ_BACKS {
      assert Padded(readBacks[..n + 1]) == readBacks;
    } else {
      VerifyStops(floats, p, value, readBacks, Padded(readBacks[..n + 1]), n);
    }
  }

  lemma {:induction false} VerifyStops(floats: Floats, p: PointConfig, value: Value, a: seq<Result<OwenFrame>>,
                                       b: seq<Result<OwenFrame>>, n: nat)
    requires n < |a| && n < |b| && a[..n + 1] == b[..n + 1]
    requires CheckRead(floats, p, value, a[n]).Ok? && forall j :: 0 <= j < n ==> CheckRead(floats, p, value, a[j]).Err?
    ensures Verify(floats, p, value, a) == Verify(floats, p, value, b)
    decreases n
  {
    hide CheckRead;
    assert a[n] == a[..n + 1][n] && b[n] == b[..n + 1][n] && a[0] == a[..n + 1][0] && b[0] == b[..n + 1][0];
    if n > 0 {
      assert a[1..][..n] == a[..n + 1][1..] && b[1..][..n] == b[..n + 1][1..];
      assert forall j :: 0 <= j < n - 1 ==> a[1..][j] == a[j + 1];
      VerifyStops(floats, p, value, a[1..], b[1..], n - 1);
    }
  }

  lemma {:induction false} ReadsArise(config: GatewayConfig, floats: Floats, retries: string -> nat, moves: seq<Move>, k: nat,
                                      bus: string, readBacks: seq<Result<OwenFrame>>) returns (more: seq<Move>)
    requires var w := After(config, floats, retries, moves);
             && Serving(config, floats, retries, w, k, bus) && w.writes[k].ack.Some? && |readBacks| == READ_BACKS
             && |w.writes[k].made| < READ_BACKS && w.writes[k].made == readBacks[..|w.writes[k].made|]
    ensures Idle(config, floats, retries, After(config, floats, retries, more))
    ensures var w := After(config, floats, retries, moves);
            After(config, floats, retries, more).gateway ==
            Step(config, floats, w.gateway, HandlerEnd(k, w.writes[k].ack.value, readBacks))
    decreases READ_BACKS - |After(config, floats, retries, moves).writes[k].made|
  {
    hide Coupled, After, WriteAgrees, CanQueue, PointWritten, ReadOk, EndHandler;
    var w := After(config, floats, retries, moves);
    var n, h := |w.writes[k].made|, w.writes[k].h;
    var move := HandlerHearsRead(k, readBacks[n]);
    WriteIsCoupled(config, floats, retries, w, k);
    VerifierIsThere(config, floats, w, k);
    more := moves + [move];
    ThenMove(config, floats, retries, moves, move);
    MoveStaysCoupled(config, floats, retries, w, move);
    var after := After(config, floats, retries, more);
    HandlerMovesLine(config, floats, retries, w, move, k, bus);
    assert readBacks[..n] + [readBacks[n]] == readBacks[..n + 1];
    if ReadOk(config, floats, w.gateway, k, readBacks[n]) || n + 1 == READ_BACKS {
      forall j | 0 <= j < n ensures !ReadOk(config, floats, w.gateway, k, readBacks[j]) {
        ReadsFailed(config, floats, w, k, j);
      }
      SameVerdict(config, floats, w.gateway, k, w.writes[k].ack.value, readBacks, n);
      ServedIsIdle(w, after, bus);
    } else {
      assert readBacks[..n + 1] == after.writes[k].made;
      more := ReadsArise(config, floats, retries, more, k, bus, readBacks);
    }
  }

  lemma VerifierIsThere(config: GatewayConfig, floats: Floats, w: Whole, k: nat)
    requires k < |w.writes| == |w.gateway.store.pending| && WriteAgrees(config, floats, w, k)
    requires w.writes[k].Going? && w.writes[k].ack.Some?
    ensures w.writes[k].h < |w.lines.handlers| && CanQueue(config, floats, w.gateway, k)
    ensures forall exchange :: Possible(config, floats, w, HandlerHearsRead(k, exchange))
    ensures w.lines.handlers[w.writes[k].h].stage == Verifying(|w.writes[k].made|)
  {
    hide PointWritten, CanQueue, ReadOk;
  }

  lemma ReadsFailed(config: GatewayConfig, floats: Floats, w: Whole, k: nat, j: nat)
    requires k < |w.writes| == |w.gateway.store.pending| && WriteAgrees(config, floats, w, k)
    requires w.writes[k].Going? && w.writes[k].ack.Some? && j < |w.writes[k].made|
    requires CanQueue(config, floats, w.gateway, k)
    ensures !ReadOk(config, floats, w.gateway, k, w.writes[k].made[j])
  {
    hide PointWritten, CanQueue, ReadOk;
  }

  /** Without a point, a value or an acknowledgement the previous registers come back. */
  lemma RefusedVerdict(config: GatewayConfig, floats: Floats, s: State, k: nat, ack: Result<Option<OwenFrame>>,
                       readBacks: seq<Result<OwenFrame>>)
    requires k < |s.store.pending| && (ack.Err? || !CanQueue(config, floats, s, k))
    ensures EndHandler(config, floats, s, k, ack, readBacks) == RejectWrite(s, k)
  {
    hide RejectWrite, AcceptWrite, WritableAt, Verify, AckAccepted, DecodeRegisters, EncodePayload;
  }

  /** A handler's end in the gateway's run: one handler at the line, from its write on. */
  lemma HandlerArises(config: GatewayConfig, floats: Floats, retries: string -> nat, moves: seq<Move>, k: nat,
                      ack: Result<Option<OwenFrame>>, readBacks: seq<Result<OwenFrame>>) returns (more: seq<Move>)
    requires Idle(config, floats, retries, After(config, floats, retries, moves))
    requires Enabled(config, After(config, floats, retries, moves).gateway, HandlerEnd(k, ack, readBacks))
    ensures Idle(config, floats, retries, After(config, floats, retries, more))
    ensures After(config, floats, retries, more).gateway ==
            Step(config, floats, After(config, floats, retries, moves).gateway, HandlerEnd(k, ack, readBacks))
  {
    hide Coupled, After, WriteAgrees, CanQueue, PointWritten, ReadOk, EndHandler;
    var w := After(config, floats, retries, moves);
    assert |w.writes| == |w.gateway.store.pending| by { SameNumber(config, floats, retries, w); }
    if !CanQueue(config, floats, w.gateway, k) {
      more := moves + [GivesUp(k)];
      ThenMove(config, floats, retries, moves, GivesUp(k));
      MoveStaysCoupled(config, floats, retries, w, GivesUp(k));
      RefusedVerdict(config, floats, w.gateway, k, ack, readBacks);
      RefusedVerdict(config, floats, w.gateway, k, Err(OtherFault), Padded([]));
      forall bus ensures PollerIdle(After(config, floats, retries, more), bus) { assert PollerIdle(w, bus); }
    } else {
      var served, bus := ServiceBegins(config, floats, retries, moves, k);
      var s := After(config, floats, retries, served);
      more := served + [HandlerHearsAck(k, ack)];
      ThenMove(config, floats, retries, served, HandlerHearsAck(k, ack));
      MoveStaysCoupled(config, floats, retries, s, HandlerHearsAck(k, ack));
      var after := After(config, floats, retries, more);
      HandlerMovesLine(config, floats, retries, s, HandlerHearsAck(k, ack), k, bus);
      if ack.Err? {
        RefusedVerdict(config, floats, w.gateway, k, ack, readBacks);
        RefusedVerdict(config, floats, w.gateway, k, ack, Padded([]));
        ServedIsIdle(s, after, bus);
      } else {
        more := ReadsArise(config, floats, retries, more, k, bus, readBacks);
      }
    }
  }

  lemma SameNumber(config: GatewayConfig, floats: Floats, retries: string -> nat, w: Whole)
    requires Coupled(config, floats, retries, w)
    ensures |w.writes| == |w.gateway.store.pending|
  {
    hide WriteAgrees, PollerAgrees;
  }

  lemma LineWritten(config: GatewayConfig, floats: Floats, s: State, k: nat) returns (bus: string)
    requires k < |s.store.pending| && CanQueue(config, floats, s, k)
    ensures PointWritten(config, s, k).Some? && PointWritten(config, s, k).value.bus == bus
  {
    bus := PointWritten(config, s, k).value.bus;
  }

  /** The handler queues for its line and gets it. */
  lemma ServiceBegins(config: GatewayConfig, floats: Floats, retries: string -> nat, moves: seq<Move>, k: nat)
    returns (more: seq<Move>, bus: string)
    requires Idle(config, floats, retries, After(config, floats, retries, moves))
    requires var w := After(config, floats, retries, moves);
             k < |w.gateway.store.pending| && CanQueue(config, floats, w.gateway, k)
    ensures var w, after := After(config, floats, retries, moves), After(config, floats, retries, more);
            && Serving(config, floats, retries, after, k, bus) && after.gateway == w.gateway
            && after.writes[k].ack.None? && after.writes[k].made == []
            && after.lines.handlers[after.writes[k].h] == WriteHandler(bus, Writing)
  {
    hide Coupled, After, WriteAgrees, CanQueue, PointWritten, ReadOk;
    var w := After(config, floats, retries, moves);
    SameNumber(config, floats, retries, w);
    bus := LineWritten(config, floats, w.gateway, k);
    var queued := moves + [Queues(k)];
    ThenMove(config, floats, retries, moves, Queues(k));
    MoveStaysCoupled(config, floats, retries, w, Queues(k));
    var q := After(config, floats, retries, queued);
    forall b ensures PollerIdle(q, b) { assert PollerIdle(w, b); }
    more := queued + [HandlerTakesLine(k)];
    ThenMove(config, floats, retries, queued, HandlerTakesLine(k));
    assert PollerIdle(q, bus);
    MoveStaysCoupled(config, floats, retries, q, HandlerTakesLine(k));
    var after := After(config, floats, retries, more);
    forall b ensures !PollerOf(after.lines, b).stage.Exchanging? && (b != bus ==> LockOf(after.lines, b).Free?) {
      assert PollerIdle(q, b);
    }
  }

  /** Any event of the gateway, by a few joint moves that leave the lines idle. */
  lemma EventArises(config: GatewayConfig, floats: Floats, retries: string -> nat, moves: seq<Move>, event: Event)
    returns (more: seq<Move>)
    requires Idle(config, floats, retries, After(config, floats, retries, moves))
    ensures Idle(config, floats, retries, After(config, floats, retries, more))
    ensures After(config, floats, retries, more).gateway ==
            Step(config, floats, After(config, floats, retries, moves).gateway, event)
  {
    hide Coupled, After, WriteAgrees, PassOver, CloseDevice, ApplyOutcome, EndHandler, AtPoint, AtDeviceEnd, CurrentPoint,
         Skipped, PointStateIn, BeginExchange, ClientWrite, CoilWrite;
    var w := After(config, floats, retries, moves);
    if !Enabled(config, w.gateway, event) {
      more := moves;
    } else if event.HandlerEnd? {
      more := HandlerArises(config, floats, retries, moves, event.k, event.ack, event.readBacks);
    } else if event.PointReply? {
      assert PollerIdle(w, event.bus);
      assert PollerOf(w.lines, event.bus).stage.Asking? by { WaitsAsking(config, floats, retries, w, event.bus); }
      more := ReplyArises(config, floats, retries, moves, event.bus, event.exchange);
    } else {
      var move := if event.ExchangeStart? then Asks(event.bus)
                  else if event.ClientRegisters? then WriteComes(event.slave, event.address, event.words)
                  else Elsewhere(event);
      more := moves + [move];
      ThenMove(config, floats, retries, moves, move);
      MoveStaysCoupled(config, floats, retries, w, move);
      forall bus ensures PollerIdle(After(config, floats, retries, more), bus) { assert PollerIdle(w, bus); }
    }
  }

  lemma WaitsAsking(config: GatewayConfig, floats: Floats, retries: string -> nat, w: Whole, bus: string)
    requires Coupled(config, floats, retries, w) && PollerIn(w.gateway.pollers, bus).waiting && PollerIdle(w, bus)
    ensures PollerOf(w.lines, bus).stage.Asking?
  {
    hide WritesAgree, Runs, Reached, AtPoint;
    assert PollerAgrees(config, w, bus);
  }

  /** Conversely every reachable state of the gateway is that of a joint run: what is proved
      of joint runs holds of all runs of the gateway. */
  lemma {:induction false} EveryRunArises(config: GatewayConfig, floats: Floats, retries: string -> nat, events: seq<Event>)
    returns (moves: seq<Move>)
    ensures After(config, floats, retries, moves).gateway == Reached(config, floats, events)
    ensures Idle(config, floats, retries, After(config, floats, retries, moves))
    decreases |events|
  {
    hide After, Step, Start, Coupled;
    if events == [] {
      moves := [];
      NoEvents(config, floats);
      StartIsCoupled(config, floats, retries);
      StartIsIdle(config, floats, retries);
    } else {
      var before, last := events[..|events| - 1], events[|events| - 1];
      var init := EveryRunArises(config, floats, retries, before);
      moves := EventArises(config, floats, retries, init, last);
      assert before + [last] == events;
      ThenEvent(config, floats, before, last);
    }
  }

  lemma StartIsIdle(config: GatewayConfig, floats: Floats, retries: string -> nat)
    ensures After(config, floats, retries, []).gateway == Start(config, floats)
    ensures After(config, floats, retries, []).writes == []
    ensures forall bus :: PollerIdle(After(config, floats, retries, []), bus)
  {
    hide Start;
  }
}
