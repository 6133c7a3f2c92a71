/** Pollers and write handlers of all lines, interleaved at the grain of single exchanges.

    A poller takes the line's lock for one exchange and lets go before a retry; a write
    handler keeps it from the write through its read-backs. Who gets a free lock, and how
    every exchange ends, is arbitrary. */
module BusLock {
  import opened Core
  import Config

  const READ_BACKS := Config.WRITE_VERIFY_ATTEMPTS

  datatype Holder = Free | ByPoller | ByHandler(h: nat)

  datatype PollStage = Resting | Asking | Exchanging

  /** `attempt` counts the exchanges of the current request, from 1. */
  datatype PollTask = PollTask(request: nat, attempt: nat, stage: PollStage)

  datatype HandlerStage = Waiting | Writing | Verifying(made: nat) | Finished

  datatype WriteHandler = WriteHandler(bus: string, stage: HandlerStage)

  /** What went over a line, and whether the caller took it as a success. */
  datatype Entry =
    | Polled(bus: string, request: nat, attempt: nat, ok: bool)
    | Wrote(bus: string, h: nat, ok: bool)
    | ReadBack(bus: string, h: nat, attempt: nat, ok: bool)

  datatype Lines = Lines(
    locks: map<string, Holder>, pollers: map<string, PollTask>, handlers: seq<WriteHandler>, trace: seq<Entry>)

  const AT_REST := Lines(map[], map[], [], [])

  function LockOf(s: Lines, bus: string): Holder {
    if bus in s.locks then s.locks[bus] else Free
  }

  function PollerOf(s: Lines, bus: string): PollTask {
    if bus in s.pollers then s.pollers[bus] else PollTask(0, 1, Resting)
  }

  datatype Action =
    | NextRequest(bus: string)
    | PollerLocks(bus: string)
    | PollerExchanges(bus: string, ok: bool)
    | WriteArrives(bus: string)
    | HandlerLocks(h: nat)
    | HandlerWrites(h: nat, ok: bool)
    | HandlerReads(h: nat, ok: bool)

  predicate Can(s: Lines, action: Action) {
    match action
    case NextRequest(bus) => PollerOf(s, bus).stage.Resting?
    case PollerLocks(bus) => PollerOf(s, bus).stage.Asking? && LockOf(s, bus).Free?
    case PollerExchanges(bus, _) => PollerOf(s, bus).stage.Exchanging?
    case WriteArrives(_) => true
    case HandlerLocks(h) => h < |s.handlers| && s.handlers[h].stage.Waiting? && LockOf(s, s.handlers[h].bus).Free?
    case HandlerWrites(h, _) => h < |s.handlers| && s.handlers[h].stage.Writing?
    case HandlerReads(h, _) => h < |s.handlers| && s.handlers[h].stage.Verifying?
  }

  function SetPoller(s: Lines, bus: string, holder: Holder, poller: PollTask): Lines {
    s.(locks := s.locks[bus := holder], pollers := s.pollers[bus := poller])
  }

  function SetHandler(s: Lines, h: nat, holder: Holder, stage: HandlerStage): Lines
    requires h < |s.handlers|
  {
    s.(locks := s.locks[s.handlers[h].bus := holder], handlers := s.handlers[h := s.handlers[h].(stage := stage)])
  }

  function Log(s: Lines, entry: Entry): Lines { s.(trace := s.trace + [entry]) }

  function Do(retries: string -> nat, s: Lines, action: Action): Lines {
    if !Can(s, action) then s
    else
      match action
      case NextRequest(bus) =>
        s.(pollers := s.pollers[bus := PollTask(PollerOf(s, bus).request + 1, 1, Asking)])
      case PollerLocks(bus) =>
        SetPoller(s, bus, ByPoller, PollerOf(s, bus).(stage := Exchanging))
      case PollerExchanges(bus, ok) =>
        var poller := PollerOf(s, bus);
        var logged := Log(s, Polled(bus, poller.request, poller.attempt, ok));
        if ok || poller.attempt >= retries(bus) + 1
        then SetPoller(logged, bus, Free, poller.(stage := Resting))
        else SetPoller(logged, bus, Free, poller.(attempt := poller.attempt + 1, stage := Asking))
      case WriteArrives(bus) =>
        s.(handlers := s.handlers + [WriteHandler(bus, Waiting)])
      case HandlerLocks(h) =>
        SetHandler(s, h, ByHandler(h), Writing)
      case HandlerWrites(h, ok) =>
        var logged := Log(s, Wrote(s.handlers[h].bus, h, ok));
        if ok then SetHandler(logged, h, ByHandler(h), Verifying(0)) else SetHandler(logged, h, Free, Finished)
      case HandlerReads(h, ok) =>
        var made := s.handlers[h].stage.made + 1;
        var logged := Log(s, ReadBack(s.handlers[h].bus, h, made, ok));
        if ok || made >= READ_BACKS then SetHandler(logged, h, Free, Finished)
        else SetHandler(logged, h, ByHandler(h), Verifying(made))
  }

  function Runs(retries: string -> nat, actions: seq<Action>): Lines {
    if actions == [] then AT_REST
    else Do(retries, Runs(retries, actions[..|actions| - 1]), actions[|actions| - 1])
  }

  /* ---------- Mutual exclusion ---------- */

  predicate Busy(stage: HandlerStage) { stage.Writing? || stage.Verifying? }

  /** A lock says exactly who is at the line. */
  ghost predicate Exclusive(s: Lines) {
    && (forall bus :: PollerOf(s, bus).stage.Exchanging? <==> LockOf(s, bus) == ByPoller)
    && (forall h :: 0 <= h < |s.handlers| ==> (Busy(s.handlers[h].stage) <==> LockOf(s, s.handlers[h].bus) == ByHandler(h)))
    && (forall bus :: LockOf(s, bus).ByHandler? ==>
          LockOf(s, bus).h < |s.handlers| && s.handlers[LockOf(s, bus).h].bus == bus)
  }

  lemma PollerMovesExclusively(s: Lines, bus: string, holder: Holder, poller: PollTask)
    requires Exclusive(s) && !LockOf(s, bus).ByHandler? && !holder.ByHandler?
    requires (poller.stage.Exchanging? <==> holder == ByPoller)
    ensures Exclusive(SetPoller(s, bus, holder, poller))
  {
    var after := SetPoller(s, bus, holder, poller);
    forall h | 0 <= h < |s.handlers|
      ensures Busy(after.handlers[h].stage) <==> LockOf(after, after.handlers[h].bus) == ByHandler(h)
    {
      assert Busy(s.handlers[h].stage) <==> LockOf(s, s.handlers[h].bus) == ByHandler(h);
    }
    forall b ensures PollerOf(after, b).stage.Exchanging? <==> LockOf(after, b) == ByPoller {
      assert PollerOf(s, b).stage.Exchanging? <==> LockOf(s, b) == ByPoller;
    }
    forall b | LockOf(after, b).ByHandler?
      ensures LockOf(after, b).h < |after.handlers| && after.handlers[LockOf(after, b).h].bus == b
    {
      assert LockOf(s, b).ByHandler?;
    }
  }

  lemma HandlerMovesExclusively(s: Lines, h: nat, holder: Holder, stage: HandlerStage)
    requires Exclusive(s) && h < |s.handlers|
    requires LockOf(s, s.handlers[h].bus).Free? || LockOf(s, s.handlers[h].bus) == ByHandler(h)
    requires holder == if Busy(stage) then ByHandler(h) else Free
    ensures Exclusive(SetHandler(s, h, holder, stage))
  {
    var after := SetHandler(s, h, holder, stage);
    forall g | 0 <= g < |s.handlers|
      ensures Busy(after.handlers[g].stage) <==> LockOf(after, after.handlers[g].bus) == ByHandler(g)
    {
      assert Busy(s.handlers[g].stage) <==> LockOf(s, s.handlers[g].bus) == ByHandler(g);
    }
    forall b ensures PollerOf(after, b).stage.Exchanging? <==> LockOf(after, b) == ByPoller {
      assert PollerOf(s, b).stage.Exchanging? <==> LockOf(s, b) == ByPoller;
    }
    forall b | LockOf(after, b).ByHandler?
      ensures LockOf(after, b).h < |after.handlers| && after.handlers[LockOf(after, b).h].bus == b
    {
      assert LockOf(s, b).ByHandler? || b == s.handlers[h].bus;
    }
  }

  lemma LogIsExclusive(s: Lines, entry: Entry)
    requires Exclusive(s)
    ensures Exclusive(Log(s, entry))
  {
    assert forall bus :: PollerOf(Log(s, entry), bus) == PollerOf(s, bus) && LockOf(Log(s, entry), bus) == LockOf(s, bus);
  }

  lemma RequestIsExclusive(s: Lines, bus: string, poller: PollTask)
    requires Exclusive(s) && PollerOf(s, bus).stage.Resting? && !poller.stage.Exchanging?
    ensures Exclusive(s.(pollers := s.pollers[bus := poller]))
  {
    var after := s.(pollers := s.pollers[bus := poller]);
    assert forall b :: LockOf(after, b) == LockOf(s, b);
    forall b ensures PollerOf(after, b).stage.Exchanging? <==> LockOf(after, b) == ByPoller {
      assert PollerOf(s, b).stage.Exchanging? <==> LockOf(s, b) == ByPoller;
    }
  }

  lemma ArrivalIsExclusive(s: Lines, bus: string)
    requires Exclusive(s)
    ensures Exclusive(s.(handlers := s.handlers + [WriteHandler(bus, Waiting)]))
  {
    var after := s.(handlers := s.handlers + [WriteHandler(bus, Waiting)]);
    assert forall b :: LockOf(after, b) == LockOf(s, b) && PollerOf(after, b) == PollerOf(s, b);
    assert LockOf(s, bus) != ByHandler(|s.handlers|);
  }

  /** What is known about the line of the one that moves. */
  lemma LineOf(s: Lines, bus: string)
    requires Exclusive(s)
    ensures PollerOf(s, bus).stage.Exchanging? <==> LockOf(s, bus) == ByPoller
    ensures forall h :: 0 <= h < |s.handlers| && s.handlers[h].bus == bus ==>
              (Busy(s.handlers[h].stage) <==> LockOf(s, bus) == ByHandler(h))
  {}

  lemma StaysExclusive(retries: string -> nat, s: Lines, action: Action)
    requires Exclusive(s)
    ensures Exclusive(Do(retries, s, action))
  {
    hide Exclusive, LockOf;
    if Can(s, action) {
      match action {
        case NextRequest(bus) =>
          RequestIsExclusive(s, bus, PollTask(PollerOf(s, bus).request + 1, 1, Asking));
        case PollerLocks(bus) =>
          PollerMovesExclusively(s, bus, ByPoller, PollerOf(s, bus).(stage := Exchanging));
        case PollerExchanges(bus, ok) =>
          var poller := PollerOf(s, bus);
          var logged := Log(s, Polled(bus, poller.request, poller.attempt, ok));
          LogIsExclusive(s, Polled(bus, poller.request, poller.attempt, ok));
          LineOf(logged, bus);
          PollerMovesExclusively(logged, bus, Free,
            if ok || poller.attempt >= retries(bus) + 1 then poller.(stage := Resting)
            else poller.(attempt := poller.attempt + 1, stage := Asking));
        case WriteArrives(bus) =>
          ArrivalIsExclusive(s, bus);
        case HandlerLocks(h) =>
          HandlerMovesExclusively(s, h, ByHandler(h), Writing);
        case HandlerWrites(h, ok) =>
          var entry := Wrote(s.handlers[h].bus, h, ok);
          LogIsExclusive(s, entry);
          LineOf(Log(s, entry), s.handlers[h].bus);
          HandlerMovesExclusively(Log(s, entry), h, if ok then ByHandler(h) else Free,
            if ok then Verifying(0) else Finished);
        case HandlerReads(h, ok) =>
          var made := s.handlers[h].stage.made + 1;
          var entry := ReadBack(s.handlers[h].bus, h, made, ok);
          var done := ok || made >= READ_BACKS;
          LogIsExclusive(s, entry);
          LineOf(Log(s, entry), s.handlers[h].bus);
          HandlerMovesExclusively(Log(s, entry), h, if done then Free else ByHandler(h),
            if done then Finished else Verifying(made));
      }
    }
  }

  /* ---------- What the trace looks like ---------- */

  predicate IsBy(entry: Entry, h: nat) { !entry.Polled? && entry.h == h }

  predicate ReadsBack(entry: Entry, h: nat) { entry.ReadBack? && entry.h == h }

  /** From a handler's write on, everything on its line is the handler's own. */
  predicate OwnSince(trace: seq<Entry>, bus: string, h: nat) {
    forall i, k :: 0 <= i < k < |trace| && trace[i].Wrote? && trace[i].h == h && trace[k].bus == bus ==> IsBy(trace[k], h)
  }

  /** Between a write and any of its read-backs nothing else happened on the line. */
  predicate WritesAreShielded(trace: seq<Entry>) {
    forall i, k, j ::
      0 <= i < k < j < |trace| && trace[i].Wrote? && ReadsBack(trace[j], trace[i].h) && trace[k].bus == trace[i].bus ==>
        IsBy(trace[k], trace[i].h)
  }

  /** A handler's entries: its write comes first, then read-backs in increasing attempts, all
      but the last of them failed. */
  predicate HandlerOrder(trace: seq<Entry>, i: nat, j: nat)
    requires i < j < |trace|
  {
    !trace[i].Polled? && !trace[j].Polled? && trace[i].h == trace[j].h ==>
      && trace[i].bus == trace[j].bus
      && trace[j].ReadBack?
      && (trace[i].Wrote? ==> trace[i].ok)
      && (trace[i].ReadBack? ==> !trace[i].ok && trace[i].attempt < trace[j].attempt)
  }

  /** The exchanges of one request: increasing attempts, all but the last of them failed. */
  predicate RequestOrder(trace: seq<Entry>, i: nat, j: nat)
    requires i < j < |trace|
  {
    trace[i].Polled? && trace[j].Polled? && trace[i].bus == trace[j].bus && trace[i].request == trace[j].request ==>
      !trace[i].ok && trace[i].attempt < trace[j].attempt
  }

  /** The entry an exchange must come after: a first read-back the successful write, any other
      attempt the failed one before it. */
  function Previous(entry: Entry): Option<Entry> {
    match entry
    case ReadBack(bus, h, attempt, _) =>
      Some(if attempt <= 1 then Wrote(bus, h, true) else ReadBack(bus, h, attempt - 1, false))
    case Polled(bus, request, attempt, _) => if attempt <= 1 then None else Some(Polled(bus, request, attempt - 1, false))
    case Wrote(_, _, _) => None
  }

  /** No attempt is left out. */
  predicate Continues(trace: seq<Entry>, j: nat)
    requires j < |trace|
  {
    Previous(trace[j]).Some? ==> Previous(trace[j]).value in trace[..j]
  }

  predicate InBounds(retries: string -> nat, entry: Entry) {
    match entry
    case Polled(bus, _, attempt, _) => 1 <= attempt <= retries(bus) + 1
    case Wrote(_, _, _) => true
    case ReadBack(_, _, attempt, _) => 1 <= attempt <= READ_BACKS
  }

  ghost predicate Orderly(retries: string -> nat, trace: seq<Entry>) {
    && WritesAreShielded(trace)
    && (forall i, j :: 0 <= i < j < |trace| ==> HandlerOrder(trace, i, j))
    && (forall i, j :: 0 <= i < j < |trace| ==> RequestOrder(trace, i, j))
    && (forall i :: 0 <= i < |trace| ==> InBounds(retries, trace[i]))
  }

  /* What ties the tasks to the trace. */

  /** The trace has nothing of a handler that has not written, and of a verifying one its
      write and failed read-backs up to `made`. */
  predicate HandlerSoFar(s: Lines, i: nat)
    requires i < |s.trace|
  {
    var entry := s.trace[i];
    !entry.Polled? ==>
      && entry.h < |s.handlers| && s.handlers[entry.h].bus == entry.bus
      && !s.handlers[entry.h].stage.Waiting? && !s.handlers[entry.h].stage.Writing?
      && (s.handlers[entry.h].stage.Verifying? ==>
            if entry.Wrote? then entry.ok else entry.ReadBack? && !entry.ok && entry.attempt <= s.handlers[entry.h].stage.made)
  }

  predicate RequestSoFar(s: Lines, i: nat)
    requires i < |s.trace|
  {
    var entry := s.trace[i];
    entry.Polled? ==>
      && entry.request <= PollerOf(s, entry.bus).request
      && (entry.request == PollerOf(s, entry.bus).request && !PollerOf(s, entry.bus).stage.Resting? ==>
            !entry.ok && entry.attempt < PollerOf(s, entry.bus).attempt)
  }

  predicate StageInBounds(retries: string -> nat, s: Lines, bus: string) {
    1 <= PollerOf(s, bus).attempt <= retries(bus) + 1
  }

  ghost predicate Consistent(retries: string -> nat, s: Lines) {
    && (forall i :: 0 <= i < |s.trace| ==> HandlerSoFar(s, i))
    && (forall i :: 0 <= i < |s.trace| ==> RequestSoFar(s, i))
    && (forall bus :: StageInBounds(retries, s, bus))
    && (forall h :: 0 <= h < |s.handlers| && s.handlers[h].stage.Verifying? ==>
          s.handlers[h].stage.made < READ_BACKS && OwnSince(s.trace, s.handlers[h].bus, h))
  }

  lemma SilentStep(retries: string -> nat, s: Lines, action: Action)
    requires Exclusive(s) && Consistent(retries, s) && Can(s, action)
    requires action.NextRequest? || action.PollerLocks? || action.WriteArrives? || action.HandlerLocks?
    ensures Do(retries, s, action).trace == s.trace && Consistent(retries, Do(retries, s, action))
  {
    hide OwnSince;
    var after := Do(retries, s, action);
    forall i | 0 <= i < |after.trace| ensures HandlerSoFar(after, i) && RequestSoFar(after, i) {
      assert HandlerSoFar(s, i) && RequestSoFar(s, i);
    }
    forall bus ensures StageInBounds(retries, after, bus) {
      assert StageInBounds(retries, s, bus);
    }
  }

  /** The last entry of a trace fits the earlier ones. */
  ghost predicate Fits(trace: seq<Entry>, entry: Entry) {
    var longer := trace + [entry];
    && (forall i :: 0 <= i < |trace| ==> HandlerOrder(longer, i, |trace|) && RequestOrder(longer, i, |trace|))
    && (entry.ReadBack? ==> OwnSince(trace, entry.bus, entry.h) && WrittenOn(trace, entry.bus, entry.h))
  }

  predicate WrittenOn(trace: seq<Entry>, bus: string, h: nat) {
    forall i :: 0 <= i < |trace| && trace[i].Wrote? && trace[i].h == h ==> trace[i].bus == bus
  }

  lemma FittingEntry(retries: string -> nat, trace: seq<Entry>, entry: Entry)
    requires Orderly(retries, trace) && InBounds(retries, entry) && Fits(trace, entry)
    ensures Orderly(retries, trace + [entry])
  {
    var longer, last := trace + [entry], |trace|;
    assert forall i :: 0 <= i < last ==> longer[i] == trace[i];
    assert forall i :: 0 <= i < |longer| ==> InBounds(retries, longer[i]);
    forall i, j | 0 <= i < j < |longer| ensures HandlerOrder(longer, i, j) && RequestOrder(longer, i, j) {
      if j < last {
        assert HandlerOrder(trace, i, j) && RequestOrder(trace, i, j);
      }
    }
    ShieldExtends(trace, entry);
  }

  lemma ShieldExtends(trace: seq<Entry>, entry: Entry)
    requires WritesAreShielded(trace) && Fits(trace, entry)
    ensures WritesAreShielded(trace + [entry])
  {
    hide HandlerOrder, RequestOrder, IsBy;
    var longer, last := trace + [entry], |trace|;
    forall i, k, j | 0 <= i < k < j < |longer| && longer[i].Wrote? && ReadsBack(longer[j], longer[i].h) &&
                     longer[k].bus == longer[i].bus
      ensures IsBy(longer[k], longer[i].h)
    {
      assert longer[i] == trace[i] && longer[k] == trace[k];
      if j < last {
        assert ReadsBack(trace[j], trace[i].h);
      }
    }
  }

  lemma PollFits(retries: string -> nat, s: Lines, bus: string, ok: bool)
    requires Consistent(retries, s) && PollerOf(s, bus).stage.Exchanging?
    ensures var entry := Polled(bus, PollerOf(s, bus).request, PollerOf(s, bus).attempt, ok);
            Fits(s.trace, entry) && InBounds(retries, entry)
  {
    hide OwnSince, HandlerSoFar;
    var longer := s.trace + [Polled(bus, PollerOf(s, bus).request, PollerOf(s, bus).attempt, ok)];
    assert StageInBounds(retries, s, bus);
    forall i | 0 <= i < |s.trace| ensures HandlerOrder(longer, i, |s.trace|) && RequestOrder(longer, i, |s.trace|) {
      assert RequestSoFar(s, i) && longer[i] == s.trace[i];
    }
  }

  lemma WriteFits(retries: string -> nat, s: Lines, h: nat, ok: bool)
    requires Consistent(retries, s) && h < |s.handlers| && s.handlers[h].stage.Writing?
    ensures Fits(s.trace, Wrote(s.handlers[h].bus, h, ok))
  {
    hide OwnSince, RequestSoFar;
    var longer := s.trace + [Wrote(s.handlers[h].bus, h, ok)];
    forall i | 0 <= i < |s.trace| ensures HandlerOrder(longer, i, |s.trace|) && RequestOrder(longer, i, |s.trace|) {
      assert HandlerSoFar(s, i) && longer[i] == s.trace[i];
    }
  }

  lemma ReadFits(retries: string -> nat, s: Lines, h: nat, ok: bool)
    requires Consistent(retries, s) && h < |s.handlers| && s.handlers[h].stage.Verifying?
    ensures var entry := ReadBack(s.handlers[h].bus, h, s.handlers[h].stage.made + 1, ok);
            Fits(s.trace, entry) && InBounds(retries, entry)
  {
    hide OwnSince, RequestSoFar;
    var longer := s.trace + [ReadBack(s.handlers[h].bus, h, s.handlers[h].stage.made + 1, ok)];
    assert OwnSince(s.trace, s.handlers[h].bus, h);
    forall i | 0 <= i < |s.trace| ensures HandlerOrder(longer, i, |s.trace|) && RequestOrder(longer, i, |s.trace|) {
      assert HandlerSoFar(s, i) && longer[i] == s.trace[i];
    }
    forall i | 0 <= i < |s.trace| && s.trace[i].Wrote? && s.trace[i].h == h ensures s.trace[i].bus == s.handlers[h].bus {
      assert HandlerSoFar(s, i);
    }
  }

  /** Where another handler is verifying, this exchange did not happen. */
  lemma OthersOwnSince(s: Lines, entry: Entry, h: nat)
    requires Exclusive(s) && h < |s.handlers| && s.handlers[h].stage.Verifying? && OwnSince(s.trace, s.handlers[h].bus, h)
    requires LockOf(s, entry.bus) == ByHandler(h) ==> IsBy(entry, h)
    ensures OwnSince(s.trace + [entry], s.handlers[h].bus, h)
  {
    assert LockOf(s, s.handlers[h].bus) == ByHandler(h);
  }

  lemma PollConsistent(retries: string -> nat, s: Lines, bus: string, ok: bool)
    requires Exclusive(s) && Consistent(retries, s) && PollerOf(s, bus).stage.Exchanging?
    ensures Consistent(retries, Do(retries, s, PollerExchanges(bus, ok)))
  {
    hide OwnSince;
    var after := Do(retries, s, PollerExchanges(bus, ok));
    assert LockOf(s, bus) == ByPoller;
    assert StageInBounds(retries, s, bus);
    forall i | 0 <= i < |after.trace| ensures HandlerSoFar(after, i) && RequestSoFar(after, i) {
      if i < |s.trace| {
        assert HandlerSoFar(s, i) && RequestSoFar(s, i);
      }
    }
    forall b ensures StageInBounds(retries, after, b) {
      assert StageInBounds(retries, s, b);
    }
    forall h | 0 <= h < |s.handlers| && s.handlers[h].stage.Verifying? ensures OwnSince(after.trace, s.handlers[h].bus, h) {
      OthersOwnSince(s, after.trace[|s.trace|], h);
    }
  }

  /** A handler's exchange leaves everything consistent that is not its own. */
  lemma HandlerConsistent(retries: string -> nat, s: Lines, h: nat, entry: Entry, holder: Holder, stage: HandlerStage)
    requires Exclusive(s) && Consistent(retries, s) && h < |s.handlers| && Busy(s.handlers[h].stage)
    requires !entry.Polled? && entry.h == h && entry.bus == s.handlers[h].bus
    requires stage.Finished? || (stage.Verifying? && stage.made < READ_BACKS)
    requires var after := SetHandler(Log(s, entry), h, holder, stage);
             && OwnSince(after.trace, entry.bus, h)
             && forall i :: 0 <= i < |after.trace| && IsBy(after.trace[i], h) ==> HandlerSoFar(after, i)
    ensures Consistent(retries, SetHandler(Log(s, entry), h, holder, stage))
  {
    hide OwnSince;
    var after := SetHandler(Log(s, entry), h, holder, stage);
    assert LockOf(s, entry.bus) == ByHandler(h);
    forall i | 0 <= i < |after.trace| ensures HandlerSoFar(after, i) && RequestSoFar(after, i) {
      if i < |s.trace| {
        assert HandlerSoFar(s, i) && RequestSoFar(s, i);
      }
    }
    forall b ensures StageInBounds(retries, after, b) {
      assert StageInBounds(retries, s, b);
    }
    forall g | 0 <= g < |after.handlers| && g != h && after.handlers[g].stage.Verifying?
      ensures OwnSince(after.trace, after.handlers[g].bus, g)
    {
      OthersOwnSince(s, entry, g);
    }
  }

  lemma WriteConsistent(retries: string -> nat, s: Lines, h: nat, ok: bool)
    requires Exclusive(s) && Consistent(retries, s) && h < |s.handlers| && s.handlers[h].stage.Writing?
    ensures Consistent(retries, Do(retries, s, HandlerWrites(h, ok)))
  {
    hide Consistent, Exclusive;
    var entry := Wrote(s.handlers[h].bus, h, ok);
    forall i | 0 <= i < |s.trace| ensures !IsBy(s.trace[i], h) {
      HandlerEntries(retries, s, i);
    }
    HandlerConsistent(retries, s, h, entry, if ok then ByHandler(h) else Free, if ok then Verifying(0) else Finished);
  }

  lemma HandlerEntries(retries: string -> nat, s: Lines, i: nat)
    requires Consistent(retries, s) && i < |s.trace|
    ensures HandlerSoFar(s, i)
  {}

  lemma StillOwn(trace: seq<Entry>, entry: Entry, h: nat)
    requires OwnSince(trace, entry.bus, h) && IsBy(entry, h)
    ensures OwnSince(trace + [entry], entry.bus, h)
  {
    hide IsBy;
  }

  lemma VerifyingFacts(retries: string -> nat, s: Lines, h: nat)
    requires Exclusive(s) && Consistent(retries, s) && h < |s.handlers| && s.handlers[h].stage.Verifying?
    ensures s.handlers[h].stage.made < READ_BACKS && OwnSince(s.trace, s.handlers[h].bus, h)
  {
    hide OwnSince;
  }

  lemma ReadConsistent(retries: string -> nat, s: Lines, h: nat, ok: bool)
    requires Exclusive(s) && Consistent(retries, s) && h < |s.handlers| && s.handlers[h].stage.Verifying?
    ensures Consistent(retries, Do(retries, s, HandlerReads(h, ok)))
  {
    hide Consistent, Exclusive;
    var made := s.handlers[h].stage.made + 1;
    var entry := ReadBack(s.handlers[h].bus, h, made, ok);
    var done := ok || made >= READ_BACKS;
    VerifyingFacts(retries, s, h);
    StillOwn(s.trace, entry, h);
    var holder, stage := if done then Free else ByHandler(h), if done then Finished else Verifying(made);
    var after := SetHandler(Log(s, entry), h, holder, stage);
    forall i | 0 <= i < |after.trace| && IsBy(after.trace[i], h) ensures HandlerSoFar(after, i) {
      if i < |s.trace| {
        HandlerEntries(retries, s, i);
        assert after.trace[i] == s.trace[i];
      }
    }
    HandlerConsistent(retries, s, h, entry, holder, stage);
  }

  lemma StepStaysOrderly(retries: string -> nat, s: Lines, action: Action)
    requires Exclusive(s) && Consistent(retries, s) && Orderly(retries, s.trace)
    ensures var after := Do(retries, s, action);
            Exclusive(after) && Consistent(retries, after) && Orderly(retries, after.trace)
  {
    hide Exclusive, Consistent, Orderly, Fits;
    StaysExclusive(retries, s, action);
    if Can(s, action) {
      match action {
        case PollerExchanges(bus, ok) =>
          var poller := PollerOf(s, bus);
          PollFits(retries, s, bus, ok);
          PollConsistent(retries, s, bus, ok);
          FittingEntry(retries, s.trace, Polled(bus, poller.request, poller.attempt, ok));
        case HandlerWrites(h, ok) =>
          WriteFits(retries, s, h, ok);
          WriteConsistent(retries, s, h, ok);
          FittingEntry(retries, s.trace, Wrote(s.handlers[h].bus, h, ok));
        case HandlerReads(h, ok) =>
          ReadFits(retries, s, h, ok);
          ReadConsistent(retries, s, h, ok);
          FittingEntry(retries, s.trace, ReadBack(s.handlers[h].bus, h, s.handlers[h].stage.made + 1, ok));
        case _ =>
          SilentStep(retries, s, action);
      }
    }
  }

  lemma {:induction false} RunsStayOrderly(retries: string -> nat, actions: seq<Action>)
    ensures var s := Runs(retries, actions);
            Exclusive(s) && Consistent(retries, s) && Orderly(retries, s.trace)
    decreases |actions|
  {
    hide Do;
    if actions != [] {
      RunsStayOrderly(retries, actions[..|actions| - 1]);
      StepStaysOrderly(retries, Runs(retries, actions[..|actions| - 1]), actions[|actions| - 1]);
    }
  }

  /* ---------- No attempt is left out ---------- */

  predicate PollerContinues(s: Lines, bus: string) {
    var poller := PollerOf(s, bus);
    !poller.stage.Resting? && poller.attempt > 1 ==> Polled(bus, poller.request, poller.attempt - 1, false) in s.trace
  }

  predicate HandlerContinues(s: Lines, h: nat)
    requires h < |s.handlers|
  {
    var handler := s.handlers[h];
    handler.stage.Verifying? ==>
      (if handler.stage.made == 0 then Wrote(handler.bus, h, true) else ReadBack(handler.bus, h, handler.stage.made, false))
      in s.trace
  }

  ghost predicate Complete(s: Lines) {
    && (forall j :: 0 <= j < |s.trace| ==> Continues(s.trace, j))
    && (forall bus :: PollerContinues(s, bus))
    && (forall h :: 0 <= h < |s.handlers| ==> HandlerContinues(s, h))
  }

  lemma LogContinues(trace: seq<Entry>, entry: Entry)
    requires forall j :: 0 <= j < |trace| ==> Continues(trace, j)
    requires Previous(entry).Some? ==> Previous(entry).value in trace
    ensures forall j :: 0 <= j < |trace| + 1 ==> Continues(trace + [entry], j)
    ensures entry in trace + [entry] && forall e :: e in trace ==> e in trace + [entry]
  {
    hide Previous;
    var longer := trace + [entry];
    assert longer[|trace|] == entry && longer[..|trace|] == trace;
    forall j | 0 <= j < |trace| ensures Continues(longer, j) {
      assert Continues(trace, j) && longer[..j] == trace[..j];
    }
  }

  lemma PollStaysComplete(s: Lines, entry: Entry, poller: PollTask)
    requires Complete(s) && entry.Polled? && (Previous(entry).Some? ==> Previous(entry).value in s.trace)
    requires poller.stage.Resting? || (!entry.ok && poller == PollTask(entry.request, entry.attempt + 1, Asking))
    ensures Complete(SetPoller(Log(s, entry), entry.bus, Free, poller))
  {
    hide Continues, Previous;
    var after := SetPoller(Log(s, entry), entry.bus, Free, poller);
    LogContinues(s.trace, entry);
    forall b ensures PollerContinues(after, b) {
      assert PollerContinues(s, b);
    }
    forall g | 0 <= g < |after.handlers| ensures HandlerContinues(after, g) {
      assert HandlerContinues(s, g);
    }
  }

  lemma HandlerStaysComplete(s: Lines, h: nat, entry: Entry, holder: Holder, stage: HandlerStage)
    requires Complete(s) && h < |s.handlers| && (Previous(entry).Some? ==> Previous(entry).value in s.trace)
    requires stage.Verifying? ==>
               entry == if stage.made == 0 then Wrote(s.handlers[h].bus, h, true)
                        else ReadBack(s.handlers[h].bus, h, stage.made, false)
    ensures Complete(SetHandler(Log(s, entry), h, holder, stage))
  {
    hide Continues, Previous;
    var after := SetHandler(Log(s, entry), h, holder, stage);
    LogContinues(s.trace, entry);
    forall b ensures PollerContinues(after, b) {
      assert PollerContinues(s, b);
    }
    forall g | 0 <= g < |after.handlers| ensures HandlerContinues(after, g) {
      assert HandlerContinues(s, g);
    }
  }

  lemma SilentStaysComplete(retries: string -> nat, s: Lines, action: Action)
    requires Complete(s) && Can(s, action)
    requires action.NextRequest? || action.PollerLocks? || action.WriteArrives? || action.HandlerLocks?
    ensures Complete(Do(retries, s, action))
  {
    hide Continues;
    var after := Do(retries, s, action);
    forall b ensures PollerContinues(after, b) {
      assert PollerContinues(s, b);
    }
    forall g | 0 <= g < |after.handlers| ensures HandlerContinues(after, g) {
      assert g < |s.handlers| ==> HandlerContinues(s, g);
    }
  }

  lemma StaysComplete(retries: string -> nat, s: Lines, action: Action)
    requires Complete(s)
    ensures Complete(Do(retries, s, action))
  {
    hide Complete;
    if Can(s, action) {
      match action {
        case PollerExchanges(bus, ok) =>
          var poller := PollerOf(s, bus);
          assert PollerContinues(s, bus) by { PollerFacts(s, bus); }
          PollStaysComplete(s, Polled(bus, poller.request, poller.attempt, ok),
            if ok || poller.attempt >= retries(bus) + 1 then poller.(stage := Resting)
            else poller.(attempt := poller.attempt + 1, stage := Asking));
        case HandlerWrites(h, ok) =>
          HandlerStaysComplete(s, h, Wrote(s.handlers[h].bus, h, ok), if ok then ByHandler(h) else Free,
            if ok then Verifying(0) else Finished);
        case HandlerReads(h, ok) =>
          var made := s.handlers[h].stage.made + 1;
          var done := ok || made >= READ_BACKS;
          assert HandlerContinues(s, h) by { HandlerFacts(s, h); }
          HandlerStaysComplete(s, h, ReadBack(s.handlers[h].bus, h, made, ok), if done then Free else ByHandler(h),
            if done then Finished else Verifying(made));
        case _ =>
          SilentStaysComplete(retries, s, action);
      }
    }
  }

  lemma PollerFacts(s: Lines, bus: string)
    requires Complete(s)
    ensures PollerContinues(s, bus)
  {}

  lemma HandlerFacts(s: Lines, h: nat)
    requires Complete(s) && h < |s.handlers|
    ensures HandlerContinues(s, h)
  {}

  lemma {:induction false} RunsStayComplete(retries: string -> nat, actions: seq<Action>)
    ensures Complete(Runs(retries, actions))
    decreases |actions|
  {
    hide Do;
    if actions != [] {
      RunsStayComplete(retries, actions[..|actions| - 1]);
      StaysComplete(retries, Runs(retries, actions[..|actions| - 1]), actions[|actions| - 1]);
    }
  }

  /** In every interleaving: between a write and the last of its at most three read-backs
      nothing else is exchanged on the line; a request makes at most `retries + 1` exchanges;
      attempts run 1, 2, 3 without a gap, read-backs after a write that succeeded, and
      neither a request nor a verification goes on after a success. */
  lemma BusExclusivity(retries: string -> nat, actions: seq<Action>)
    ensures var trace := Runs(retries, actions).trace;
            && WritesAreShielded(trace)
            && (forall i, j :: 0 <= i < j < |trace| ==> HandlerOrder(trace, i, j) && RequestOrder(trace, i, j))
            && (forall j :: 0 <= j < |trace| ==> Continues(trace, j) && InBounds(retries, trace[j]))
  {
    hide Runs;
    RunsStayOrderly(retries, actions);
    RunsStayComplete(retries, actions);
  }

  /** At any moment at most one poller or handler is at a line. */
  lemma OneTaskAtALine(retries: string -> nat, actions: seq<Action>, bus: string, g: nat, h: nat)
    requires var s := Runs(retries, actions);
             g < |s.handlers| && h < |s.handlers| && s.handlers[g].bus == bus && s.handlers[h].bus == bus
             && Busy(s.handlers[g].stage)
    ensures var s := Runs(retries, actions);
            !PollerOf(s, bus).stage.Exchanging? && (Busy(s.handlers[h].stage) ==> g == h)
  {
    hide Runs;
    RunsStayOrderly(retries, actions);
    assert LockOf(Runs(retries, actions), bus) == ByHandler(g);
  }
}
