/** Health of one point: consecutive failures, channel status, and the cycles it is skipped
    before the next recovery attempt. */
module Health {
  import opened Config

  const CHANNEL_DISABLED := 0
  const CHANNEL_OK := 1
  const CHANNEL_COMM_ERROR := 2
  const CHANNEL_PROTOCOL_ERROR := 3
  const CHANNEL_FAILED := 4

  datatype PointState = PointState(consecutiveFailures: nat, channelStatus: nat, recoverySkipCycles: int)

  const INITIAL_POINT_STATE := PointState(0, CHANNEL_COMM_ERROR, 0)

  /** `_failure_status` on a point whose failure has just been counted. */
  function FailureStatus(state: PointState, health: HealthConfig, transientStatus: nat): PointState {
    if state.consecutiveFailures >= health.faultAfterFailures
    then state.(channelStatus := CHANNEL_FAILED, recoverySkipCycles := health.recoveryPollIntervalCycles - 1)
    else state.(channelStatus := transientStatus)
  }

  function AfterFailure(state: PointState, health: HealthConfig, transientStatus: nat): PointState {
    FailureStatus(state.(consecutiveFailures := state.consecutiveFailures + 1), health, transientStatus)
  }

  function AfterSuccess(state: PointState): PointState {
    state.(consecutiveFailures := 0, channelStatus := CHANNEL_OK)
  }

  function AfterEmpty(state: PointState): PointState {
    state.(consecutiveFailures := 0, channelStatus := CHANNEL_DISABLED)
  }

  function AfterSkip(state: PointState): PointState {
    state.(recoverySkipCycles := state.recoverySkipCycles - 1)
  }

  predicate Skipped(state: PointState) { state.recoverySkipCycles > 0 }

  datatype Attempt = Replied | RepliedEmpty | TimedOut | GarbledReply | BrokenLine

  predicate Fails(attempt: Attempt) { !attempt.Replied? && !attempt.RepliedEmpty? }

  /** A turn that is passed over, the end of an exchange, or a verified write. */
  datatype HealthEvent = TurnSkipped | Answered(attempt: Attempt) | Written

  function TransientStatus(attempt: Attempt): nat {
    if attempt.GarbledReply? then CHANNEL_PROTOCOL_ERROR else CHANNEL_COMM_ERROR
  }

  /** What an event does to a point's record. A turn is only passed over while there are
      cycles to skip; an exchange ends as it ends, whatever became of the record since it
      was started. */
  function HealthStep(state: PointState, health: HealthConfig, event: HealthEvent): PointState {
    match event
    case TurnSkipped => if Skipped(state) then AfterSkip(state) else state
    case Written => AfterSuccess(state)
    case Answered(Replied) => AfterSuccess(state)
    case Answered(RepliedEmpty) => AfterEmpty(state)
    case Answered(attempt) => AfterFailure(state, health, TransientStatus(attempt))
  }

  function HealthRun(state: PointState, health: HealthConfig, events: seq<HealthEvent>): PointState {
    if events == [] then state
    else HealthStep(HealthRun(state, health, events[..|events| - 1]), health, events[|events| - 1])
  }

  predicate ValidHealth(health: HealthConfig) {
    health.faultAfterFailures >= 1 && health.recoveryPollIntervalCycles >= 1
  }

  /** Holds on every run, writes included. */
  predicate Sound(state: PointState, health: HealthConfig) {
    && 0 <= state.recoverySkipCycles < health.recoveryPollIntervalCycles
    && (state.channelStatus == CHANNEL_FAILED <==> state.consecutiveFailures >= health.faultAfterFailures)
  }

  /** Only failed points are passed over. */
  predicate SoundWhenPolled(state: PointState, health: HealthConfig) {
    Sound(state, health) && (Skipped(state) ==> state.channelStatus == CHANNEL_FAILED)
  }

  /** A verified write, or a successful reply, to a point with cycles left to skip leaves a
      healthy point that is passed over. */
  predicate Harmless(state: PointState, event: HealthEvent) {
    match event
    case TurnSkipped => true
    case Written => !Skipped(state)
    case Answered(attempt) => !Skipped(state) || Fails(attempt)
  }

  lemma StepKeepsSound(state: PointState, health: HealthConfig, event: HealthEvent)
    requires ValidHealth(health) && Sound(state, health)
    ensures Sound(HealthStep(state, health, event), health)
  {}

  /** Those are exactly the events that end the stronger invariant. */
  lemma StepKeepsExactly(state: PointState, health: HealthConfig, event: HealthEvent)
    requires ValidHealth(health) && SoundWhenPolled(state, health)
    ensures SoundWhenPolled(HealthStep(state, health, event), health) <==> Harmless(state, event)
  {}

  ghost predicate AllHarmless(health: HealthConfig, events: seq<HealthEvent>) {
    forall i :: 0 <= i < |events| ==> Harmless(HealthRun(INITIAL_POINT_STATE, health, events[..i]), events[i])
  }

  ghost predicate AlwaysSoundWhenPolled(health: HealthConfig, events: seq<HealthEvent>) {
    forall i :: 0 <= i <= |events| ==> SoundWhenPolled(HealthRun(INITIAL_POINT_STATE, health, events[..i]), health)
  }

  lemma LastHarmless(health: HealthConfig, init: seq<HealthEvent>, last: HealthEvent)
    ensures AllHarmless(health, init + [last]) <==>
            AllHarmless(health, init) && Harmless(HealthRun(INITIAL_POINT_STATE, health, init), last)
  {
    hide HealthRun, Harmless;
    var events := init + [last];
    forall i | 0 <= i <= |init| ensures events[..i] == init[..i] {}
    assert init[..|init|] == init && events[|init|] == last;
    if AllHarmless(health, events) {
      forall i | 0 <= i < |init| ensures Harmless(HealthRun(INITIAL_POINT_STATE, health, init[..i]), init[i]) {
        assert events[i] == init[i];
      }
    }
  }

  lemma LastSound(health: HealthConfig, init: seq<HealthEvent>, last: HealthEvent)
    ensures AlwaysSoundWhenPolled(health, init + [last]) <==>
            AlwaysSoundWhenPolled(health, init) &&
            SoundWhenPolled(HealthRun(INITIAL_POINT_STATE, health, init + [last]), health)
    ensures AlwaysSoundWhenPolled(health, init) ==> SoundWhenPolled(HealthRun(INITIAL_POINT_STATE, health, init), health)
  {
    hide HealthRun, SoundWhenPolled;
    var events := init + [last];
    forall i | 0 <= i <= |init| ensures events[..i] == init[..i] {}
    assert init[..|init|] == init && events[..|events|] == events;
  }

  /** The invariant over every history of events; its stronger form holds throughout exactly
      if every event was harmless when it came. */
  lemma {:induction false} HealthInvariant(health: HealthConfig, events: seq<HealthEvent>)
    requires ValidHealth(health)
    ensures Sound(HealthRun(INITIAL_POINT_STATE, health, events), health)
    ensures AllHarmless(health, events) <==> AlwaysSoundWhenPolled(health, events)
    decreases |events|
  {
    if events == [] {
      assert Sound(INITIAL_POINT_STATE, health) && SoundWhenPolled(INITIAL_POINT_STATE, health) by { FirstIsSound(health); }
    } else {
      hide HealthStep, Sound, SoundWhenPolled, Harmless, AllHarmless, AlwaysSoundWhenPolled;
      var init, last := events[..|events| - 1], events[|events| - 1];
      var s := HealthRun(INITIAL_POINT_STATE, health, init);
      assert init + [last] == events;
      HealthInvariant(health, init);
      LastHarmless(health, init, last);
      LastSound(health, init, last);
      StepKeepsSound(s, health, last);
      if SoundWhenPolled(s, health) {
        StepKeepsExactly(s, health, last);
      }
    }
  }

  lemma FirstIsSound(health: HealthConfig)
    requires ValidHealth(health)
    ensures SoundWhenPolled(INITIAL_POINT_STATE, health)
  {}

  /* ---------- The recovery schedule ---------- */

  /** What a point's turn comes to if nothing else happens to its record: it is passed over,
      or asked with this outcome. */
  function TurnOf(state: PointState, attempt: Attempt): HealthEvent {
    if Skipped(state) then TurnSkipped else Answered(attempt)
  }

  /** A point after `cycles` poll cycles in each of which the attempt, if one
      is made, ends as `attempts` says. */
  function Failing(health: HealthConfig, attempts: nat -> Attempt, cycles: nat): PointState {
    if cycles == 0 then INITIAL_POINT_STATE
    else
      var before := Failing(health, attempts, cycles - 1);
      HealthStep(before, health, TurnOf(before, attempts(cycles)))
  }

  predicate ExchangedIn(health: HealthConfig, attempts: nat -> Attempt, cycle: nat)
    requires cycle >= 1
  {
    !Skipped(Failing(health, attempts, cycle - 1))
  }

  ghost predicate AlwaysFails(attempts: nat -> Attempt) {
    forall cycle: nat :: Fails(attempts(cycle))
  }

  lemma {:induction false} BeforeTheFault(health: HealthConfig, attempts: nat -> Attempt, cycles: nat)
    requires ValidHealth(health) && AlwaysFails(attempts) && cycles < health.faultAfterFailures
    ensures Failing(health, attempts, cycles).consecutiveFailures == cycles
    ensures Failing(health, attempts, cycles).recoverySkipCycles == 0
  {
    if cycles > 0 {
      BeforeTheFault(health, attempts, cycles - 1);
    }
  }

  /** The cycle that ends `waited` cycles after `rounds` recovery attempts. */
  function CycleAt(health: HealthConfig, rounds: nat, waited: nat): (cycle: nat)
    requires ValidHealth(health)
  {
    assert rounds * health.recoveryPollIntervalCycles >= 0;
    health.faultAfterFailures + rounds * health.recoveryPollIntervalCycles + waited
  }

  lemma NextRound(health: HealthConfig, rounds: nat)
    requires ValidHealth(health) && rounds > 0
    ensures CycleAt(health, rounds, 0) == CycleAt(health, rounds - 1, health.recoveryPollIntervalCycles - 1) + 1
  {
    var r := health.recoveryPollIntervalCycles;
    assert (rounds - 1) * r == rounds * r - r;
  }

  lemma NextWait(health: HealthConfig, rounds: nat, waited: nat)
    requires ValidHealth(health) && waited > 0
    ensures CycleAt(health, rounds, waited) == CycleAt(health, rounds, waited - 1) + 1
  {}

  lemma {:induction false} AfterTheFault(health: HealthConfig, attempts: nat -> Attempt, rounds: nat, waited: nat)
    requires ValidHealth(health) && AlwaysFails(attempts) && waited < health.recoveryPollIntervalCycles
    ensures var state := Failing(health, attempts, CycleAt(health, rounds, waited));
            && state.consecutiveFailures == health.faultAfterFailures + rounds
            && state.channelStatus == CHANNEL_FAILED
            && state.recoverySkipCycles == health.recoveryPollIntervalCycles - 1 - waited
    decreases rounds, waited
  {
    hide Failing, CycleAt;
    if waited > 0 {
      AfterTheFault(health, attempts, rounds, waited - 1);
      NextWait(health, rounds, waited);
      OneMoreCycle(health, attempts, CycleAt(health, rounds, waited - 1));
    } else if rounds > 0 {
      AfterTheFault(health, attempts, rounds - 1, health.recoveryPollIntervalCycles - 1);
      NextRound(health, rounds);
      OneMoreCycle(health, attempts, CycleAt(health, rounds - 1, health.recoveryPollIntervalCycles - 1));
    } else {
      assert CycleAt(health, 0, 0) == health.faultAfterFailures by { FirstFaultCycle(health); }
      BeforeTheFault(health, attempts, health.faultAfterFailures - 1);
      OneMoreCycle(health, attempts, health.faultAfterFailures - 1);
    }
  }

  lemma FirstFaultCycle(health: HealthConfig)
    requires ValidHealth(health)
    ensures CycleAt(health, 0, 0) == health.faultAfterFailures
  {}

  lemma OneMoreCycle(health: HealthConfig, attempts: nat -> Attempt, cycle: nat)
    ensures Failing(health, attempts, cycle + 1) ==
            HealthStep(Failing(health, attempts, cycle), health,
                       TurnOf(Failing(health, attempts, cycle), attempts(cycle + 1)))
  {}

  lemma RoundsAndRest(n: nat, r: nat) returns (rounds: nat, rest: nat)
    requires r >= 1
    ensures n == rounds * r + rest && rest < r
  {
    rounds, rest := n / r, n % r;
  }

  lemma Multiples(d: int, r: nat)
    requires d >= 1
    ensures d * r >= r
  {}

  lemma UniqueRest(a: nat, b: nat, r: nat, x: nat)
    requires a * r + x == b * r && x < r
    ensures x == 0
  {
    assert (b - a) * r == b * r - a * r == x;
    if b > a {
      Multiples(b - a, r);
    } else if a > b {
      Multiples(a - b, r);
      assert (a - b) * r == -x;
    }
  }

  /** A point that fails every attempt is exchanged in cycles 1..F and then exactly in
      F+R, F+2R, and so on. */
  lemma RecoverySchedule(health: HealthConfig, attempts: nat -> Attempt, cycle: nat)
    requires ValidHealth(health) && AlwaysFails(attempts) && cycle >= 1
    ensures ExchangedIn(health, attempts, cycle) <==>
            cycle <= health.faultAfterFailures
            || exists rounds: nat :: cycle == health.faultAfterFailures + rounds * health.recoveryPollIntervalCycles
  {
    var f, r := health.faultAfterFailures, health.recoveryPollIntervalCycles;
    if cycle <= f {
      BeforeTheFault(health, attempts, cycle - 1);
    } else {
      var rounds, waited := RoundsAndRest(cycle - 1 - f, r);
      AfterTheFault(health, attempts, rounds, waited);
      if waited == r - 1 {
        assert cycle == f + (rounds + 1) * r;
      } else if exists other: nat :: cycle == f + other * r {
        var other: nat :| cycle == f + other * r;
        UniqueRest(rounds, other, r, waited + 1);
      }
    }
  }

  /* ---------- Writes to a failed point ---------- */

  /** Why the stronger invariant stops at writes, for every F and R > 1: a write verified right
      after the fault clears the failures but not the skipped cycles, so a point reported
      healthy is passed over R-1 times. */
  lemma WriteLeavesSkips(health: HealthConfig, attempts: nat -> Attempt, rounds: nat)
    requires ValidHealth(health) && AlwaysFails(attempts)
    ensures var state := HealthStep(Failing(health, attempts, CycleAt(health, rounds, 0)), health, Written);
            && state.channelStatus == CHANNEL_OK
            && state.consecutiveFailures == 0
            && state.recoverySkipCycles == health.recoveryPollIntervalCycles - 1
  {
    AfterTheFault(health, attempts, rounds, 0);
  }
}
