/** Logic units LU1..LU8 of a device: comparison with a set point, four modes, two of them
    with hysteresis, and the bit mask that holds their outputs. */
module LogicUnit {
  import opened Core

  const LOGIC_UNIT_COUNT := 8

  /** `mode` is the device's `AL.t`; `hysteresis` is already an absolute value. */
  datatype Inputs = Inputs(channel: Option<real>, setpoint: Option<real>, hysteresis: real, mode: Option<int>)

  function Evaluate(channel: real, setpoint: Option<real>, hysteresis: real, mode: Option<int>, previous: bool): bool {
    if setpoint.None? || mode.None? then false
    else
      var low, high := setpoint.value - hysteresis, setpoint.value + hysteresis;
      if mode.value == 1 then
        if channel < low then true else if channel > high then false else previous
      else if mode.value == 2 then
        if channel > high then true else if channel < low then false else previous
      else if mode.value == 3 then low < channel < high
      else if mode.value == 4 then channel < low || channel > high
      else false
  }

  function Output(inputs: Inputs, previous: bool): bool {
    inputs.channel.Some? && Evaluate(inputs.channel.value, inputs.setpoint, inputs.hysteresis, inputs.mode, previous)
  }

  /** What each mode means, by how far the measured value is above the set point: on below or
      above the band with memory inside (1 and 2), on strictly inside it (3), on strictly
      outside it (4), and off in any other mode or without a value, set point or mode. */
  predicate ModeLaw(inputs: Inputs, previous: bool) {
    && inputs.channel.Some? && inputs.setpoint.Some? && inputs.mode.Some?
    && var above, mode := inputs.channel.value - inputs.setpoint.value, inputs.mode.value;
       || (mode == 1 && above < -inputs.hysteresis)
       || (mode == 2 && above > inputs.hysteresis)
       || (mode == 3 && Distance(inputs) < inputs.hysteresis)
       || (mode == 4 && Distance(inputs) > inputs.hysteresis)
       || (1 <= mode <= 2 && Distance(inputs) <= inputs.hysteresis && previous)
  }

  function Distance(inputs: Inputs): (d: real)
    requires inputs.channel.Some? && inputs.setpoint.Some?
  {
    if inputs.channel.value >= inputs.setpoint.value then inputs.channel.value - inputs.setpoint.value
    else inputs.setpoint.value - inputs.channel.value
  }

  lemma OutputFollowsMode(inputs: Inputs, previous: bool)
    requires inputs.hysteresis >= 0.0
    ensures Output(inputs, previous) == ModeLaw(inputs, previous)
  {}

  /* ---------- The mask ---------- */

  function BitAt(mask: nat, i: nat): bool {
    if i == 0 then mask % 2 == 1 else BitAt(mask / 2, i - 1)
  }

  function MaskOf(states: seq<bool>): (mask: nat)
    ensures mask < Pow2(|states|)
  {
    if states == [] then 0 else (if states[0] then 1 else 0) + 2 * MaskOf(states[1..])
  }

  /** Setting the next higher bit, as the loop does. */
  lemma {:induction false} MaskOfOneMore(states: seq<bool>, state: bool)
    ensures MaskOf(states + [state]) == MaskOf(states) + (if state then Pow2(|states|) else 0)
    decreases |states|
  {
    if states == [] {
      assert (states + [state])[1..] == [];
    } else {
      assert (states + [state])[1..] == states[1..] + [state];
      MaskOfOneMore(states[1..], state);
    }
  }

  /** Bit i of the mask is unit i's output. */
  lemma {:induction false} MaskBit(states: seq<bool>, i: nat)
    requires i < |states|
    ensures BitAt(MaskOf(states), i) == states[i]
    decreases i
  {
    if i > 0 {
      assert MaskOf(states) / 2 == MaskOf(states[1..]);
      MaskBit(states[1..], i - 1);
    }
  }

  function Outputs(inputs: seq<Inputs>, previousMask: nat): (states: seq<bool>)
    ensures |states| == |inputs|
  {
    seq(|inputs|, i requires 0 <= i < |inputs| => Output(inputs[i], BitAt(previousMask, i)))
  }

  method ComputeMask(inputs: seq<Inputs>, previousMask: nat) returns (mask: nat)
    requires |inputs| == 8
    ensures mask == MaskOf(Outputs(inputs, previousMask))
    ensures mask < 0x100
    ensures forall i :: 0 <= i < 8 && inputs[i].hysteresis >= 0.0 ==> BitAt(mask, i) == ModeLaw(inputs[i], BitAt(previousMask, i))
  {
    mask := 0;
    ghost var states := Outputs(inputs, previousMask);
    for i := 0 to LOGIC_UNIT_COUNT
      invariant mask == MaskOf(states[..i])
    {
      MaskOfOneMore(states[..i], states[i]);
      assert states[..i + 1] == states[..i] + [states[i]];
      if Output(inputs[i], BitAt(previousMask, i)) {
        mask := mask + Pow2(i);
      }
    }
    assert states[..LOGIC_UNIT_COUNT] == states;
    PowersOfTwo();
    forall i | 0 <= i < 8 && inputs[i].hysteresis >= 0.0 ensures BitAt(mask, i) == ModeLaw(inputs[i], BitAt(previousMask, i)) {
      MaskBit(states, i);
      OutputFollowsMode(inputs[i], BitAt(previousMask, i));
    }
  }

  lemma MaskIsSmall(inputs: seq<Inputs>, previousMask: nat)
    requires |inputs| == LOGIC_UNIT_COUNT
    ensures MaskOf(Outputs(inputs, previousMask)) < 0x100
  {
    PowersOfTwo();
  }

  /** Evaluating again on unchanged inputs changes nothing, in every mode. */
  lemma MaskIsIdempotent(inputs: seq<Inputs>, previousMask: nat)
    requires |inputs| == LOGIC_UNIT_COUNT
    ensures var mask := MaskOf(Outputs(inputs, previousMask));
            MaskOf(Outputs(inputs, mask)) == mask
  {
    var states := Outputs(inputs, previousMask);
    var mask := MaskOf(states);
    forall i | 0 <= i < |inputs| ensures Outputs(inputs, mask)[i] == states[i] {
      MaskBit(states, i);
    }
    assert Outputs(inputs, mask) == states;
  }

  /* ---------- The last-exit law of the hysteresis modes ---------- */

  /** Unit state after evaluating a channel's samples one by one; None is a missing value. */
  function Evolve(samples: seq<Option<real>>, setpoint: real, hysteresis: real, mode: int, initial: bool): bool {
    if samples == [] then initial
    else
      var last := |samples| - 1;
      Output(Inputs(samples[last], Some(setpoint), hysteresis, Some(mode)),
             Evolve(samples[..last], setpoint, hysteresis, mode, initial))
  }

  predicate Decisive(sample: Option<real>, setpoint: real, hysteresis: real) {
    sample.None? || sample.value < setpoint - hysteresis || sample.value > setpoint + hysteresis
  }

  /** Whether a decisive sample switches the unit on: leaving the band below for mode 1,
      above for mode 2; missing data switches it off. */
  predicate SwitchesOn(sample: Option<real>, setpoint: real, hysteresis: real, mode: int) {
    sample.Some? &&
    if mode == 1 then sample.value < setpoint - hysteresis else sample.value > setpoint + hysteresis
  }

  ghost predicate LastDecisive(samples: seq<Option<real>>, setpoint: real, hysteresis: real, k: nat) {
    && k < |samples| && Decisive(samples[k], setpoint, hysteresis)
    && forall j :: k < j < |samples| ==> !Decisive(samples[j], setpoint, hysteresis)
  }

  lemma OneSample(sample: Option<real>, setpoint: real, hysteresis: real, mode: int, previous: bool)
    requires (mode == 1 || mode == 2) && hysteresis >= 0.0
    ensures Output(Inputs(sample, Some(setpoint), hysteresis, Some(mode)), previous) ==
            if Decisive(sample, setpoint, hysteresis) then SwitchesOn(sample, setpoint, hysteresis, mode) else previous
  {}

  /** Inside the band the unit remembers: after any sequence of samples it is on exactly
      when the last decisive sample switched it on, or, if none was decisive, when it was
      on to begin with. */
  lemma {:induction false} LastExitLaw(samples: seq<Option<real>>, setpoint: real, hysteresis: real, mode: int,
                                       initial: bool)
    requires (mode == 1 || mode == 2) && hysteresis >= 0.0
    ensures (forall k :: 0 <= k < |samples| ==> !Decisive(samples[k], setpoint, hysteresis)) ==>
              Evolve(samples, setpoint, hysteresis, mode, initial) == initial
    ensures forall k: nat :: LastDecisive(samples, setpoint, hysteresis, k) ==>
              Evolve(samples, setpoint, hysteresis, mode, initial) == SwitchesOn(samples[k], setpoint, hysteresis, mode)
  {
    hide Decisive, SwitchesOn, Output;
    if samples != [] {
      var last := |samples| - 1;
      var init := samples[..last];
      OneSample(samples[last], setpoint, hysteresis, mode, Evolve(init, setpoint, hysteresis, mode, initial));
      LastExitLaw(init, setpoint, hysteresis, mode, initial);
      assert forall k :: 0 <= k < last ==> init[k] == samples[k];
      forall k: nat | LastDecisive(samples, setpoint, hysteresis, k)
        ensures Evolve(samples, setpoint, hysteresis, mode, initial) == SwitchesOn(samples[k], setpoint, hysteresis, mode)
      {
        if k < last {
          assert !Decisive(samples[last], setpoint, hysteresis);
          assert LastDecisive(init, setpoint, hysteresis, k);
        }
      }
    }
  }
}
