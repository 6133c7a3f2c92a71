/** The logic masks of devices: which values a bit depends on, and when it changes. */
module LogicMasks {
  import opened Core
  import opened Payload
  import opened Config
  import opened RegisterMap
  import opened LogicUnit
  import opened Gateway

  /** Bit i of a device's new mask is what the mode of logic unit i makes of the channel at
      address `slave id + i`, with that unit's own previous bit. */
  lemma MaskFollowsChannels(config: GatewayConfig, s: State, key: SlaveKey, i: nat)
    requires i < 8
    ensures var inputs := InputsAt(s.pointValues, PointsOf(config.points, key), key.1 + i);
            && BitAt(NextMask(config, s, key), i) == ModeLaw(inputs, BitAt(LogicMaskIn(s.logicMasks, key), i))
            && BitAt(NextMask(config, s, key), i) == Output(inputs, BitAt(LogicMaskIn(s.logicMasks, key), i))
  {
    hide Output, ModeLaw, InputsAt;
    var inputs := InputsAt(s.pointValues, PointsOf(config.points, key), key.1 + i);
    MaskBit(Outputs(UnitInputs(s.pointValues, PointsOf(config.points, key), key.1), LogicMaskIn(s.logicMasks, key)), i);
    BandIsNotNegative(s.pointValues, PointsOf(config.points, key), key.1 + i);
    OutputFollowsMode(inputs, BitAt(LogicMaskIn(s.logicMasks, key), i));
  }

  lemma BandIsNotNegative(values: map<string, Option<Value>>, points: seq<PointConfig>, address: int)
    ensures InputsAt(values, points, address).hysteresis >= 0.0
  {
    hide ValueAt;
  }

  predicate SameInputs(config: GatewayConfig, s: State, t: State, key: SlaveKey, i: nat) {
    var points := PointsOf(config.points, key);
    InputsAt(s.pointValues, points, key.1 + i) == InputsAt(t.pointValues, points, key.1 + i)
  }

  /** A channel whose value and settings are unchanged keeps its output when the mask is
      published again, whatever the other channels did. */
  lemma MaskIsStable(config: GatewayConfig, s: State, t: State, key: SlaveKey, i: nat)
    requires i < LOGIC_UNIT_COUNT && SameInputs(config, s, t, key, i)
    requires LogicMaskIn(t.logicMasks, key) == NextMask(config, s, key)
    ensures BitAt(NextMask(config, t, key), i) == BitAt(NextMask(config, s, key), i)
  {
    hide InputsAt, NextMask;
    MaskFollowsChannels(config, s, key, i);
    MaskFollowsChannels(config, t, key, i);
  }

  /** Publishing a device's mask twice in a row changes nothing. */
  lemma PublishingMaskTwice(config: GatewayConfig, s: State, key: SlaveKey)
    ensures var once := PublishMask(config, s, key);
            NextMask(config, once, key) == NextMask(config, s, key) &&
            PublishMask(config, once, key).logicMasks == once.logicMasks
  {
    hide UnitInputs, Publish, Output, MaskOf;
    MaskIsIdempotent(UnitInputs(s.pointValues, PointsOf(config.points, key), key.1), LogicMaskIn(s.logicMasks, key));
  }

  /* ---------- Where a unit's inputs come from ---------- */

  /** `p` is the device's only point for a parameter of a channel. */
  ghost predicate OnlyPoint(points: seq<PointConfig>, p: PointConfig) {
    p in points && forall q :: q in points && q.parameter == p.parameter && q.address == p.address ==> q == p
  }

  lemma {:induction false} OnlyPointIsLast(points: seq<PointConfig>, p: PointConfig)
    requires OnlyPoint(points, p)
    ensures LastWith(points, p.parameter, p.address) == Some(p)
  {
    var last := points[|points| - 1];
    if last.parameter == p.parameter && last.address == p.address {
      assert last in points;
    } else {
      var init := points[..|points| - 1];
      assert forall q :: q in init ==> q in points;
      assert p in init by {
        var i :| 0 <= i < |points| && points[i] == p;
        assert init[i] == p;
      }
      OnlyPointIsLast(init, p);
    }
  }

  /** The measured value comes from `rEAd`, the set point from `C.SP`, the hysteresis in
      absolute value from `HYSt`, zero without one, and the mode from `AL.t`, at the
      channel's own address. */
  lemma InputsComeFrom(values: map<string, Option<Value>>, points: seq<PointConfig>, p: PointConfig)
    requires OnlyPoint(points, p)
    ensures var inputs, value := InputsAt(values, points, p.address), ValueIn(values, p.name);
            && (p.parameter == "rEAd" ==> inputs.channel == NumberOf(value))
            && (p.parameter == "C.SP" ==> inputs.setpoint == NumberOf(value))
            && (p.parameter == "HYSt" ==>
                  if NumberOf(value).None? then inputs.hysteresis == 0.0
                  else inputs.hysteresis >= 0.0 && inputs.hysteresis in {NumberOf(value).value, -NumberOf(value).value})
            && (p.parameter == "AL.t" ==>
                  if NumberOf(value).Some? then inputs.mode.Some? && TowardsZero(NumberOf(value).value, inputs.mode.value)
                  else inputs.mode.None?)
  {
    hide LastWith;
    OnlyPointIsLast(points, p);
  }

  /** The number a value stands for. */
  function NumberOf(value: Option<Value>): Option<real> {
    match value
    case Some(Int(n)) => Some(n as real)
    case Some(Float(x)) => Some(x)
    case _ => None
  }

  /** `n` is `x` without its fraction: less than one nearer to zero, and never past it. */
  predicate TowardsZero(x: real, n: int) {
    if x >= 0.0 then x - 1.0 < n as real <= x else x <= n as real < x + 1.0
  }

  /** No point for the parameter at the address has a value. */
  ghost predicate NoValue(values: map<string, Option<Value>>, points: seq<PointConfig>, parameter: string, address: int) {
    forall q :: q in points && q.parameter == parameter && q.address == address ==> ValueIn(values, q.name).None?
  }

  lemma {:induction false} NoValueAt(values: map<string, Option<Value>>, points: seq<PointConfig>, parameter: string,
                                     address: int)
    requires NoValue(values, points, parameter, address)
    ensures ValueAt(values, points, parameter, address).None?
  {
    if points != [] {
      var init, last := points[..|points| - 1], points[|points| - 1];
      assert forall q :: q in points <==> q in init || q == last;
      NoValueAt(values, init, parameter, address);
    }
  }

  /** A channel without a measured value, a set point or a mode, because there is no such
      point or it has no value, keeps its unit off. */
  lemma MissingValuesSwitchOff(values: map<string, Option<Value>>, points: seq<PointConfig>, address: int, previous: bool)
    requires NoValue(values, points, "rEAd", address) || NoValue(values, points, "C.SP", address)
             || NoValue(values, points, "AL.t", address)
    ensures !Output(InputsAt(values, points, address), previous)
  {
    hide ValueAt;
    if NoValue(values, points, "rEAd", address) {
      NoValueAt(values, points, "rEAd", address);
    } else if NoValue(values, points, "C.SP", address) {
      NoValueAt(values, points, "C.SP", address);
    } else {
      NoValueAt(values, points, "AL.t", address);
    }
  }
}
