/** Device, line and gateway status. */
module Status {
  const STATUS_OK := 1
  const STATUS_DEGRADED := 2
  const STATUS_OFFLINE := 3
  const STATUS_PROTOCOL_ERROR := 4

  predicate All(statuses: seq<nat>, status: nat) {
    forall i :: 0 <= i < |statuses| ==> statuses[i] == status
  }

  function AggregateStatus(statuses: seq<nat>): (status: nat)
    ensures 1 <= status <= 4
  {
    if statuses == [] then STATUS_OFFLINE
    else if All(statuses, STATUS_OK) then STATUS_OK
    else if All(statuses, STATUS_PROTOCOL_ERROR) then STATUS_PROTOCOL_ERROR
    else if All(statuses, STATUS_OFFLINE) then STATUS_OFFLINE
    else STATUS_DEGRADED
  }

  function Flatten(groups: seq<seq<nat>>): seq<nat> {
    if groups == [] then [] else groups[0] + Flatten(groups[1..])
  }

  function Aggregates(groups: seq<seq<nat>>): (statuses: seq<nat>)
    ensures |statuses| == |groups|
    ensures forall i :: 0 <= i < |groups| ==> statuses[i] == AggregateStatus(groups[i])
  {
    seq(|groups|, i requires 0 <= i < |groups| => AggregateStatus(groups[i]))
  }

  lemma {:induction false} AllFlat(groups: seq<seq<nat>>, status: nat)
    ensures All(Flatten(groups), status) <==> forall i :: 0 <= i < |groups| ==> All(groups[i], status)
  {
    if groups != [] {
      var rest := groups[1..];
      AllFlat(rest, status);
      assert Flatten(groups)[..|groups[0]|] == groups[0] && Flatten(groups)[|groups[0]|..] == Flatten(rest);
      assert forall i :: 0 <= i < |rest| ==> rest[i] == groups[i + 1];
      if forall i :: 0 <= i < |groups| ==> All(groups[i], status) {
        assert All(groups[0], status);
      }
      if All(Flatten(groups), status) {
        assert forall i :: 0 <= i < |groups[0]| ==> groups[0][i] == Flatten(groups)[i];
        assert forall i :: 0 <= i < |Flatten(rest)| ==> Flatten(rest)[i] == Flatten(groups)[|groups[0]| + i];
      }
    }
  }

  lemma {:induction false} NonemptyFlat(groups: seq<seq<nat>>, i: nat)
    requires i < |groups| && groups[i] != []
    ensures Flatten(groups) != []
  {
    if i > 0 {
      NonemptyFlat(groups[1..], i - 1);
    }
  }

  lemma {:induction false} EmptyFlat(groups: seq<seq<nat>>)
    requires Flatten(groups) == []
    ensures forall i :: 0 <= i < |groups| ==> groups[i] == []
  {
    forall i | 0 <= i < |groups| ensures groups[i] == [] {
      if groups[i] != [] {
        NonemptyFlat(groups, i);
      }
    }
  }

  /** A uniform line aggregates to its devices' common status, and only such a line does. */
  lemma UniformAggregate(statuses: seq<nat>, status: nat)
    requires status == STATUS_OK || status == STATUS_PROTOCOL_ERROR || (status == STATUS_OFFLINE && statuses != [])
    ensures AggregateStatus(statuses) == status <==> statuses != [] && All(statuses, status)
  {
    if statuses != [] {
      var s := statuses[0];
      assert forall other :: All(statuses, other) ==> other == s;
    }
  }

  /** What an aggregate says: 1 that all are well, 4 that all answer garbage, 3 that all are
      offline or there is none, 2 anything else. */
  lemma AggregateSays(statuses: seq<nat>)
    ensures AggregateStatus(statuses) == 1 <==> statuses != [] && forall i :: 0 <= i < |statuses| ==> statuses[i] == 1
    ensures AggregateStatus(statuses) == 4 <==> statuses != [] && forall i :: 0 <= i < |statuses| ==> statuses[i] == 4
    ensures AggregateStatus(statuses) == 3 <==> forall i :: 0 <= i < |statuses| ==> statuses[i] == 3
    ensures 1 <= AggregateStatus(statuses) <= 4
  {
    hide AggregateStatus;
    UniformAggregate(statuses, STATUS_OK);
    UniformAggregate(statuses, STATUS_PROTOCOL_ERROR);
    if statuses == [] {
      assert AggregateStatus(statuses) == STATUS_OFFLINE by { NoneIsOffline(); }
    } else {
      UniformAggregate(statuses, STATUS_OFFLINE);
      ByUniform(statuses);
    }
  }

  lemma NoneIsOffline()
    ensures AggregateStatus([]) == STATUS_OFFLINE
  {}

  predicate SomeLineEmpty(groups: seq<seq<nat>>) { exists i :: 0 <= i < |groups| && groups[i] == [] }

  predicate EveryDevice(groups: seq<seq<nat>>, status: nat) {
    forall i, j :: 0 <= i < |groups| && 0 <= j < |groups[i]| ==> groups[i][j] == status
  }

  /** The gateway status, taken over line statuses, differs from the flat aggregate over all
      devices exactly when some line has no device, some device exists, and the devices are
      all healthy or all answer garbage. */
  lemma TwoLevelsAreFlat(groups: seq<seq<nat>>)
    requires groups != []
    ensures AggregateStatus(Aggregates(groups)) != AggregateStatus(Flatten(groups)) <==>
            && SomeLineEmpty(groups)
            && (exists i :: 0 <= i < |groups| && groups[i] != [])
            && (EveryDevice(groups, STATUS_OK) || EveryDevice(groups, STATUS_PROTOCOL_ERROR))
  {
    hide AggregateStatus, Flatten, EveryDevice;
    var lines, flat := Aggregates(groups), Flatten(groups);
    LinesUniform(groups, STATUS_OK);
    LinesUniform(groups, STATUS_PROTOCOL_ERROR);
    LinesOffline(groups);
    SomeDevice(groups);
    EveryDeviceFlat(groups, STATUS_OK);
    EveryDeviceFlat(groups, STATUS_PROTOCOL_ERROR);
    if flat == [] {
      assert lines[0] == STATUS_OFFLINE by { EmptyFlat(groups); EmptyAggregate(); }
      EmptyAggregate();
      UniformAggregate(lines, STATUS_OFFLINE);
    } else {
      ByUniform(flat);
      ByUniform(lines);
    }
  }

  /** The aggregate is decided by the three uniform cases alone. */
  lemma ByUniform(statuses: seq<nat>)
    requires statuses != []
    ensures AggregateStatus(statuses) ==
            if All(statuses, STATUS_OK) then STATUS_OK
            else if All(statuses, STATUS_PROTOCOL_ERROR) then STATUS_PROTOCOL_ERROR
            else if All(statuses, STATUS_OFFLINE) then STATUS_OFFLINE
            else STATUS_DEGRADED
    ensures All(statuses, STATUS_OK) ==> !All(statuses, STATUS_PROTOCOL_ERROR) && !All(statuses, STATUS_OFFLINE)
    ensures All(statuses, STATUS_PROTOCOL_ERROR) ==> !All(statuses, STATUS_OFFLINE)
  {
    assert forall other :: All(statuses, other) ==> other == statuses[0];
  }

  lemma EmptyAggregate()
    ensures AggregateStatus([]) == STATUS_OFFLINE
  {}

  lemma SomeDevice(groups: seq<seq<nat>>)
    ensures Flatten(groups) != [] <==> exists i :: 0 <= i < |groups| && groups[i] != []
  {
    if Flatten(groups) == [] {
      EmptyFlat(groups);
    } else if forall i :: 0 <= i < |groups| ==> groups[i] == [] {
      NothingFlat(groups);
    }
  }

  lemma {:induction false} NothingFlat(groups: seq<seq<nat>>)
    requires forall i :: 0 <= i < |groups| ==> groups[i] == []
    ensures Flatten(groups) == []
  {
    if groups != [] {
      NothingFlat(groups[1..]);
    }
  }

  lemma EveryDeviceFlat(groups: seq<seq<nat>>, status: nat)
    ensures EveryDevice(groups, status) <==> All(Flatten(groups), status)
  {
    AllFlat(groups, status);
    if EveryDevice(groups, status) {
      assert forall i :: 0 <= i < |groups| ==> All(groups[i], status);
    }
  }

  lemma LinesUniform(groups: seq<seq<nat>>, status: nat)
    requires status == STATUS_OK || status == STATUS_PROTOCOL_ERROR
    ensures All(Aggregates(groups), status) <==>
            All(Flatten(groups), status) && forall i :: 0 <= i < |groups| ==> groups[i] != []
  {
    AllFlat(groups, status);
    forall i | 0 <= i < |groups|
      ensures Aggregates(groups)[i] == status <==> groups[i] != [] && All(groups[i], status)
    {
      UniformAggregate(groups[i], status);
    }
  }

  lemma LinesOffline(groups: seq<seq<nat>>)
    ensures All(Aggregates(groups), STATUS_OFFLINE) <==> All(Flatten(groups), STATUS_OFFLINE)
  {
    AllFlat(groups, STATUS_OFFLINE);
    forall i | 0 <= i < |groups|
      ensures Aggregates(groups)[i] == STATUS_OFFLINE <==> All(groups[i], STATUS_OFFLINE)
    {
      if groups[i] != [] {
        UniformAggregate(groups[i], STATUS_OFFLINE);
      }
    }
  }

  /** The status of a device after a cycle over its points. */
  function DeviceStatus(points: nat, failures: nat, protocolFailures: nat): (status: nat)
    ensures 1 <= status <= 4
  {
    if failures == 0 then STATUS_OK
    else if protocolFailures == points then STATUS_PROTOCOL_ERROR
    else if failures == points then STATUS_OFFLINE
    else STATUS_DEGRADED
  }
}
