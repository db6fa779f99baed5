/** Every run in which edits of a car's shared block and safety passes mix.  An edit or a pass holds the
    mutex, so it is one step; a control of several edits is several steps. */
module Runs {
  import opened Floors
  import opened SharedMemory
  import opened Safety

  datatype Action =
    | Edit(op: Op, floor: int, status: Status)
    | Monitor

  function Acted(d: CarData, a: Action): CarData {
    match a
    case Edit(op, floor, status) => Edited(d, op, floor, status)
    case Monitor => Monitored(d)
  }

  function RunOf(d: CarData, actions: seq<Action>): CarData
    decreases |actions|
  {
    if actions == [] then d else RunOf(Acted(d, actions[0]), actions[1..])
  }

  method Act(block: SharedBlock, a: Action)
    requires block.Valid()
    modifies block, block.currentFloor, block.destinationFloor
    ensures block.Data() == Acted(old(block.Data()), a)
  {
    match a {
      case Edit(op, floor, status) =>
        var ok := block.Edit(op, floor, status);
      case Monitor =>
        MonitorPass(block);
    }
  }

  method ActAll(block: SharedBlock, actions: seq<Action>)
    requires block.Valid()
    modifies block, block.currentFloor, block.destinationFloor
    ensures block.Data() == RunOf(old(block.Data()), actions)
  {
    var i := 0;
    while i < |actions|
      invariant 0 <= i <= |actions|
      invariant RunOf(old(block.Data()), actions) == RunOf(block.Data(), actions[i..])
    {
      assert actions[i..][1..] == actions[i + 1..];
      Act(block, actions[i]);
      i := i + 1;
    }
  }

  /** What the others do next, and what is left of their script. */
  function Batch(script: seq<seq<Action>>): seq<Action> {
    if script == [] then [] else script[0]
  }

  function Rest(script: seq<seq<Action>>): seq<seq<Action>> {
    if script == [] then [] else script[1..]
  }

  lemma {:induction false} RunSplits(d: CarData, a: seq<Action>, b: seq<Action>)
    ensures RunOf(d, a + b) == RunOf(RunOf(d, a), b)
    decreases |a|
  {
    if a == [] {
      assert a + b == b;
    } else {
      assert (a + b)[1..] == a[1..] + b;
      RunSplits(Acted(d, a[0]), a[1..], b);
    }
  }

  // ----- what survives every run -----

  lemma ActionKeeps(d: CarData, a: Action)
    ensures WellFormed(d) ==> WellFormed(Acted(d, a))
    ensures CanonicalLabels(d) ==> CanonicalLabels(Acted(d, a))
  {
    match a {
      case Edit(op, floor, status) => EditKeeps(d, op, floor, status);
      case Monitor => MonitorKeeps(d);
    }
  }

  lemma {:induction false} RunKeeps(d: CarData, actions: seq<Action>)
    ensures WellFormed(d) ==> WellFormed(RunOf(d, actions))
    ensures CanonicalLabels(d) ==> CanonicalLabels(RunOf(d, actions))
    decreases |actions|
  {
    if actions != [] {
      ActionKeeps(d, actions[0]);
      RunKeeps(Acted(d, actions[0]), actions[1..]);
    }
  }

  /** However edits and safety passes mix, a car started on a readable label never shows the safety system
      a bad label, a bad status or a bad flag.  So at every moment the data-consistency emergency can come
      from the obstruction clause alone. */
  lemma ConsistencyErrorsComeFromDoors(lowest: string, actions: seq<Action>)
    requires ValidFloor(lowest)
    ensures var d := RunOf(Initial(lowest), actions);
            && WellFormed(d)
            && (Consistent(d) <==> DoorsAgree(d))
            && (CanonicalLabel(lowest) ==> CanonicalLabels(d))
            && Safe(Monitored(d))
            && (Monitored(d).emergencyMode == 1 <==> d.emergencyMode == 1 || Alarming(d))
  {
    RunKeeps(Initial(lowest), actions);
    var d := RunOf(Initial(lowest), actions);
    MonitorGuarantee(d);
    MonitorKeeps(d);
  }

  // ----- what is shown -----

  predicate ShowsStatus(a: Action) {
    a.Edit? && a.op == SetStatus
  }

  /** Some edit of the run shows the status, and no later one shows any other. */
  predicate ShownLast(actions: seq<Action>, status: Status)
    decreases |actions|
  {
    actions != [] &&
    (ShownLast(actions[1..], status)
     || (ShowsStatus(actions[0]) && actions[0].status == status && !ShowsAny(actions[1..])))
  }

  predicate ShowsAny(actions: seq<Action>) {
    exists i :: 0 <= i < |actions| && ShowsStatus(actions[i])
  }

  lemma ShowsAnyFrom(actions: seq<Action>)
    requires actions != []
    ensures ShowsAny(actions) <==> ShowsStatus(actions[0]) || ShowsAny(actions[1..])
  {
    if ShowsAny(actions[1..]) {
      var i :| 0 <= i < |actions[1..]| && ShowsStatus(actions[1..][i]);
      assert ShowsStatus(actions[i + 1]);
    }
    if ShowsAny(actions) && !ShowsStatus(actions[0]) {
      var i :| 0 <= i < |actions| && ShowsStatus(actions[i]);
      assert ShowsStatus(actions[1..][i - 1]);
    }
  }

  lemma StatusStep(d: CarData, a: Action, status: Status)
    requires status == Between || status == Open
    ensures Acted(d, a).status == Some(status) <==>
            if ShowsStatus(a) then a.status == status else d.status == Some(status)
  {
    match a {
      case Edit(op, floor, shown) =>
      case Monitor =>
    }
  }

  /** After any run the car is shown moving, or open, exactly if that was shown last, or nothing was shown
      and it was before; safety passes neither bring that about nor undo it. */
  lemma {:induction false} ShownAfterExactly(d: CarData, actions: seq<Action>, status: Status)
    requires status == Between || status == Open
    ensures RunOf(d, actions).status == Some(status) <==>
            ShownLast(actions, status) || (!ShowsAny(actions) && d.status == Some(status))
    ensures ShownLast(actions, status) ==> ShowsAny(actions)
    decreases |actions|
  {
    if actions != [] {
      StatusStep(d, actions[0], status);
      ShowsAnyFrom(actions);
      ShownAfterExactly(Acted(d, actions[0]), actions[1..], status);
    }
  }

  // ----- emergencies -----

  /** What makes a safety pass raise an emergency on a well-formed block. */
  predicate Alarming(d: CarData) {
    d.emergencyStop == 1 || d.overload == 1 || !DoorsAgree(d)
  }

  predicate ClearsEmergency(a: Action) {
    a.Edit? && a.op == ClearEmergency
  }

  predicate SetsStop(a: Action) {
    a.Edit? && a.op == SetEmergencyStop
  }

  predicate ClearsStop(a: Action) {
    a.Edit? && a.op == ClearEmergencyStop
  }

  predicate NeverClears(actions: seq<Action>) {
    forall i :: 0 <= i < |actions| ==> !ClearsEmergency(actions[i])
  }

  /** What raises an emergency: the edit that sets it, or a safety pass that sees an alarming block. */
  predicate Raises(d: CarData, a: Action) {
    (a.Edit? && a.op == SetEmergency) || (a == Monitor && Alarming(d))
  }

  /** Action number j raises an emergency and none after it clears it. */
  predicate RaisedForGood(d: CarData, actions: seq<Action>, j: nat)
    requires j < |actions|
  {
    Raises(RunOf(d, actions[..j]), actions[j]) && NeverClears(actions[j + 1..])
  }

  ghost predicate EmergencyRaised(d: CarData, actions: seq<Action>) {
    exists j :: 0 <= j < |actions| && RaisedForGood(d, actions, j)
  }

  lemma EmergencyStep(d: CarData, a: Action)
    requires WellFormed(d)
    ensures Acted(d, a).emergencyMode == 1 <==> Raises(d, a) || (d.emergencyMode == 1 && !ClearsEmergency(a))
  {
    match a {
      case Edit(op, floor, status) => EditWritesEmergency(d, op, floor, status);
      case Monitor =>
    }
  }

  lemma EditWritesEmergency(d: CarData, op: Op, floor: int, status: Status)
    ensures Edited(d, op, floor, status).emergencyMode
         == if op == SetEmergency then 1 else if op == ClearEmergency then 0 else d.emergencyMode
  {
    if !EditsFlag(op) {
      FloorEditsKeepModes(d, op, floor, status);
    }
  }

  lemma RaisedLater(d: CarData, actions: seq<Action>, j: nat)
    requires 0 < j < |actions|
    ensures RaisedForGood(d, actions, j) <==> RaisedForGood(Acted(d, actions[0]), actions[1..], j - 1)
  {
    assert actions[..j][1..] == actions[1..][..j - 1];
    assert actions[..j][0] == actions[0];
    assert actions[j + 1..] == actions[1..][j..];
  }

  lemma RaisedNowOrLater(d: CarData, actions: seq<Action>)
    requires actions != []
    ensures EmergencyRaised(d, actions) <==>
            (Raises(d, actions[0]) && NeverClears(actions[1..])) || EmergencyRaised(Acted(d, actions[0]), actions[1..])
  {
    var next, later := Acted(d, actions[0]), actions[1..];
    assert actions[..0] == [];
    assert RaisedForGood(d, actions, 0) <==> Raises(d, actions[0]) && NeverClears(later);
    if EmergencyRaised(d, actions) && !RaisedForGood(d, actions, 0) {
      var j :| 0 <= j < |actions| && RaisedForGood(d, actions, j);
      RaisedLater(d, actions, j);
      assert RaisedForGood(next, later, j - 1);
    }
    if EmergencyRaised(next, later) {
      var j :| 0 <= j < |later| && RaisedForGood(next, later, j);
      RaisedLater(d, actions, j + 1);
      assert RaisedForGood(d, actions, j + 1);
    }
  }

  /** After any run the car is in an emergency exactly if it began in one that nothing cleared, or something
      raised one that nothing cleared later: the edit that sets it, or a safety pass that saw the stop
      button, the overload sensor or disagreeing doors at the moment it looked. */
  lemma {:induction false} EmergencyExactly(d: CarData, actions: seq<Action>)
    requires WellFormed(d)
    ensures RunOf(d, actions).emergencyMode == 1 <==>
            (d.emergencyMode == 1 && NeverClears(actions)) || EmergencyRaised(d, actions)
    decreases |actions|
  {
    if actions != [] {
      EmergencyStep(d, actions[0]);
      ActionKeeps(d, actions[0]);
      EmergencyExactly(Acted(d, actions[0]), actions[1..]);
      RaisedNowOrLater(d, actions);
      NeverClearsFrom(actions);
    }
  }

  lemma NeverClearsFrom(actions: seq<Action>)
    requires actions != []
    ensures NeverClears(actions) <==> !ClearsEmergency(actions[0]) && NeverClears(actions[1..])
  {
    if NeverClears(actions[1..]) {
      forall i | 0 < i < |actions| ensures !ClearsEmergency(actions[i]) {
        assert actions[1..][i - 1] == actions[i];
      }
    }
  }

  /** Only its own two edits write the stop flag. */
  lemma StopStep(d: CarData, a: Action)
    ensures Acted(d, a).emergencyStop == if SetsStop(a) then 1 else if ClearsStop(a) then 0 else d.emergencyStop
  {
    if a.Edit? && !EditsFlag(a.op) {
      FloorEditsKeepModes(d, a.op, a.floor, a.status);
    }
  }

  /** The edits of floors and status write no mode. */
  lemma FloorEditsKeepModes(d: CarData, op: Op, floor: int, status: Status)
    requires !EditsFlag(op)
    ensures Edited(d, op, floor, status).emergencyStop == d.emergencyStop
    ensures Edited(d, op, floor, status).emergencyMode == d.emergencyMode
  {
  }

  lemma {:induction false} StopStays(d: CarData, actions: seq<Action>)
    requires d.emergencyStop == 1 && forall i :: 0 <= i < |actions| ==> !ClearsStop(actions[i])
    ensures RunOf(d, actions).emergencyStop == 1
    decreases |actions|
  {
    if actions != [] {
      StopStep(d, actions[0]);
      StopStays(Acted(d, actions[0]), actions[1..]);
    }
  }

  /** A pressed stop button is never missed: if a safety pass comes before the button is cleared, then,
      whatever else the processes do, the car ends in an emergency unless that is cleared after the pass. */
  lemma StopIsNeverMissed(d: CarData, actions: seq<Action>, i: nat)
    requires WellFormed(d) && d.emergencyStop == 1
    requires i < |actions| && actions[i] == Monitor
    requires forall j :: 0 <= j < i ==> !ClearsStop(actions[j])
    requires forall j :: i < j < |actions| ==> !ClearsEmergency(actions[j])
    ensures RunOf(d, actions).emergencyMode == 1
  {
    StopStays(d, actions[..i]);
    assert RaisedForGood(d, actions, i);
    EmergencyExactly(d, actions);
  }

  // ----- flags over whole runs -----

  /** Whether a flag is set after a run, from its own edits alone. */
  predicate LastWrite(actions: seq<Action>, setter: Op, clearer: Op, before: bool)
    decreases |actions|
  {
    if actions == [] then before
    else
      LastWrite(actions[1..], setter, clearer,
                if actions[0].Edit? && actions[0].op == setter then true
                else if actions[0].Edit? && actions[0].op == clearer then false
                else before)
  }

  predicate SensorRead(get: Op) {
    get == GetClose || get == GetOverload || get == GetDoorObstruction || get == GetService
  }

  /** Over any run, safety passes included, the close button, both sensors and the service mode read as
      they were last written. */
  lemma {:induction false} SensorsFollowTheirWrites(d: CarData, actions: seq<Action>, get: Op)
    requires SensorRead(get)
    ensures var (setter, clearer) := Writers(get).value;
            Flagged(RunOf(d, actions), get) == LastWrite(actions, setter, clearer, Flagged(d, get))
    decreases |actions|
  {
    if actions != [] {
      match actions[0] {
        case Edit(op, floor, status) => ReadsWhatWasWritten(d, get, op, floor, status);
        case Monitor =>
      }
      SensorsFollowTheirWrites(Acted(d, actions[0]), actions[1..], get);
    }
  }

  lemma {:induction false} StopFollowsItsWrites(d: CarData, actions: seq<Action>)
    ensures (RunOf(d, actions).emergencyStop == 1)
         == LastWrite(actions, SetEmergencyStop, ClearEmergencyStop, d.emergencyStop == 1)
    decreases |actions|
  {
    if actions != [] {
      StopStep(d, actions[0]);
      StopFollowsItsWrites(Acted(d, actions[0]), actions[1..]);
    }
  }

  /** The read called emergency should tell the stop button.  By its missing `break` it answers for two
      histories at once, so over any run it tells the stop button exactly unless the last write left an
      obstruction and the stop button clear. */
  lemma EmergencyReadTellsTheStopExactly(d: CarData, actions: seq<Action>)
    ensures var stopped := LastWrite(actions, SetEmergencyStop, ClearEmergencyStop, d.emergencyStop == 1);
            var obstructed := LastWrite(actions, SetDoorObstruction, ClearDoorObstruction, d.doorObstruction == 1);
            Flagged(RunOf(d, actions), GetEmergency) == stopped <==> !(obstructed && !stopped)
  {
    StopFollowsItsWrites(d, actions);
    SensorsFollowTheirWrites(d, actions, GetDoorObstruction);
  }

  /** For instance, an obstruction alone reads as an emergency. */
  lemma ObstructionReadsAsEmergency(lowest: string)
    ensures var d := RunOf(Initial(lowest), [Edit(SetDoorObstruction, 0, Opening)]);
            Flagged(d, GetEmergency) && d.emergencyStop == 0
  {
    assert [Edit(SetDoorObstruction, 0, Opening)][1..] == [];
  }
}
