/** The buttons inside a car.  A control looks at the block and then edits it, each look and each edit
    under its own lock, so other processes may act before every one of them. */
module Internal {
  import opened Floors
  import opened SharedMemory
  import opened Safety
  import opened Runs

  datatype Input = OpenDoor | CloseDoor | Stop | ServiceOn | ServiceOff | Up | Down

  /** What a control looks at; it gives up at the first look that fails. */
  datatype Look = InService | NotOpen | NotMoving

  predicate Passes(d: CarData, look: Look) {
    match look
    case InService => Flagged(d, GetService)
    case NotOpen => d.status != Some(Open)
    case NotMoving => d.status != Some(Between)
  }

  function Looks(input: Input): seq<Look> {
    match input
    case OpenDoor => [NotMoving]
    case Up => [InService, NotOpen, NotMoving]
    case Down => [InService, NotOpen, NotMoving]
    case _ => []
  }

  function Flag(op: Op): Action {
    Edit(op, 0, Opening)
  }

  /** The edits a control makes once its looks have passed. */
  function Makes(input: Input): seq<Action> {
    match input
    case OpenDoor => [Flag(SetOpen)]
    case CloseDoor => [Flag(SetClose)]
    case Stop => [Flag(SetEmergencyStop)]
    case ServiceOn => ServiceEdits()
    case ServiceOff => [Flag(ClearService)]
    case Up => [Edit(MoveDestination, 1, Opening)]
    case Down => [Edit(MoveDestination, -1, Opening)]
  }

  function ServiceEdits(): seq<Action> {
    [Flag(SetService), Flag(ClearEmergency), Flag(ClearEmergencyStop), Flag(ClearOverload), Flag(ClearDoorObstruction)]
  }

  // ----- a control among other processes -----

  /** The block after the looks, and whether all passed; the others act before each. */
  function Looked(d: CarData, looks: seq<Look>, script: seq<seq<Action>>): (CarData, bool, seq<seq<Action>>)
    decreases |looks|
  {
    if looks == [] then (d, true, script)
    else
      var now := RunOf(d, Batch(script));
      if Passes(now, looks[0]) then Looked(now, looks[1..], Rest(script)) else (now, false, Rest(script))
  }

  /** The block after the edits; the others act before each. */
  function Made(d: CarData, makes: seq<Action>, script: seq<seq<Action>>): CarData
    decreases |makes|
  {
    if makes == [] then d else Made(Acted(RunOf(d, Batch(script)), makes[0]), makes[1..], Rest(script))
  }

  function Controlled(d: CarData, input: Input, script: seq<seq<Action>>): (CarData, bool) {
    var (seen, passed, rest) := Looked(d, Looks(input), script);
    (if passed then Made(seen, Makes(input), rest) else seen, passed)
  }

  method LookAt(block: SharedBlock, look: Look, script: seq<seq<Action>>) returns (passed: bool, rest: seq<seq<Action>>)
    requires block.Valid()
    modifies block, block.currentFloor, block.destinationFloor
    ensures block.Data() == RunOf(old(block.Data()), Batch(script)) && rest == Rest(script)
    ensures passed == Passes(block.Data(), look)
  {
    ActAll(block, Batch(script));
    rest := Rest(script);
    match look {
      case InService =>
        passed := block.Read(GetService);
      case NotOpen =>
        var status := block.ReadStatus();
        passed := status != Some(Open);
      case NotMoving =>
        var status := block.ReadStatus();
        passed := status != Some(Between);
    }
  }

  method Make(block: SharedBlock, op: Op, floor: int, script: seq<seq<Action>>) returns (rest: seq<seq<Action>>)
    requires block.Valid()
    modifies block, block.currentFloor, block.destinationFloor
    ensures block.Data() == Acted(RunOf(old(block.Data()), Batch(script)), Edit(op, floor, Opening))
    ensures rest == Rest(script)
  {
    ActAll(block, Batch(script));
    rest := Rest(script);
    var ok := block.Edit(op, floor, Opening);
  }

  lemma OneMake(d: CarData, a: Action, script: seq<seq<Action>>)
    ensures Made(d, [a], script) == Acted(RunOf(d, Batch(script)), a)
  {
    assert [a][1..] == [];
    assert Made(Acted(RunOf(d, Batch(script)), a), [], Rest(script)) == Acted(RunOf(d, Batch(script)), a);
  }

  /** One control, with any interference before each of its accesses. */
  method Operate(block: SharedBlock, input: Input, script: seq<seq<Action>>) returns (accepted: bool)
    requires block.Valid()
    modifies block, block.currentFloor, block.destinationFloor
    ensures (block.Data(), accepted) == Controlled(old(block.Data()), input, script)
  {
    var rest := script;
    accepted := true;
    match input {
      case OpenDoor =>
        accepted := TryOpen(block, script);
      case CloseDoor =>
        OneMake(block.Data(), Flag(SetClose), script);
        rest := Make(block, SetClose, 0, rest);
      case Stop =>
        OneMake(block.Data(), Flag(SetEmergencyStop), script);
        rest := Make(block, SetEmergencyStop, 0, rest);
      case ServiceOn =>
        StartService(block, script);
      case ServiceOff =>
        OneMake(block.Data(), Flag(ClearService), script);
        rest := Make(block, ClearService, 0, rest);
      case Up =>
        accepted := Steer(block, 1, script);
      case Down =>
        accepted := Steer(block, -1, script);
    }
  }

  method TryOpen(block: SharedBlock, script: seq<seq<Action>>) returns (accepted: bool)
    requires block.Valid()
    modifies block, block.currentFloor, block.destinationFloor
    ensures (block.Data(), accepted) == Controlled(old(block.Data()), OpenDoor, script)
  {
    ghost var d := block.Data();
    var rest;
    accepted, rest := LookAt(block, NotMoving, script);
    OneLook(d, NotMoving, script);
    if accepted {
      OneMake(block.Data(), Flag(SetOpen), rest);
      rest := Make(block, SetOpen, 0, rest);
    }
  }

  lemma OneLook(d: CarData, look: Look, script: seq<seq<Action>>)
    ensures var now := RunOf(d, Batch(script));
            Looked(d, [look], script) == (now, Passes(now, look), Rest(script))
  {
    var now := RunOf(d, Batch(script));
    assert [look][1..] == [];
    assert Looked(now, [], Rest(script)) == (now, true, Rest(script));
  }

  method StartService(block: SharedBlock, script: seq<seq<Action>>)
    requires block.Valid()
    modifies block, block.currentFloor, block.destinationFloor
    ensures block.Data() == Made(old(block.Data()), ServiceEdits(), script)
  {
    ghost var makes := ServiceEdits();
    ghost var result := Made(block.Data(), makes, script);
    var rest := Make(block, SetService, 0, script);
    assert result == Made(block.Data(), makes[1..], rest);
    rest := Make(block, ClearEmergency, 0, rest);
    assert makes[1..][1..] == makes[2..];
    assert result == Made(block.Data(), makes[2..], rest);
    rest := Make(block, ClearEmergencyStop, 0, rest);
    assert makes[2..][1..] == makes[3..];
    assert result == Made(block.Data(), makes[3..], rest);
    rest := Make(block, ClearOverload, 0, rest);
    assert makes[3..][1..] == makes[4..] == [Flag(ClearDoorObstruction)];
    assert result == Made(block.Data(), makes[4..], rest);
    OneMake(block.Data(), Flag(ClearDoorObstruction), rest);
    rest := Make(block, ClearDoorObstruction, 0, rest);
  }

  method Steer(block: SharedBlock, shift: int, script: seq<seq<Action>>) returns (accepted: bool)
    requires block.Valid() && (shift == 1 || shift == -1)
    modifies block, block.currentFloor, block.destinationFloor
    ensures (block.Data(), accepted) == Controlled(old(block.Data()), if shift == 1 then Up else Down, script)
  {
    ghost var d, looks := block.Data(), [InService, NotOpen, NotMoving];
    var passed, rest := LookAt(block, InService, script);
    assert passed ==> Looked(d, looks, script) == Looked(block.Data(), looks[1..], rest);
    if !passed {
      return false;
    }
    assert looks[1..][1..] == looks[2..];
    ghost var afterService := block.Data();
    passed, rest := LookAt(block, NotOpen, rest);
    if !passed {
      return false;
    }
    assert looks[2..] == [NotMoving];
    OneLook(block.Data(), NotMoving, rest);
    passed, rest := LookAt(block, NotMoving, rest);
    if !passed {
      return false;
    }
    OneMake(block.Data(), Edit(MoveDestination, shift, Opening), rest);
    rest := Make(block, MoveDestination, shift, rest);
    return true;
  }

  // ----- a control alone -----

  /** Whether an undisturbed control refuses. */
  predicate Refused(d: CarData, input: Input) {
    !Controlled(d, input, []).1
  }

  /** The block after an undisturbed control. */
  function Pressed(d: CarData, input: Input): CarData {
    Controlled(d, input, []).0
  }

  /** Undisturbed, `up` and `down` are refused out of service mode and while Open or Between, and otherwise
      move the destination by one floor. */
  lemma SteeringAlone(d: CarData, shift: int)
    requires shift == 1 || shift == -1
    ensures var input := if shift == 1 then Up else Down;
            && (Refused(d, input)
                <==> d.individualServiceMode != 1 || d.status == Some(Open) || d.status == Some(Between))
            && Pressed(d, input)
               == if Refused(d, input) then d else d.(destinationFloor := MoveLabel(d.destinationFloor, shift))
  {
    SteeringSees(d, shift, []);
    assert SightsOf(d, []) == Sights(d, d, d, d);
    RefusedSteeringChangesNothing(d, shift);
  }

  lemma RefusedSteeringChangesNothing(d: CarData, shift: int)
    requires shift == 1 || shift == -1
    ensures var input := if shift == 1 then Up else Down; Refused(d, input) ==> Pressed(d, input) == d
  {
    LooksAloneChangeNothing(d, Looks(if shift == 1 then Up else Down));
  }

  lemma {:induction false} LooksAloneChangeNothing(d: CarData, looks: seq<Look>)
    ensures Looked(d, looks, []).0 == d
    decreases |looks|
  {
    if looks != [] && Passes(d, looks[0]) {
      LooksAloneChangeNothing(d, looks[1..]);
    }
  }

  /** Up then down (or down then up) is a round trip exactly when the first step stays on a labelled
      floor: 999 and B99 are the ends of the shaft as far as labels go. */
  lemma SteeringUndoes(text: string, shift: int)
    requires CanonicalLabel(text) && (shift == 1 || shift == -1)
    ensures MoveLabel(MoveLabel(text, shift), -shift) == text <==>
            LabelToFloor(text) != (if shift == 1 then 999 else -99)
  {
    var n := LabelToFloor(text);
    CanonicalLabelRoundTrip(text);
    MoveIsTranslation(n, shift);
    if InRange(Move(n, shift)) {
      MoveLabelComposes(text, shift, -shift);
    } else {
      assert n == if shift == 1 then 999 else -99;
      PrintedStep(n, shift);
      LabelRoundTrip(Move(n, shift));
      assert MoveLabel(MoveLabel(text, shift), -shift) == FloorToLabel(if shift == 1 then 99 else -9);
      LabelRoundTrip(if shift == 1 then 99 else -9);
    }
  }

  /** One step past the last label prints as a floor of fewer digits. */
  lemma PrintedStep(n: int, shift: int)
    requires InRange(n) && (shift == 1 || shift == -1)
    ensures PrintedFloor(Move(n, shift))
         == if shift == 1 && n == 999 then 100 else if shift == -1 && n == -99 then -10 else Move(n, shift)
  {
    SmallPowers();
    LabelOfPrinted(Move(n, shift));
  }

  lemma SameLabelSameFloor(a: int, b: int)
    ensures FloorToLabel(a) == FloorToLabel(b) <==> PrintedFloor(a) == PrintedFloor(b)
  {
    LabelRoundTrip(a);
    LabelRoundTrip(b);
    LabelOfPrinted(a);
    LabelOfPrinted(b);
  }

  /** The control's comment promises the floor next to the *current* one.  The code delivers that exactly
      when the car stands at its destination, or when the label overflow makes the two coincide. */
  lemma SteeringAimsFromCurrentExactly(destination: string, current: string, shift: int)
    requires CanonicalLabel(destination) && CanonicalLabel(current) && (shift == 1 || shift == -1)
    ensures MoveLabel(destination, shift) == MoveLabel(current, shift) <==>
            destination == current
            || {LabelToFloor(destination), LabelToFloor(current)} == (if shift == 1 then {99, 999} else {-9, -99})
  {
    var a, b := LabelToFloor(destination), LabelToFloor(current);
    CanonicalLabelRoundTrip(destination);
    CanonicalLabelRoundTrip(current);
    PrintedStep(a, shift);
    PrintedStep(b, shift);
    SameLabelSameFloor(Move(a, shift), Move(b, shift));
    if a != b {
      assert {a, b} == {99, 999} <==> (a == 99 && b == 999) || (a == 999 && b == 99) by { TwoElements(a, b, 99, 999); }
      assert {a, b} == {-9, -99} <==> (a == -9 && b == -99) || (a == -99 && b == -9) by { TwoElements(a, b, -9, -99); }
    } else {
      assert 999 in {99, 999} && 99 in {99, 999} && -9 in {-9, -99} && -99 in {-9, -99};
    }
  }

  lemma TwoElements(a: int, b: int, x: int, y: int)
    requires x != y
    ensures {a, b} == {x, y} <==> (a == x && b == y) || (a == y && b == x)
  {
    if {a, b} == {x, y} {
      assert x in {a, b} && y in {a, b};
    }
  }

  /** For instance, standing on 1 with destination 5, `up` aims for 6 and not for 2. */
  lemma SteeringMissesTheNextFloor(d: CarData)
    requires d.currentFloor == FloorToLabel(1) && d.destinationFloor == FloorToLabel(5)
    requires d.individualServiceMode == 1 && d.status == Some(Closed)
    ensures Pressed(d, Up).destinationFloor == FloorToLabel(6) != MoveLabel(d.currentFloor, 1)
  {
    SteeringAlone(d, 1);
    LabelRoundTrip(1);
    LabelRoundTrip(2);
    LabelRoundTrip(5);
    LabelRoundTrip(6);
  }

  /** The comment allows steering only in service mode with the doors closed.  The code agrees exactly
      unless, in service mode, the doors are opening or closing: then it steers all the same. */
  lemma SteeringRefusalExactly(d: CarData, shift: int)
    requires d.status.Some? && (shift == 1 || shift == -1)
    ensures var input := if shift == 1 then Up else Down;
            && ((!Refused(d, input) <==> d.individualServiceMode == 1 && d.status == Some(Closed)) <==>
                  !(d.individualServiceMode == 1 && (d.status == Some(Opening) || d.status == Some(Closing))))
            && (d.individualServiceMode == 1 && d.status == Some(Opening) ==> !Refused(d, input))
  {
    SteeringAlone(d, shift);
    match d.status.value {
      case Opening =>
      case Open =>
      case Closing =>
      case Closed =>
      case Between =>
    }
  }

  /** The controls that only write do it whatever the block shows, on what the others have left. */
  lemma PlainControls(d: CarData, script: seq<seq<Action>>)
    ensures var now := RunOf(d, Batch(script));
            && Controlled(d, Stop, script) == (now.(emergencyStop := 1), true)
            && Controlled(d, CloseDoor, script) == (now.(closeButton := 1), true)
            && Controlled(d, ServiceOff, script) == (now.(individualServiceMode := 0), true)
  {
    OneMake(d, Flag(SetEmergencyStop), script);
    OneMake(d, Flag(SetClose), script);
    OneMake(d, Flag(ClearService), script);
  }

  /** `open` sets the open button unless the car is shown moving when it looks. */
  lemma OpenControl(d: CarData, script: seq<seq<Action>>)
    ensures var now := RunOf(d, Batch(script));
            Controlled(d, OpenDoor, script)
            == if now.status == Some(Between) then (now, false)
               else (RunOf(now, Batch(Rest(script))).(openButton := 1), true)
  {
    var now := RunOf(d, Batch(script));
    OneLook(d, NotMoving, script);
    if now.status != Some(Between) {
      OneMake(now, Flag(SetOpen), Rest(script));
    }
  }

  /** Undisturbed, `service_on` sets the service mode and clears the emergency, its button and both sensors. */
  lemma ServiceOnAlone(d: CarData)
    ensures Controlled(d, ServiceOn, [])
         == (d.(individualServiceMode := 1, emergencyMode := 0, emergencyStop := 0,
                overload := 0, doorObstruction := 0), true)
  {
    ServiceFromCleared(d, []);
    assert EmergencyCleared(d, []) == d.(individualServiceMode := 1, emergencyMode := 0);
    LastThreeAlone(d.(individualServiceMode := 1, emergencyMode := 0), ServiceEdits()[2..]);
  }

  lemma OneOfSeveral(d: CarData, makes: seq<Action>)
    requires makes != []
    ensures Made(d, makes, []) == Made(Acted(d, makes[0]), makes[1..], [])
  {
  }

  lemma LastTwoAlone(d: CarData)
    ensures Made(d, [Flag(ClearOverload), Flag(ClearDoorObstruction)], []) == d.(overload := 0, doorObstruction := 0)
  {
    var e := d.(overload := 0);
    OneOfSeveral(d, [Flag(ClearOverload), Flag(ClearDoorObstruction)]);
    assert Acted(d, Flag(ClearOverload)) == e;
    assert [Flag(ClearOverload), Flag(ClearDoorObstruction)][1..] == [Flag(ClearDoorObstruction)];
    OneMake(e, Flag(ClearDoorObstruction), []);
  }

  lemma LastThreeAlone(d: CarData, makes: seq<Action>)
    requires |makes| == 3 && makes[0] == Flag(ClearEmergencyStop)
    requires makes[1..] == [Flag(ClearOverload), Flag(ClearDoorObstruction)]
    ensures Made(d, makes, []) == d.(emergencyStop := 0, overload := 0, doorObstruction := 0)
  {
    var e := d.(emergencyStop := 0);
    OneOfSeveral(d, makes);
    assert Acted(d, Flag(ClearEmergencyStop)) == e;
    LastTwoAlone(e);
  }

  /** So the stop button works: unless it or the emergency is cleared again, the next safety pass raises an
      emergency that lasts. */
  lemma StopControlIsAnswered(d: CarData, script: seq<seq<Action>>, later: seq<Action>, i: nat)
    requires WellFormed(d) && i < |later| && later[i] == Monitor
    requires forall j :: 0 <= j < i ==> !ClearsStop(later[j])
    requires forall j :: i < j < |later| ==> !ClearsEmergency(later[j])
    ensures RunOf(Controlled(d, Stop, script).0, later).emergencyMode == 1
  {
    PlainControls(d, script);
    RunKeeps(d, Batch(script));
    StopIsNeverMissed(RunOf(d, Batch(script)).(emergencyStop := 1), later, i);
  }

  // ----- a control disturbed -----

  /** A control decides on what it saw.  The open button takes effect on a moving car exactly if the car
      was not moving at the look and is last shown moving between the look and the edit. */
  lemma OpenActsOnAStaleLookExactly(d: CarData, script: seq<seq<Action>>)
    ensures var (after, accepted) := Controlled(d, OpenDoor, script);
            accepted && after.status == Some(Between) <==>
              RunOf(d, Batch(script)).status != Some(Between) && ShownLast(Batch(Rest(script)), Between)
  {
    var now := RunOf(d, Batch(script));
    OneLook(d, NotMoving, script);
    if Passes(now, NotMoving) {
      OneMake(now, Flag(SetOpen), Rest(script));
      ShownAfterExactly(now, Batch(Rest(script)), Between);
    }
  }

  /** For instance, the car sets off between the look and the edit. */
  lemma OpenActsOnAStaleLook(d: CarData)
    requires d.status == Some(Closed)
    ensures var (after, accepted) := Controlled(d, OpenDoor, [[], [Edit(SetStatus, 0, Between)]]);
            accepted && after.openButton == 1 && after.status == Some(Between)
  {
    var script := [[], [Edit(SetStatus, 0, Between)]];
    OneLook(d, NotMoving, script);
    assert Rest(script) == [[Edit(SetStatus, 0, Between)]];
    OneMake(d, Flag(SetOpen), Rest(script));
    assert RunOf(d, [Edit(SetStatus, 0, Between)]) == RunOf(Acted(d, Edit(SetStatus, 0, Between)), []);
  }

  /** The block at each of the three looks of `up` and `down`, and at their edit. */
  datatype Sights = Sights(service: CarData, doors: CarData, motion: CarData, edit: CarData)

  function SightsOf(d: CarData, script: seq<seq<Action>>): Sights {
    var s := RunOf(d, Batch(script));
    var o := RunOf(s, Batch(Rest(script)));
    var m := RunOf(o, Batch(Rest(Rest(script))));
    Sights(s, o, m, RunOf(m, Batch(Rest(Rest(Rest(script))))))
  }

  /** Each look is at the block of its own moment, and the edit at a fourth. */
  lemma SteeringSees(d: CarData, shift: int, script: seq<seq<Action>>)
    requires shift == 1 || shift == -1
    ensures var (after, accepted) := Controlled(d, if shift == 1 then Up else Down, script);
            var at := SightsOf(d, script);
            && (accepted <==>
                  && at.service.individualServiceMode == 1
                  && at.doors.status != Some(Open)
                  && at.motion.status != Some(Between))
            && (accepted ==> after == Acted(at.edit, Edit(MoveDestination, shift, Opening)))
  {
    var looks, at := [InService, NotOpen, NotMoving], SightsOf(d, script);
    assert looks[1..] == [NotOpen, NotMoving] && looks[1..][1..] == [NotMoving];
    if Passes(at.service, InService) {
      assert Looked(d, looks, script) == Looked(at.service, looks[1..], Rest(script));
      if Passes(at.doors, NotOpen) {
        assert Looked(at.service, looks[1..], Rest(script)) == Looked(at.doors, [NotMoving], Rest(Rest(script)));
        OneLook(at.doors, NotMoving, Rest(Rest(script)));
        OneMake(at.motion, Edit(MoveDestination, shift, Opening), Rest(Rest(Rest(script))));
      }
    }
  }

  /** All three looks of `up` and `down` can go stale.  An accepted one steers a moving car exactly if the
      car is last shown moving after the third look, one with open doors exactly if the doors are last
      shown open after the second, and one out of service mode exactly if that is last cleared after the
      first. */
  lemma SteeringActsOnStaleLooksExactly(d: CarData, shift: int, script: seq<seq<Action>>)
    requires shift == 1 || shift == -1
    requires Controlled(d, if shift == 1 then Up else Down, script).1
    ensures var after := Controlled(d, if shift == 1 then Up else Down, script).0;
            var b, c, e := Batch(Rest(script)), Batch(Rest(Rest(script))), Batch(Rest(Rest(Rest(script))));
            && (after.status == Some(Between) <==> ShownLast(e, Between))
            && (after.status == Some(Open) <==> ShownLast(c + e, Open))
            && (after.individualServiceMode == 1 <==> LastWrite(b + (c + e), SetService, ClearService, true))
  {
    var at := SightsOf(d, script);
    SteeringSees(d, shift, script);
    SightsGoStale(d, script);
    MoveKeepsTheRest(at.edit, shift);
  }

  lemma SightsGoStale(d: CarData, script: seq<seq<Action>>)
    ensures var at := SightsOf(d, script);
            var b, c, e := Batch(Rest(script)), Batch(Rest(Rest(script))), Batch(Rest(Rest(Rest(script))));
            && (at.motion.status != Some(Between) ==> (at.edit.status == Some(Between) <==> ShownLast(e, Between)))
            && (at.doors.status != Some(Open) ==> (at.edit.status == Some(Open) <==> ShownLast(c + e, Open)))
            && (at.service.individualServiceMode == 1 ==>
                  (at.edit.individualServiceMode == 1 <==> LastWrite(b + (c + e), SetService, ClearService, true)))
  {
    var b, c, e := Batch(Rest(script)), Batch(Rest(Rest(script))), Batch(Rest(Rest(Rest(script))));
    var at := SightsOf(d, script);
    ShownAfterExactly(at.motion, e, Between);
    RunSplits(at.doors, c, e);
    ShownAfterExactly(at.doors, c + e, Open);
    RunSplits(at.service, b, c + e);
    ServiceFollows(at.service, b + (c + e));
  }

  lemma ServiceFollows(d: CarData, actions: seq<Action>)
    ensures RunOf(d, actions).individualServiceMode == 1
        <==> LastWrite(actions, SetService, ClearService, d.individualServiceMode == 1)
  {
    SensorsFollowTheirWrites(d, actions, GetService);
  }

  lemma MoveKeepsTheRest(d: CarData, shift: int)
    ensures var e := Acted(d, Edit(MoveDestination, shift, Opening));
            e.status == d.status && e.individualServiceMode == d.individualServiceMode
  {
  }

  /** For instance, the car sets off right after the last look. */
  lemma SteeringActsOnAStaleLook(d: CarData, shift: int)
    requires shift == 1 || shift == -1
    requires d.individualServiceMode == 1 && d.status == Some(Closed)
    ensures var (after, accepted) := Controlled(d, if shift == 1 then Up else Down,
                                                [[], [], [], [Edit(SetStatus, 0, Between)]]);
            accepted && after.status == Some(Between) && after.destinationFloor == MoveLabel(d.destinationFloor, shift)
  {
    var moves := [Edit(SetStatus, 0, Between)];
    var script := [[], [], [], moves];
    assert Rest(script) == [[], [], moves] && Rest(Rest(script)) == [[], moves] && Rest(Rest(Rest(script))) == [moves];
    SteeringSees(d, shift, script);
    assert RunOf(d, moves) == RunOf(Acted(d, moves[0]), []);
  }

  /** The edits of a control with what the others do in between, as one run. */
  function Woven(makes: seq<Action>, script: seq<seq<Action>>): seq<Action>
    decreases |makes|
  {
    if makes == [] then [] else Batch(script) + [makes[0]] + Woven(makes[1..], Rest(script))
  }

  lemma {:induction false} MadeIsARun(d: CarData, makes: seq<Action>, script: seq<seq<Action>>)
    ensures Made(d, makes, script) == RunOf(d, Woven(makes, script))
    decreases |makes|
  {
    if makes != [] {
      var now, later := RunOf(d, Batch(script)), Woven(makes[1..], Rest(script));
      MadeIsARun(Acted(now, makes[0]), makes[1..], Rest(script));
      assert Woven(makes, script) == Batch(script) + ([makes[0]] + later);
      RunSplits(d, Batch(script), [makes[0]] + later);
      assert ([makes[0]] + later)[1..] == later;
    }
  }

  /** The block right after service_on has cleared the emergency, with three edits to go. */
  function EmergencyCleared(d: CarData, script: seq<seq<Action>>): CarData {
    var first := Acted(RunOf(d, Batch(script)), Flag(SetService));
    Acted(RunOf(first, Batch(Rest(script))), Flag(ClearEmergency))
  }

  /** service_on clears the emergency before it clears its causes.  Among any other processes, the car is
      back in an emergency at the end exactly if something raises one after the second edit, such as a
      safety pass that still sees the stop button, the overload sensor or disagreeing doors, and nothing
      clears it again. */
  lemma ServiceEndsEmergencyExactly(d: CarData, script: seq<seq<Action>>)
    requires WellFormed(d)
    ensures var tail := Woven(ServiceEdits()[2..], Rest(Rest(script)));
            Controlled(d, ServiceOn, script).0.emergencyMode == 1 <==>
              EmergencyRaised(EmergencyCleared(d, script), tail)
  {
    var cleared, makes, later := EmergencyCleared(d, script), ServiceEdits()[2..], Rest(Rest(script));
    ServiceFromCleared(d, script);
    MadeIsARun(cleared, makes, later);
    ClearedIsWellFormed(d, script);
    EmergencyExactly(cleared, Woven(makes, later));
  }

  lemma ServiceFromCleared(d: CarData, script: seq<seq<Action>>)
    ensures Controlled(d, ServiceOn, script).0
            == Made(EmergencyCleared(d, script), ServiceEdits()[2..], Rest(Rest(script)))
  {
    var makes := ServiceEdits();
    var first := Acted(RunOf(d, Batch(script)), makes[0]);
    assert Controlled(d, ServiceOn, script).0 == Made(d, makes, script);
    assert Made(d, makes, script) == Made(first, makes[1..], Rest(script));
    assert makes[1..][1..] == makes[2..];
  }

  lemma ClearedIsWellFormed(d: CarData, script: seq<seq<Action>>)
    requires WellFormed(d)
    ensures WellFormed(EmergencyCleared(d, script)) && EmergencyCleared(d, script).emergencyMode == 0
  {
    RunKeeps(d, Batch(script));
    var first := Acted(RunOf(d, Batch(script)), Flag(SetService));
    RunKeeps(first, Batch(Rest(script)));
  }

  // ----- service_on among safety passes alone -----

  predicate PassesOnly(script: seq<seq<Action>>) {
    forall i, j :: 0 <= i < |script| && 0 <= j < |script[i]| ==> script[i][j] == Monitor
  }

  /** Some pass runs just before the access number i. */
  predicate PassBefore(script: seq<seq<Action>>, i: nat) {
    i < |script| && script[i] != []
  }

  /** What a safety pass can and cannot do to the causes of an emergency. */
  predicate AfterPasses(d: CarData, e: CarData, some: bool) {
    && WellFormed(e)
    && e.emergencyStop == d.emergencyStop && e.overload == d.overload && e.doorObstruction == d.doorObstruction
    && (DoorsAgree(e) <==> DoorsAgree(d))
    && (e.emergencyMode == 1 <==> d.emergencyMode == 1 || (some && Alarming(d)))
  }

  lemma {:induction false} PassesEffect(d: CarData, passes: seq<Action>)
    requires WellFormed(d) && forall j :: 0 <= j < |passes| ==> passes[j] == Monitor
    ensures AfterPasses(d, RunOf(d, passes), passes != [])
    decreases |passes|
  {
    if passes != [] {
      MonitorKeeps(d);
      PassesEffect(Monitored(d), passes[1..]);
    }
  }

  lemma MakeAmongPasses(d: CarData, makes: seq<Action>, script: seq<seq<Action>>)
    requires WellFormed(d) && PassesOnly(script) && makes != []
    ensures var now := RunOf(d, Batch(script));
            && AfterPasses(d, now, PassBefore(script, 0))
            && Made(d, makes, script) == Made(Acted(now, makes[0]), makes[1..], Rest(script))
            && WellFormed(Acted(now, makes[0])) && PassesOnly(Rest(script))
    ensures forall i: nat :: PassBefore(Rest(script), i) <==> PassBefore(script, i + 1)
  {
    PassesEffect(d, Batch(script));
    ActionKeeps(RunOf(d, Batch(script)), makes[0]);
  }

  /** With nobody but the safety system about, service_on leaves the car out of an emergency if and only
      if no pass falls between its second and third edit with the stop button set, between its second and
      fourth with the overload sensor set, or between its second and fifth with disagreeing doors; and
      then no later pass raises one. */
  lemma ServiceAmongPassesExactly(d: CarData, script: seq<seq<Action>>)
    requires WellFormed(d) && PassesOnly(script)
    ensures var after := Controlled(d, ServiceOn, script).0;
            && (after.emergencyMode == 0 <==>
                  && !(PassBefore(script, 2) && d.emergencyStop == 1)
                  && !((PassBefore(script, 2) || PassBefore(script, 3)) && d.overload == 1)
                  && !((PassBefore(script, 2) || PassBefore(script, 3) || PassBefore(script, 4)) && !DoorsAgree(d)))
            && (after.emergencyMode == 0 ==> Monitored(after) == after)
  {
    ServiceFromCleared(d, script);
    ClearedAmongPasses(d, script);
    LastThreeAmongPasses(EmergencyCleared(d, script), Rest(Rest(script)));
    assert forall i: nat :: PassBefore(Rest(Rest(script)), i) <==> PassBefore(Rest(script), i + 1);
    assert forall i: nat :: PassBefore(Rest(script), i) <==> PassBefore(script, i + 1);
  }

  lemma ClearedAmongPasses(d: CarData, script: seq<seq<Action>>)
    requires WellFormed(d) && PassesOnly(script)
    ensures var e := EmergencyCleared(d, script);
            && WellFormed(e) && e.emergencyMode == 0
            && e.emergencyStop == d.emergencyStop && e.overload == d.overload && (DoorsAgree(e) <==> DoorsAgree(d))
    ensures PassesOnly(Rest(Rest(script)))
  {
    ClearedIsWellFormed(d, script);
    PassesEffect(d, Batch(script));
    var first := Acted(RunOf(d, Batch(script)), Flag(SetService));
    ActionKeeps(RunOf(d, Batch(script)), Flag(SetService));
    PassesEffect(first, Batch(Rest(script)));
  }

  lemma LastThreeAmongPasses(d: CarData, script: seq<seq<Action>>)
    requires WellFormed(d) && PassesOnly(script) && d.emergencyMode == 0
    ensures var after := Made(d, ServiceEdits()[2..], script);
            && (after.emergencyMode == 0 <==>
                  && !(PassBefore(script, 0) && d.emergencyStop == 1)
                  && !((PassBefore(script, 0) || PassBefore(script, 1)) && d.overload == 1)
                  && !((PassBefore(script, 0) || PassBefore(script, 1) || PassBefore(script, 2)) && !DoorsAgree(d)))
            && (after.emergencyMode == 0 ==> Monitored(after) == after)
  {
    var makes := [Flag(ClearEmergencyStop), Flag(ClearOverload), Flag(ClearDoorObstruction)];
    assert ServiceEdits()[2..] == makes;
    MakeAmongPasses(d, makes, script);
    var e := Acted(RunOf(d, Batch(script)), makes[0]);
    assert makes[1..] == [Flag(ClearOverload), Flag(ClearDoorObstruction)];
    LastTwoAmongPasses(e, Rest(script));
  }

  lemma LastTwoAmongPasses(d: CarData, script: seq<seq<Action>>)
    requires WellFormed(d) && PassesOnly(script) && d.emergencyStop == 0
    ensures var after := Made(d, [Flag(ClearOverload), Flag(ClearDoorObstruction)], script);
            && (after.emergencyMode == 0 <==>
                  && d.emergencyMode == 0
                  && !(PassBefore(script, 0) && d.overload == 1)
                  && !((PassBefore(script, 0) || PassBefore(script, 1)) && !DoorsAgree(d)))
            && (after.emergencyMode == 0 ==> Monitored(after) == after)
  {
    var makes := [Flag(ClearOverload), Flag(ClearDoorObstruction)];
    MakeAmongPasses(d, makes, script);
    var e := Acted(RunOf(d, Batch(script)), makes[0]);
    assert makes[1..] == [Flag(ClearDoorObstruction)];
    MakeAmongPasses(e, makes[1..], Rest(script));
    OneMake(e, Flag(ClearDoorObstruction), Rest(script));
  }

  /** So the recovery can fail: with the stop button pressed, one pass right after the emergency has been
      cleared raises it again. */
  lemma StopReturnsDuringService(d: CarData)
    requires WellFormed(d) && d.emergencyStop == 1
    ensures Controlled(d, ServiceOn, [[], [], [Monitor]]).0.emergencyMode == 1
    ensures Controlled(d, ServiceOn, []).0.emergencyMode == 0
  {
    var script := [[], [], [Monitor]];
    ServiceAmongPassesExactly(d, script);
    assert PassBefore(script, 2);
    ServiceAmongPassesExactly(d, []);
    RunKeeps(d, Woven(ServiceEdits(), script));
    MadeIsARun(d, ServiceEdits(), script);
  }
}
