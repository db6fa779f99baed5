/** The safety system: one pass of its monitor loop over a car's shared block. */
module Safety {
  import opened Floors
  import opened SharedMemory

  /** At most three characters, all digits after an optional leading B.  (Not the documented format:
      "", "B" and "007" pass.) */
  predicate ValidFloor(text: string) {
    |text| <= 3 && AllDigits(if text != [] && text[0] == 'B' then text[1..] else text)
  }

  method IsValidFloor(text: string) returns (valid: bool)
    ensures valid == ValidFloor(text)
  {
    if text != [] && text[0] == 'B' {
      if |text| > 3 {
        return false;
      }
      var i := 1;
      while i < |text|
        invariant 1 <= i <= |text|
        invariant forall j :: 1 <= j < i ==> IsDigit(text[j])
      {
        if !IsDigit(text[i]) {
          assert text[1..][i - 1] == text[i];
          return false;
        }
        i := i + 1;
      }
    } else {
      if |text| > 3 {
        return false;
      }
      var i := 0;
      while i < |text|
        invariant 0 <= i <= |text|
        invariant forall j :: 0 <= j < i ==> IsDigit(text[j])
      {
        if !IsDigit(text[i]) {
          return false;
        }
        i := i + 1;
      }
    }
    return true;
  }

  method IsValidStatus(text: string) returns (valid: bool)
    ensures valid == StatusOf(text).Some?
  {
    var i := 0;
    while i < |STATUSES|
      invariant 0 <= i <= |STATUSES| && StatusOf(text) == StatusFrom(text, i)
    {
      if text == StatusName(STATUSES[i]) {
        return true;
      }
      i := i + 1;
    }
    return false;
  }

  predicate ButtonsValid(d: CarData) {
    && d.openButton <= 1 && d.closeButton <= 1 && d.doorObstruction <= 1
    && d.overload <= 1 && d.emergencyStop <= 1 && d.individualServiceMode <= 1
  }

  /** An obstruction is only expected while the doors move. */
  predicate DoorsAgree(d: CarData) {
    d.doorObstruction == 1 ==> d.status == Some(Opening) || d.status == Some(Closing)
  }

  predicate Consistent(d: CarData) {
    && ValidFloor(d.currentFloor) && ValidFloor(d.destinationFloor)
    && d.status.Some?
    && ButtonsValid(d)
    && DoorsAgree(d)
  }

  /** Something is in the way of doors that are closing. */
  predicate Obstructed(d: CarData) {
    d.doorObstruction == 1 && d.status == Some(Closing)
  }

  function Reopened(d: CarData): CarData {
    if Obstructed(d) then d.(status := Some(Opening), openButton := 1) else d
  }

  predicate RaisesEmergency(d: CarData) {
    (d.emergencyMode == 0 && (d.emergencyStop == 1 || d.overload == 1)) || (d.emergencyMode != 1 && !Consistent(d))
  }

  /** The block after one pass of the monitor. */
  function Monitored(d: CarData): CarData {
    var r := Reopened(d);
    if RaisesEmergency(r) then r.(emergencyMode := 1) else r
  }

  /** The first test of a pass: doors closing on an obstruction are sent back. */
  method AnswerObstruction(block: SharedBlock)
    modifies block
    ensures block.Data() == Reopened(old(block.Data()))
  {
    StatusNamesAreDistinct(block.status);
    if block.doorObstruction == 1 && block.status == StatusName(Closing) {
      block.status := StatusName(Opening);
      block.openButton := 1;
      StatusNamesAreDistinct(block.status);
    }
  }

  /** The last tests of a pass, each of which reports its own message. */
  method CheckConsistency(block: SharedBlock)
    modifies block
    ensures block.Data() == if Consistent(old(block.Data())) then old(block.Data())
                            else old(block.Data()).(emergencyMode := 1)
  {
    StatusNamesAreDistinct(block.status);
    var currentValid := IsValidFloor(CString(block.currentFloor[..]));
    var destinationValid := IsValidFloor(CString(block.destinationFloor[..]));
    var statusValid := IsValidStatus(block.status);
    var buttonsWrong :=
      block.openButton > 1 || block.closeButton > 1 || block.doorObstruction > 1
      || block.overload > 1 || block.emergencyStop > 1 || block.individualServiceMode > 1;
    var doorWrong :=
      block.doorObstruction == 1 && block.status != StatusName(Opening) && block.status != StatusName(Closing);
    if !currentValid || !destinationValid || !statusValid || buttonsWrong || doorWrong {
      block.emergencyMode := 1;
    }
    if !currentValid || !destinationValid {
      block.emergencyMode := 1;
    }
    if !statusValid {
      block.emergencyMode := 1;
    }
    if buttonsWrong {
      block.emergencyMode := 1;
    }
    if doorWrong {
      block.emergencyMode := 1;
    }
  }

  method MonitorPass(block: SharedBlock)
    modifies block
    ensures block.Data() == Monitored(old(block.Data()))
  {
    AnswerObstruction(block);
    if block.emergencyStop == 1 && block.emergencyMode == 0 {
      block.emergencyMode := 1;
    }
    if block.overload == 1 && block.emergencyMode == 0 {
      block.emergencyMode := 1;
    }
    if block.emergencyMode != 1 {
      CheckConsistency(block);
    }
  }

  // ----- a pass, in the plainest terms -----

  /** A label with more than three characters, or with one that is neither a digit nor a leading B. */
  predicate BadLabel(text: string) {
    |text| > 3 || exists i :: 0 <= i < |text| && !('0' <= text[i] <= '9') && (i > 0 || text[i] != 'B')
  }

  lemma BadLabelExactly(text: string)
    ensures BadLabel(text) <==> !ValidFloor(text)
  {
    var digits := if text != [] && text[0] == 'B' then text[1..] else text;
    if BadLabel(text) && |text| <= 3 {
      var i :| 0 <= i < |text| && !('0' <= text[i] <= '9') && (i > 0 || text[i] != 'B');
      assert !IsDigit(digits[if text[0] == 'B' then i - 1 else i]);
    } else if !AllDigits(digits) {
      var i :| 0 <= i < |digits| && !IsDigit(digits[i]);
      assert !IsDigit(text[if text[0] == 'B' then i + 1 else i]);
    }
  }

  lemma FiveStatuses(status: Option<Status>)
    ensures status.Some? ==>
              || status == Some(Opening) || status == Some(Open) || status == Some(Closing)
              || status == Some(Closed) || status == Some(Between)
  {
    if status.Some? {
      match status.value {
        case Opening =>
        case Open =>
        case Closing =>
        case Closed =>
        case Between =>
      }
    }
  }

  /** When an emergency is on after a pass: it was on, or none was and the stop button or the overload sensor
      is set; or, whatever the flag, a label is bad, the status is none of the five, a flag is above 1 (the
      open button only if no closing doors are obstructed, for then it is overwritten), or there is an
      obstruction while the doors are open, shut or between floors. */
  lemma EmergencyAfterPassExactly(d: CarData)
    ensures Monitored(d).emergencyMode == 1 <==>
            || d.emergencyMode == 1
            || (d.emergencyMode == 0 && (d.emergencyStop == 1 || d.overload == 1))
            || BadLabel(d.currentFloor) || BadLabel(d.destinationFloor) || d.status == None
            || d.closeButton > 1 || d.doorObstruction > 1 || d.overload > 1
            || d.emergencyStop > 1 || d.individualServiceMode > 1
            || (d.openButton > 1 && !(d.doorObstruction == 1 && d.status == Some(Closing)))
            || (d.doorObstruction == 1
                && (d.status == Some(Open) || d.status == Some(Closed) || d.status == Some(Between)))
  {
    BadLabelExactly(d.currentFloor);
    BadLabelExactly(d.destinationFloor);
    var r := Reopened(d);
    assert DoorsAgree(r) <==> !(d.doorObstruction == 1 && d.status != Some(Opening) && d.status != Some(Closing));
    FiveStatuses(d.status);
    assert ButtonsValid(r) <==>
        && d.closeButton <= 1 && d.doorObstruction <= 1 && d.overload <= 1
        && d.emergencyStop <= 1 && d.individualServiceMode <= 1
        && (d.openButton <= 1 || Obstructed(d));
  }

  /** On a well-formed block without an emergency three things raise one. */
  lemma WellFormedAlarmsExactly(d: CarData)
    requires WellFormed(d) && d.emergencyMode == 0
    ensures Monitored(d).emergencyMode == 1 <==>
            || d.emergencyStop == 1
            || d.overload == 1
            || (d.doorObstruction == 1
                && (d.status == Some(Open) || d.status == Some(Closed) || d.status == Some(Between)))
  {
    EmergencyAfterPassExactly(d);
    BadLabelExactly(d.currentFloor);
    BadLabelExactly(d.destinationFloor);
  }

  /** For instance, a closed car with the obstruction sensor set. */
  lemma ObstructedClosedCarAlarms()
    ensures Monitored(Initial("1").(doorObstruction := 1)).emergencyMode == 1
    ensures Monitored(Initial("1")).emergencyMode == 0
  {
    EmergencyAfterPassExactly(Initial("1"));
    BadLabelExactly("1");
    assert "1"[0] == '1';
  }

  /** Closing doors on an obstruction are turned round with the open button set; nothing else ever changes
      what is shown or the button. */
  lemma DoorsTurnRoundExactly(d: CarData)
    ensures var m := Monitored(d);
            if d.doorObstruction == 1 && d.status == Some(Closing)
            then m.status == Some(Opening) && m.openButton == 1
            else m.status == d.status && m.openButton == d.openButton
  {
  }

  /** After a pass either the emergency is on, or everything checked is consistent and neither the stop
      button nor the overload sensor is set.  That is missed exactly when an emergency flag above 1, which
      escapes the stop and overload checks, hides one of them on an otherwise consistent block. */
  predicate Safe(d: CarData) {
    d.emergencyMode == 1 || (Consistent(d) && d.emergencyStop != 1 && d.overload != 1)
  }

  lemma MonitorGuarantee(d: CarData)
    ensures Safe(Monitored(d)) <==>
            d.emergencyMode <= 1 || !Consistent(Reopened(d)) || (d.emergencyStop != 1 && d.overload != 1)
  {
  }

  /** For instance, a flag of 2 hides a pressed stop button for good. */
  lemma LargeFlagHidesTheStop(d: CarData)
    requires d.emergencyMode > 1 && Consistent(Reopened(d)) && d.emergencyStop == 1
    ensures Monitored(d) == Reopened(d) && !Safe(Monitored(d))
    ensures var e := Initial("1").(emergencyMode := 2, emergencyStop := 1); Monitored(e) == e && !Safe(e)
  {
  }

  /** The emergency flag itself is no checked field: a value above 1 is repaired exactly when something
      else is inconsistent. */
  lemma LargeFlagsAreRepairedExactly(d: CarData)
    ensures Monitored(d).emergencyMode <= 1 <==> d.emergencyMode <= 1 || !Consistent(Reopened(d))
  {
  }

  /** So a flag of 17 on a fresh block, for which the safety test expects an emergency, stays 17. */
  lemma LargeFlagGoesUnnoticed()
    ensures var d := Initial("1").(emergencyMode := 17); Monitored(d) == d && Safe(d)
  {
  }

  /** A pass never clears an emergency, touches only the status, the open button and the emergency flag,
      turns the doors round exactly when they close on an obstruction, and repeats without effect. */
  lemma MonitorEffect(d: CarData)
    ensures var m := Monitored(d);
            && (d.emergencyMode == 1 ==> m.emergencyMode == 1)
            && m == d.(status := m.status, openButton := m.openButton, emergencyMode := m.emergencyMode)
            && (Obstructed(d) ==> m.status == Some(Opening) && m.openButton == 1)
            && (!Obstructed(d) ==> m.status == d.status && m.openButton == d.openButton)
            && !Obstructed(m)
            && Monitored(m) == m
  {
  }

  // ----- what survives every run -----

  /** What no process can break: readable labels, a real status, flags that are 0 or 1. */
  predicate WellFormed(d: CarData) {
    && ValidFloor(d.currentFloor) && ValidFloor(d.destinationFloor)
    && d.status.Some?
    && ButtonsValid(d) && d.emergencyMode <= 1
  }

  predicate CanonicalLabels(d: CarData) {
    CanonicalLabel(d.currentFloor) && CanonicalLabel(d.destinationFloor)
  }

  lemma CanonicalIsValid(text: string)
    requires CanonicalLabel(text)
    ensures ValidFloor(text)
  {
    assert text[0] == 'B' ==> !IsDigit(text[0]);
  }

  /** Every printed label passes the safety system's floor check. */
  lemma PrintedLabelIsValid(floor: int)
    ensures ValidFloor(FloorToLabel(floor))
  {
    PrintedLabelIsCanonical(floor);
    CanonicalIsValid(FloorToLabel(floor));
  }

  lemma MovedLabelKeeps(text: string, shift: int)
    ensures ValidFloor(MoveLabel(text, shift)) && CanonicalLabel(MoveLabel(text, shift))
  {
    PrintedLabelIsValid(Move(LabelToFloor(text), shift));
    PrintedLabelIsCanonical(Move(LabelToFloor(text), shift));
  }

  lemma FlagEditKeeps(d: CarData, op: Op)
    requires EditsFlag(op)
    ensures WellFormed(d) ==> WellFormed(EditedFlag(d, op))
    ensures CanonicalLabels(d) ==> CanonicalLabels(EditedFlag(d, op))
  {
  }

  lemma EditKeeps(d: CarData, op: Op, floor: int, status: Status)
    ensures WellFormed(d) ==> WellFormed(Edited(d, op, floor, status))
    ensures CanonicalLabels(d) ==> CanonicalLabels(Edited(d, op, floor, status))
  {
    if op.SetFloor? || op.SetDestination? {
      PrintedLabelIsValid(floor);
      PrintedLabelIsCanonical(floor);
    } else if op.MoveCurrent? {
      MovedLabelKeeps(d.currentFloor, floor);
    } else if op.MoveDestination? {
      MovedLabelKeeps(d.destinationFloor, floor);
    } else if EditsFlag(op) {
      FlagEditKeeps(d, op);
    }
  }

  lemma MonitorKeeps(d: CarData)
    ensures WellFormed(d) ==> WellFormed(Monitored(d))
    ensures CanonicalLabels(d) ==> CanonicalLabels(Monitored(d))
  {
  }
}
