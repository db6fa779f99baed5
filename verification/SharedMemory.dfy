/** The block of memory one car shares with its internal controls and its safety system.
    Every operation holds the block's mutex throughout, so each is one atomic step. */
module SharedMemory {
  import opened Floors

  newtype uint8 = x: int | 0 <= x < 256

  datatype Status = Opening | Open | Closing | Closed | Between

  const STATUSES: seq<Status> := [Opening, Open, Closing, Closed, Between]

  function StatusName(status: Status): string {
    match status
    case Opening => "Opening"
    case Open => "Open"
    case Closing => "Closing"
    case Closed => "Closed"
    case Between => "Between"
  }

  /** The first status from entry i of the table on whose name is `text`. */
  function StatusFrom(text: string, i: nat): Option<Status>
    decreases |STATUSES| - i
  {
    if i >= |STATUSES| then None
    else if text == StatusName(STATUSES[i]) then Some(STATUSES[i])
    else StatusFrom(text, i + 1)
  }

  /** The status a text names, if it names one. */
  function StatusOf(text: string): Option<Status> {
    StatusFrom(text, 0)
  }

  lemma {:induction false} StatusFromFinds(text: string, i: nat)
    requires i <= |STATUSES|
    ensures StatusFrom(text, i).Some? ==> StatusName(StatusFrom(text, i).value) == text
    ensures StatusFrom(text, i).None? ==> forall j :: i <= j < |STATUSES| ==> StatusName(STATUSES[j]) != text
    decreases |STATUSES| - i
  {
    if i < |STATUSES| { StatusFromFinds(text, i + 1); }
  }

  lemma NamesDiffer(s: Status, t: Status)
    ensures StatusName(s) == StatusName(t) ==> s == t
  {
    assert |"Opening"| == 7 && |"Open"| == 4 && |"Closing"| == 7 && |"Closed"| == 6 && |"Between"| == 7;
    assert "Opening"[0] == 'O' && "Closing"[0] == 'C' && "Between"[0] == 'B';
  }

  /** Every status has its own name, so the table lookup inverts naming. */
  lemma StatusNamesAreDistinct(text: string)
    ensures forall s: Status :: StatusName(s) == text <==> StatusOf(text) == Some(s)
  {
    StatusFromFinds(text, 0);
    forall s: Status ensures StatusName(s) == text <==> StatusOf(text) == Some(s) {
      var k := match s case Opening => 0 case Open => 1 case Closing => 2 case Closed => 3 case Between => 4;
      assert STATUSES[k] == s;
      if StatusOf(text).Some? { NamesDiffer(s, StatusOf(text).value); }
    }
  }

  /** The names, spelled out. */
  lemma StatusTexts(text: string)
    ensures StatusOf(text) == Some(Opening) <==> text == "Opening"
    ensures StatusOf(text) == Some(Open) <==> text == "Open"
    ensures StatusOf(text) == Some(Closing) <==> text == "Closing"
    ensures StatusOf(text) == Some(Closed) <==> text == "Closed"
    ensures StatusOf(text) == Some(Between) <==> text == "Between"
    ensures StatusOf(text) == None <==> text !in {"Opening", "Open", "Closing", "Closed", "Between"}
  {
    StatusNamesAreDistinct(text);
    assert StatusName(Opening) == text <==> StatusOf(text) == Some(Opening);
    assert StatusName(Open) == text <==> StatusOf(text) == Some(Open);
    assert StatusName(Closing) == text <==> StatusOf(text) == Some(Closing);
    assert StatusName(Closed) == text <==> StatusOf(text) == Some(Closed);
    assert StatusName(Between) == text <==> StatusOf(text) == Some(Between);
  }

  /** The lookup loop over the table of names. */
  method StringToStatus(text: string) returns (status: Option<Status>)
    ensures status == StatusOf(text)
  {
    var i := 0;
    while i < |STATUSES|
      invariant 0 <= i <= |STATUSES| && StatusOf(text) == StatusFrom(text, i)
    {
      if text == StatusName(STATUSES[i]) {
        return Some(STATUSES[i]);
      }
      i := i + 1;
    }
    return None;
  }

  /** What the block holds at one moment.  The status is None when its text names no status. */
  datatype CarData = CarData(
    currentFloor: string,
    destinationFloor: string,
    status: Option<Status>,
    openButton: uint8,
    closeButton: uint8,
    doorObstruction: uint8,
    overload: uint8,
    emergencyStop: uint8,
    individualServiceMode: uint8,
    emergencyMode: uint8)

  datatype Op =
    | Nop
    | SetFloor | MoveCurrent | MoveDestination | SetDestination | SetStatus
    | SetOpen | ClearOpen
    | SetClose | ClearClose
    | SetDoorObstruction | ClearDoorObstruction
    | SetOverload | ClearOverload
    | SetEmergency | ClearEmergency
    | SetService | ClearService
    | SetEmergencyStop | ClearEmergencyStop
    | GetFloor | GetDestination | GetStatus | GetOpen | GetClose
    | GetOverload | GetDoorObstruction | GetEmergency | GetService | GetEmergencyStop

  /** The edits of a mode. */
  predicate EditsMode(op: Op) {
    match op
    case SetEmergency => true
    case ClearEmergency => true
    case SetService => true
    case ClearService => true
    case SetEmergencyStop => true
    case ClearEmergencyStop => true
    case _ => false
  }

  /** The edits of any flag. */
  predicate EditsFlag(op: Op) {
    match op
    case SetOpen => true
    case ClearOpen => true
    case SetClose => true
    case ClearClose => true
    case SetOverload => true
    case ClearOverload => true
    case SetDoorObstruction => true
    case ClearDoorObstruction => true
    case _ => EditsMode(op)
  }

  /** What an edit accepts; the read operations are refused. */
  predicate IsEdit(op: Op) {
    match op
    case Nop => true
    case MoveCurrent => true
    case MoveDestination => true
    case SetFloor => true
    case SetDestination => true
    case SetStatus => true
    case _ => EditsFlag(op)
  }

  function EditedMode(d: CarData, op: Op): CarData {
    match op
    case SetEmergency => d.(emergencyMode := 1)
    case ClearEmergency => d.(emergencyMode := 0)
    case SetService => d.(individualServiceMode := 1)
    case ClearService => d.(individualServiceMode := 0)
    case SetEmergencyStop => d.(emergencyStop := 1)
    case ClearEmergencyStop => d.(emergencyStop := 0)
    case _ => d
  }

  function EditedFlag(d: CarData, op: Op): CarData {
    match op
    case SetOpen => d.(openButton := 1)
    case ClearOpen => d.(openButton := 0)
    case SetClose => d.(closeButton := 1)
    case ClearClose => d.(closeButton := 0)
    case SetOverload => d.(overload := 1)
    case ClearOverload => d.(overload := 0)
    case SetDoorObstruction => d.(doorObstruction := 1)
    case ClearDoorObstruction => d.(doorObstruction := 0)
    case _ => EditedMode(d, op)
  }

  /** The block after one edit. */
  function Edited(d: CarData, op: Op, floor: int, status: Status): CarData {
    match op
    case MoveCurrent => d.(currentFloor := MoveLabel(d.currentFloor, floor))
    case MoveDestination => d.(destinationFloor := MoveLabel(d.destinationFloor, floor))
    case SetFloor => d.(currentFloor := FloorToLabel(floor))
    case SetDestination => d.(destinationFloor := FloorToLabel(floor))
    case SetStatus => d.(status := Some(status))
    case _ => EditedFlag(d, op)
  }

  /** What a read answers.  Reading the emergency flag looks at the stop button and then falls through
      into the obstruction case; reading the emergency stop looks at the emergency mode. */
  predicate Flagged(d: CarData, op: Op) {
    match op
    case GetOpen => d.openButton == 1
    case GetClose => d.closeButton == 1
    case GetOverload => d.overload == 1
    case GetEmergency => d.emergencyStop == 1 || d.doorObstruction == 1
    case GetDoorObstruction => d.doorObstruction == 1
    case GetService => d.individualServiceMode == 1
    case GetEmergencyStop => d.emergencyMode == 1
    case _ => false
  }

  /** The edits that set and clear the flag a read looks at. */
  function Writers(get: Op): Option<(Op, Op)> {
    match get
    case GetOpen => Some((SetOpen, ClearOpen))
    case GetClose => Some((SetClose, ClearClose))
    case GetOverload => Some((SetOverload, ClearOverload))
    case GetDoorObstruction => Some((SetDoorObstruction, ClearDoorObstruction))
    case GetService => Some((SetService, ClearService))
    case GetEmergencyStop => Some((SetEmergency, ClearEmergency))
    case _ => None
  }

  /** A flag reads as it was last written, and no other edit disturbs it. */
  lemma ReadsWhatWasWritten(d: CarData, get: Op, op: Op, floor: int, status: Status)
    requires Writers(get).Some?
    ensures var (setter, clearer) := Writers(get).value;
            Flagged(Edited(d, op, floor, status), get)
            == if op == setter then true else if op == clearer then false else Flagged(d, get)
  {
    if EditsFlag(op) {
      FlagEditsKeepTheRest(d, get, op);
    }
  }

  lemma FlagEditsKeepTheRest(d: CarData, get: Op, op: Op)
    requires Writers(get).Some? && EditsFlag(op)
    ensures var (setter, clearer) := Writers(get).value;
            Flagged(EditedFlag(d, op), get)
            == if op == setter then true else if op == clearer then false else Flagged(d, get)
  {
    if EditsMode(op) {
      ModeEditsKeepTheRest(d, get, op);
    } else {
      match get {
        case GetOpen =>
        case GetClose =>
        case GetOverload =>
        case GetDoorObstruction =>
        case GetService =>
        case GetEmergencyStop =>
      }
    }
  }

  lemma ModeEditsKeepTheRest(d: CarData, get: Op, op: Op)
    requires Writers(get).Some? && EditsMode(op)
    ensures var (setter, clearer) := Writers(get).value;
            Flagged(EditedMode(d, op), get)
            == if op == setter then true else if op == clearer then false else Flagged(d, get)
  {
  }

  /** The edits the operation names pair with each read. */
  function NamedWriters(get: Op): Option<(Op, Op)> {
    match get
    case GetEmergency => Some((SetEmergency, ClearEmergency))
    case GetEmergencyStop => Some((SetEmergencyStop, ClearEmergencyStop))
    case _ => Writers(get)
  }

  predicate ReadsBack(d: CarData, get: Op)
    requires NamedWriters(get).Some?
  {
    var (setter, clearer) := NamedWriters(get).value;
    Flagged(Edited(d, setter, 0, Opening), get) && !Flagged(Edited(d, clearer, 0, Opening), get)
  }

  /** By its name, a flag reads back what is set and cleared exactly if it is not one of the two emergency
      flags: their reads are crossed with their writes, so each reads on as before. */
  lemma NamedFlagsReadBackExactly(d: CarData, get: Op)
    requires NamedWriters(get).Some?
    ensures ReadsBack(d, get) <==> get != GetEmergency && get != GetEmergencyStop
    ensures get == GetEmergency || get == GetEmergencyStop ==>
              var (setter, clearer) := NamedWriters(get).value;
              && Flagged(Edited(d, setter, 0, Opening), get) == Flagged(d, get)
              && Flagged(Edited(d, clearer, 0, Opening), get) == Flagged(d, get)
  {
    if get == GetEmergency {
      CrossedFlagsReadOn(d);
    } else if get == GetEmergencyStop {
      ReadsWhatWasWritten(d, get, SetEmergencyStop, 0, Opening);
      ReadsWhatWasWritten(d, get, ClearEmergencyStop, 0, Opening);
    } else {
      var (setter, clearer) := Writers(get).value;
      ReadsWhatWasWritten(d, get, setter, 0, Opening);
      ReadsWhatWasWritten(d, get, clearer, 0, Opening);
      WritersDiffer(get);
    }
  }

  lemma CrossedFlagsReadOn(d: CarData)
    ensures Flagged(Edited(d, SetEmergency, 0, Opening), GetEmergency) == Flagged(d, GetEmergency)
    ensures Flagged(Edited(d, ClearEmergency, 0, Opening), GetEmergency) == Flagged(d, GetEmergency)
  {
  }

  lemma WritersDiffer(get: Op)
    requires Writers(get).Some?
    ensures Writers(get).value.0 != Writers(get).value.1
  {
  }

  /** The operations that name a floor or a status write that one field: a floor that has a label reads back,
      a moved label has gone that many storeys along the shaft, and all other operations leave floors and
      status alone. */
  lemma FloorEditsReadBack(d: CarData, op: Op, floor: int, status: Status)
    ensures var e := Edited(d, op, floor, status);
            var here, there := LabelToFloor(d.currentFloor), LabelToFloor(d.destinationFloor);
            && (op == SetFloor ==> (LabelToFloor(e.currentFloor) == floor <==> InRange(floor)))
            && (op == SetDestination ==> (LabelToFloor(e.destinationFloor) == floor <==> InRange(floor)))
            && (op == MoveCurrent && here != 0 && InRange(Move(here, floor)) ==>
                  Position(LabelToFloor(e.currentFloor)) == Position(here) + floor)
            && (op == MoveDestination && there != 0 && InRange(Move(there, floor)) ==>
                  Position(LabelToFloor(e.destinationFloor)) == Position(there) + floor)
            && (op != SetFloor && op != MoveCurrent ==> e.currentFloor == d.currentFloor)
            && (op != SetDestination && op != MoveDestination ==> e.destinationFloor == d.destinationFloor)
            && e.status == (if op == SetStatus then Some(status) else d.status)
  {
    if op == SetFloor || op == SetDestination {
      LabelRoundTrip(floor);
    } else if op == MoveCurrent && LabelToFloor(d.currentFloor) != 0 {
      MoveIsTranslation(LabelToFloor(d.currentFloor), floor);
      LabelRoundTrip(Move(LabelToFloor(d.currentFloor), floor));
    } else if op == MoveDestination && LabelToFloor(d.destinationFloor) != 0 {
      MoveIsTranslation(LabelToFloor(d.destinationFloor), floor);
      LabelRoundTrip(Move(LabelToFloor(d.destinationFloor), floor));
    } else if EditsFlag(op) {
      FlagEditsKeepFloors(d, op);
    }
  }

  lemma FlagEditsKeepFloors(d: CarData, op: Op)
    requires EditsFlag(op)
    ensures var e := EditedFlag(d, op);
            e.currentFloor == d.currentFloor && e.destinationFloor == d.destinationFloor && e.status == d.status
  {
  }

  /** Editing with a read operation is refused and changes nothing, and only that is refused; reading a floor
      or the status as a flag answers no. */
  lemma ReadsAreNoEdits(d: CarData, op: Op, floor: int, status: Status)
    ensures !IsEdit(op) <==>
            || op == GetFloor || op == GetDestination || op == GetStatus || op == GetOpen || op == GetClose
            || op == GetOverload || op == GetDoorObstruction || op == GetEmergency || op == GetService
            || op == GetEmergencyStop
    ensures !IsEdit(op) || op == Nop ==> Edited(d, op, floor, status) == d
    ensures op == GetFloor || op == GetDestination || op == GetStatus ==> !Flagged(d, op)
  {
  }

  /** A block as the car creates it. */
  function Initial(lowest: string): CarData {
    CarData(lowest, lowest, Some(Closed), 0, 0, 0, 0, 0, 0, 0)
  }

  class SharedBlock {
    const currentFloor: array<char>
    const destinationFloor: array<char>
    var status: string
    var openButton: uint8
    var closeButton: uint8
    var doorObstruction: uint8
    var overload: uint8
    var emergencyStop: uint8
    var individualServiceMode: uint8
    var emergencyMode: uint8

    ghost predicate Valid()
    {
      && currentFloor.Length == LABEL_CHARS + 1
      && destinationFloor.Length == LABEL_CHARS + 1
      && currentFloor != destinationFloor
    }

    function Data(): CarData
      reads this, currentFloor, destinationFloor
    {
      CarData(CString(currentFloor[..]), CString(destinationFloor[..]), StatusOf(status), openButton, closeButton,
              doorObstruction, overload, emergencyStop, individualServiceMode, emergencyMode)
    }

    constructor (lowest: string)
      requires |lowest| <= LABEL_CHARS && '\0' !in lowest
      ensures Valid() && fresh(currentFloor) && fresh(destinationFloor)
      ensures Data() == Initial(lowest)
    {
      currentFloor := new char[LABEL_CHARS + 1];
      destinationFloor := new char[LABEL_CHARS + 1];
      status := StatusName(Closed);
      openButton, closeButton, doorObstruction, overload := 0, 0, 0, 0;
      emergencyStop, individualServiceMode, emergencyMode := 0, 0, 0;
      new;
      PrintInto(currentFloor, LABEL_CHARS + 1, lowest);
      PrintInto(destinationFloor, LABEL_CHARS + 1, lowest);
      StatusNamesAreDistinct(status);
    }

    method Edit(op: Op, floor: int, newStatus: Status) returns (ok: bool)
      requires Valid()
      modifies this, currentFloor, destinationFloor
      ensures Data() == Edited(old(Data()), op, floor, newStatus)
      ensures ok == IsEdit(op)
    {
      ok := true;
      if op.Nop? {
      } else if op.MoveCurrent? {
        MoveInPlace(currentFloor, floor);
      } else if op.MoveDestination? {
        MoveInPlace(destinationFloor, floor);
      } else if op.SetFloor? {
        FloorToString(currentFloor, floor);
      } else if op.SetDestination? {
        FloorToString(destinationFloor, floor);
      } else if op.SetStatus? {
        status := StatusName(newStatus);
        StatusNamesAreDistinct(status);
      } else {
        ok := EditFlag(op);
      }
    }

    /** The cases of an edit that set or clear a button or a sensor; the rest fall through. */
    method EditFlag(op: Op) returns (ok: bool)
      modifies this
      ensures Data() == EditedFlag(old(Data()), op)
      ensures ok == EditsFlag(op)
    {
      ok := true;
      if op.SetOpen? {
        openButton := 1;
      } else if op.ClearOpen? {
        openButton := 0;
      } else if op.SetClose? {
        closeButton := 1;
      } else if op.ClearClose? {
        closeButton := 0;
      } else if op.SetOverload? {
        overload := 1;
      } else if op.ClearOverload? {
        overload := 0;
      } else if op.SetDoorObstruction? {
        doorObstruction := 1;
      } else if op.ClearDoorObstruction? {
        doorObstruction := 0;
      } else {
        ok := EditMode(op);
      }
    }

    /** The cases that set or clear a mode; anything else is refused. */
    method EditMode(op: Op) returns (ok: bool)
      modifies this
      ensures Data() == EditedMode(old(Data()), op)
      ensures ok == EditsMode(op)
    {
      ok := true;
      if op.SetEmergency? {
        emergencyMode := 1;
      } else if op.ClearEmergency? {
        emergencyMode := 0;
      } else if op.SetService? {
        individualServiceMode := 1;
      } else if op.ClearService? {
        individualServiceMode := 0;
      } else if op.SetEmergencyStop? {
        emergencyStop := 1;
      } else if op.ClearEmergencyStop? {
        emergencyStop := 0;
      } else {
        ok := false;
      }
    }

    /** The arithmetic shared by both move operations. */
    static method MoveInPlace(text: array<char>, shift: int)
      requires text.Length == LABEL_CHARS + 1
      modifies text
      ensures CString(text[..]) == MoveLabel(old(CString(text[..])), shift)
    {
      var floor := LabelToFloor(CString(text[..]));
      if (floor + shift >= 0 && floor < 0) || (floor + shift <= 0 && floor > 0) {
        if floor < 0 {
          floor := floor + shift;
          floor := floor + 1;
        } else if floor > 0 {
          floor := floor + shift;
          floor := floor - 1;
        }
      } else {
        floor := floor + shift;
      }
      FloorToString(text, floor);
    }

    method Read(op: Op) returns (flag: bool)
      ensures flag == Flagged(Data(), op)
    {
      flag := false;
      match op {
        case GetOpen => if openButton == 1 { flag := true; }
        case GetClose => if closeButton == 1 { flag := true; }
        case GetOverload => if overload == 1 { flag := true; }
        case GetEmergency =>
          if emergencyStop == 1 { flag := true; }
          if doorObstruction == 1 { flag := true; }
        case GetDoorObstruction => if doorObstruction == 1 { flag := true; }
        case GetService => if individualServiceMode == 1 { flag := true; }
        case GetEmergencyStop => if emergencyMode == 1 { flag := true; }
        case _ => flag := false;
      }
    }

    method ReadStatus() returns (s: Option<Status>)
      ensures s == Data().status
    {
      s := StringToStatus(status);
    }
  }
}
