/** What holds in every state the controller can reach, and of every message it sends. */
module Service {
  import opened Floors
  import opened SharedMemory
  import opened Stops
  import opened Registry
  import opened Dispatch
  import Movement

  // ----- the invariant -----

  predicate CarInv(car: CarRecord) {
    && AllWithin(car.queue, LabelToFloor(car.lowestFloor), LabelToFloor(car.highestFloor))
    && |car.lowestFloor| <= LABEL_CHARS && |car.highestFloor| <= LABEL_CHARS
    && car.socket >= 0 && car.currentDirection == Idle
  }

  ghost predicate ControllerInv(cars: seq<CarRecord>) {
    forall i :: 0 <= i < |cars| ==> CarInv(cars[i])
  }

  lemma QueuedKeeps(car: CarRecord, source: int, destination: int)
    requires CarInv(car) && CanService(car, source, destination)
    ensures CarInv(SentOff(Queued(car, source, destination)))
  {
    AddedWithin(car.queue, car.currentDirection, BoardsCar(car, source, destination), source, destination,
                LabelToFloor(car.lowestFloor), LabelToFloor(car.highestFloor));
  }

  lemma ReportedKeeps(car: CarRecord, e: Event)
    requires e.Report? && CarInv(car)
    ensures CarInv(Reported(car, e))
  {
  }

  lemma ChosenCanService(cars: seq<CarRecord>, source: int, destination: int)
    ensures var best := BestCar(cars, source, destination);
            best.Some? ==> CanService(cars[best.value], source, destination)
  {
    var best := BestCar(cars, source, destination);
    if best.Some? {
      BidsAt(cars, source, destination, best.value);
    }
  }

  lemma StepKeeps(cars: seq<CarRecord>, e: Event)
    requires ControllerInv(cars)
    ensures ControllerInv(Stepped(cars, e).0)
  {
    match e {
      case Call(s, d) =>
        var source, destination := LabelToFloor(s), LabelToFloor(d);
        var best := BestCar(cars, source, destination);
        if best.Some? {
          ChosenCanService(cars, source, destination);
          QueuedKeeps(cars[best.value], source, destination);
        }
      case Register(_, _, _, _, _) =>
      case Report(_, _, _, _) =>
        forall i | 0 <= i < |cars| ensures CarInv(Reported(cars[i], e)) { ReportedKeeps(cars[i], e); }
      case HangUp(socket) =>
        HangUpIsASelection(cars, socket);
    }
  }

  lemma HangUpIsASelection(cars: seq<CarRecord>, socket: int)
    ensures forall i :: 0 <= i < |HungUp(cars, socket)| ==> HungUp(cars, socket)[i] in cars
  {
  }

  /** In every state reached by any events, every stop queued for a car lies in that car's range. */
  lemma ReachableInv(states: seq<seq<CarRecord>>, events: seq<Event>, n: nat)
    requires IsRun(states, events) && states[0] == [] && n <= |events|
    ensures ControllerInv(states[n])
  {
    InvAlongRun(states, events, n);
  }

  lemma {:induction false} InvAlongRun(states: seq<seq<CarRecord>>, events: seq<Event>, n: nat)
    requires IsRun(states, events) && ControllerInv(states[0]) && n <= |events|
    ensures ControllerInv(states[n])
  {
    if n > 0 {
      InvAlongRun(states, events, n - 1);
      RunStepKeeps(states, events, n - 1);
    }
  }

  lemma RunStepKeeps(states: seq<seq<CarRecord>>, events: seq<Event>, k: nat)
    requires IsRun(states, events) && k < |events| && ControllerInv(states[k])
    ensures ControllerInv(states[k + 1])
  {
    assert StepAt(states, events, k);
    StepKeeps(states[k], events[k]);
  }

  // ----- what an event changes, and what it leaves alone -----

  /** A car registered under a fresh name and socket is found by both from then on, starts with nothing to
      do, takes exactly the calls within the two labels it gave, and disturbs no other car. */
  lemma RegistrationIsFound(cars: seq<CarRecord>, e: Event, source: int, destination: int)
    requires e.Register? && |e.name| <= 49 && |e.lowest| <= 3 && |e.highest| <= 3
    requires forall i :: 0 <= i < |cars| ==> cars[i].name != e.name && cars[i].socket != e.socket
    ensures var after := Stepped(cars, e).0;
            && |after| == |cars| + 1 && after[..|cars|] == cars
            && NameBySocket(after, e.socket) == Some(e.name) && SocketByName(after, e.name) == e.socket
            && after[|cars|].queue == [] && after[|cars|].currentDirection == Idle
            && after[|cars|].previousStatus == "IDLE" && after[|cars|].elevatorStatus == StatusOf(e.junk.status)
            && after[|cars|].status == e.junk.status && after[|cars|].currentFloor == e.junk.currentFloor
            && after[|cars|].destinationFloor == e.junk.destinationFloor
            && (CanService(after[|cars|], source, destination) <==>
                  && LabelToFloor(e.lowest) <= source <= LabelToFloor(e.highest)
                  && LabelToFloor(e.lowest) <= destination <= LabelToFloor(e.highest))
            && HungUp(after, e.socket) == cars
  {
    var after := Stepped(cars, e).0;
    assert after[|cars|] == NewCar(e);
    assert IndexBySocket(after, e.socket) == |cars|;
    assert IndexByName(after, e.name) == |cars|;
    assert Without(after, |cars|) == cars;
  }

  /** The fields a report or a call never touches. */
  predicate SameIdentity(a: CarRecord, b: CarRecord) {
    && a.name == b.name && a.socket == b.socket
    && a.lowestFloor == b.lowestFloor && a.highestFloor == b.highestFloor
    && a.currentDirection == b.currentDirection && a.elevatorStatus == b.elevatorStatus
  }

  /** A call changes the queue and perhaps the destination of the chosen car, and nothing else at all. */
  lemma CallChangesOnlyTheChosen(cars: seq<CarRecord>, source: int, destination: int, i: nat)
    requires i < |cars|
    ensures var after := CarsAfterCall(cars, source, destination);
            && |after| == |cars|
            && SameIdentity(after[i], cars[i])
            && after[i] == cars[i].(queue := after[i].queue, destinationFloor := after[i].destinationFloor)
            && (BestCar(cars, source, destination) != Some(i) ==> after[i] == cars[i])
  {
  }

  /** A report changes no identity and no car but the first of the sender's name; one from a socket that no
      car has changes nothing. */
  lemma ReportTouchesOneCar(cars: seq<CarRecord>, e: Event, i: nat)
    requires e.Report? && i < |cars|
    ensures var after, name := StatusUpdate(cars, e).0, NameBySocket(cars, e.socket);
            && |after| == |cars| && SameIdentity(after[i], cars[i])
            && (name.None? || IndexByName(cars, name.value) != i ==> after[i] == cars[i])
  {
  }

  // ----- messages to cars -----

  /** The text names the stop at the head of car i's queue; the stop lies in the car's range; and reading
      the label gives the stop back, unless a caller asked for the floor 0 that no building has. */
  ghost predicate Announces(cars: seq<CarRecord>, i: nat, text: string) {
    && i < |cars| && cars[i].queue != []
    && var head := cars[i].queue[0].floor;
       && head != -1 && text == "FLOOR " + FloorToLabel(head)
       && LabelToFloor(cars[i].lowestFloor) <= head <= LabelToFloor(cars[i].highestFloor)
       && (LabelToFloor(FloorToLabel(head)) == head <==> head != 0)
  }

  /** The car an event is about: the one chosen for a call, or the one a report is recorded in. */
  function Concerned(cars: seq<CarRecord>, e: Event): Option<nat> {
    match e
    case Call(s, d) => BestCar(cars, LabelToFloor(s), LabelToFloor(d))
    case Report(socket, _, _, _) =>
      var name := NameBySocket(cars, socket);
      if name.Some? then Some(IndexByName(cars, name.value)) else None
    case _ => None
  }

  lemma HeadIsReadable(car: CarRecord)
    requires CarInv(car) && car.queue != []
    ensures var head := car.queue[0].floor;
            LabelToFloor(FloorToLabel(head)) == head <==> head != 0
  {
    ShortLabelRange(car.lowestFloor);
    ShortLabelRange(car.highestFloor);
    LabelRoundTrip(car.queue[0].floor);
  }

  /** Every FLOOR message the controller ever sends, from a call or a report, announces the head of the
      concerned car's queue.  After a call it goes to that car's own connection exactly if the first car of
      the same name has that connection; after a report, to the connection the report came on, which is
      the car's own exactly on the same condition. */
  lemma MessagesAnnounceHeads(states: seq<seq<CarRecord>>, events: seq<Event>, n: nat, message: Output)
    requires IsRun(states, events) && states[0] == [] && n < |events|
    requires message.ToCar? && message in Stepped(states[n], events[n]).1
    ensures Concerned(states[n], events[n]).Some?
    ensures var i := Concerned(states[n], events[n]).value;
            && Announces(states[n + 1], i, message.text)
            && i < |states[n]|
            && (events[n].Call? ==>
                  (message.socket == states[n][i].socket <==>
                   states[n][IndexByName(states[n], states[n][i].name)].socket == states[n][i].socket))
            && (events[n].Report? ==>
                  message.socket == events[n].socket
                  && (message.socket == states[n][i].socket <==> IndexBySocket(states[n], events[n].socket) == i))
  {
    ReachableInv(states, events, n);
    ReachableInv(states, events, n + 1);
    assert StepAt(states, events, n);
    EventAnnounces(states[n], events[n], message);
  }

  /** What one event's message says, and to whom. */
  lemma EventAnnounces(before: seq<CarRecord>, e: Event, message: Output)
    requires ControllerInv(Stepped(before, e).0) && message.ToCar? && message in Stepped(before, e).1
    ensures Concerned(before, e).Some?
    ensures var i := Concerned(before, e).value;
            && i < |before| && Announces(Stepped(before, e).0, i, message.text)
            && (e.Call? ==> message.socket == before[IndexByName(before, before[i].name)].socket)
            && (e.Report? ==>
                  message.socket == e.socket
                  && (message.socket == before[i].socket <==> IndexBySocket(before, e.socket) == i))
  {
    match e {
      case Call(s, d) => CallAnnounces(before, LabelToFloor(s), LabelToFloor(d), message);
      case Report(_, _, _, _) => ReportAnnounces(before, e, message);
      case _ =>
    }
  }

  lemma CallAnnounces(before: seq<CarRecord>, source: int, destination: int, message: Output)
    requires ControllerInv(CarsAfterCall(before, source, destination))
    requires message.ToCar? && message in Called(before, source, destination).1
    ensures var best := BestCar(before, source, destination);
            && best.Some? && Announces(CarsAfterCall(before, source, destination), best.value, message.text)
            && message.socket == before[IndexByName(before, before[best.value].name)].socket
  {
    var b := BestCar(before, source, destination).value;
    HeadIsAnnounced(CarsAfterCall(before, source, destination), b);
    assert IndexByName(before, before[b].name) <= b;
  }

  lemma ReportOutput(before: seq<CarRecord>, e: Event, message: Output)
    requires e.Report? && message in StatusUpdate(before, e).1
    ensures Concerned(before, e).Some?
    ensures var i, after := Concerned(before, e).value, StatusUpdate(before, e).0;
            && i < |before| == |after|
            && NextDestination(after[i].queue) != -1
            && message == ToCar(e.socket, FloorMessage(NextDestination(after[i].queue)))
  {
  }

  lemma ReportAnnounces(before: seq<CarRecord>, e: Event, message: Output)
    requires e.Report? && ControllerInv(StatusUpdate(before, e).0)
    requires message.ToCar? && message in StatusUpdate(before, e).1
    ensures Concerned(before, e).Some?
    ensures var i := Concerned(before, e).value;
            && i < |before| && Announces(StatusUpdate(before, e).0, i, message.text)
            && message.socket == e.socket
            && (message.socket == before[i].socket <==> IndexBySocket(before, e.socket) == i)
  {
    ReportOutput(before, e, message);
    HeadIsAnnounced(StatusUpdate(before, e).0, Concerned(before, e).value);
    FirstOfTheSendersName(before, e.socket);
  }

  lemma HeadIsAnnounced(cars: seq<CarRecord>, i: nat)
    requires ControllerInv(cars) && i < |cars| && NextDestination(cars[i].queue) != -1
    ensures Announces(cars, i, FloorMessage(NextDestination(cars[i].queue)))
  {
    assert CarInv(cars[i]);
    HeadIsReadable(cars[i]);
  }

  /** The first car of the sender's name has the sender's connection only if it is the sender. */
  lemma FirstOfTheSendersName(cars: seq<CarRecord>, socket: int)
    requires NameBySocket(cars, socket).Some?
    ensures var i := IndexByName(cars, NameBySocket(cars, socket).value);
            i < |cars| && (cars[i].socket == socket <==> IndexBySocket(cars, socket) == i)
  {
    var k := IndexBySocket(cars, socket);
    assert IndexByName(cars, cars[k].name) <= k;
  }

  /** When the doors of a known car have just shut, the next stop is announced exactly when there is one
      and it is not B1: the code's "no destination" is -1, which is also floor B1. */
  lemma NextStopAnnouncedExactly(cars: seq<CarRecord>, e: Event)
    requires e.Report? && NameBySocket(cars, e.socket).Some?
    requires var i := IndexByName(cars, NameBySocket(cars, e.socket).value);
             i < |cars| && JustClosed(cars[i].previousStatus, Truncated(e.status, STATUS_CHARS))
    ensures var i := IndexByName(cars, NameBySocket(cars, e.socket).value);
            var (after, outputs) := StatusUpdate(cars, e);
            && after[i].queue == Popped(cars[i].queue)
            && (outputs != [] <==> |cars[i].queue| >= 2 && cars[i].queue[1].floor != -1)
  {
  }

  /** Every call gets exactly one reply, as the last thing sent: the name of the best car, or UNAVAILABLE
      exactly when there is none.  A car is sent off at once exactly when it is reported standing at its
      destination and its new first stop is not B1. */
  lemma CallAnsweredExactly(cars: seq<CarRecord>, source: int, destination: int)
    requires ControllerInv(cars)
    ensures var best, outputs := BestCar(cars, source, destination), Called(cars, source, destination).1;
            && outputs != []
            && outputs[|outputs| - 1] == Reply(if best.Some? then "CAR " + cars[best.value].name else "UNAVAILABLE")
            && (forall m :: 0 <= m < |outputs| - 1 ==> outputs[m].ToCar?)
            && (|outputs| == 2 <==>
                  && best.Some?
                  && cars[best.value].destinationFloor == cars[best.value].currentFloor
                  && Queued(cars[best.value], source, destination).queue[0].floor != -1)
            && |outputs| <= 2
  {
    var best := BestCar(cars, source, destination);
    if best.Some? {
      var car := cars[best.value];
      RegisteredSocketIsReal(cars, best.value);
      AddedIsNeverEmpty(car.queue, car.currentDirection, BoardsCar(car, source, destination), source, destination);
    }
  }

  lemma AddedIsNeverEmpty(q: seq<Stop>, current: Direction, boards: bool, source: int, destination: int)
    ensures Added(q, current, boards, source, destination) != []
  {
    AddedIsInsertion(q, current, boards, source, destination);
  }

  lemma RegisteredSocketIsReal(cars: seq<CarRecord>, i: nat)
    requires ControllerInv(cars) && i < |cars|
    ensures SocketByName(cars, cars[i].name) >= 0
  {
    var j := IndexByName(cars, cars[i].name);
    assert j <= i && CarInv(cars[j]);
  }

  /** The destination recorded for a car that is sent off is printed as a plain signed number, not as a
      label ("-2" where B2 is meant), but it still reads back as the stop. */
  lemma RecordedDestinationReadsBack(car: CarRecord)
    requires CarInv(car) && car.queue != [] && car.destinationFloor == car.currentFloor && car.queue[0].floor != -1
    ensures LabelToFloor(SentOff(car).destinationFloor) == car.queue[0].floor
  {
    var n := car.queue[0].floor;
    ShortLabelRange(car.lowestFloor);
    ShortLabelRange(car.highestFloor);
    SignedDecimalReadsBack(n);
  }

  lemma SignedDecimalReadsBack(n: int)
    requires -99 <= n <= 999
    ensures Truncated(SignedDecimal(n), LABEL_CHARS) == SignedDecimal(n)
    ensures LabelToFloor(SignedDecimal(n)) == n
  {
    SmallPowers();
    var m := if n < 0 then -n else n;
    DecimalLength(m, if n < 0 then 2 else 3);
    ValueOfDecimal(m);
    assert IsDigit(Decimal(m)[0]);
    DigitPrefixOfDigits(Decimal(m));
    if n < 0 {
      assert SignedDecimal(n)[1..] == Decimal(m);
      assert ScanInt(SignedDecimal(n)) == Some(-(Value(Decimal(m)) as int));
    } else {
      ScanDecimal(Decimal(m));
    }
  }

  // ----- the queues of the controller are the queues of module Stops -----

  /** What an event does to car i's queue. */
  function OpsOn(cars: seq<CarRecord>, e: Event, i: nat): seq<QueueOp>
    requires i < |cars|
  {
    match e
    case Call(s, d) =>
      if BestCar(cars, LabelToFloor(s), LabelToFloor(d)) == Some(i)
      then [QueueOp.Call(LabelToFloor(s), LabelToFloor(d), LabelToFloor(cars[i].currentFloor), cars[i].elevatorStatus)]
      else []
    case Report(socket, status, _, _) =>
      if Concerned(cars, e) == Some(i) && JustClosed(cars[i].previousStatus, Truncated(status, STATUS_CHARS))
      then [Remove]
      else []
    case _ => []
  }

  lemma OneOperation(q: seq<Stop>, dir: Direction, op: QueueOp)
    ensures AfterAll(q, dir, [op]) == After(q, dir, op)
  {
    assert [op][1..] == [];
    assert AfterAll(After(q, dir, op), dir, []) == After(q, dir, op);
  }

  /** What a report leaves behind until the next: the two statuses and the floor. */
  predicate SameReport(a: CarRecord, b: CarRecord) {
    a.status == b.status && a.previousStatus == b.previousStatus && a.currentFloor == b.currentFloor
  }

  lemma SentOffAt(cars: seq<CarRecord>, b: nat, queued: CarRecord, i: nat)
    requires i < |cars| && b < |cars| && queued == cars[b].(queue := queued.queue)
    ensures var after := cars[b := SentOff(queued)][i];
            && after.currentDirection == cars[i].currentDirection
            && after.name == cars[i].name && SameReport(after, cars[i])
            && after.queue == if b == i then queued.queue else cars[i].queue
  {
  }

  lemma CallTouchesOneQueue(cars: seq<CarRecord>, source: int, destination: int, i: nat)
    requires i < |cars|
    ensures var after := Called(cars, source, destination).0;
            && |after| == |cars| && after[i].currentDirection == cars[i].currentDirection
            && after[i].name == cars[i].name && SameReport(after[i], cars[i])
            && after[i].queue == if BestCar(cars, source, destination) == Some(i)
                                 then Queued(cars[i], source, destination).queue else cars[i].queue
  {
    var best := BestCar(cars, source, destination);
    if best.Some? {
      SentOffAt(cars, best.value, Queued(cars[best.value], source, destination), i);
    }
  }

  /** What one event does to one record. */
  ghost predicate ActsOn(before: CarRecord, after: CarRecord, ops: seq<QueueOp>, report: Option<Event>) {
    && after.name == before.name && after.currentDirection == before.currentDirection
    && after.queue == AfterAll(before.queue, before.currentDirection, ops)
    && if report.Some? then Fills(report.value, after) else SameReport(after, before)
  }

  /** The record says what the report said, cut to the room there is: seven characters for the status, three
      for a floor. */
  predicate Fills(e: Event, car: CarRecord) {
    && e.Report?
    && car.status == Truncated(e.status, 7) && car.previousStatus == Truncated(e.status, 7)
    && car.currentFloor == Truncated(e.current, 3)
  }

  /** The event, if it is a report recorded for car i. */
  function ReportOn(cars: seq<CarRecord>, e: Event, i: nat): Option<Event> {
    if e.Report? && Concerned(cars, e) == Some(i) then Some(e) else None
  }

  lemma CallActsOnQueue(cars: seq<CarRecord>, e: Event, i: nat)
    requires e.Call? && i < |cars|
    ensures |Stepped(cars, e).0| == |cars|
    ensures ActsOn(cars[i], Stepped(cars, e).0[i], OpsOn(cars, e, i), None)
  {
    var ops := OpsOn(cars, e, i);
    CallTouchesOneQueue(cars, LabelToFloor(e.source), LabelToFloor(e.destination), i);
    if ops != [] {
      OneOperation(cars[i].queue, cars[i].currentDirection, ops[0]);
    }
  }

  lemma ReportActsOnQueue(cars: seq<CarRecord>, e: Event, i: nat)
    requires e.Report? && i < |cars|
    ensures |Stepped(cars, e).0| == |cars|
    ensures ActsOn(cars[i], Stepped(cars, e).0[i], OpsOn(cars, e, i), ReportOn(cars, e, i))
  {
    var ops := OpsOn(cars, e, i);
    if ops != [] {
      OneOperation(cars[i].queue, cars[i].currentDirection, ops[0]);
    }
  }

  // ----- following a car by its name -----

  predicate Present(cars: seq<CarRecord>, name: string) {
    IndexByName(cars, name) < |cars|
  }

  /** The first car of the name. */
  function Named(cars: seq<CarRecord>, name: string): CarRecord
    requires Present(cars, name)
  {
    cars[IndexByName(cars, name)]
  }

  /** The event ends a connection whose car has the name. */
  predicate HangsUp(cars: seq<CarRecord>, e: Event, name: string) {
    e.HangUp? && NameBySocket(cars, e.socket) == Some(name)
  }

  lemma SameNamesSameIndex(cars: seq<CarRecord>, after: seq<CarRecord>, name: string)
    requires |cars| == |after| && forall i :: 0 <= i < |cars| ==> cars[i].name == after[i].name
    ensures IndexByName(after, name) == IndexByName(cars, name)
  {
    var i, j := IndexByName(cars, name), IndexByName(after, name);
    if i < j {
      assert false;
    } else if j < i {
      assert false;
    }
  }

  lemma AppendedIndex(cars: seq<CarRecord>, car: CarRecord, name: string)
    requires Present(cars, name)
    ensures IndexByName(cars + [car], name) == IndexByName(cars, name)
  {
    var i, j := IndexByName(cars, name), IndexByName(cars + [car], name);
    assert (cars + [car])[i] == cars[i];
    if j < i {
      assert false;
    }
  }

  lemma RemovedIndex(cars: seq<CarRecord>, k: nat, name: string)
    requires Present(cars, name) && k < |cars| && cars[k].name != name
    ensures Present(Without(cars, k), name) && Named(Without(cars, k), name) == Named(cars, name)
  {
    var i, rest := IndexByName(cars, name), Without(cars, k);
    var i' := if i < k then i else i - 1;
    assert rest[i'] == cars[i];
    forall j | 0 <= j < i' ensures rest[j].name != name {
      assert rest[j] == cars[if j < k then j else j + 1];
    }
    assert IndexByName(rest, name) == i';
  }

  lemma NamedCarCalled(cars: seq<CarRecord>, e: Event, name: string)
    requires Present(cars, name) && e.Call?
    ensures var i := IndexByName(cars, name);
            && Present(Stepped(cars, e).0, name)
            && ActsOn(cars[i], Named(Stepped(cars, e).0, name), OpsOn(cars, e, i), None)
  {
    var after := Stepped(cars, e).0;
    CallActsOnQueue(cars, e, IndexByName(cars, name));
    forall j | 0 <= j < |cars| ensures cars[j].name == after[j].name {
      CallTouchesOneQueue(cars, LabelToFloor(e.source), LabelToFloor(e.destination), j);
    }
    SameNamesSameIndex(cars, after, name);
  }

  lemma NamedCarReported(cars: seq<CarRecord>, e: Event, name: string)
    requires Present(cars, name) && e.Report?
    ensures var i := IndexByName(cars, name);
            && Present(Stepped(cars, e).0, name)
            && ActsOn(cars[i], Named(Stepped(cars, e).0, name), OpsOn(cars, e, i), ReportOn(cars, e, i))
  {
    var after := StatusUpdate(cars, e).0;
    ReportActsOnQueue(cars, e, IndexByName(cars, name));
    forall j | 0 <= j < |cars| ensures cars[j].name == after[j].name {
      ReportTouchesOneCar(cars, e, j);
    }
    SameNamesSameIndex(cars, after, name);
  }

  /** Any event but its own hang-up leaves a named car registered, under whatever index, and acts on its
      queue as at most one queue operation. */
  lemma NamedCarStep(cars: seq<CarRecord>, e: Event, name: string)
    requires Present(cars, name) && !HangsUp(cars, e, name)
    ensures var i := IndexByName(cars, name);
            && Present(Stepped(cars, e).0, name)
            && ActsOn(cars[i], Named(Stepped(cars, e).0, name), OpsOn(cars, e, i), ReportOn(cars, e, i))
  {
    match e {
      case Call(_, _) => NamedCarCalled(cars, e, name);
      case Report(_, _, _, _) => NamedCarReported(cars, e, name);
      case Register(_, _, _, _, _) => AppendedIndex(cars, NewCar(e), name);
      case HangUp(socket) => HangUpOfAnother(cars, socket, name);
    }
  }

  lemma HangUpOfAnother(cars: seq<CarRecord>, socket: int, name: string)
    requires Present(cars, name) && NameBySocket(cars, socket) != Some(name)
    ensures Present(HungUp(cars, socket), name) && Named(HungUp(cars, socket), name) == Named(cars, name)
  {
    var other := NameBySocket(cars, socket);
    if other.Some? {
      var k := IndexByName(cars, other.value);
      if k < |cars| {
        RemovedIndex(cars, k, name);
      }
    }
  }

  /** What event k of a run does to the named car. */
  predicate FollowsAt(states: seq<seq<CarRecord>>, events: seq<Event>, name: string, ops: seq<seq<QueueOp>>, k: nat)
    requires k < |events| && k < |states| && k < |ops|
  {
    && !HangsUp(states[k], events[k], name)
    && (Present(states[k], name) ==> ops[k] == OpsOn(states[k], events[k], IndexByName(states[k], name)))
  }

  /** A run of any events, calls, reports, registrations and hang-ups, throughout which the named car keeps
      its connection; ops[k] is what event k does to its queue. */
  ghost predicate Follows(states: seq<seq<CarRecord>>, events: seq<Event>, name: string, ops: seq<seq<QueueOp>>) {
    && IsRun(states, events) && |ops| == |events| && Present(states[0], name)
    && forall k :: 0 <= k < |events| ==> FollowsAt(states, events, name, ops, k)
  }

  lemma OpsChain(first: CarRecord, before: CarRecord, after: CarRecord, earlier: seq<QueueOp>, ops: seq<QueueOp>)
    requires before.currentDirection == first.currentDirection == after.currentDirection
    requires before.queue == AfterAll(first.queue, first.currentDirection, earlier)
    requires after.queue == AfterAll(before.queue, before.currentDirection, ops)
    ensures after.queue == AfterAll(first.queue, first.currentDirection, earlier + ops)
  {
    AfterAllSplits(first.queue, first.currentDirection, earlier, ops);
  }

  lemma FollowedStep(states: seq<seq<CarRecord>>, events: seq<Event>, name: string, ops: seq<seq<QueueOp>>, k: nat)
    requires Follows(states, events, name, ops) && k < |events| && Present(states[k], name)
    ensures Present(states[k + 1], name)
    ensures ActsOn(Named(states[k], name), Named(states[k + 1], name), ops[k],
                   ReportOn(states[k], events[k], IndexByName(states[k], name)))
  {
    assert StepAt(states, events, k) && FollowsAt(states, events, name, ops, k);
    NamedCarStep(states[k], events[k], name);
  }

  lemma {:induction false} StaysPresent(states: seq<seq<CarRecord>>, events: seq<Event>, name: string,
                                        ops: seq<seq<QueueOp>>, n: nat)
    requires Follows(states, events, name, ops) && n <= |events|
    ensures Present(states[n], name)
  {
    if n > 0 {
      StaysPresent(states, events, name, ops, n - 1);
      FollowedStep(states, events, name, ops, n - 1);
    }
  }

  lemma FlattenedSlice(ops: seq<seq<QueueOp>>, k: nat, n: nat)
    requires k < n <= |ops|
    ensures Flattened(ops[k..n]) == Flattened(ops[k..n - 1]) + ops[n - 1]
  {
    assert ops[k..n][..n - 1 - k] == ops[k..n - 1] && ops[k..n][n - 1 - k] == ops[n - 1];
  }

  lemma {:induction false} FollowedFrom(states: seq<seq<CarRecord>>, events: seq<Event>, name: string,
                                        ops: seq<seq<QueueOp>>, k: nat, n: nat)
    requires Follows(states, events, name, ops) && k <= n <= |events|
    ensures Present(states[k], name) && Present(states[n], name)
    ensures var first, now := Named(states[k], name), Named(states[n], name);
            && now.currentDirection == first.currentDirection
            && now.queue == AfterAll(first.queue, first.currentDirection, Flattened(ops[k..n]))
  {
    StaysPresent(states, events, name, ops, k);
    if n == k {
      assert ops[k..n] == [];
    } else {
      FollowedFrom(states, events, name, ops, k, n - 1);
      FollowedStep(states, events, name, ops, n - 1);
      FlattenedSlice(ops, k, n);
      OpsChain(Named(states[k], name), Named(states[n - 1], name), Named(states[n], name),
               Flattened(ops[k..n - 1]), ops[n - 1]);
    }
  }

  /** Over any run of any events, a car that is not hung up stays registered, and its queue goes exactly
      through a run of queue operations, whoever else comes and goes and whatever index the car is moved to.
      So every law of module Stops holds of the controller. */
  lemma ControllerRefinesStops(states: seq<seq<CarRecord>>, events: seq<Event>, name: string,
                               ops: seq<seq<QueueOp>>, n: nat)
    requires Follows(states, events, name, ops) && n <= |events|
    ensures Present(states[n], name)
    ensures var first, now := Named(states[0], name), Named(states[n], name);
            && now.currentDirection == first.currentDirection
            && now.queue == AfterAll(first.queue, first.currentDirection, Flattened(ops[..n]))
  {
    FollowedFrom(states, events, name, ops, 0, n);
    assert ops[0..n] == ops[..n];
  }

  /** For an idle car that boards nobody meanwhile, a stop at index k of the leading run is at the head after
      exactly k doors-shut reports, whatever else happens in the building, and served by the next. */
  lemma LeadingStopsAreServedInTurn(states: seq<seq<CarRecord>>, events: seq<Event>, name: string,
                                    ops: seq<seq<QueueOp>>, all: seq<QueueOp>, k: nat)
    requires Follows(states, events, name, ops) && all == Flattened(ops)
    requires Named(states[0], name).currentDirection == Idle && InLeadingRun(Named(states[0], name).queue, k)
    requires forall j :: 0 <= j < |all| ==> !OpBoards(Idle, all[j])
    ensures Present(states[|events|], name)
    ensures var ahead, final := k - Removals(all), Named(states[|events|], name).queue;
            ahead >= 0 ==> ahead < |final| && final[ahead] == Named(states[0], name).queue[k]
  {
    ControllerRefinesStops(states, events, name, ops, |events|);
    assert ops[..|events|] == ops;
    LeadingStopAdvances(Named(states[0], name).queue, all, k);
  }

  /** In particular the stop that has been announced stays the head until the doors shut on it exactly if no
      call boards meanwhile; otherwise the last call that boarded is the head. */
  lemma AnnouncedHeadStaysExactly(states: seq<seq<CarRecord>>, events: seq<Event>, name: string,
                                  ops: seq<seq<QueueOp>>, all: seq<QueueOp>)
    requires Follows(states, events, name, ops) && all == Flattened(ops) && Removals(all) == 0
    requires Named(states[0], name).currentDirection == Idle && Named(states[0], name).queue != []
    ensures Present(states[|events|], name)
    ensures var first, final := Named(states[0], name).queue, Named(states[|events|], name).queue;
            && (FollowAll(first, Idle, all, 0) == Some(0) <==> NoneBoards(all))
            && final != [] && final[0] == HeadAfter(first[0], all)
  {
    ControllerRefinesStops(states, events, name, ops, |events|);
    assert ops[..|events|] == ops;
    HeadStaysExactly(Named(states[0], name).queue, all);
  }

  // ----- the last message and the head -----

  /** The FLOOR message an event sends about car i, if any. */
  function MessageAbout(cars: seq<CarRecord>, e: Event, i: nat): Option<Output> {
    var outputs := Stepped(cars, e).1;
    if Concerned(cars, e) == Some(i) && outputs != [] && outputs[0].ToCar? then Some(outputs[0]) else None
  }

  /** It is the only one. */
  lemma OneMessageAtMost(cars: seq<CarRecord>, e: Event, message: Output)
    requires ControllerInv(cars) && message.ToCar?
    ensures message in Stepped(cars, e).1 <==>
            Concerned(cars, e).Some? && MessageAbout(cars, e, Concerned(cars, e).value) == Some(message)
  {
    match e {
      case Call(s, d) => CallAnsweredExactly(cars, LabelToFloor(s), LabelToFloor(d));
      case Report(_, _, _, _) =>
        if message in StatusUpdate(cars, e).1 { ReportOutput(cars, e, message); }
        ReportSendsAtMostOne(cars, e);
      case _ =>
    }
  }

  /** The event puts another stop at the head of car i's queue, or empties it. */
  predicate ReplacesHead(cars: seq<CarRecord>, e: Event, i: nat)
    requires i < |cars|
  {
    match e
    case Call(s, d) =>
      var source, destination := LabelToFloor(s), LabelToFloor(d);
      BestCar(cars, source, destination) == Some(i) && (cars[i].queue == [] || BoardsCar(cars[i], source, destination))
    case Report(_, status, _, _) =>
      Concerned(cars, e) == Some(i) && JustClosed(cars[i].previousStatus, Truncated(status, STATUS_CHARS))
    case _ => false
  }

  /** Why nothing is said of a new head: a call finds the car under way, or comes from B1; a report leaves
      no stop, or B1. */
  predicate KeepsQuiet(cars: seq<CarRecord>, e: Event, i: nat)
    requires i < |cars|
  {
    match e
    case Call(s, _) => cars[i].destinationFloor != cars[i].currentFloor || LabelToFloor(s) == -1
    case Report(_, _, _, _) => |cars[i].queue| <= 1 || cars[i].queue[1].floor == -1
    case _ => true
  }

  predicate ReplacesSilently(cars: seq<CarRecord>, e: Event, i: nat)
    requires i < |cars|
  {
    ReplacesHead(cars, e, i) && KeepsQuiet(cars, e, i)
  }

  /** A new head is announced exactly if there is no reason to keep quiet. */
  lemma NewHeadIsToldExactly(cars: seq<CarRecord>, e: Event, i: nat)
    requires ControllerInv(cars) && i < |cars| && ReplacesHead(cars, e, i)
    ensures MessageAbout(cars, e, i).Some? <==> !KeepsQuiet(cars, e, i)
  {
    match e {
      case Call(s, d) =>
        var source, destination := LabelToFloor(s), LabelToFloor(d);
        CallAnsweredExactly(cars, source, destination);
      case Report(_, _, _, _) =>
        NextStopAnnouncedExactly(cars, e);
        ReportSendsAtMostOne(cars, e);
    }
  }

  lemma ReportSendsAtMostOne(cars: seq<CarRecord>, e: Event)
    requires e.Report?
    ensures var outputs := StatusUpdate(cars, e).1; outputs == [] || (|outputs| == 1 && outputs[0].ToCar?)
    ensures var outputs := StatusUpdate(cars, e).1; outputs != [] ==> outputs[0] in outputs
  {
  }

  /** Where one event leaves the stop announced last, which stands at index j: the car says nothing, so
      the stop stays at the head exactly if no new head comes quietly, and it never comes back there. */
  lemma AnnouncedStopStep(cars: seq<CarRecord>, e: Event, i: nat, j: nat)
    requires ControllerInv(cars) && i < |cars| && j < |cars[i].queue| && cars[i].queue[j].floor != -1
    requires MessageAbout(cars, e, i).None?
    ensures FollowAll(cars[i].queue, Idle, OpsOn(cars, e, i), j) == Some(0) <==>
            j == 0 && !ReplacesSilently(cars, e, i)
  {
    var q, ops := cars[i].queue, OpsOn(cars, e, i);
    if ReplacesHead(cars, e, i) { NewHeadIsToldExactly(cars, e, i); }
    if ops != [] {
      assert CarInv(cars[i]);
      assert |ops| == 1 && ops[1..] == [];
      OneFollow(q, ops[0], j);
      if ops[0].Call? {
        CallMovesNothingUp(q, ops[0], j);
      }
    }
  }

  lemma OneFollow(q: seq<Stop>, op: QueueOp, k: nat)
    ensures FollowAll(q, Idle, [op], k) == Follow(q, Idle, op, k)
  {
    assert [op][1..] == [];
  }

  /** What an event lets the named car hear: a message, or a new head that comes silently. */
  datatype Heard = Heard(said: Option<Output>, hidden: bool)

  predicate HeardAt(states: seq<seq<CarRecord>>, events: seq<Event>, name: string, heard: seq<Heard>, m: nat)
    requires m < |events| && m < |states| && m < |heard|
  {
    Present(states[m], name) ==>
      var i := IndexByName(states[m], name);
      heard[m] == Heard(MessageAbout(states[m], events[m], i), ReplacesSilently(states[m], events[m], i))
  }

  /** A run of any events from a state such as the controller reaches, what each does to the named car's
      queue, and what the car hears of it. */
  ghost predicate Listens(states: seq<seq<CarRecord>>, events: seq<Event>, name: string,
                          ops: seq<seq<QueueOp>>, heard: seq<Heard>)
  {
    && Follows(states, events, name, ops) && ControllerInv(states[0]) && |heard| == |events|
    && forall m :: 0 <= m < |events| ==> HeardAt(states, events, name, heard, m)
  }

  /** The queue of the named car at state m, from the one at state k. */
  lemma QueueFollowed(states: seq<seq<CarRecord>>, events: seq<Event>, name: string,
                      ops: seq<seq<QueueOp>>, k: nat, m: nat)
    requires Follows(states, events, name, ops) && ControllerInv(states[0]) && k <= m <= |events|
    ensures Present(states[k], name) && Present(states[m], name)
    ensures Named(states[m], name).queue == AfterAll(Named(states[k], name).queue, Idle, Flattened(ops[k..m]))
  {
    FollowedFrom(states, events, name, ops, k, m);
    InvAlongRun(states, events, k);
    assert CarInv(Named(states[k], name));
  }

  lemma EventRespectsHead(states: seq<seq<CarRecord>>, events: seq<Event>, name: string,
                          ops: seq<seq<QueueOp>>, heard: seq<Heard>, m: nat)
    requires Listens(states, events, name, ops, heard) && m < |events| && heard[m].said.None?
    ensures Present(states[m], name)
    ensures RespectsHead(Named(states[m], name).queue, ops[m], heard[m].hidden)
  {
    StaysPresent(states, events, name, ops, m);
    InvAlongRun(states, events, m);
    assert FollowsAt(states, events, name, ops, m) && HeardAt(states, events, name, heard, m);
    var i := IndexByName(states[m], name);
    var q := states[m][i].queue;
    forall j | 0 <= j < |q| && q[j].floor != -1
      ensures FollowAll(q, Idle, ops[m], j) == Some(0) <==> j == 0 && !heard[m].hidden
    {
      AnnouncedStopStep(states[m], events[m], i, j);
    }
  }

  /** Which of the events from k to n - 1 hide the head. */
  lemma HiddenBits(heard: seq<Heard>, k: nat, n: nat) returns (hidden: seq<bool>)
    requires k <= n <= |heard|
    ensures |hidden| == n - k && forall m :: 0 <= m < n - k ==> hidden[m] == heard[k + m].hidden
    ensures NoneHidden(hidden) <==> forall m :: k <= m < n ==> !heard[m].hidden
  {
    hidden := seq(n - k, m requires 0 <= m < n - k => heard[k + m].hidden);
    assert forall m :: k <= m < n ==> heard[m].hidden == hidden[m - k];
  }

  lemma BatchRespectsHead(states: seq<seq<CarRecord>>, events: seq<Event>, name: string, ops: seq<seq<QueueOp>>,
                          heard: seq<Heard>, k: nat, n: nat, hidden: seq<bool>, m: nat)
    requires Listens(states, events, name, ops, heard) && k + m < n <= |events| && heard[k + m].said.None?
    requires |hidden| == n - k && hidden[m] == heard[k + m].hidden
    ensures Present(states[k], name)
    ensures RespectsAt(Named(states[k], name).queue, ops[k..n], hidden, m)
  {
    QueueFollowed(states, events, name, ops, k, k + m);
    EventRespectsHead(states, events, name, ops, heard, k + m);
    RespectsAtSlice(Named(states[k], name).queue, Named(states[k + m], name).queue, ops, k, n, hidden, m);
  }

  lemma RespectsAtSlice(q: seq<Stop>, later: seq<Stop>, ops: seq<seq<QueueOp>>, k: nat, n: nat, hidden: seq<bool>,
                        m: nat)
    requires k + m < n <= |ops| && m < |hidden|
    requires later == AfterAll(q, Idle, Flattened(ops[k..k + m])) && RespectsHead(later, ops[k + m], hidden[m])
    ensures RespectsAt(q, ops[k..n], hidden, m)
  {
    assert ops[k..n][..m] == ops[k..k + m] && ops[k..n][m] == ops[k + m];
  }

  lemma HeadHeard(states: seq<seq<CarRecord>>, events: seq<Event>, name: string,
                  ops: seq<seq<QueueOp>>, heard: seq<Heard>, k: nat, n: nat)
    requires Listens(states, events, name, ops, heard) && k <= n <= |events|
    requires Present(states[k], name)
    requires var q := Named(states[k], name).queue; q != [] && q[0].floor != -1
    requires forall m :: k <= m < n ==> heard[m].said.None?
    ensures FollowAll(Named(states[k], name).queue, Idle, Flattened(ops[k..n]), 0) == Some(0)
       <==> forall m :: k <= m < n ==> !heard[m].hidden
  {
    var q := Named(states[k], name).queue;
    var hidden := HiddenBits(heard, k, n);
    forall m | 0 <= m < n - k ensures RespectsAt(q, ops[k..n], hidden, m) {
      BatchRespectsHead(states, events, name, ops, heard, k, n, hidden, m);
    }
    HeadThrough(q, ops[k..n], hidden);
  }

  /** The head of state k stays the head up to state n, while the car is told nothing, exactly if no event
      replaces it. */
  lemma HeadKeptExactly(states: seq<seq<CarRecord>>, events: seq<Event>, name: string,
                        ops: seq<seq<QueueOp>>, heard: seq<Heard>, k: nat, n: nat)
    requires Listens(states, events, name, ops, heard) && k <= n <= |events|
    requires Present(states[k], name)
    requires var q := Named(states[k], name).queue; q != [] && q[0].floor != -1
    requires forall m :: k <= m < n ==> heard[m].said.None?
    ensures Present(states[n], name)
    ensures var first, now := Named(states[k], name).queue, Named(states[n], name).queue;
            var kept := FollowAll(first, Idle, Flattened(ops[k..n]), 0) == Some(0);
            && (kept <==> forall m :: k <= m < n ==> !heard[m].hidden)
            && (kept ==> now != [] && now[0] == first[0])
  {
    HeadHeard(states, events, name, ops, heard, k, n);
    QueueFollowed(states, events, name, ops, k, n);
    StopIsFollowed(Named(states[k], name).queue, Idle, Flattened(ops[k..n]), 0);
  }

  /** Between two messages about a car, the last one names its current head exactly as long as no event has
      replaced the head silently: a call that found the queue empty, or boarded, while the car was under
      way or asked from B1; or a doors-shut report that left nothing or B1. */
  lemma LastMessageNamesHeadExactly(states: seq<seq<CarRecord>>, events: seq<Event>, name: string,
                                    ops: seq<seq<QueueOp>>, heard: seq<Heard>, k: nat, n: nat)
    requires Listens(states, events, name, ops, heard) && k < n <= |events|
    requires heard[k].said.Some? && forall m :: k < m < n ==> heard[m].said.None?
    ensures Present(states[k + 1], name) && Present(states[n], name)
    ensures var told, now := Named(states[k + 1], name).queue, Named(states[n], name).queue;
            var kept := FollowAll(told, Idle, Flattened(ops[k + 1..n]), 0) == Some(0);
            && told != [] && heard[k].said.value.text == FloorMessage(told[0].floor)
            && (kept <==> forall m :: k < m < n ==> !heard[m].hidden)
            && (kept ==> now != [] && now[0] == told[0])
  {
    ToldHeadInRun(states, events, name, ops, heard, k);
    HeadKeptExactly(states, events, name, ops, heard, k + 1, n);
  }

  /** The message about a car names the head that car has after the event. */
  lemma ToldHead(cars: seq<CarRecord>, e: Event, name: string, message: Output)
    requires ControllerInv(cars) && Present(cars, name)
    requires MessageAbout(cars, e, IndexByName(cars, name)) == Some(message)
    ensures Present(Stepped(cars, e).0, name)
    ensures var told := Named(Stepped(cars, e).0, name).queue;
            told != [] && told[0].floor != -1 && message.text == FloorMessage(told[0].floor)
  {
    StepKeeps(cars, e);
    OneMessageAtMost(cars, e, message);
    EventAnnounces(cars, e, message);
    SameNamesAfterMessage(cars, e, message, name);
  }

  lemma ToldHeadInRun(states: seq<seq<CarRecord>>, events: seq<Event>, name: string, ops: seq<seq<QueueOp>>,
                      heard: seq<Heard>, k: nat)
    requires Listens(states, events, name, ops, heard) && k < |events| && heard[k].said.Some?
    ensures Present(states[k + 1], name)
    ensures var told := Named(states[k + 1], name).queue;
            told != [] && told[0].floor != -1 && heard[k].said.value.text == FloorMessage(told[0].floor)
  {
    StaysPresent(states, events, name, ops, k);
    InvAlongRun(states, events, k);
    assert HeardAt(states, events, name, heard, k);
    ToldHead(states[k], events[k], name, heard[k].said.value);
    assert StepAt(states, events, k);
  }

  lemma SameNamesAfterMessage(cars: seq<CarRecord>, e: Event, message: Output, name: string)
    requires message in Stepped(cars, e).1
    ensures IndexByName(Stepped(cars, e).0, name) == IndexByName(cars, name)
  {
    var after := Stepped(cars, e).0;
    match e {
      case Call(s, d) =>
        forall i | 0 <= i < |cars| ensures cars[i].name == after[i].name {
          CallTouchesOneQueue(cars, LabelToFloor(s), LabelToFloor(d), i);
        }
        SameNamesSameIndex(cars, after, name);
      case Report(_, _, _, _) =>
        forall i | 0 <= i < |cars| ensures cars[i].name == after[i].name { ReportTouchesOneCar(cars, e, i); }
        SameNamesSameIndex(cars, after, name);
      case _ =>
    }
  }

  /** Between two reports recorded in a car, what the first one said of its status and floor is remembered,
      whatever else happens in the building. */
  lemma {:induction false} LastReportIsRemembered(states: seq<seq<CarRecord>>, events: seq<Event>, name: string,
                                                  ops: seq<seq<QueueOp>>, i: nat, n: nat)
    requires Follows(states, events, name, ops) && i < n <= |events|
    requires events[i].Report? && NameBySocket(states[i], events[i].socket) == Some(name)
    requires forall k :: i < k < n && events[k].Report? ==> NameBySocket(states[k], events[k].socket) != Some(name)
    ensures Present(states[n], name)
    ensures Fills(events[i], Named(states[n], name))
    decreases n
  {
    StaysPresent(states, events, name, ops, n - 1);
    FollowedStep(states, events, name, ops, n - 1);
    if n - 1 > i {
      LastReportIsRemembered(states, events, name, ops, i, n - 1);
      OthersReportElsewhere(states[n - 1], events[n - 1], name);
    }
  }

  /** The destination of the report is kept too, until a call finds the car reported at its destination and
      sends it off; then it is the floor it is sent to, printed as a plain number. */
  lemma DestinationIsRemembered(cars: seq<CarRecord>, e: Event, i: nat)
    requires i < |cars| && (e.Call? || e.Report?)
    ensures var after := Stepped(cars, e).0;
            && |after| == |cars|
            && after[i].destinationFloor
               == if ReportOn(cars, e, i).Some? then Truncated(e.destination, 3)
                  else if e.Call? && Concerned(cars, e) == Some(i) && cars[i].destinationFloor == cars[i].currentFloor
                          && after[i].queue != [] && after[i].queue[0].floor != -1
                  then Truncated(SignedDecimal(after[i].queue[0].floor), 3)
                  else cars[i].destinationFloor
  {
  }

  lemma OthersReportElsewhere(cars: seq<CarRecord>, e: Event, name: string)
    requires Present(cars, name) && (e.Report? ==> NameBySocket(cars, e.socket) != Some(name))
    ensures ReportOn(cars, e, IndexByName(cars, name)) == None
  {
    if e.Report? && NameBySocket(cars, e.socket).Some? {
      var other := NameBySocket(cars, e.socket).value;
      assert cars[IndexByName(cars, name)].name == name != other;
    }
  }

  /** So a car's head is removed exactly by a report of Closed whose last predecessor for that car was
      Closing, however many events of other cars, calls and registrations came in between. */
  lemma StopsGoWhenDoorsShutExactly(states: seq<seq<CarRecord>>, events: seq<Event>, name: string,
                                    ops: seq<seq<QueueOp>>, i: nat, n: nat)
    requires Follows(states, events, name, ops) && i < n < |events|
    requires events[i].Report? && NameBySocket(states[i], events[i].socket) == Some(name)
    requires events[n].Report? && NameBySocket(states[n], events[n].socket) == Some(name)
    requires forall k :: i < k < n && events[k].Report? ==> NameBySocket(states[k], events[k].socket) != Some(name)
    ensures ops[n] == [Remove] <==>
            && Truncated(events[i].status, STATUS_CHARS) == "Closing"
            && Truncated(events[n].status, STATUS_CHARS) == "Closed"
  {
    LastReportIsRemembered(states, events, name, ops, i, n);
    assert FollowsAt(states, events, name, ops, n);
  }

  // ----- from a message to an arrival -----

  /** What the car reads from a FLOOR message. */
  function LabelIn(text: string): string {
    if |text| >= 6 then text[6..] else ""
  }

  /** Every stop announced to a car is reached.  A message of any run, sent on the concerned car's own
      connection, is read by that car; if its range is the one it registered with, then from any labelled
      floor it arrives within two movement rounds at the very floor at the head of its queue. */
  lemma AnnouncedStopIsReached(states: seq<seq<CarRecord>>, events: seq<Event>, n: nat, message: Output, reader: nat,
                               current: string)
    requires IsRun(states, events) && states[0] == [] && n < |events|
    requires message.ToCar? && message in Stepped(states[n], events[n]).1
    requires reader < |states[n + 1]| && states[n + 1][reader].socket == message.socket
             && DistinctSockets(states[n + 1])
    requires var i := Concerned(states[n], events[n]);
             i.Some? && i.value < |states[n + 1]| && states[n + 1][i.value].socket == message.socket
    requires CanonicalLabel(current)
    ensures var car, goal := states[n + 1][reader], LabelIn(message.text);
            && car.queue != []
            && (car.queue[0].floor != 0 ==>
                  && Movement.RoundEnd(Movement.RoundEnd(current, goal), goal) == goal
                  && Movement.Clamped(current, goal, car.lowestFloor, car.highestFloor) == goal
                  && LabelToFloor(goal) == car.queue[0].floor)
  {
    MessagesAnnounceHeads(states, events, n, message);
    var i := Concerned(states[n], events[n]).value;
    assert reader == i;
    if states[n + 1][i].queue[0].floor != 0 {
      AnnouncedLabelIsReached(states[n + 1], i, message.text, current);
    }
  }

  lemma AnnouncedLabelIsReached(cars: seq<CarRecord>, i: nat, text: string, current: string)
    requires Announces(cars, i, text) && cars[i].queue[0].floor != 0 && CanonicalLabel(current)
    ensures var goal := LabelIn(text);
            && Movement.RoundEnd(Movement.RoundEnd(current, goal), goal) == goal
            && Movement.Clamped(current, goal, cars[i].lowestFloor, cars[i].highestFloor) == goal
            && LabelToFloor(goal) == cars[i].queue[0].floor
  {
    var head := cars[i].queue[0].floor;
    PrintedLabelIsCanonical(head);
    assert LabelIn(text) == FloorToLabel(head);
    Movement.TwoRoundsArrive(current, FloorToLabel(head), cars[i].lowestFloor, cars[i].highestFloor);
  }

  /** A call that boards a car under way replaces the announced head and says nothing; when the doors next
      shut, the new head goes without ever having been announced, and the old one is announced again. */
  lemma BoardingIsSilent(cars: seq<CarRecord>, source: int, destination: int, e: Event)
    requires BestCar(cars, source, destination).Some?
    requires var car := cars[BestCar(cars, source, destination).value];
             && car.queue != [] && car.destinationFloor != car.currentFloor && BoardsCar(car, source, destination)
    requires var b, after := BestCar(cars, source, destination).value, CarsAfterCall(cars, source, destination);
             && e.Report? && Concerned(after, e) == Some(b)
             && JustClosed(after[b].previousStatus, Truncated(e.status, STATUS_CHARS))
    ensures var b := BestCar(cars, source, destination).value;
            var (boarded, outputs) := Called(cars, source, destination);
            var (shut, messages) := StatusUpdate(boarded, e);
            var head := cars[b].queue[0].floor;
            && boarded[b].queue[0].floor == source && outputs == [Reply("CAR " + cars[b].name)]
            && shut[b].queue == cars[b].queue
            && messages == if head == -1 then [] else [ToCar(e.socket, FloorMessage(head))]
  {
    var b := BestCar(cars, source, destination).value;
    var q := cars[b].queue;
    CallTouchesOneQueue(cars, source, destination, b);
    assert ([Stop(source, RequestDirection(source, destination))] + q)[1..] == q;
  }

  // ----- the controller with one car -----

  predicate LoggedAt(cars: seq<CarRecord>, events: seq<Event>, outputs: seq<seq<Output>>, k: nat)
    requires k + 1 < |cars| && k < |events| && k < |outputs|
  {
    Stepped([cars[k]], events[k]) == ([cars[k + 1]], outputs[k])
  }

  /** The record of the only car before the first event and after each one, and what each event sends. */
  ghost predicate IsLog(cars: seq<CarRecord>, events: seq<Event>, outputs: seq<seq<Output>>) {
    && |cars| == |events| + 1 && |outputs| == |events|
    && forall k :: 0 <= k < |events| ==> LoggedAt(cars, events, outputs, k)
  }

  lemma LoggedElsewhere(cars: seq<CarRecord>, events: seq<Event>, outputs: seq<seq<Output>>,
                        others: seq<CarRecord>, es: seq<Event>, os: seq<seq<Output>>, k: nat)
    requires k + 1 < |cars| && k < |events| && k < |outputs| && k + 1 < |others| && k < |es| && k < |os|
    requires cars[k] == others[k] && cars[k + 1] == others[k + 1] && events[k] == es[k] && outputs[k] == os[k]
    requires LoggedAt(cars, events, outputs, k)
    ensures LoggedAt(others, es, os, k)
  {
  }

  lemma LogGrows(cars: seq<CarRecord>, events: seq<Event>, outputs: seq<seq<Output>>,
                 e: Event, next: CarRecord, sent: seq<Output>)
    requires IsLog(cars, events, outputs) && Stepped([cars[|events|]], e) == ([next], sent)
    ensures IsLog(cars + [next], events + [e], outputs + [sent])
  {
    var longer, es, os, n := cars + [next], events + [e], outputs + [sent], |events|;
    assert longer[n] == cars[n] && longer[n + 1] == next && es[n] == e && os[n] == sent;
    assert LoggedAt(longer, es, os, n);
    forall k | 0 <= k < |es| ensures LoggedAt(longer, es, os, k) {
      if k < n {
        LoggedElsewhere(cars, events, outputs, longer, es, os, k);
      }
    }
  }

  /** What a report sends to the only car. */
  function ShutOutputs(car: CarRecord, e: Event): seq<Output>
    requires e.Report?
  {
    var after := Reported(car, e);
    if JustClosed(car.previousStatus, after.status) && NextDestination(after.queue) != -1
    then [ToCar(e.socket, FloorMessage(NextDestination(after.queue)))] else []
  }

  lemma LogReport(cars: seq<CarRecord>, events: seq<Event>, outputs: seq<seq<Output>>, e: Event)
    requires IsLog(cars, events, outputs) && e.Report? && e.socket == cars[|events|].socket
    ensures var car := cars[|events|];
            IsLog(cars + [Reported(car, e)], events + [e], outputs + [ShutOutputs(car, e)])
  {
    var car := cars[|events|];
    assert IndexBySocket([car], car.socket) == 0 && IndexByName([car], car.name) == 0;
    assert [car][0 := Reported(car, e)] == [Reported(car, e)];
    LogGrows(cars, events, outputs, e, Reported(car, e), ShutOutputs(car, e));
  }

  /** The only car's record after a call that puts its two stops into an empty queue. */
  function FirstQueued(car: CarRecord, source: int, destination: int): CarRecord {
    var dir := RequestDirection(source, destination);
    car.(queue := [Stop(source, dir), Stop(destination, dir)])
  }

  /** What a call sends if the only car takes it. */
  function TakenOutputs(queued: CarRecord): seq<Output> {
    var next := NextDestination(queued.queue);
    if queued.destinationFloor != queued.currentFloor || next == -1 then [Reply("CAR " + queued.name)]
    else [ToCar(queued.socket, FloorMessage(next)), Reply("CAR " + queued.name)]
  }

  lemma LogCall(cars: seq<CarRecord>, events: seq<Event>, outputs: seq<seq<Output>>, call: Event,
                source: int, destination: int)
    requires IsLog(cars, events, outputs) && call.Call?
    requires LabelToFloor(call.source) == source && LabelToFloor(call.destination) == destination
    requires var car := cars[|events|];
             CanService(car, source, destination) && Score(car, source, destination) < MAX_SCORE && car.socket != -1
    ensures var queued := Queued(cars[|events|], source, destination);
            IsLog(cars + [SentOff(queued)], events + [call], outputs + [TakenOutputs(queued)])
  {
    var car := cars[|events|];
    var queued := Queued(car, source, destination);
    OneCarTakesTheCall(car, source, destination);
    assert IndexByName([car], car.name) == 0;
    assert [car][0 := SentOff(queued)] == [SentOff(queued)];
    LogGrows(cars, events, outputs, call, SentOff(queued), TakenOutputs(queued));
  }

  lemma OneCarTakesTheCall(car: CarRecord, source: int, destination: int)
    requires CanService(car, source, destination) && Score(car, source, destination) < MAX_SCORE
    ensures BestCar([car], source, destination) == Some(0)
  {
    BidsAt([car], source, destination, 0);
    var bids := Bids([car], source, destination);
    assert BestUpTo(bids, 0) == None;
  }

  /** A car registered for B5 to 9, then reported closed on 1 with some destination. */
  function Standing(junk: CarRecord, destination: string): seq<Event> {
    [Register("A", "B5", "9", 4, junk), Report(4, "Closed", "1", destination)]
  }

  function StandingCar(junk: CarRecord, destination: string): CarRecord {
    junk.(name := "A", lowestFloor := "B5", highestFloor := "9", socket := 4, queue := [], currentDirection := Idle,
          elevatorStatus := StatusOf(junk.status), status := "Closed", previousStatus := "Closed",
          currentFloor := "1", destinationFloor := destination)
  }

  /** The states of the controller that starts empty, registers that car and goes on as logged. */
  function StatesOf(junk: CarRecord, cars: seq<CarRecord>): seq<seq<CarRecord>> {
    [[], [NewCar(Standing(junk, "1")[0])]] + seq(|cars|, k requires 0 <= k < |cars| => [cars[k]])
  }

  lemma StandingStarts(junk: CarRecord, destination: string)
    requires |destination| <= LABEL_CHARS
    ensures var events := Standing(junk, destination);
            && Stepped([], events[0]).0 == [NewCar(events[0])]
            && Stepped([NewCar(events[0])], events[1]).0 == [StandingCar(junk, destination)]
  {
    var events := Standing(junk, destination);
    var newcomer := NewCar(events[0]);
    assert IndexBySocket([newcomer], 4) == 0 && IndexByName([newcomer], newcomer.name) == 0;
    assert Reported(newcomer, events[1]) == StandingCar(junk, destination);
    assert [newcomer][0 := StandingCar(junk, destination)] == [StandingCar(junk, destination)];
  }

  /** So every log that starts with the standing car is part of a run from an empty registry. */
  lemma LogIsReached(junk: CarRecord, destination: string, cars: seq<CarRecord>, events: seq<Event>,
                     outputs: seq<seq<Output>>)
    requires |destination| <= LABEL_CHARS && IsLog(cars, events, outputs) && cars[0] == StandingCar(junk, destination)
    ensures IsRun(StatesOf(junk, cars), Standing(junk, destination) + events)
  {
    var states, es := StatesOf(junk, cars), Standing(junk, destination) + events;
    StandingStarts(junk, destination);
    assert NewCar(Standing(junk, "1")[0]) == NewCar(Standing(junk, destination)[0]);
    forall k | 0 <= k < |es| ensures StepAt(states, es, k) {
      if k >= 2 {
        assert LoggedAt(cars, events, outputs, k - 2);
        assert states[k] == [cars[k - 2]] && states[k + 1] == [cars[k - 1]] && es[k] == events[k - 2];
      }
    }
  }

  // ----- short runs that go wrong -----

  lemma LogFirstCall(junk: CarRecord, goal: string, call: Event, source: int, destination: int)
    requires -5 <= source <= 9 && -5 <= destination <= 9
    requires call.Call? && LabelToFloor(call.source) == source && LabelToFloor(call.destination) == destination
    ensures var car := StandingCar(junk, goal);
            var queued := FirstQueued(car, source, destination);
            IsLog([car, SentOff(queued)], [call], [TakenOutputs(queued)])
  {
    OneDigitLabels(5);
    OneDigitLabels(9);
    OneDigitLabels(1);
    assert "B5" == ['B', DigitChar(5)] && "9" == [DigitChar(9)] && "1" == [DigitChar(1)];
    var car := StandingCar(junk, goal);
    LogCall([car], [], [], call, source, destination);
    var queued := Queued(car, source, destination);
    assert queued == FirstQueued(car, source, destination);
    assert [car] + [SentOff(queued)] == [car, SentOff(queued)] && [] + [call] == [call];
    assert [] + [TakenOutputs(queued)] == [TakenOutputs(queued)];
  }

  /** A standing car called from B1 gets the stop in its queue and no message. */
  lemma CallFromB1IsNotAnnounced(junk: CarRecord)
    ensures var call, car := Event.Call("B1", "5"), StandingCar(junk, "1");
            && IsLog([car, FirstQueued(car, -1, 5)], [call], [[Reply("CAR A")]])
            && IsRun(StatesOf(junk, [car, FirstQueued(car, -1, 5)]), Standing(junk, "1") + [call])
  {
    var call, car := Event.Call("B1", "5"), StandingCar(junk, "1");
    OneDigitLabels(1);
    OneDigitLabels(5);
    assert "B1" == ['B', DigitChar(1)] && "5" == [DigitChar(5)] && "CAR " + "A" == "CAR A";
    LogFirstCall(junk, "1", call, -1, 5);
    LogIsReached(junk, "1", [car, FirstQueued(car, -1, 5)], [call], [[Reply("CAR A")]]);
  }

  /** A standing car called from floor 0 is sent to floor 1. */
  lemma CallFromFloorZeroGoesToOne(junk: CarRecord)
    ensures var call, car := Event.Call("0", "5"), StandingCar(junk, "1");
            var sent := FirstQueued(car, 0, 5).(destinationFloor := "0");
            && IsLog([car, sent], [call], [[ToCar(4, "FLOOR 1"), Reply("CAR A")]])
            && IsRun(StatesOf(junk, [car, sent]), Standing(junk, "1") + [call])
  {
    var call, car := Event.Call("0", "5"), StandingCar(junk, "1");
    var sent := FirstQueued(car, 0, 5).(destinationFloor := "0");
    ZeroLabel();
    OneDigitLabels(1);
    OneDigitLabels(5);
    assert "5" == [DigitChar(5)] && FloorToLabel(0) == FloorToLabel(1) == [DigitChar(1)] == "1";
    assert "FLOOR " + "1" == "FLOOR 1" && "CAR " + "A" == "CAR A";
    assert SignedDecimal(0) == [DigitChar(0)] == "0";
    LogFirstCall(junk, "1", call, 0, 5);
    LogIsReached(junk, "1", [car, sent], [call], [[ToCar(4, "FLOOR 1"), Reply("CAR A")]]);
  }

  lemma ZeroLabel()
    ensures LabelToFloor("0") == 0
  {
    assert AllDigits("0");
    ScanDecimal("0");
    assert "0"[..0] == [];
    assert Value("0") == 0;
  }

  lemma OneDigitTexts(n: int)
    requires 1 <= n <= 9
    ensures SignedDecimal(n) == FloorToLabel(n) == [DigitChar(n)]
    ensures FloorMessage(n) == "FLOOR " + [DigitChar(n)]
  {
    OneDigitLabels(n);
    assert Decimal(n) == [DigitChar(n)];
  }

  /** A car that reports a destination of its own when the first call comes: the caller on 5 is answered,
      but the car hears only of 7. */
  lemma AcceptedCallIsNotAnnounced(junk: CarRecord) returns (cars: seq<CarRecord>)
    ensures var events := [Event.Call("5", "7"), Report(4, "Closing", "1", "3"), Report(4, "Closed", "1", "3")];
            && IsLog(cars, events, [[Reply("CAR A")], [], [ToCar(4, "FLOOR 7")]])
            && IsRun(StatesOf(junk, cars), Standing(junk, "3") + events)
            && cars[1].queue == [Stop(5, Upward), Stop(7, Upward)] && cars[3].queue == [Stop(7, Upward)]
  {
    var call, closing, closed := Event.Call("5", "7"), Report(4, "Closing", "1", "3"), Report(4, "Closed", "1", "3");
    var car := StandingCar(junk, "3");
    OneDigitLabels(5);
    OneDigitLabels(7);
    assert "5" == [DigitChar(5)] && "7" == [DigitChar(7)] && "CAR " + "A" == "CAR A";
    LogFirstCall(junk, "3", call, 5, 7);
    var called := FirstQueued(car, 5, 7);
    cars := ShutAfter([car, called], [call], [[Reply("CAR A")]], closing, closed);
    OneDigitTexts(7);
    assert "FLOOR " + "7" == "FLOOR 7";
    var events, outputs := [call, closing, closed], [[Reply("CAR A")], [], [ToCar(4, "FLOOR 7")]];
    assert [call] + [closing, closed] == events;
    assert [[Reply("CAR A")]] + [[], [ToCar(4, "FLOOR 7")]] == outputs;
    LogIsReached(junk, "3", cars, events, outputs);
  }

  /** The only car shuts its doors on the first stop of several, none at B1. */
  lemma ShutAfter(cars: seq<CarRecord>, events: seq<Event>, outputs: seq<seq<Output>>, closing: Event, closed: Event)
    returns (longer: seq<CarRecord>)
    requires IsLog(cars, events, outputs)
    requires closing.Report? && closing.status == "Closing" && closed.Report? && closed.status == "Closed"
    requires var car := cars[|events|];
             && closing.socket == closed.socket == car.socket && |car.queue| >= 2 && car.queue[1].floor != -1
    ensures var car := cars[|events|];
            && |longer| == |cars| + 2 && longer[..|cars|] == cars && longer[|cars| + 1].queue == car.queue[1..]
            && IsLog(longer, events + [closing, closed],
                     outputs + [[], [ToCar(closed.socket, FloorMessage(car.queue[1].floor))]])
  {
    var car := cars[|events|];
    LogReport(cars, events, outputs, closing);
    var shutting := Reported(car, closing);
    LogReport(cars + [shutting], events + [closing], outputs + [[]], closed);
    longer := cars + [shutting] + [Reported(shutting, closed)];
    var message := [ToCar(closed.socket, FloorMessage(car.queue[1].floor))];
    assert events + [closing] + [closed] == events + [closing, closed];
    assert outputs + [[]] + [message] == outputs + [[], message];
  }

  /** A boarding call displaces an announced stop: the car is told of 5, then boards a caller on 1, and the
      next time its doors shut it is told of 5 again, so the stop at 1 was never announced. */
  lemma BoardingDisplacesTheHead(junk: CarRecord) returns (cars: seq<CarRecord>)
    requires StatusOf(junk.status) != Some(Closing)
    ensures var events := [Event.Call("5", "9"), Event.Call("1", "3"),
                           Report(4, "Closing", "1", "5"), Report(4, "Closed", "1", "5")];
            && IsLog(cars, events, [[ToCar(4, "FLOOR 5"), Reply("CAR A")], [Reply("CAR A")], [], [ToCar(4, "FLOOR 5")]])
            && IsRun(StatesOf(junk, cars), Standing(junk, "1") + events)
            && cars[1].queue == [Stop(5, Upward), Stop(9, Upward)]
            && cars[2].queue == [Stop(1, Upward), Stop(5, Upward), Stop(9, Upward)]
            && cars[4].queue == [Stop(5, Upward), Stop(9, Upward)]
  {
    var up, board := Event.Call("5", "9"), Event.Call("1", "3");
    var closing, closed := Report(4, "Closing", "1", "5"), Report(4, "Closed", "1", "5");
    var told, answered := [ToCar(4, "FLOOR 5"), Reply("CAR A")], [Reply("CAR A")];
    cars := Boarded(junk, up, board);
    var boarded := cars[2];
    assert boarded.queue[1..] == [Stop(5, Upward), Stop(9, Upward)];
    OneDigitTexts(5);
    assert "5" == [DigitChar(5)] && "FLOOR " + "5" == "FLOOR 5";
    cars := ShutAfter(cars, [up, board], [told, answered], closing, closed);
    var events, outputs := [up, board, closing, closed], [told, answered, [], [ToCar(4, "FLOOR 5")]];
    assert [up, board] + [closing, closed] == events;
    assert [told, answered] + [[], [ToCar(4, "FLOOR 5")]] == outputs;
    LogIsReached(junk, "1", cars, events, outputs);
  }

  lemma Boarded(junk: CarRecord, up: Event, board: Event) returns (cars: seq<CarRecord>)
    requires StatusOf(junk.status) != Some(Closing) && up == Event.Call("5", "9") && board == Event.Call("1", "3")
    ensures IsLog(cars, [up, board], [[ToCar(4, "FLOOR 5"), Reply("CAR A")], [Reply("CAR A")]])
    ensures cars[0] == StandingCar(junk, "1") && cars[2].socket == 4
    ensures cars[1].queue == [Stop(5, Upward), Stop(9, Upward)]
    ensures cars[2].queue == [Stop(1, Upward), Stop(5, Upward), Stop(9, Upward)]
  {
    var car := StandingCar(junk, "1");
    OneDigitLabels(5);
    OneDigitLabels(9);
    OneDigitTexts(5);
    assert "5" == [DigitChar(5)] && "9" == [DigitChar(9)];
    assert "CAR " + "A" == "CAR A" && "FLOOR " + "5" == "FLOOR 5";
    LogFirstCall(junk, "1", up, 5, 9);
    var called := FirstQueued(car, 5, 9).(destinationFloor := "5");
    var told := [ToCar(4, "FLOOR 5"), Reply("CAR A")];
    assert IsLog([car, called], [up], [told]);
    LogBoarding([car, called], [up], [told], board);
    var boarded := called.(queue := [Stop(1, Upward)] + called.queue);
    cars := [car, called] + [boarded];
    assert [up] + [board] == [up, board] && [told] + [[Reply("CAR A")]] == [told, [Reply("CAR A")]];
  }

  lemma LogBoarding(cars: seq<CarRecord>, events: seq<Event>, outputs: seq<seq<Output>>, board: Event)
    requires IsLog(cars, events, outputs) && board == Event.Call("1", "3")
    requires var car := cars[|events|];
             && car.name == "A" && car.socket == 4 && car.lowestFloor == "B5" && car.highestFloor == "9"
             && car.currentFloor == "1" && car.destinationFloor == "5" && car.elevatorStatus != Some(Closing)
             && car.currentDirection == Idle && |car.queue| == 2
    ensures var car := cars[|events|];
            IsLog(cars + [car.(queue := [Stop(1, Upward)] + car.queue)], events + [board], outputs + [[Reply("CAR A")]])
  {
    OneDigitLabels(1);
    OneDigitLabels(3);
    OneDigitLabels(5);
    OneDigitLabels(9);
    assert "1" == [DigitChar(1)] && "3" == [DigitChar(3)] && "9" == [DigitChar(9)] && "B5" == ['B', DigitChar(5)];
    assert "CAR " + "A" == "CAR A";
    LogCall(cars, events, outputs, board, 1, 3);
  }
}
