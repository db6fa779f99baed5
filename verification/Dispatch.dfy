/** The controller: which car takes a call, and what every event does to the registry and sends out.
    Sockets are numbers, messages are texts, and one event is handled at a time. */
module Dispatch {
  import opened Floors
  import opened SharedMemory
  import opened Stops
  import opened Registry

  // ----- the car search -----

  predicate CanService(car: CarRecord, source: int, destination: int) {
    var lowest, highest := LabelToFloor(car.lowestFloor), LabelToFloor(car.highestFloor);
    lowest <= source <= highest && lowest <= destination <= highest
  }

  /** An unreadable call counts as one for floor 999.  It is taken exactly by the cars whose upper label is
      "999" or unreadable itself, and then served as such. */
  lemma UnreadableCallIsTakenExactly(car: CarRecord, source: string, destination: string)
    requires Unreadable(source) && |source| <= LABEL_CHARS && |destination| <= LABEL_CHARS
    requires |car.lowestFloor| <= LABEL_CHARS && |car.highestFloor| <= LABEL_CHARS
    ensures LabelToFloor(source) == 999
    ensures CanService(car, LabelToFloor(source), LabelToFloor(destination)) <==>
            && (Unreadable(car.highestFloor) || car.highestFloor == "999")
            && LabelToFloor(car.lowestFloor) <= LabelToFloor(destination)
  {
    InvalidFloorExactly(source);
    InvalidFloorExactly(car.highestFloor);
    ShortLabelRange(car.highestFloor);
    ShortLabelRange(car.lowestFloor);
    ShortLabelRange(destination);
  }

  /** For instance, a car for 1 to 999 takes a call from "x" to "5". */
  lemma UnreadableCallIsTaken(car: CarRecord)
    requires car.lowestFloor == "1" && car.highestFloor == "999"
    ensures CanService(car, LabelToFloor("x"), LabelToFloor("5"))
  {
    assert SkipSpaces("x") == "x" && Unreadable("x");
    assert "1" == [DigitChar(1)] && "5" == [DigitChar(5)];
    OneDigitLabels(1);
    OneDigitLabels(5);
    UnreadableCallIsTakenExactly(car, "x", "5");
  }

  /** A car that registered an unreadable upper label serves everything from its lower label up. */
  lemma UnreadableTopServesUpwards(car: CarRecord, source: string, destination: string)
    requires Unreadable(car.highestFloor) && |car.highestFloor| <= LABEL_CHARS
    requires |source| <= LABEL_CHARS && |destination| <= LABEL_CHARS
    ensures CanService(car, LabelToFloor(source), LabelToFloor(destination)) <==>
            && LabelToFloor(car.lowestFloor) <= LabelToFloor(source)
            && LabelToFloor(car.lowestFloor) <= LabelToFloor(destination)
  {
    InvalidFloorExactly(car.highestFloor);
    ShortLabelRange(source);
    ShortLabelRange(destination);
  }

  function Abs(x: int): nat {
    if x < 0 then -x else x
  }

  /** Bonus for going the call's way, penalty for a long queue. */
  function Handicap(car: CarRecord, source: int, destination: int): int {
    2 * |car.queue| - (if car.currentDirection == RequestDirection(source, destination) then 5 else 0)
  }

  function Score(car: CarRecord, source: int, destination: int): int {
    Abs(LabelToFloor(car.currentFloor) - source) + Handicap(car, source, destination)
  }

  const MAX_SCORE: int := 100

  /** What a car bids for a call: its score, if it serves both floors. */
  function Bid(car: CarRecord, source: int, destination: int): Option<int> {
    if CanService(car, source, destination) then Some(Score(car, source, destination)) else None
  }

  function Bids(cars: seq<CarRecord>, source: int, destination: int): (bids: seq<Option<int>>)
    ensures |bids| == |cars|
  {
    if cars == [] then []
    else Bids(cars[..|cars| - 1], source, destination) + [Bid(cars[|cars| - 1], source, destination)]
  }

  lemma {:induction false} BidsAt(cars: seq<CarRecord>, source: int, destination: int, i: nat)
    requires i < |cars|
    ensures Bids(cars, source, destination)[i] == Bid(cars[i], source, destination)
  {
    if i < |cars| - 1 {
      BidsAt(cars[..|cars| - 1], source, destination, i);
    }
  }

  /** The score the next car has to beat. */
  function Bar(bids: seq<Option<int>>, best: Option<nat>): int
    requires best.Some? ==> best.value < |bids| && bids[best.value].Some?
  {
    if best.Some? then bids[best.value].value else MAX_SCORE
  }

  /** The search loop after n cars. */
  function BestUpTo(bids: seq<Option<int>>, n: nat): (best: Option<nat>)
    requires n <= |bids|
    ensures best.Some? ==> best.value < n && bids[best.value].Some?
  {
    if n == 0 then None
    else
      var best := BestUpTo(bids, n - 1);
      if bids[n - 1].Some? && bids[n - 1].value < Bar(bids, best) then Some(n - 1) else best
  }

  function BestCar(cars: seq<CarRecord>, source: int, destination: int): (best: Option<nat>)
    ensures best.Some? ==> best.value < |cars|
  {
    BestUpTo(Bids(cars, source, destination), |cars|)
  }

  /** What the search is for: a least bid below 100, and the first of those. */
  ghost predicate IsBest(bids: seq<Option<int>>, n: nat, best: Option<nat>)
    requires n <= |bids|
  {
    match best
    case None => forall j :: 0 <= j < n && bids[j].Some? ==> bids[j].value >= MAX_SCORE
    case Some(b) =>
      && b < n && bids[b].Some? && bids[b].value < MAX_SCORE
      && forall j :: 0 <= j < n && bids[j].Some? ==>
           bids[b].value <= bids[j].value && (j < b ==> bids[b].value < bids[j].value)
  }

  lemma {:induction false} SearchIsOptimal(bids: seq<Option<int>>, n: nat)
    requires n <= |bids|
    ensures IsBest(bids, n, BestUpTo(bids, n))
  {
    if n > 0 {
      SearchIsOptimal(bids, n - 1);
    }
  }

  lemma BestIsUnique(bids: seq<Option<int>>, n: nat, best: Option<nat>, other: Option<nat>)
    requires n <= |bids| && IsBest(bids, n, best) && IsBest(bids, n, other)
    ensures best == other
  {
  }

  /** The search finds the best bid, and there is only one answer. */
  lemma BestCarIsTheBest(cars: seq<CarRecord>, source: int, destination: int, best: Option<nat>)
    ensures IsBest(Bids(cars, source, destination), |cars|, best) <==> best == BestCar(cars, source, destination)
  {
    var bids := Bids(cars, source, destination);
    SearchIsOptimal(bids, |cars|);
    if IsBest(bids, |cars|, best) {
      BestIsUnique(bids, |cars|, best, BestCar(cars, source, destination));
    }
  }

  /** What the search counts against a car: storeys from the caller by floor number, two for every stop
      already queued, less five if the car is going the call's way. */
  predicate Costs(car: CarRecord, source: int, destination: int, cost: int) {
    var floor, way := LabelToFloor(car.currentFloor), if source < destination then Upward else Downward;
    var storeys := if floor <= source then source - floor else floor - source;
    cost == storeys + 2 * |car.queue| - if car.currentDirection == way then 5 else 0
  }

  predicate Serves(car: CarRecord, floor: int) {
    LabelToFloor(car.lowestFloor) <= floor && floor <= LabelToFloor(car.highestFloor)
  }

  /** Car b costs less than 100 and no more than any car that serves both floors, and less than any such
      car before it. */
  ghost predicate Cheapest(cars: seq<CarRecord>, costs: seq<int>, source: int, destination: int, b: nat)
    requires |costs| == |cars|
  {
    && b < |cars| && Serves(cars[b], source) && Serves(cars[b], destination) && costs[b] < 100
    && forall j :: 0 <= j < |cars| && Serves(cars[j], source) && Serves(cars[j], destination) ==>
         costs[b] <= costs[j] && (j < b ==> costs[b] < costs[j])
  }

  lemma BidIsCost(car: CarRecord, source: int, destination: int, cost: int)
    requires Costs(car, source, destination, cost)
    ensures Bid(car, source, destination)
         == if Serves(car, source) && Serves(car, destination) then Some(cost) else None
  {
  }

  /** The call goes to the cheapest car, and is refused exactly if every car that serves both floors costs
      100 or more. */
  lemma CheapestCarIsChosen(cars: seq<CarRecord>, costs: seq<int>, source: int, destination: int, b: nat)
    requires |costs| == |cars| && forall j :: 0 <= j < |cars| ==> Costs(cars[j], source, destination, costs[j])
    ensures BestCar(cars, source, destination) == Some(b) <==> Cheapest(cars, costs, source, destination, b)
    ensures BestCar(cars, source, destination) == None <==>
            forall j :: 0 <= j < |cars| && Serves(cars[j], source) && Serves(cars[j], destination) ==> costs[j] >= 100
  {
    var bids := Bids(cars, source, destination);
    forall j | 0 <= j < |cars|
      ensures bids[j] == if Serves(cars[j], source) && Serves(cars[j], destination) then Some(costs[j]) else None
    {
      BidsAt(cars, source, destination, j);
      BidIsCost(cars[j], source, destination, costs[j]);
    }
    BestCarIsTheBest(cars, source, destination, Some(b));
    BestCarIsTheBest(cars, source, destination, None);
  }

  /** Of two idle cars that serve the call and cost less than 100, the second is taken exactly if its
      storeys and twice its queued stops come to strictly less. */
  lemma ShorterQueueWinsExactly(first: CarRecord, second: CarRecord, source: int, destination: int, a: int, b: int)
    requires first.currentDirection == second.currentDirection == Idle
    requires Serves(first, source) && Serves(first, destination)
    requires Serves(second, source) && Serves(second, destination)
    requires var x, y := LabelToFloor(first.currentFloor), LabelToFloor(second.currentFloor);
             && a == (if x < source then source - x else x - source) + 2 * |first.queue| < 100
             && b == (if y < source then source - y else y - source) + 2 * |second.queue| < 100
    ensures BestCar([first, second], source, destination) == Some(if b < a then 1 else 0)
  {
    CheapestCarIsChosen([first, second], [a, b], source, destination, if b < a then 1 else 0);
  }

  /** A car that goes the call's way takes it from an idle one on the same floor with the same number of
      stops up to two stops more, and no further: five points against two a stop. */
  lemma GoingTheWayIsWorthFive(idle: CarRecord, going: CarRecord, source: int, destination: int)
    requires idle.currentFloor == going.currentFloor && idle.currentDirection == Idle
    requires going.currentDirection == if source < destination then Upward else Downward
    requires Serves(idle, source) && Serves(idle, destination) && Serves(going, source) && Serves(going, destination)
    requires var x := LabelToFloor(idle.currentFloor);
             (if x < source then source - x else x - source) + 2 * |idle.queue| < 100
    ensures BestCar([idle, going], source, destination) == Some(if |going.queue| <= |idle.queue| + 2 then 1 else 0)
  {
    var x := LabelToFloor(idle.currentFloor);
    var storeys := if x < source then source - x else x - source;
    var costs := [storeys + 2 * |idle.queue|, storeys + 2 * |going.queue| - 5];
    CheapestCarIsChosen([idle, going], costs, source, destination, if |going.queue| <= |idle.queue| + 2 then 1 else 0);
  }

  /** The only car that serves a call refuses it exactly from a cost of 100 on. */
  lemma FarCarRefusesExactly(car: CarRecord, source: int, destination: int, cost: int)
    requires Serves(car, source) && Serves(car, destination) && Costs(car, source, destination, cost)
    ensures BestCar([car], source, destination) == None <==> cost >= 100
  {
    CheapestCarIsChosen([car], [cost], source, destination, 0);
  }

  /** For instance, of two idle cars on 1 the one without stops takes a call from 1 to 5 from one with two. */
  lemma LongQueueLoses(first: CarRecord, second: CarRecord)
    requires first.currentDirection == second.currentDirection == Idle
    requires first.currentFloor == second.currentFloor == first.lowestFloor == second.lowestFloor == "1"
    requires first.highestFloor == second.highestFloor == "9" && |first.queue| == 2 && |second.queue| == 0
    ensures BestCar([first, second], 1, 5) == Some(1)
  {
    OneDigitLabels(1);
    OneDigitLabels(9);
    assert "1" == [DigitChar(1)] && "9" == [DigitChar(9)];
    ShorterQueueWinsExactly(first, second, 1, 5, 4, 0);
  }

  /** The score with distance measured in the shaft, where B1 is next to 1. */
  function ShaftScore(car: CarRecord, source: int, destination: int): int {
    Abs(Position(LabelToFloor(car.currentFloor)) - Position(source)) + Handicap(car, source, destination)
  }

  /** The search counts the missing floor 0, so by shaft distance it may be one storey off the best
      eligible car, never more; and it turns a call away only if every eligible car is 99 or more away. */
  lemma BestWithinOneStorey(cars: seq<CarRecord>, source: int, destination: int, j: nat)
    requires j < |cars| && CanService(cars[j], source, destination)
    ensures match BestCar(cars, source, destination)
            case Some(b) => ShaftScore(cars[b], source, destination) <= ShaftScore(cars[j], source, destination) + 1
            case None => ShaftScore(cars[j], source, destination) >= MAX_SCORE - 1
  {
    var bids := Bids(cars, source, destination);
    SearchIsOptimal(bids, |cars|);
    BidsAt(cars, source, destination, j);
    ScoreAgainstShaft(cars[j], source, destination);
    var best := BestCar(cars, source, destination);
    if best.Some? {
      BidsAt(cars, source, destination, best.value);
      ScoreAgainstShaft(cars[best.value], source, destination);
    }
  }

  /** The ground lies between the car and the caller. */
  predicate Across(car: CarRecord, source: int) {
    LabelToFloor(car.currentFloor) < 0 <==> source >= 0
  }

  /** No eligible car is nearer by shaft distance. */
  ghost predicate NearestInShaft(cars: seq<CarRecord>, source: int, destination: int, b: nat)
    requires b < |cars|
  {
    forall j :: 0 <= j < |cars| && CanService(cars[j], source, destination) ==>
      ShaftScore(cars[b], source, destination) <= ShaftScore(cars[j], source, destination)
  }

  /** The choice is the nearest by shaft distance exactly when the chosen car itself stands across the
      ground, or no eligible car across the ground ties with it in score. */
  lemma ChoiceIsNearestExactly(cars: seq<CarRecord>, source: int, destination: int)
    requires BestCar(cars, source, destination).Some?
    ensures var b := BestCar(cars, source, destination).value;
            NearestInShaft(cars, source, destination, b) <==>
              || Across(cars[b], source)
              || forall j :: 0 <= j < |cars| && CanService(cars[j], source, destination) && Across(cars[j], source) ==>
                   Score(cars[j], source, destination) != Score(cars[b], source, destination)
  {
    var bids := Bids(cars, source, destination);
    SearchIsOptimal(bids, |cars|);
    var b := BestCar(cars, source, destination).value;
    BidsAt(cars, source, destination, b);
    ShaftScoreExactly(cars[b], source, destination);
    forall j | 0 <= j < |cars| && CanService(cars[j], source, destination)
      ensures Score(cars[b], source, destination) <= Score(cars[j], source, destination)
      ensures ShaftScore(cars[j], source, destination)
           == Score(cars[j], source, destination) - if Across(cars[j], source) then 1 else 0
    {
      BidsAt(cars, source, destination, j);
      ShaftScoreExactly(cars[j], source, destination);
    }
  }

  lemma ShaftScoreExactly(car: CarRecord, source: int, destination: int)
    ensures ShaftScore(car, source, destination)
         == Score(car, source, destination) - if Across(car, source) then 1 else 0
  {
  }

  /** For instance: called from 1 to 2, a car on 3 and a car on B1 tie at a score of 2, the first is taken,
      and the second was one storey nearer. */
  lemma ChoiceCanBeOneOff(above: CarRecord, below: CarRecord)
    requires above.lowestFloor == below.lowestFloor == "B1" && above.highestFloor == below.highestFloor == "9"
    requires above.currentFloor == "3" && below.currentFloor == "B1"
    requires above.queue == below.queue == [] && above.currentDirection == below.currentDirection == Idle
    ensures BestCar([above, below], 1, 2) == Some(0)
    ensures ShaftScore(above, 1, 2) == ShaftScore(below, 1, 2) + 1
  {
    OneDigitLabels(1);
    OneDigitLabels(3);
    OneDigitLabels(9);
    assert "3" == [DigitChar(3)] && "9" == [DigitChar(9)] && "B1" == ['B', DigitChar(1)];
    var cars := [above, below];
    BidsAt(cars, 1, 2, 0);
    BidsAt(cars, 1, 2, 1);
    var bids := Bids(cars, 1, 2);
    assert bids[0] == Some(2) && bids[1] == Some(2);
    assert BestUpTo(bids, 1) == Some(0) by { assert BestUpTo(bids, 0) == None; }
    assert BestUpTo(bids, 2) == Some(0);
  }

  lemma ScoreAgainstShaft(car: CarRecord, source: int, destination: int)
    ensures Score(car, source, destination) - 1 <= ShaftScore(car, source, destination)
    ensures ShaftScore(car, source, destination) <= Score(car, source, destination)
  {
  }

  // ----- one event -----

  datatype Event =
    | Call(source: string, destination: string)
    // what malloc and the stack leave in the fields registration does not set comes along as `junk`
    | Register(name: string, lowest: string, highest: string, socket: nat, junk: CarRecord)
    | Report(socket: nat, status: string, current: string, destination: string)
    | HangUp(socket: nat)

  datatype Output =
    | Reply(text: string)                // to the call pad
    | ToCar(socket: int, text: string)

  const NAME_CHARS: nat := 49
  const STATUS_CHARS: nat := 7

  function NextDestination(queue: seq<Stop>): int {
    if queue == [] then -1 else queue[0].floor
  }

  function FloorMessage(floor: int): string {
    "FLOOR " + FloorToLabel(floor)
  }

  predicate BoardsCar(car: CarRecord, source: int, destination: int) {
    Boards(LabelToFloor(car.currentFloor), car.elevatorStatus, car.currentDirection,
           Stop(source, RequestDirection(source, destination)))
  }

  function Queued(car: CarRecord, source: int, destination: int): CarRecord {
    car.(queue := Added(car.queue, car.currentDirection, BoardsCar(car, source, destination), source, destination))
  }

  /** The chosen car after a call: it is sent off at once if it has nowhere to go. */
  function SentOff(car: CarRecord): CarRecord {
    if car.destinationFloor == car.currentFloor && NextDestination(car.queue) != -1
    then car.(destinationFloor := Truncated(SignedDecimal(NextDestination(car.queue)), LABEL_CHARS))
    else car
  }

  function CarsAfterCall(cars: seq<CarRecord>, source: int, destination: int): seq<CarRecord> {
    var best := BestCar(cars, source, destination);
    if best.None? then cars else cars[best.value := SentOff(Queued(cars[best.value], source, destination))]
  }

  /** What is sent once the chosen car's queue has been extended. */
  function CallOutputs(cars: seq<CarRecord>, queued: CarRecord): seq<Output> {
    var next := NextDestination(queued.queue);
    var socket := SocketByName(cars, queued.name);
    if queued.destinationFloor != queued.currentFloor || next == -1 then [Reply("CAR " + queued.name)]
    else if socket == -1 then [Reply("UNAVAILABLE")]
    else [ToCar(socket, FloorMessage(next)), Reply("CAR " + queued.name)]
  }

  function Called(cars: seq<CarRecord>, source: int, destination: int): (seq<CarRecord>, seq<Output>) {
    var best := BestCar(cars, source, destination);
    (CarsAfterCall(cars, source, destination),
     if best.None? then [Reply("UNAVAILABLE")] else CallOutputs(cars, Queued(cars[best.value], source, destination)))
  }

  function NewCar(e: Event): CarRecord
    requires e.Register?
  {
    e.junk.(name := Truncated(e.name, NAME_CHARS), lowestFloor := Truncated(e.lowest, LABEL_CHARS),
            highestFloor := Truncated(e.highest, LABEL_CHARS), previousStatus := "IDLE", socket := e.socket,
            queue := [], currentDirection := Idle, elevatorStatus := StatusOf(e.junk.status))
  }

  /** The doors have just shut: the head of the queue is done. */
  predicate JustClosed(previous: string, status: string) {
    previous == "Closing" && status == "Closed"
  }

  function Popped(queue: seq<Stop>): seq<Stop> {
    if queue == [] then queue else queue[1..]
  }

  function Reported(car: CarRecord, e: Event): CarRecord
    requires e.Report?
  {
    var status := Truncated(e.status, STATUS_CHARS);
    car.(status := status, previousStatus := status,
         currentFloor := Truncated(e.current, LABEL_CHARS), destinationFloor := Truncated(e.destination, LABEL_CHARS),
         queue := if JustClosed(car.previousStatus, status) then Popped(car.queue) else car.queue)
  }

  function StatusUpdate(cars: seq<CarRecord>, e: Event): (seq<CarRecord>, seq<Output>)
    requires e.Report?
  {
    var name := NameBySocket(cars, e.socket);
    if name.None? then (cars, [])
    else
      var i := IndexByName(cars, name.value);
      if i == |cars| then (cars, [])
      else
        var after := Reported(cars[i], e);
        var next := NextDestination(after.queue);
        (cars[i := after],
         if JustClosed(cars[i].previousStatus, after.status) && next != -1
         then [ToCar(e.socket, FloorMessage(next))] else [])
  }

  function Stepped(cars: seq<CarRecord>, e: Event): (seq<CarRecord>, seq<Output>) {
    match e
    case Call(source, destination) => Called(cars, LabelToFloor(source), LabelToFloor(destination))
    case Register(_, _, _, _, _) => (cars + [NewCar(e)], [])
    case Report(_, _, _, _) => StatusUpdate(cars, e)
    case HangUp(socket) => (HungUp(cars, socket), [])
  }

  // ----- runs -----

  predicate StepAt(states: seq<seq<CarRecord>>, events: seq<Event>, k: nat)
    requires k < |events| && k + 1 < |states|
  {
    states[k + 1] == Stepped(states[k], events[k]).0
  }

  /** The registry before the first event and after each one. */
  ghost predicate IsRun(states: seq<seq<CarRecord>>, events: seq<Event>) {
    |states| == |events| + 1 && forall k :: 0 <= k < |events| ==> StepAt(states, events, k)
  }

  // ----- the handlers -----

  /** The body of the search loop: what one car bids. */
  method ComputeBid(car: CarRecord, source: int, destination: int) returns (bid: Option<int>)
    ensures bid == Bid(car, source, destination)
  {
    if !CanService(car, source, destination) {
      return None;
    }
    var currentFloor := LabelToFloor(car.currentFloor);
    var distance := Abs(currentFloor - source);
    var requestDirection := if destination > source then Upward else Downward;
    if car.currentDirection == requestDirection {
      distance := distance - 5;
    }
    distance := distance + |car.queue| * 2;
    return Some(distance);
  }

  /** The search loop over the registered cars. */
  method FindBestCar(cars: seq<CarRecord>, source: int, destination: int) returns (best: Option<nat>)
    ensures best == BestCar(cars, source, destination)
    ensures IsBest(Bids(cars, source, destination), |cars|, best)
  {
    ghost var bids := Bids(cars, source, destination);
    best := None;
    var minDistance := MAX_SCORE;
    var i := 0;
    while i < |cars|
      invariant 0 <= i <= |cars|
      invariant best == BestUpTo(bids, i)
      invariant minDistance == Bar(bids, best)
    {
      var bid := ComputeBid(cars[i], source, destination);
      BidsAt(cars, source, destination, i);
      if bid.Some? && bid.value < minDistance {
        minDistance := bid.value;
        best := Some(i);
      }
      i := i + 1;
    }
    SearchIsOptimal(bids, |cars|);
  }

  method HandleCall(controller: Controller, source: int, destination: int) returns (outputs: seq<Output>)
    requires controller.Valid()
    modifies controller.data
    ensures controller.Valid()
    ensures (controller.Cars(), outputs) == Called(old(controller.Cars()), source, destination)
  {
    ghost var cars := controller.Cars();
    var best := FindBestCar(controller.data[..controller.size], source, destination);
    if best.None? {
      return [Reply("UNAVAILABLE")];
    }
    var b := best.value;
    var car := Queued(controller.data[b], source, destination);
    controller.data[b] := car;
    if car.destinationFloor == car.currentFloor {
      var next := NextDestination(car.queue);
      if next != -1 {
        controller.data[b] := car.(destinationFloor := Truncated(SignedDecimal(next), LABEL_CHARS));
        assert controller.Cars() == cars[b := SentOff(car)];
        SameKeysSameLookups(cars, controller.Cars(), car.name);
        var socket := controller.GetSocketByName(car.name);
        if socket == -1 {
          return [Reply("UNAVAILABLE")];
        }
        return [ToCar(socket, FloorMessage(next)), Reply("CAR " + car.name)];
      }
    }
    assert controller.Cars() == cars[b := SentOff(car)];
    return [Reply("CAR " + car.name)];
  }

  lemma {:induction false} SameKeysSameLookups(cars: seq<CarRecord>, after: seq<CarRecord>, name: string)
    requires |cars| == |after|
    requires forall i :: 0 <= i < |cars| ==> cars[i].name == after[i].name && cars[i].socket == after[i].socket
    ensures SocketByName(after, name) == SocketByName(cars, name)
  {
    var i, j := IndexByName(cars, name), IndexByName(after, name);
    if i < j {
      assert false;
    } else if j < i {
      assert false;
    }
  }

  method HandleReport(controller: Controller, e: Event) returns (outputs: seq<Output>)
    requires controller.Valid() && e.Report?
    modifies controller.data
    ensures controller.Valid()
    ensures (controller.Cars(), outputs) == StatusUpdate(old(controller.Cars()), e)
  {
    outputs := [];
    ghost var cars := controller.Cars();
    var name := controller.GetNameBySocket(e.socket);
    if name.Some? {
      var j := 0;
      while j < controller.size
        invariant 0 <= j <= controller.size && controller.Cars() == cars
        invariant forall k :: 0 <= k < j ==> cars[k].name != name.value
      {
        assert controller.data[j] == cars[j];
        if controller.data[j].name == name.value {
          assert j == IndexByName(cars, name.value);
          outputs := UpdateCar(controller, j, e);
          return;
        }
        j := j + 1;
      }
    }
  }

  /** The fields of one car set from a report, in the order the code sets them. */
  method UpdateCar(controller: Controller, j: nat, e: Event) returns (outputs: seq<Output>)
    requires controller.Valid() && j < controller.size && e.Report?
    modifies controller.data
    ensures controller.Valid()
    ensures var car := old(controller.Cars())[j];
            var after := Reported(car, e);
            && controller.Cars() == old(controller.Cars())[j := after]
            && outputs == if JustClosed(car.previousStatus, after.status) && NextDestination(after.queue) != -1
                          then [ToCar(e.socket, FloorMessage(NextDestination(after.queue)))] else []
  {
    outputs := [];
    ghost var cars := controller.Cars();
    var car := controller.data[j];
    assert car == cars[j];
    car := car.(status := Truncated(e.status, STATUS_CHARS));
    car := car.(currentFloor := Truncated(e.current, LABEL_CHARS));
    car := car.(destinationFloor := Truncated(e.destination, LABEL_CHARS));
    if car.previousStatus == "Closing" && car.status == "Closed" {
      if car.queue != [] {
        car := car.(queue := car.queue[1..]);
      }
      var next := if car.queue == [] then -1 else car.queue[0].floor;
      if next != -1 {
        outputs := [ToCar(e.socket, FloorMessage(next))];
      }
    }
    car := car.(previousStatus := Truncated(e.status, STATUS_CHARS));
    controller.data[j] := car;
    assert car == Reported(cars[j], e);
    assert controller.Cars() == cars[j := car];
  }

  method Handle(controller: Controller, e: Event) returns (outputs: seq<Output>)
    requires controller.Valid()
    modifies controller, controller.data
    ensures controller.Valid() && (controller.data == old(controller.data) || fresh(controller.data))
    ensures (controller.Cars(), outputs) == Stepped(old(controller.Cars()), e)
  {
    outputs := [];
    match e {
      case Call(source, destination) =>
        outputs := HandleCall(controller, LabelToFloor(source), LabelToFloor(destination));
      case Register(_, _, _, _, _) =>
        controller.Push(NewCar(e));
      case Report(_, _, _, _) =>
        outputs := HandleReport(controller, e);
      case HangUp(socket) =>
        var name := controller.GetNameBySocket(socket);
        controller.RemoveByName(name);
    }
  }
}
