/** Moving a car: the rounds of the process thread, one floor at a time on printed labels. */
module Movement {
  import opened Floors
  import opened SharedMemory
  import opened Safety
  import opened Runs
  import opened Door
  import opened DoorRoutine

  /** Moving `diff` floors one by one, each step printed and parsed again. */
  function Travel(current: string, diff: int): string
    decreases if diff < 0 then -diff else diff
  {
    if diff > 0 then Travel(MoveLabel(current, 1), diff - 1)
    else if diff < 0 then Travel(MoveLabel(current, -1), diff + 1)
    else current
  }

  /** Where one round leaves a car whose doors are closed. */
  function RoundEnd(current: string, destination: string): string {
    if current == destination then current
    else Travel(current, LabelToFloor(destination) - LabelToFloor(current))
  }

  /** The destination after the two range checks. */
  function Clamped(current: string, destination: string, lowest: string, highest: string): string {
    var d := if LabelToFloor(destination) > LabelToFloor(highest) then current else destination;
    if LabelToFloor(d) < LabelToFloor(lowest) then current else d
  }

  predicate Within(text: string, lowest: string, highest: string) {
    LabelToFloor(lowest) <= LabelToFloor(text) <= LabelToFloor(highest)
  }

  predicate SameSide(a: string, b: string) {
    LabelToFloor(a) < 0 <==> LabelToFloor(b) < 0
  }

  // ----- where a round ends -----

  /** Travelling is one move, as long as every stop before the last has its own label. */
  lemma {:induction false} TravelIsOneMove(current: string, diff: int)
    requires CanonicalLabel(current) && diff != 0
    requires InRange(Move(LabelToFloor(current), if diff > 0 then diff - 1 else diff + 1))
    ensures Travel(current, diff) == FloorToLabel(Move(LabelToFloor(current), diff))
    decreases if diff < 0 then -diff else diff
  {
    var n, one := LabelToFloor(current), if diff > 0 then 1 else -1;
    CanonicalLabelRoundTrip(current);
    if diff == one {
      assert Travel(current, diff) == Travel(MoveLabel(current, one), 0);
    } else {
      MoveIsTranslation(n, one);
      MoveIsTranslation(n, diff - one);
      LabelRoundTrip(Move(n, one));
      PrintedLabelIsCanonical(Move(n, one));
      TravelIsOneMove(MoveLabel(current, one), diff - one);
    }
  }

  /** The floor one storey past `destination`, seen from the other side of the ground. */
  function Overshoot(destination: string): string {
    MoveLabel(destination, if LabelToFloor(destination) > 0 then 1 else -1)
  }

  /** Moving by the plain difference of two floors is exact on one side of the ground and one storey too
      far across it; all stops before the last have labels. */
  lemma MoveByDifference(c: int, d: int)
    requires InRange(c) && InRange(d) && c != d
    ensures InRange(Move(c, if d > c then d - c - 1 else d - c + 1))
    ensures Move(c, d - c) == if c < 0 <==> d < 0 then d else Move(d, if d > 0 then 1 else -1)
  {
  }

  lemma TravelBetweenFloors(c: int, d: int)
    requires InRange(c) && InRange(d) && c != d
    ensures Travel(FloorToLabel(c), d - c)
            == FloorToLabel(if c < 0 <==> d < 0 then d else Move(d, if d > 0 then 1 else -1))
  {
    PrintedLabelIsCanonical(c);
    LabelRoundTrip(c);
    MoveByDifference(c, d);
    TravelIsOneMove(FloorToLabel(c), d - c);
  }

  lemma OvershootIsMove(destination: string, d: int)
    requires d == LabelToFloor(destination)
    ensures Overshoot(destination) == FloorToLabel(Move(d, if d > 0 then 1 else -1))
  {
  }

  /** A round between two documented labels, given where travelling by the difference ends. */
  lemma RoundIsTravel(current: string, destination: string, diff: int, end: string)
    requires diff == LabelToFloor(destination) - LabelToFloor(current) && Travel(current, diff) == end
    requires current == destination ==> end == current
    ensures RoundEnd(current, destination) == end
  {
  }

  lemma TravelToDestination(current: string, destination: string, c: int, d: int)
    requires CanonicalLabel(current) && CanonicalLabel(destination)
    requires c == LabelToFloor(current) && d == LabelToFloor(destination) && c != d
    ensures Travel(current, d - c) == if c < 0 <==> d < 0 then destination else Overshoot(destination)
  {
    CanonicalLabelRoundTrip(current);
    CanonicalLabelRoundTrip(destination);
    TravelBetweenFloors(c, d);
    OvershootIsMove(destination, d);
  }

  lemma RoundEndsAt(current: string, destination: string)
    requires CanonicalLabel(current) && CanonicalLabel(destination)
    ensures RoundEnd(current, destination)
         == if SameSide(current, destination) then destination else Overshoot(destination)
  {
    if current != destination {
      var c, d := LabelToFloor(current), LabelToFloor(destination);
      CanonicalLabelsCompare(current, destination);
      TravelToDestination(current, destination, c, d);
      RoundIsTravel(current, destination, d - c, if c < 0 <==> d < 0 then destination else Overshoot(destination));
    }
  }

  /** One round is exact if and only if it does not cross the ground; otherwise it ends one storey past
      the destination (printed, so 1000 reads "100" and B100 reads "B10"). */
  lemma RoundIsExactOnOneSide(current: string, destination: string)
    requires CanonicalLabel(current) && CanonicalLabel(destination)
    ensures RoundEnd(current, destination) == destination <==> SameSide(current, destination)
  {
    RoundEndsAt(current, destination);
    OvershootMisses(destination);
  }

  lemma OvershootMisses(destination: string)
    requires CanonicalLabel(destination)
    ensures Overshoot(destination) != destination && SameSide(Overshoot(destination), destination)
    ensures CanonicalLabel(Overshoot(destination))
  {
    CanonicalLabelRoundTrip(destination);
    var d := LabelToFloor(destination);
    var past := Move(d, if d > 0 then 1 else -1);
    PrintedLabelIsCanonical(past);
    LabelRoundTrip(past);
    LabelOfPrinted(past);
  }

  /** Two rounds always arrive, from any labelled floor to any in the car's range, and the destination
      survives both range checks. */
  lemma TwoRoundsArrive(current: string, destination: string, lowest: string, highest: string)
    requires CanonicalLabel(current) && CanonicalLabel(destination)
    requires Within(destination, lowest, highest)
    ensures RoundEnd(RoundEnd(current, destination), destination) == destination
    ensures Clamped(current, destination, lowest, highest) == destination
    ensures Clamped(RoundEnd(current, destination), destination, lowest, highest) == destination
  {
    RoundEndsAt(current, destination);
    if SameSide(current, destination) {
    } else {
      OvershootMisses(destination);
      RoundEndsAt(Overshoot(destination), destination);
    }
  }

  /** The range checks come too late to bound a move: a round ends in range exactly if the place it really
      makes for, the destination or the storey past it, is in range. */
  lemma RoundEndsInRangeExactly(current: string, destination: string, lowest: string, highest: string)
    requires CanonicalLabel(current) && CanonicalLabel(destination)
    ensures Within(RoundEnd(current, destination), lowest, highest) <==>
            Within(if SameSide(current, destination) then destination else Overshoot(destination), lowest, highest)
  {
    RoundEndsAt(current, destination);
  }

  /** Even a car and a destination in range do not keep the car in range: it stays exactly if it does not
      cross the ground, or the destination is not an end of the range, or that end is 999 or B99, whose
      overflow falls back inside. */
  lemma MoveInRangeStaysExactly(current: string, destination: string, lowest: string, highest: string)
    requires CanonicalLabel(current) && CanonicalLabel(destination) && CanonicalLabel(lowest) && CanonicalLabel(highest)
    requires Within(current, lowest, highest) && Within(destination, lowest, highest)
    ensures Within(RoundEnd(current, destination), lowest, highest) <==>
            || SameSide(current, destination)
            || (destination != lowest && destination != highest)
            || LabelToFloor(destination) == 999 || LabelToFloor(destination) == -99
  {
    RoundEndsAt(current, destination);
    CanonicalLabelsCompare(destination, lowest);
    CanonicalLabelsCompare(destination, highest);
    CanonicalLabelRoundTrip(current);
    CanonicalLabelRoundTrip(destination);
    CanonicalLabelRoundTrip(lowest);
    CanonicalLabelRoundTrip(highest);
    OvershootFloor(destination);
  }

  lemma OvershootFloor(destination: string)
    requires CanonicalLabel(destination)
    ensures var d := LabelToFloor(destination);
            LabelToFloor(Overshoot(destination))
            == if d == 999 then 100 else if d == -99 then -10 else if d > 0 then d + 1 else d - 1
  {
    CanonicalLabelRoundTrip(destination);
    var d := LabelToFloor(destination);
    var past := Move(d, if d > 0 then 1 else -1);
    LabelRoundTrip(past);
    SmallPowers();
  }

  /** With a destination out of range a round ends in range exactly if it crosses the ground to 999 or B99,
      whose overflow falls back inside: "100" or "B10" lies in the range. */
  lemma ExcursionEndsInRangeExactly(current: string, destination: string, lowest: string, highest: string)
    requires CanonicalLabel(current) && CanonicalLabel(destination) && CanonicalLabel(lowest) && CanonicalLabel(highest)
    requires Within(current, lowest, highest) && !Within(destination, lowest, highest)
    ensures Within(RoundEnd(current, destination), lowest, highest) <==>
            && !SameSide(current, destination)
            && ((LabelToFloor(destination) == 999 && LabelToFloor(highest) >= 100)
                || (LabelToFloor(destination) == -99 && LabelToFloor(lowest) <= -10))
  {
    RoundEndsAt(current, destination);
    OvershootFloor(destination);
    CanonicalLabelRoundTrip(current);
    CanonicalLabelRoundTrip(destination);
  }

  /** For instance, a car serving B2 to 5 and sent from 3 to B2 ends its round at B3. */
  lemma CarLeavesItsRange()
    ensures Within("3", "B2", "5") && Within("B2", "B2", "5")
    ensures RoundEnd("3", "B2") == "B3" && !Within(RoundEnd("3", "B2"), "B2", "5")
  {
    OneDigitLabels(2);
    OneDigitLabels(3);
    OneDigitLabels(5);
    assert "3" == [DigitChar(3)] && "5" == [DigitChar(5)] && "B2" == ['B', DigitChar(2)] && "B3" == ['B', DigitChar(3)];
    RoundEndsAt("3", "B2");
  }

  /** A destination out of range is visited all the same (or overshot, across the ground) and only then
      given up: the next round makes for where the car came from. */
  lemma OutOfRangeExcursion(current: string, destination: string, lowest: string, highest: string)
    requires CanonicalLabel(current) && CanonicalLabel(destination)
    requires Within(current, lowest, highest) && !Within(destination, lowest, highest)
    ensures var first, aim := RoundEnd(current, destination), Clamped(current, destination, lowest, highest);
            && aim == current
            && first == (if SameSide(current, destination) then destination else Overshoot(destination))
            && RoundEnd(first, aim) == (if SameSide(current, destination) then current else Overshoot(current))
            && RoundEnd(RoundEnd(first, aim), aim) == current
  {
    RoundEndsAt(current, destination);
    OvershootMisses(destination);
    OvershootMisses(current);
    var first := RoundEnd(current, destination);
    RoundEndsAt(first, current);
    RoundEndsAt(RoundEnd(first, current), current);
  }

  // ----- the thread -----

  /** The manners asked of the others while the car moves: they write no floor, and perhaps no status. */
  function KeepingFloors(still: bool): Manners {
    Manners(true, false, still)
  }

  lemma {:induction false} OthersKeepFloors(d: CarData, actions: seq<Action>, still: bool)
    requires forall j :: 0 <= j < |actions| ==> Minds(actions[j], KeepingFloors(still))
    ensures SameFloors(d, RunOf(d, actions))
    ensures still && d.status != Some(Closing) ==> RunOf(d, actions).status == d.status
    decreases |actions|
  {
    if actions != [] {
      CalmKeepsFloors(d, actions[0]);
      if still && d.status != Some(Closing) { StillKeepsStatus(d, actions[0]); }
      OthersKeepFloors(Acted(d, actions[0]), actions[1..], still);
    }
  }

  /** Other processes act. */
  method OthersAct(block: SharedBlock, script: seq<seq<Action>>, ghost still: bool) returns (rest: seq<seq<Action>>)
    requires block.Valid() && AllowedScript(script, KeepingFloors(still))
    modifies block, block.currentFloor, block.destinationFloor
    ensures rest == Rest(script) && block.Data() == RunOf(old(block.Data()), Batch(script))
    ensures SameFloors(old(block.Data()), block.Data())
    ensures still && old(block.Data()).status != Some(Closing) ==> block.Data().status == old(block.Data()).status
  {
    OthersKeepFloors(block.Data(), Batch(script), still);
    ActAll(block, Batch(script));
    rest := Rest(script);
  }

  /** The critical section that opens a round: compare, subtract, then check the range. */
  method AimAndClamp(block: SharedBlock, lowest: string, highest: string) returns (away: bool, diff: int)
    requires block.Valid()
    modifies block, block.currentFloor, block.destinationFloor
    ensures var d := old(block.Data());
            && away == (d.destinationFloor != d.currentFloor)
            && diff == LabelToFloor(d.destinationFloor) - LabelToFloor(d.currentFloor)
            && block.Data()
               == d.(destinationFloor := Clamped(d.currentFloor, d.destinationFloor, lowest, highest))
  {
    var current := CString(block.currentFloor[..]);
    var destination := CString(block.destinationFloor[..]);
    away := destination != current;
    diff := LabelToFloor(destination) - LabelToFloor(current);
    if LabelToFloor(destination) > LabelToFloor(highest) {
      CopyText(block.currentFloor, block.destinationFloor);
    }
    if LabelToFloor(CString(block.destinationFloor[..])) < LabelToFloor(lowest) {
      CopyText(block.currentFloor, block.destinationFloor);
    }
  }

  /** `strcpy` between two labels. */
  method CopyText(source: array<char>, target: array<char>)
    requires source != target && source.Length == target.Length
    modifies target
    ensures CString(target[..]) == CString(source[..])
  {
    var i := 0;
    while i < source.Length
      invariant 0 <= i <= source.Length
      invariant target[..i] == source[..i]
    {
      target[i] := source[i];
      i := i + 1;
    }
    assert target[..] == source[..];
  }

  /** One floor of a move: show Between, move, show Closed, with the others before each; `moving` is the
      block in which the floor is moved. */
  method MoveOneFloor(block: SharedBlock, diff: int, script: seq<seq<Action>>, ghost still: bool)
    returns (rest: seq<seq<Action>>, ghost moving: CarData)
    requires block.Valid() && AllowedScript(script, KeepingFloors(still)) && diff != 0
    modifies block, block.currentFloor, block.destinationFloor
    ensures var d, e := old(block.Data()), block.Data();
            && moving == RunOf(RunOf(d, Batch(script)).(status := Some(Between)), Batch(Rest(script)))
            && e == RunOf(moving.(currentFloor := MoveLabel(d.currentFloor, if diff > 0 then 1 else -1)),
                          Batch(Rest(Rest(script)))).(status := Some(Closed))
            && e.currentFloor == MoveLabel(d.currentFloor, if diff > 0 then 1 else -1)
            && e.destinationFloor == d.destinationFloor && e.status == Some(Closed)
    ensures rest == Rest(Rest(Rest(script))) && AllowedScript(rest, KeepingFloors(still))
  {
    rest := OthersAct(block, script, still);
    var ok := block.Edit(SetStatus, 0, Between);
    rest := OthersAct(block, rest, still);
    moving := block.Data();
    if diff > 0 {
      ok := block.Edit(MoveCurrent, 1, Opening);
    } else {
      ok := block.Edit(MoveCurrent, -1, Opening);
    }
    rest := OthersAct(block, rest, still);
    ok := block.Edit(SetStatus, 0, Closed);
  }

  /** The floor moves while Between is shown, exactly unless another process has shown something else last
      since the thread showed it. */
  lemma FloorMovesUnderBetweenExactly(d: CarData, others: seq<Action>)
    ensures RunOf(d.(status := Some(Between)), others).status == Some(Between) <==>
            ShownLast(others, Between) || !ShowsAny(others)
  {
    ShownAfterExactly(d.(status := Some(Between)), others, Between);
  }

  method MoveCar(block: SharedBlock, diff: int, script: seq<seq<Action>>, ghost still: bool)
    returns (rest: seq<seq<Action>>)
    requires block.Valid() && AllowedScript(script, KeepingFloors(still))
    modifies block, block.currentFloor, block.destinationFloor
    ensures block.Data().currentFloor == Travel(old(block.Data()).currentFloor, diff)
    ensures block.Data().destinationFloor == old(block.Data()).destinationFloor
    ensures old(block.Data()).status == Some(Closed) ==> block.Data().status == Some(Closed)
    ensures AllowedScript(rest, KeepingFloors(still))
  {
    rest := script;
    var i := 0;
    while i < (if diff < 0 then -diff else diff)
      invariant 0 <= i <= if diff < 0 then -diff else diff
      invariant Travel(old(block.Data()).currentFloor, diff)
             == Travel(block.Data().currentFloor, if diff < 0 then diff + i else diff - i)
      invariant block.Data().destinationFloor == old(block.Data()).destinationFloor
      invariant old(block.Data()).status == Some(Closed) ==> block.Data().status == Some(Closed)
      invariant AllowedScript(rest, KeepingFloors(still))
    {
      ghost var here, left := block.Data().currentFloor, if diff < 0 then diff + i else diff - i;
      ghost var moving;
      rest, moving := MoveOneFloor(block, diff, rest, still);
      assert left > 0 ==> Travel(here, left) == Travel(MoveLabel(here, 1), left - 1);
      assert left < 0 ==> Travel(here, left) == Travel(MoveLabel(here, -1), left + 1);
      i := i + 1;
    }
  }

  /** A complete run of the door routine, from one block to another. */
  ghost predicate DoorsWorked(doors: seq<Door>, before: CarData, after: CarData) {
    && IsRun(doors) && doors[0] == Start(before)
    && Last(doors).pc == Done && Last(doors).block == after
  }

  /** One round of the thread, among others that write no floor.  `seen` is the block in which the thread
      looks at the status, `doors` what the door routine did.
      The car moves exactly if it is away from its destination and the status is seen to be Closed; then it
      gets where the round ends and works its doors there.  It also works them, without moving, if it is at
      its destination and the controller's answer is pending.  Otherwise the round leaves everything as seen. */
  method ProcessRound(block: SharedBlock, lowest: string, highest: string, pending: bool,
                      script: seq<seq<Action>>, ghost still: bool)
    returns (stillPending: bool, moved: bool, ghost seen: CarData, ghost doors: seq<Door>)
    requires block.Valid() && AllowedScript(script, KeepingFloors(still))
    modifies block, block.currentFloor, block.destinationFloor
    ensures var d, e := old(block.Data()), block.Data();
            var aimed := d.(destinationFloor := Clamped(d.currentFloor, d.destinationFloor, lowest, highest));
            var away := d.destinationFloor != d.currentFloor;
            && e.destinationFloor == aimed.destinationFloor
            && (moved <==> away && seen.status == Some(Closed))
            && (away || !pending ==> seen == RunOf(aimed, Batch(script)))
            && (pending && !away ==> DoorsWorked(doors, aimed, e))
            && (moved ==>
                  && doors != [] && DoorsWorked(doors, doors[0].block, e)
                  && doors[0].block.currentFloor == RoundEnd(d.currentFloor, d.destinationFloor)
                  && doors[0].block.status == Some(Closed))
            && (!moved && (away || !pending) ==> e == seen && doors == [])
            && e.currentFloor == (if moved then RoundEnd(d.currentFloor, d.destinationFloor) else d.currentFloor)
            && (moved || (pending && !away) ==> e.status == Some(Closed))
            && (still && d.status != Some(Closing) && (away || !pending) ==> seen.status == d.status)
            && stillPending == (pending && away)
  {
    stillPending, doors := pending, [];
    var away, diff := AimAndClamp(block, lowest, highest);
    var rest := script;
    if pending && !away {
      doors := OperateDoor(block, rest, KeepingFloors(still));
      stillPending := false;
      rest := [];
    }
    rest := OthersAct(block, rest, still);
    seen := block.Data();
    var status := block.ReadStatus();
    moved := away && status == Some(Closed);
    if moved {
      rest := MoveCar(block, diff, rest, still);
      doors := OperateDoor(block, rest, KeepingFloors(still));
    }
  }

  /** What a round meets: whether the controller's answer is pending, and what the others do. */
  datatype Round = Round(pending: bool, script: seq<seq<Action>>)

  /** How many moves it takes from one labelled floor to another. */
  function MovesNeeded(current: string, destination: string): nat {
    if current == destination then 0 else if SameSide(current, destination) then 1 else 2
  }

  lemma MovesNeededSuffice(current: string, destination: string)
    requires CanonicalLabel(current) && CanonicalLabel(destination)
    ensures (current == destination <==> MovesNeeded(current, destination) == 0)
    ensures (RoundEnd(current, destination) == destination <==> MovesNeeded(current, destination) <= 1)
    ensures RoundEnd(RoundEnd(current, destination), destination) == destination
  {
    RoundIsExactOnOneSide(current, destination);
    TwoRoundsArrive(current, destination, destination, destination);
  }

  /** Where a car is after some of the moves it needs. */
  predicate Underway(start: string, goal: string, current: string, moves: nat) {
    && moves <= MovesNeeded(start, goal)
    && current == if moves == 0 then start else if moves == 1 then RoundEnd(start, goal) else goal
  }

  /** In how many of the looks the doors were seen closed. */
  function ClosedLooks(looks: seq<CarData>): nat {
    if looks == [] then 0
    else ClosedLooks(looks[..|looks| - 1]) + if looks[|looks| - 1].status == Some(Closed) then 1 else 0
  }

  lemma OneMoreLook(looks: seq<CarData>, seen: CarData)
    ensures ClosedLooks(looks + [seen]) == ClosedLooks(looks) + if seen.status == Some(Closed) then 1 else 0
  {
    assert (looks + [seen])[..|looks|] == looks;
  }

  function Least(a: nat, b: nat): nat {
    if a < b then a else b
  }

  /** What one more round makes of it. */
  lemma OneRoundOn(start: string, goal: string, current: string, moves: nat, closed: nat, sees: bool)
    requires CanonicalLabel(start) && CanonicalLabel(goal)
    requires Underway(start, goal, current, moves) && moves == Least(closed, MovesNeeded(start, goal))
    ensures var moved := goal != current && sees;
            var m := moves + if moved then 1 else 0;
            && (goal == current <==> moves == MovesNeeded(start, goal))
            && Underway(start, goal, if moved then RoundEnd(current, goal) else current, m)
            && m == Least(closed + if sees then 1 else 0, MovesNeeded(start, goal))
  {
    MovesNeededSuffice(start, goal);
  }

  /** A round on the way from one floor to another. */
  method RoundOnTheWay(block: SharedBlock, lowest: string, highest: string, round: Round,
                       ghost still: bool, ghost start: string, ghost moves: nat, ghost closed: nat)
    returns (moved: bool, ghost seen: CarData)
    requires block.Valid() && AllowedScript(round.script, KeepingFloors(still))
    requires CanonicalLabel(start) && CanonicalLabel(block.Data().destinationFloor)
    requires Within(block.Data().destinationFloor, lowest, highest)
    requires Underway(start, block.Data().destinationFloor, block.Data().currentFloor, moves)
    requires moves == Least(closed, MovesNeeded(start, block.Data().destinationFloor))
    modifies block, block.currentFloor, block.destinationFloor
    ensures var d, e := old(block.Data()), block.Data();
            var needed, now := MovesNeeded(start, d.destinationFloor), moves + if moved then 1 else 0;
            && e.destinationFloor == d.destinationFloor
            && Underway(start, d.destinationFloor, e.currentFloor, now)
            && now == Least(closed + if seen.status == Some(Closed) then 1 else 0, needed)
            && (still && d.status == Some(Closed) ==> (moved || moves == needed) && e.status == Some(Closed))
  {
    ghost var d := block.Data();
    var pending;
    ghost var doors;
    pending, moved, seen, doors := ProcessRound(block, lowest, highest, round.pending, round.script, still);
    OneRoundOn(start, d.destinationFloor, d.currentFloor, moves, closed, seen.status == Some(Closed));
  }

  /** The thread over any number of rounds, among others that write no floor; `looks` is what it saw in each
      round when it looked at the status.  A car given a destination in its range is there exactly once it
      has seen its doors closed in as many rounds as it needs moves: one, or two across the ground.  If
      nobody else writes the status either, that is from the first or the second round on. */
  method ProcessThread(block: SharedBlock, lowest: string, highest: string, rounds: seq<Round>, ghost still: bool)
    returns (moves: nat, ghost looks: seq<CarData>)
    requires block.Valid() && forall i :: 0 <= i < |rounds| ==> AllowedScript(rounds[i].script, KeepingFloors(still))
    requires CanonicalLabels(block.Data()) && Within(block.Data().destinationFloor, lowest, highest)
    modifies block, block.currentFloor, block.destinationFloor
    ensures var start, goal, e := old(block.Data()).currentFloor, old(block.Data()).destinationFloor, block.Data();
            && e.destinationFloor == goal && moves <= |rounds|
            && Underway(start, goal, e.currentFloor, moves)
            && (e.currentFloor == goal <==> moves == MovesNeeded(start, goal))
            && |looks| == |rounds| && moves == Least(ClosedLooks(looks), MovesNeeded(start, goal))
            && (still && old(block.Data()).status == Some(Closed) ==>
                  (moves == MovesNeeded(start, goal) || moves == |rounds|) && e.status == Some(Closed))
  {
    ghost var start, goal := block.Data().currentFloor, block.Data().destinationFloor;
    MovesNeededSuffice(start, goal);
    moves, looks := 0, [];
    var i := 0;
    while i < |rounds|
      invariant 0 <= i <= |rounds| && moves <= i && |looks| == i
      invariant block.Data().destinationFloor == goal && Underway(start, goal, block.Data().currentFloor, moves)
      invariant moves == Least(ClosedLooks(looks), MovesNeeded(start, goal))
      invariant still && old(block.Data()).status == Some(Closed) ==>
                  (moves == MovesNeeded(start, goal) || moves == i) && block.Data().status == Some(Closed)
    {
      var moved;
      ghost var seen;
      moved, seen := RoundOnTheWay(block, lowest, highest, rounds[i], still, start, moves, ClosedLooks(looks));
      moves := moves + if moved then 1 else 0;
      OneMoreLook(looks, seen);
      looks := looks + [seen];
      i := i + 1;
    }
  }
}
