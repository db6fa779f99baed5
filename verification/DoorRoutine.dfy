/** The door routine itself, run against a live block while other processes act on it.  Every
    execution is shown to be one of the runs of module Door. */
module DoorRoutine {
  import opened Floors
  import opened SharedMemory
  import opened Safety
  import opened Runs
  import opened Door

  /** What the others keep to: they write no floor, they are orderly (they show only what the process
      thread shows, and clear no open button), they write no status at all. */
  datatype Manners = Manners(calm: bool, orderly: bool, still: bool)

  predicate Calm(a: Action) {
    match a
    case Edit(op, _, _) => !op.SetFloor? && !op.MoveCurrent? && !op.MoveDestination? && !op.SetDestination?
    case Monitor => true
  }

  predicate OrderlyEdit(a: Action) {
    match a
    case Edit(op, _, status) => !op.ClearOpen? && (op.SetStatus? ==> status == Between || status == Closed)
    case Monitor => true
  }

  predicate Still(a: Action) {
    a.Edit? ==> !a.op.SetStatus?
  }

  predicate Minds(a: Action, m: Manners) {
    (m.calm ==> Calm(a)) && (m.orderly ==> OrderlyEdit(a)) && (m.still ==> Still(a))
  }

  /** What the others do, one batch before each of the routine's accesses. */
  predicate AllowedScript(script: seq<seq<Action>>, m: Manners) {
    forall i, j :: 0 <= i < |script| && 0 <= j < |script[i]| ==> Minds(script[i][j], m)
  }

  lemma FlagEditWrites(d: CarData, op: Op)
    requires op != ClearOpen
    ensures var e := EditedFlag(d, op); e.status == d.status && (e.openButton == d.openButton || e.openButton == 1)
  {
  }

  /** Every edit but showing a door status or clearing the open button, and every safety pass, is orderly. */
  lemma OrderlyWrites(d: CarData, a: Action)
    requires OrderlyEdit(a)
    ensures OrderlyWrite(d, Acted(d, a)) && (d.openButton == 1 ==> Acted(d, a).openButton == 1)
  {
    match a {
      case Edit(op, floor, status) => FlagEditWrites(d, op);
      case Monitor =>
    }
  }

  lemma CalmKeepsFloors(d: CarData, a: Action)
    requires Calm(a)
    ensures SameFloors(d, Acted(d, a))
  {
    match a {
      case Edit(op, floor, status) =>
      case Monitor =>
    }
  }

  lemma StillKeepsStatus(d: CarData, a: Action)
    requires Still(a) && d.status != Some(Closing)
    ensures Acted(d, a).status == d.status
  {
    match a {
      case Edit(op, floor, status) =>
      case Monitor =>
    }
  }

  // ----- the run traced so far -----

  ghost function Last(run: seq<Door>): Door
    requires run != []
  {
    run[|run| - 1]
  }

  predicate SameFloors(d: CarData, e: CarData) {
    d.currentFloor == e.currentFloor && d.destinationFloor == e.destinationFloor
  }

  /** The others have shown and cleared nothing but what orderly others do. */
  ghost predicate AllOrderly(run: seq<Door>)
    requires run != []
  {
    IsOrderly(run, |run| - 1) && forall i :: 0 <= i < |run| - 1 ==> LeavesOpen(run[i], run[i + 1])
  }

  ghost predicate Traced(run: seq<Door>, m: Manners) {
    && IsRun(run)
    && (m.calm ==> SameFloors(run[0].block, Last(run).block))
    && (m.orderly ==> AllOrderly(run))
  }

  predicate OrderlyStep(s: Door, t: Door) {
    (ByRoutine(s, t) || OrderlyWrite(s.block, t.block)) && LeavesOpen(s, t)
  }

  lemma RunGrows(run: seq<Door>, s: Door)
    requires IsRun(run) && Step(Last(run), s)
    ensures IsRun(run + [s])
    ensures AllOrderly(run) && OrderlyStep(Last(run), s) ==> AllOrderly(run + [s])
  {
    var longer := run + [s];
    forall i | 0 <= i < |longer| - 1 ensures StepAt(longer, i) {
      if i < |run| - 1 {
        assert StepAt(run, i);
      }
    }
    if AllOrderly(run) && OrderlyStep(Last(run), s) {
      forall i | 0 <= i < |longer| - 1 ensures OrderlyAt(longer, i) && LeavesOpen(longer[i], longer[i + 1]) {
        if i < |run| - 1 {
          assert OrderlyAt(run, i) && LeavesOpen(run[i], run[i + 1]);
        }
      }
    }
  }

  lemma DoorKeepsFloors(s: Door)
    ensures SameFloors(s.block, DoorStep(s).block)
  {
  }

  /** Record the access the routine is about to make. */
  ghost method Advance(run: seq<Door>, m: Manners) returns (longer: seq<Door>)
    requires Traced(run, m) && Last(run).pc != Done
    ensures Traced(longer, m) && longer[0] == run[0] && Last(longer) == DoorStep(Last(run))
  {
    DoorKeepsFloors(Last(run));
    RunGrows(run, DoorStep(Last(run)));
    longer := run + [DoorStep(Last(run))];
  }

  method LetOthersRun(block: SharedBlock, actions: seq<Action>, ghost run: seq<Door>, ghost m: Manners)
    returns (ghost longer: seq<Door>)
    requires block.Valid()
    requires forall j :: 0 <= j < |actions| ==> Minds(actions[j], m)
    requires Traced(run, m) && Last(run).block == block.Data()
    modifies block, block.currentFloor, block.destinationFloor
    ensures Traced(longer, m) && longer[0] == run[0]
    ensures Last(longer) == Last(run).(block := block.Data())
  {
    longer := run;
    var i := 0;
    while i < |actions|
      invariant 0 <= i <= |actions|
      invariant Traced(longer, m) && longer[0] == run[0]
      invariant Last(longer) == Last(run).(block := block.Data())
    {
      Act(block, actions[i]);
      longer := Observe(longer, m, actions[i]);
      i := i + 1;
    }
  }

  /** Record an action of the others. */
  ghost method Observe(run: seq<Door>, m: Manners, a: Action) returns (longer: seq<Door>)
    requires Traced(run, m) && Minds(a, m)
    ensures Traced(longer, m) && longer[0] == run[0]
    ensures Last(longer) == Last(run).(block := Acted(Last(run).block, a))
  {
    var s := Last(run);
    if m.orderly { OrderlyWrites(s.block, a); }
    if m.calm { CalmKeepsFloors(s.block, a); }
    RunGrows(run, s.(block := Acted(s.block, a)));
    longer := run + [s.(block := Acted(s.block, a))];
  }

  /** The next batch of the others. */
  method Turn(block: SharedBlock, script: seq<seq<Action>>, ghost run: seq<Door>, ghost m: Manners)
    returns (rest: seq<seq<Action>>, ghost longer: seq<Door>)
    requires block.Valid() && AllowedScript(script, m)
    requires Traced(run, m) && Last(run).block == block.Data()
    modifies block, block.currentFloor, block.destinationFloor
    ensures rest == if script == [] then [] else script[1..]
    ensures Traced(longer, m) && longer[0] == run[0]
    ensures Last(longer) == Last(run).(block := block.Data())
    ensures script == [] ==> block.Data() == old(block.Data())
  {
    longer := run;
    rest := script;
    if script != [] {
      rest := script[1..];
      longer := LetOthersRun(block, script[0], run, m);
    }
  }

  // ----- the routine without the others: what a pass does when nobody interferes -----

  function QuietStatus(s: Door): Door {
    var t := DoorStep(s);
    if t.pc == FixStatus then DoorStep(t) else t
  }

  function QuietOpen(s: Door): Door {
    var t := DoorStep(s);
    if t.pc == ReadClose then t
    else if t.pc == ClearReopening then DoorStep(DoorStep(t))
    else DoorStep(t)
  }

  function QuietClose(s: Door): Door {
    var t := DoorStep(s);
    if t.pc == ClearCut then DoorStep(t) else t
  }

  method StatusStage(block: SharedBlock, current: Status, script: seq<seq<Action>>, ghost run: seq<Door>,
                     ghost m: Manners)
    returns (rest: seq<seq<Action>>, ghost longer: seq<Door>)
    requires block.Valid() && AllowedScript(script, m) && Traced(run, m)
    requires Last(run).pc == ReadStatus && Last(run).current == current && Last(run).block == block.Data()
    modifies block, block.currentFloor, block.destinationFloor
    ensures Traced(longer, m) && longer[0] == run[0]
    ensures Last(longer).pc == ReadOpen && Last(longer).current == current && Last(longer).block == block.Data()
    ensures AllowedScript(rest, m) && (script == [] ==> rest == []) && (script != [] ==> |rest| < |script|)
    ensures script == [] ==> Last(longer) == QuietStatus(Last(run))
  {
    rest, longer := Turn(block, script, run, m);
    longer := Advance(longer, m);
    var shown := block.ReadStatus();
    if shown != Some(current) {
      rest, longer := Turn(block, rest, longer, m);
      longer := Advance(longer, m);
      var ok := block.Edit(SetStatus, 0, current);
    }
  }

  /** Clear a button, whichever place asks for it. */
  method ClearStage(block: SharedBlock, op: Op, script: seq<seq<Action>>, ghost run: seq<Door>, ghost m: Manners)
    returns (rest: seq<seq<Action>>, ghost longer: seq<Door>)
    requires block.Valid() && AllowedScript(script, m) && Traced(run, m) && Last(run).block == block.Data()
    requires match Last(run).pc
             case ClearReopening => op == ClearOpen
             case ClearOpening => op == ClearOpen
             case ClearHeld => op == ClearOpen
             case ClearCut => op == ClearClose
             case _ => false
    modifies block, block.currentFloor, block.destinationFloor
    ensures Traced(longer, m) && longer[0] == run[0]
    ensures Last(longer).pc == match Last(run).pc
                               case ClearReopening => ClearOpening
                               case ClearCut => Publish
                               case _ => ReadClose
    ensures Last(longer).current == Last(run).current && Last(longer).block == block.Data()
    ensures AllowedScript(rest, m) && (script == [] ==> rest == []) && |rest| <= |script|
    ensures script == [] ==> Last(longer) == DoorStep(Last(run))
  {
    rest, longer := Turn(block, script, run, m);
    longer := Advance(longer, m);
    var ok := block.Edit(op, 0, Opening);
  }

  /** The branches taken once the open button has read as set. */
  method PressedStage(block: SharedBlock, current: Status, script: seq<seq<Action>>, ghost run: seq<Door>,
                      ghost m: Manners)
    returns (next: Status, rest: seq<seq<Action>>, ghost longer: seq<Door>)
    requires block.Valid() && AllowedScript(script, m) && Traced(run, m) && Last(run).block == block.Data()
    requires Last(run).pc == match current
                             case Closed => ClearReopening
                             case Closing => ClearReopening
                             case Open => ClearHeld
                             case _ => ClearOpening
    requires Last(run).current == match current
                                  case Closed => Opening
                                  case Closing => Opening
                                  case Open => Closing
                                  case _ => current
    modifies block, block.currentFloor, block.destinationFloor
    ensures Traced(longer, m) && longer[0] == run[0]
    ensures Last(longer).pc == ReadClose && Last(longer).current == next && Last(longer).block == block.Data()
    ensures AllowedScript(rest, m) && (script == [] ==> rest == []) && |rest| <= |script|
    ensures script == [] ==>
              Last(longer) == if Last(run).pc == ClearReopening
                              then DoorStep(DoorStep(Last(run))) else DoorStep(Last(run))
  {
    rest, longer, next := script, run, current;
    if next == Closed || next == Closing {
      next := Opening;
      rest, longer := ClearStage(block, ClearOpen, rest, longer, m);
    }
    if next == Opening || next == Between {
      rest, longer := ClearStage(block, ClearOpen, rest, longer, m);
    }
    if next == Open {
      next := Closing;
      rest, longer := ClearStage(block, ClearOpen, rest, longer, m);
    }
  }

  method OpenStage(block: SharedBlock, current: Status, script: seq<seq<Action>>, ghost run: seq<Door>,
                   ghost m: Manners)
    returns (next: Status, rest: seq<seq<Action>>, ghost longer: seq<Door>)
    requires block.Valid() && AllowedScript(script, m) && Traced(run, m)
    requires Last(run).pc == ReadOpen && Last(run).current == current && Last(run).block == block.Data()
    modifies block, block.currentFloor, block.destinationFloor
    ensures Traced(longer, m) && longer[0] == run[0]
    ensures Last(longer).pc == ReadClose && Last(longer).current == next && Last(longer).block == block.Data()
    ensures AllowedScript(rest, m) && (script == [] ==> rest == []) && |rest| <= |script|
    ensures script == [] ==> Last(longer) == QuietOpen(Last(run))
  {
    next := current;
    rest, longer := Turn(block, script, run, m);
    longer := Advance(longer, m);
    var pressed := block.Read(GetOpen);
    if pressed {
      next, rest, longer := PressedStage(block, current, rest, longer, m);
    }
  }

  method CloseStage(block: SharedBlock, current: Status, script: seq<seq<Action>>, ghost run: seq<Door>,
                    ghost m: Manners)
    returns (next: Status, rest: seq<seq<Action>>, ghost longer: seq<Door>)
    requires block.Valid() && AllowedScript(script, m) && Traced(run, m)
    requires Last(run).pc == ReadClose && Last(run).current == current && Last(run).block == block.Data()
    modifies block, block.currentFloor, block.destinationFloor
    ensures Traced(longer, m) && longer[0] == run[0]
    ensures Last(longer).pc == Publish && Last(longer).current == next && Last(longer).block == block.Data()
    ensures AllowedScript(rest, m) && (script == [] ==> rest == [])
    ensures |rest| <= |script|
    ensures script == [] ==> Last(longer) == QuietClose(Last(run))
  {
    next := current;
    rest, longer := Turn(block, script, run, m);
    longer := Advance(longer, m);
    var pressed := block.Read(GetClose);
    if pressed {
      if next == Open {
        next := Closing;
        rest, longer := ClearStage(block, ClearClose, rest, longer, m);
      }
    }
  }

  method PublishStage(block: SharedBlock, current: Status, script: seq<seq<Action>>, ghost run: seq<Door>,
                      ghost m: Manners)
    returns (next: Status, leave: bool, rest: seq<seq<Action>>, ghost longer: seq<Door>)
    requires block.Valid() && AllowedScript(script, m) && Traced(run, m)
    requires current != Between
    requires Last(run).pc == Publish && Last(run).current == current && Last(run).block == block.Data()
    modifies block, block.currentFloor, block.destinationFloor
    ensures Traced(longer, m) && longer[0] == run[0]
    ensures Last(longer).pc == (if leave then Done else ReadStatus) && Last(longer).current == next
    ensures Last(longer).block == block.Data() && (leave ==> block.Data().status == Some(Closed))
    ensures AllowedScript(rest, m) && (script == [] ==> rest == [])
    ensures |rest| <= |script|
    ensures script == [] ==> Last(longer) == DoorStep(Last(run))
  {
    var ok;
    var nextStatus := Opening;
    rest, longer := Turn(block, script, run, m);
    longer := Advance(longer, m);
    match current {
      case Opening =>
        ok := block.Edit(SetStatus, 0, Opening);
        nextStatus := Open;
      case Open =>
        ok := block.Edit(SetStatus, 0, Open);
        nextStatus := Closing;
      case Closing =>
        ok := block.Edit(SetStatus, 0, Closing);
        nextStatus := Closed;
      case Closed =>
        ok := block.Edit(SetStatus, 0, Closed);
        nextStatus := Opening;
      case Between =>
        assert false;
    }
    if current == Closed && nextStatus == Opening {
      return current, true, rest, longer;
    }
    return nextStatus, false, rest, longer;
  }

  function Quiet(s: Door): Door {
    DoorStep(QuietClose(QuietOpen(QuietStatus(s))))
  }

  function OpenSet(d: CarData): nat {
    if d.openButton == 1 then 1 else 0
  }

  /** Progress of the routine itself: it leaves, answers the open button, or moves to a later phase. */
  predicate Progress(d: CarData, current: Status, e: CarData, next: Status, leave: bool) {
    || OpenSet(e) < OpenSet(d)
    || (OpenSet(e) == OpenSet(d) && (leave || Remaining(next) < Remaining(current)))
  }

  lemma QuietStatusEffect(s: Door)
    requires s.pc == ReadStatus
    ensures var t := QuietStatus(s);
            t.pc == ReadOpen && t.current == s.current && OpenSet(t.block) == OpenSet(s.block)
  {
  }

  lemma QuietOpenEffect(s: Door)
    requires s.pc == ReadOpen
    ensures var t := QuietOpen(s);
            t.pc == ReadClose && OpenSet(t.block) == 0 && (OpenSet(s.block) == 0 ==> t.current == s.current)
            && (s.current != Between ==> t.current != Between)
  {
  }

  lemma QuietCloseEffect(s: Door)
    requires s.pc == ReadClose
    ensures var t := QuietClose(s);
            t.pc == Publish && OpenSet(t.block) == OpenSet(s.block)
            && (t.current == s.current || (s.current == Open && t.current == Closing))
  {
  }

  lemma QuietProgress(s: Door)
    requires s.pc == ReadStatus && s.current != Between
    ensures var t := Quiet(s); Progress(s.block, s.current, t.block, t.current, t.pc == Done)
  {
    QuietStatusEffect(s);
    QuietOpenEffect(QuietStatus(s));
    QuietCloseEffect(QuietOpen(QuietStatus(s)));
    var p := QuietClose(QuietOpen(QuietStatus(s)));
    PublishEffect(p);
  }

  lemma PublishEffect(s: Door)
    requires s.pc == Publish && s.current != Between
    ensures var t := DoorStep(s);
            OpenSet(t.block) == OpenSet(s.block)
            && (if s.current == Closed then t.pc == Done else t.current == Following(s.current))
  {
  }

  lemma CurrentIsADoorPhase(run: seq<Door>)
    requires IsRun(run)
    ensures Last(run).current != Between
  {
    RunIsSteadfast(run, |run| - 1);
  }

  method OnePass(block: SharedBlock, current: Status, script: seq<seq<Action>>, ghost run: seq<Door>, ghost m: Manners)
    returns (next: Status, leave: bool, rest: seq<seq<Action>>, ghost longer: seq<Door>)
    requires block.Valid() && AllowedScript(script, m) && Traced(run, m)
    requires Last(run).pc == ReadStatus && Last(run).current == current && Last(run).block == block.Data()
    modifies block, block.currentFloor, block.destinationFloor
    ensures Traced(longer, m) && longer[0] == run[0]
    ensures Last(longer).pc == (if leave then Done else ReadStatus) && Last(longer).current == next
    ensures Last(longer).block == block.Data() && AllowedScript(rest, m)
    ensures leave ==> block.Data().status == Some(Closed)
    ensures |rest| < |script| || (rest == script && Progress(old(block.Data()), current, block.Data(), next, leave))
  {
    CurrentIsADoorPhase(run);
    QuietProgress(Last(run));
    rest, longer := StatusStage(block, current, script, run, m);
    next, rest, longer := OpenStage(block, current, rest, longer, m);
    next, rest, longer := CloseStage(block, next, rest, longer, m);
    CurrentIsADoorPhase(longer);
    next, leave, rest, longer := PublishStage(block, next, rest, longer, m);
    assert script == [] ==> rest == [] && Last(longer) == Quiet(Last(run));
  }

  /** The routine, against any finite amount of interference.  It always comes to an end, and what
      happened is a run of the protocol from the block it found to the block it leaves. */
  method OperateDoor(block: SharedBlock, script: seq<seq<Action>>, ghost m: Manners) returns (ghost run: seq<Door>)
    requires block.Valid() && AllowedScript(script, m)
    modifies block, block.currentFloor, block.destinationFloor
    ensures IsRun(run) && run[0] == Start(old(block.Data()))
    ensures run[|run| - 1].pc == Done && run[|run| - 1].block == block.Data()
    ensures block.Data().status == Some(Closed)
    ensures m.calm ==> SameFloors(old(block.Data()), block.Data())
    ensures m.orderly ==> AllOrderly(run)
  {
    var current := Opening;
    var rest := script;
    var leave := false;
    run := [Start(block.Data())];
    while !leave
      invariant AllowedScript(rest, m)
      invariant Traced(run, m) && run[0] == Start(old(block.Data()))
      invariant Last(run).block == block.Data() && Last(run).current == current
      invariant leave ==> block.Data().status == Some(Closed)
      invariant Last(run).pc == if leave then Done else ReadStatus
      decreases |rest|, OpenSet(block.Data()), if leave then 0 else Remaining(current) + 1
    {
      current, leave, rest, run := OnePass(block, current, rest, run, m);
    }
  }
}
