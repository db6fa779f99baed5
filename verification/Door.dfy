/** The door routine of a car as a process that shares its block with everyone else.

    Each access to the block is one step under the mutex; between any two of them other processes may
    write whatever they like, any number of times.  What a result needs of the others, if anything, it
    asks for: that they show nothing but what the process thread and the safety system show, or that they
    leave the open button set. */
module Door {
  import opened Floors
  import opened SharedMemory
  import opened Safety

  /** The next access the routine makes. */
  datatype Pc =
    | ReadStatus      // compare the shown status with the local one
    | FixStatus       // show the local status
    | ReadOpen        // is the open button set?
    | ClearReopening  // clear it after turning closing or closed doors round
    | ClearOpening    // clear it while opening
    | ClearHeld       // clear it after it has cut the open phase short
    | ReadClose       // is the close button set?
    | ClearCut        // clear the close button after it has cut the open phase short
    | Publish         // show the status at the end of the pass
    | Done

  /** What has happened so far; the routine never looks at it. */
  datatype History = History(
    written: seq<Status>,  // statuses the routine wrote, in order
    steps: nat,            // accesses made
    passes: nat,           // passes begun
    presses: nat,          // passes on which the open button read as set
    fromClosing: nat,      // closing doors turned round
    fromClosed: nat,       // closed doors turned round
    cutShort: nat)         // open phases cut short by either button

  datatype Door = Door(pc: Pc, current: Status, block: CarData, past: History)

  function Start(block: CarData): Door {
    Door(ReadStatus, Opening, block, History([], 0, 0, 0, 0, 0, 0))
  }

  /** The phase that follows when a pass ends. */
  function Following(status: Status): Status {
    match status
    case Opening => Open
    case Open => Closing
    case Closing => Closed
    case Closed => Opening
    case Between => Between
  }

  function Show(s: Door, next: Pc): Door {
    s.(pc := next, block := Edited(s.block, SetStatus, 0, s.current),
       past := s.past.(written := s.past.written + [s.current]))
  }

  function Clear(s: Door, op: Op, next: Pc): Door {
    s.(pc := next, block := Edited(s.block, op, 0, Opening))
  }

  function AnswerOpen(s: Door): Door {
    var p := s.(past := s.past.(presses := s.past.presses + 1));
    match s.current
    case Closed => p.(pc := ClearReopening, current := Opening, past := p.past.(fromClosed := p.past.fromClosed + 1))
    case Closing => p.(pc := ClearReopening, current := Opening, past := p.past.(fromClosing := p.past.fromClosing + 1))
    case Open => p.(pc := ClearHeld, current := Closing, past := p.past.(cutShort := p.past.cutShort + 1))
    case _ => p.(pc := ClearOpening)
  }

  function EndPass(s: Door): Door {
    if s.current == Closed then Show(s, Done)
    else if s.current == Between then s.(pc := ReadStatus)
    else Show(s, ReadStatus).(current := Following(s.current))
  }

  /** One access by the routine. */
  function Access(s: Door): Door {
    match s.pc
    case ReadStatus =>
      s.(pc := if s.block.status == Some(s.current) then ReadOpen else FixStatus,
         past := s.past.(passes := s.past.passes + 1))
    case FixStatus => Show(s, ReadOpen)
    case ReadOpen => if Flagged(s.block, GetOpen) then AnswerOpen(s) else s.(pc := ReadClose)
    case ClearReopening => Clear(s, ClearOpen, ClearOpening)
    case ClearOpening => Clear(s, ClearOpen, ReadClose)
    case ClearHeld => Clear(s, ClearOpen, ReadClose)
    case ReadClose =>
      if Flagged(s.block, GetClose) && s.current == Open then
        s.(pc := ClearCut, current := Closing, past := s.past.(cutShort := s.past.cutShort + 1))
      else s.(pc := Publish)
    case ClearCut => Clear(s, Op.ClearClose, Publish)
    case Publish => EndPass(s)
    case Done => s
  }

  function DoorStep(s: Door): Door {
    var t := Access(s);
    t.(past := t.past.(steps := s.past.steps + 1))
  }

  /** The others may leave any block behind. */
  predicate ByOthers(s: Door, t: Door) {
    t == s.(block := t.block)
  }

  predicate ByRoutine(s: Door, t: Door) {
    s.pc != Done && t == DoorStep(s)
  }

  predicate Step(s: Door, t: Door) {
    ByRoutine(s, t) || ByOthers(s, t)
  }

  predicate StepAt(run: seq<Door>, i: nat)
    requires i + 1 < |run|
  {
    Step(run[i], run[i + 1])
  }

  ghost predicate IsRun(run: seq<Door>) {
    && run != [] && run[0] == Start(run[0].block)
    && forall i :: 0 <= i < |run| - 1 ==> StepAt(run, i)
  }

  /** What the process thread and the safety system show: Between and Closed while the car moves, and
      Opening for doors that close on an obstruction. */
  predicate OrderlyWrite(d: CarData, e: CarData) {
    e.status == d.status || e.status == Some(Between) || e.status == Some(Closed) || e.status == Monitored(d).status
  }

  predicate OrderlyAt(run: seq<Door>, i: nat)
    requires i + 1 < |run|
  {
    ByRoutine(run[i], run[i + 1]) || OrderlyWrite(run[i].block, run[i + 1].block)
  }

  /** In the first n steps the others show nothing else. */
  ghost predicate IsOrderly(run: seq<Door>, n: nat)
    requires n < |run|
  {
    forall i :: 0 <= i < n ==> OrderlyAt(run, i)
  }

  /** The step is no clearing of the open button by another process. */
  predicate LeavesOpen(s: Door, t: Door) {
    ByRoutine(s, t) || (s.block.openButton == 1 ==> t.block.openButton == 1)
  }

  /** A safety pass that finds the doors closing on an obstruction. */
  predicate Fires(s: Door, t: Door) {
    Obstructed(s.block) && t == s.(block := Monitored(s.block))
  }

  /** The routine itself shows "Opening". */
  predicate PublishesOpening(s: Door, t: Door) {
    s.pc in {FixStatus, Publish} && s.current == Opening && t == DoorStep(s)
  }

  // ----- the invariants -----

  /** The local statuses a point allows, whatever is shown. */
  predicate PointAgrees(s: Door) {
    && s.current != Between
    && match s.pc
       case ClearReopening => s.current == Opening
       case ClearOpening => s.current == Opening
       case ClearHeld => s.current == Closing
       case ClearCut => s.current == Closing
       case Done => s.current == Closed
       case _ => true
  }

  /** Where Open and Closing cannot be shown if the others are orderly. */
  predicate ShownAgrees(s: Door) {
    var shown := s.block.status;
    match s.pc
    case ReadStatus => NotYetShown(s.current, shown)
    case FixStatus => NotYetShown(s.current, shown)
    case ReadOpen => s.current == Open || s.current == Closed ==> shown != Some(Closing)
    case ReadClose => s.current == Open || s.current == Closed ==> shown != Some(Closing)
    case Publish => s.current == Open || s.current == Closed ==> shown != Some(Closing)
    case ClearHeld => shown != Some(Closing)
    case ClearCut => shown != Some(Closing)
    case Done => shown != Some(Closing)
    case _ => true
  }

  predicate NotYetShown(current: Status, shown: Option<Status>) {
    match current
    case Open => shown != Some(Open) && shown != Some(Closing)
    case Closing => shown != Some(Closing)
    case _ => true
  }

  predicate DoorEdge(a: Status, b: Status) {
    || a == b
    || (a == Opening && b == Open) || (a == Open && b == Closing) || (a == Closing && b == Closed)
    || (a == Closing && b == Opening) || (a == Closed && b == Opening)
  }

  /** Statuses that start at Opening and follow the doors' physical order. */
  predicate IsDoorPath(w: seq<Status>) {
    && (w != [] ==> w[0] == Opening)
    && forall i :: 0 <= i < |w| - 1 ==> DoorEdge(w[i], w[i + 1])
  }

  /** The last status written, seen from the routine's point. */
  predicate PathAgrees(s: Door) {
    var w := s.past.written;
    && IsDoorPath(w)
    && (w == [] ==> s.current == Opening && s.pc != Done)
    && (w != [] ==>
          var last := w[|w| - 1];
          match s.pc
          case ReadStatus => s.current == Following(last) && last != Closed
          case FixStatus => s.current == Following(last) && last != Closed
          case ReadOpen => last == s.current || (last == Closing && s.current == Closed)
          case ClearHeld => last == Open
          case ClearCut => last == Open
          case Done => last == Closed
          case ReadClose => DoorEdge(last, s.current) && (s.current == Open ==> last == Open)
          case _ => DoorEdge(last, s.current))
  }

  /** Passes still to come once the current one is over. */
  function Remaining(current: Status): int {
    match current
    case Opening => 3
    case Open => 2
    case Closing => 1
    case Closed => 0
    case Between => 0
  }

  /** How many accesses of its pass the routine has made at most. */
  function Ordinal(pc: Pc, current: Status): nat {
    match pc
    case ReadStatus => 0
    case FixStatus => 1
    case ReadOpen => 2
    case ClearReopening => 3
    case ClearOpening => 4
    case ClearHeld => 3
    case ReadClose => if current == Open then 3 else 5
    case ClearCut => 4
    case Publish => 6
    case Done => 7
  }

  /** Exact accounting of passes, and a bound on accesses. */
  predicate CountsAgree(s: Door) {
    var p := s.past;
    && p.passes + Remaining(s.current) + (if s.pc == ReadStatus then 1 else 0)
       == 4 + 2 * p.fromClosing + 3 * p.fromClosed - p.cutShort
    && p.fromClosing + p.fromClosed <= p.presses
    && (s.pc != ReadStatus ==> p.passes >= 1)
    && p.steps <= 7 * (if s.pc == ReadStatus then p.passes else p.passes - 1) + Ordinal(s.pc, s.current)
  }

  /** What holds whatever the others do. */
  predicate Steadfast(s: Door) {
    PointAgrees(s) && CountsAgree(s)
  }

  /** What holds if they are orderly. */
  predicate Orderly(s: Door) {
    PointAgrees(s) && ShownAgrees(s) && PathAgrees(s)
  }

  lemma PathExtends(w: seq<Status>, status: Status)
    requires IsDoorPath(w) && (if w == [] then status == Opening else DoorEdge(w[|w| - 1], status))
    ensures IsDoorPath(w + [status])
  {
  }

  lemma SteadfastStep(s: Door, t: Door)
    requires Steadfast(s) && Step(s, t)
    ensures Steadfast(t)
  {
  }

  lemma ShownStep(s: Door)
    requires PointAgrees(s) && ShownAgrees(s) && s.pc != Done
    ensures ShownAgrees(DoorStep(s))
  {
  }

  lemma PathStep(s: Door)
    requires Orderly(s) && s.pc != Done
    ensures PathAgrees(DoorStep(s))
  {
    if s.pc == FixStatus || s.pc == Publish {
      PathExtends(s.past.written, s.current);
    }
  }

  lemma OthersKeepOrder(s: Door, t: Door)
    requires Orderly(s) && ByOthers(s, t) && OrderlyWrite(s.block, t.block)
    ensures Orderly(t)
  {
  }

  lemma {:induction false} RunIsSteadfast(run: seq<Door>, i: nat)
    requires IsRun(run) && i < |run|
    ensures Steadfast(run[i])
  {
    if i > 0 {
      RunIsSteadfast(run, i - 1);
      assert StepAt(run, i - 1);
      SteadfastStep(run[i - 1], run[i]);
    }
  }

  lemma {:induction false} RunIsOrderly(run: seq<Door>, i: nat)
    requires IsRun(run) && i < |run| && IsOrderly(run, i)
    ensures Orderly(run[i])
  {
    if i > 0 {
      RunIsOrderly(run, i - 1);
      assert StepAt(run, i - 1) && OrderlyAt(run, i - 1);
      RunIsSteadfast(run, i);
      if ByRoutine(run[i - 1], run[i]) {
        ShownStep(run[i - 1]);
        PathStep(run[i - 1]);
      } else {
        OthersKeepOrder(run[i - 1], run[i]);
      }
    }
  }

  /** In every interleaving with others that show nothing but what the process thread and the safety
      system show, the statuses the routine writes start at Opening and follow the doors' physical order. */
  lemma DoorsFollowTheirOrder(run: seq<Door>, i: nat)
    requires IsRun(run) && i < |run| && IsOrderly(run, i)
    ensures IsDoorPath(run[i].past.written)
  {
    RunIsOrderly(run, i);
  }

  /** Whatever the others do, the routine leaves only with the step that shows Closed. */
  lemma LeavingShowsClosed(run: seq<Door>, i: nat)
    requires IsRun(run) && i + 1 < |run| && run[i].pc != Done && run[i + 1].pc == Done
    ensures var written := run[i + 1].past.written;
            && written != [] && written[|written| - 1] == Closed
            && run[i + 1].block.status == Some(Closed)
  {
    RunIsSteadfast(run, i);
    assert StepAt(run, i);
  }

  /** Every interleaving, with others that may write anything at all (even a second routine), gives the
      routine the same account: each closing pair of doors turned round costs two more passes, each
      closed pair three, each open phase cut short saves one.  So the routine ends within 4 + 3N passes
      of 7 accesses, where N counts the passes that saw the open button. */
  lemma DoorsTerminate(run: seq<Door>, i: nat)
    requires IsRun(run) && i < |run|
    ensures var p := run[i].past;
            && p.passes <= 4 + 3 * p.presses
            && p.steps <= 7 * (4 + 3 * p.presses)
            && (run[i].pc == Done ==> p.passes == 4 + 2 * p.fromClosing + 3 * p.fromClosed - p.cutShort)
  {
    RunIsSteadfast(run, i);
  }

  // ----- the doors and the moving car -----

  /** The routine writes a status. */
  predicate Shows(s: Door, t: Door) {
    s.pc != Done && t == DoorStep(s) && t.past.written != s.past.written
  }

  /** Another process shows Between: the car begins to move. */
  predicate SetsOff(s: Door, t: Door) {
    ByOthers(s, t) && t.block.status == Some(Between)
  }

  /** The car has been moving since state i. */
  predicate MovingSince(run: seq<Door>, i: nat, k: nat)
    requires i <= k < |run|
  {
    && run[i].block.status == Some(Between)
    && (i == 0 || SetsOff(run[i - 1], run[i]))
    && forall m :: i <= m <= k ==> run[m].block.status == Some(Between)
  }

  /** The routine never looks where the car is.  It moves the doors of a moving car exactly if that car was
      moving when it began, or another process set it off, and nothing has been shown since. */
  lemma {:induction false} DoorsMoveBetweenFloorsExactly(run: seq<Door>, k: nat)
    requires IsRun(run) && k < |run|
    ensures run[k].block.status == Some(Between) <==> exists i :: 0 <= i <= k && MovingSince(run, i, k)
  {
    if run[k].block.status == Some(Between) {
      if k == 0 {
        assert MovingSince(run, 0, 0);
      } else {
        assert StepAt(run, k - 1);
        RunIsSteadfast(run, k - 1);
        if SetsOff(run[k - 1], run[k]) {
          assert MovingSince(run, k, k);
        } else {
          DoorsMoveBetweenFloorsExactly(run, k - 1);
          var i :| 0 <= i <= k - 1 && MovingSince(run, i, k - 1);
          assert MovingSince(run, i, k);
        }
      }
    }
  }

  // ----- an obstruction is never forgotten -----

  /** The routine is bound to show Opening before it can leave. */
  predicate ReopenDue(s: Door) {
    s.pc != Done
    && (s.current == Opening
        || (s.block.openButton == 1
            && ((s.pc in {ReadStatus, FixStatus, ReadOpen} && s.current in {Closing, Closed})
                || (s.pc in {ReadClose, Publish} && s.current == Closing))))
  }

  /** Own accesses until Opening is shown, at most. */
  function ReopenDistance(s: Door): (d: nat)
    ensures d >= 1
  {
    match s.pc
    case ReadStatus => if s.current == Opening then 5 else 7
    case FixStatus => if s.current == Opening then 1 else 6
    case ReadOpen => if s.current == Opening then 4 else 5
    case ClearReopening => 4
    case ClearOpening => 3
    case ReadClose => if s.current == Opening then 2 else 9
    case Publish => if s.current == Opening then 1 else 8
    case _ => 1
  }

  lemma FiringMakesReopenDue(s: Door, t: Door)
    requires Orderly(s) && Fires(s, t)
    ensures ReopenDue(t) && t.block.status == Some(Opening)
  {
  }

  lemma ReopenStaysDue(s: Door, t: Door)
    requires PointAgrees(s) && ReopenDue(s) && Step(s, t) && LeavesOpen(s, t) && !PublishesOpening(s, t)
    ensures ReopenDue(t)
    ensures ReopenDistance(t) + (t.past.steps - s.past.steps) <= ReopenDistance(s)
  {
  }

  /** While no step between i and j shows Opening, the debt raised at i stands and its distance shrinks
      with every own access. */
  lemma {:induction false} ReopenDueUntil(run: seq<Door>, i: nat, j: nat)
    requires IsRun(run) && i <= j < |run|
    requires ReopenDue(run[i])
    requires forall k :: i <= k < j ==> LeavesOpen(run[k], run[k + 1]) && !PublishesOpening(run[k], run[k + 1])
    ensures ReopenDue(run[j])
    ensures ReopenDistance(run[j]) + run[j].past.steps - run[i].past.steps <= ReopenDistance(run[i])
    decreases j
  {
    if i < j {
      ReopenDueUntil(run, i, j - 1);
      RunIsSteadfast(run, j - 1);
      assert StepAt(run, j - 1);
      assert !PublishesOpening(run[j - 1], run[j - 1 + 1]);
      ReopenStaysDue(run[j - 1], run[j]);
    }
  }

  /** The heart of the protocol.  In every interleaving, once the safety system has answered an
      obstruction of closing doors, the routine shows Opening again before it leaves, and at the latest
      with its ninth own access.  The others must have been orderly before the answer; after it they may
      show what they like, and only a clearing of the open button can make the routine forget. */
  lemma ReopenIsNeverLost(run: seq<Door>, i: nat, j: nat)
    requires IsRun(run) && i < j < |run| && IsOrderly(run, i)
    requires Fires(run[i], run[i + 1])
    requires forall k :: i < k < j ==> LeavesOpen(run[k], run[k + 1])
    requires run[j].pc == Done || run[j].past.steps >= run[i + 1].past.steps + 9
    ensures exists k :: i < k < j && PublishesOpening(run[k], run[k + 1])
  {
    RunIsOrderly(run, i);
    FiringMakesReopenDue(run[i], run[i + 1]);
    if forall k :: i + 1 <= k < j ==> !PublishesOpening(run[k], run[k + 1]) {
      ReopenDueUntil(run, i + 1, j);
      assert false;
    }
  }
}
