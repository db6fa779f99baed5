/** What the door routine does about the buttons and the shown status, told from the block it found at each
    access, in every interleaving. */
module DoorButtons {
  import opened Floors
  import opened SharedMemory
  import opened Door

  /** Step k is an access of the routine itself. */
  predicate Own(run: seq<Door>, k: nat)
    requires k + 1 < |run|
  {
    run[k + 1].past.steps == run[k].past.steps + 1
  }

  lemma OwnOrOthers(run: seq<Door>, k: nat)
    requires IsRun(run) && k + 1 < |run|
    ensures if Own(run, k) then ByRoutine(run[k], run[k + 1]) else ByOthers(run[k], run[k + 1])
  {
    assert StepAt(run, k);
  }

  // ----- what is shown next -----

  /** The routine will not look at anything again before it shows `next`. */
  predicate Settled(s: Door, next: Status) {
    && s.current == next
    && match s.pc
       case ReadStatus => false
       case ReadOpen => false
       case ReadClose => next != Open
       case Done => false
       case _ => true
  }

  /** From a state with status list w, the list of state t goes on with `next`, or is still w. */
  predicate GoesOnWith(w: seq<Status>, t: Door, next: Status) {
    if |t.past.written| <= |w| then t.past.written == w && Settled(t, next)
    else w <= t.past.written && t.past.written[|w|] == next
  }

  lemma WrittenGrows(s: Door)
    requires s.pc != Done
    ensures s.past.written <= DoorStep(s).past.written
  {
  }

  lemma SettledStep(s: Door, next: Status)
    requires PointAgrees(s) && Settled(s, next)
    ensures GoesOnWith(s.past.written, DoorStep(s), next)
  {
  }

  lemma {:induction false} SettledUntil(run: seq<Door>, i: nat, j: nat, next: Status)
    requires IsRun(run) && i <= j < |run| && Settled(run[i], next)
    ensures GoesOnWith(run[i].past.written, run[j], next)
  {
    if i < j {
      SettledUntil(run, i, j - 1, next);
      RunIsSteadfast(run, j - 1);
      OwnOrOthers(run, j - 1);
      if Own(run, j - 1) {
        WrittenGrows(run[j - 1]);
        if Settled(run[j - 1], next) { SettledStep(run[j - 1], next); }
      }
    }
  }

  lemma ReadingSettles(s: Door)
    requires PointAgrees(s)
    ensures s.pc == ReadClose && s.current == Open ==>
              Settled(DoorStep(s), if s.block.closeButton == 1 then Closing else Open)
              && DoorStep(s).past.written == s.past.written
    ensures s.pc == ReadOpen && s.block.openButton == 1 ==>
              Settled(DoorStep(s), if s.current == Open then Closing else Opening)
              && DoorStep(s).past.written == s.past.written
    ensures s.pc == ReadOpen && s.block.openButton != 1 && s.current != Open ==>
              Settled(DoorStep(s), s.current) && DoorStep(s).past.written == s.past.written
  {
  }

  /** What the buttons decide.  If the routine finds the close button set while open, the next thing it shows
      is Closing, and else Open.  If it finds the open button set it shows Closing next if it was open, and
      Opening otherwise.  Nothing anybody does after the look can change that. */
  lemma ButtonsDecideWhatIsShown(run: seq<Door>, i: nat, j: nat)
    requires IsRun(run) && i < j < |run| && Own(run, i)
    requires |run[j].past.written| > |run[i].past.written|
    ensures var s, shown := run[i], run[j].past.written[|run[i].past.written|];
            && (s.pc == ReadClose && s.current == Open ==> shown == if s.block.closeButton == 1 then Closing else Open)
            && (s.pc == ReadOpen && s.block.openButton == 1 ==> shown == if s.current == Open then Closing else Opening)
            && (s.pc == ReadOpen && s.block.openButton != 1 && s.current != Open ==> shown == s.current)
  {
    var s := run[i];
    RunIsSteadfast(run, i);
    OwnOrOthers(run, i);
    ReadingSettles(s);
    if s.pc == ReadClose && s.current == Open {
      SettledUntil(run, i + 1, j, if s.block.closeButton == 1 then Closing else Open);
    } else if s.pc == ReadOpen && s.block.openButton == 1 {
      SettledUntil(run, i + 1, j, if s.current == Open then Closing else Opening);
    } else if s.pc == ReadOpen && s.current != Open {
      SettledUntil(run, i + 1, j, s.current);
    }
  }

  // ----- what is cleared -----

  /** Step k is the next access of the routine after step i. */
  predicate NextOwn(run: seq<Door>, i: nat, k: nat)
    requires i + 1 < |run| && k + 1 < |run|
  {
    i < k && Own(run, i) && Own(run, k) && run[k].past.steps == run[i + 1].past.steps
  }

  lemma {:induction false} StepsRise(run: seq<Door>, i: nat, k: nat)
    requires IsRun(run) && i <= k < |run|
    ensures run[i].past.steps <= run[k].past.steps
    ensures run[i].past.steps == run[k].past.steps ==> run[k] == run[i].(block := run[k].block)
  {
    if i < k {
      StepsRise(run, i, k - 1);
      OwnOrOthers(run, k - 1);
    }
  }

  /** What a look makes the routine do next: a button found set is cleared by the very next access (by the
      next two, if it turned shut or shutting doors round), a status that differs is put right. */
  lemma LooksAreActedOn(run: seq<Door>, i: nat, k: nat)
    requires IsRun(run) && i + 1 < |run| && k + 1 < |run| && NextOwn(run, i, k)
    ensures var s, t := run[i], run[k + 1];
            && (s.pc == ReadClose && s.current == Open && s.block.closeButton == 1 ==> t.block.closeButton == 0)
            && (s.pc == ReadOpen && s.block.openButton == 1 ==> t.block.openButton == 0)
            && (s.pc == ReadStatus ==>
                  t.past.written == s.past.written + if s.block.status == Some(s.current) then [] else [s.current])
  {
    RunIsSteadfast(run, i);
    OwnOrOthers(run, i);
    OwnOrOthers(run, k);
    StepsRise(run, i + 1, k);
    LookThenAccess(run[i], run[k]);
  }

  lemma LookThenAccess(s: Door, u: Door)
    requires PointAgrees(s) && s.pc != Done && u == DoorStep(s).(block := u.block)
    ensures var t := DoorStep(u);
            && (s.pc == ReadClose && s.current == Open && s.block.closeButton == 1 ==> t.block.closeButton == 0)
            && (s.pc == ReadOpen && s.block.openButton == 1 ==> t.block.openButton == 0)
            && (s.pc == ReadOpen && s.block.openButton == 1 && s.current != Open && s.current != Opening ==>
                  t.pc == ClearOpening)
            && (s.pc == ReadStatus ==>
                  t.past.written == s.past.written + if s.block.status == Some(s.current) then [] else [s.current])
  {
  }

  lemma TurnedDoorsClearTwice(run: seq<Door>, i: nat, k: nat, l: nat)
    requires IsRun(run) && i + 1 < |run| && k + 1 < |run| && l + 1 < |run|
    requires NextOwn(run, i, k) && NextOwn(run, k, l)
    requires run[i].pc == ReadOpen && run[i].block.openButton == 1 && run[i].current in {Closing, Closed}
    ensures run[k + 1].block.openButton == 0 && run[l + 1].block.openButton == 0
  {
    LooksAreActedOn(run, i, k);
    RunIsSteadfast(run, i);
    OwnOrOthers(run, i);
    OwnOrOthers(run, k);
    OwnOrOthers(run, l);
    StepsRise(run, i + 1, k);
    StepsRise(run, k + 1, l);
    LookThenAccess(run[i], run[k]);
  }

  /** And it touches nothing else: a button is written only just after it was found set, and no access
      writes any other field but the status. */
  lemma NothingElseIsTouched(run: seq<Door>, i: nat)
    requires IsRun(run) && i + 1 < |run| && Own(run, i)
    ensures var s, t := run[i], run[i + 1];
            && t.block == s.block.(status := t.block.status, openButton := t.block.openButton,
                                   closeButton := t.block.closeButton)
            && (t.block.status != s.block.status ==>
                  t.block.status.Some? && t.past.written == s.past.written + [t.block.status.value])
            && (s.pc in {ReadStatus, ReadOpen, ReadClose} ==> t.block == s.block)
            && (s.pc != ClearCut ==> t.block.closeButton == s.block.closeButton)
            && (s.pc !in {ClearReopening, ClearOpening, ClearHeld} ==> t.block.openButton == s.block.openButton)
  {
    OwnOrOthers(run, i);
    RunIsSteadfast(run, i);
    AccessFrame(run[i]);
  }

  lemma AccessFrame(s: Door)
    requires PointAgrees(s) && s.pc != Done
    ensures var t := DoorStep(s);
            && t.block == s.block.(status := t.block.status, openButton := t.block.openButton,
                                   closeButton := t.block.closeButton)
            && (t.block.status != s.block.status ==>
                  t.block.status.Some? && t.past.written == s.past.written + [t.block.status.value])
            && (s.pc in {ReadStatus, ReadOpen, ReadClose} ==> t.block == s.block)
            && (s.pc != ClearCut ==> t.block.closeButton == s.block.closeButton)
            && (s.pc !in {ClearReopening, ClearOpening, ClearHeld} ==> t.block.openButton == s.block.openButton)
  {
  }

  // ----- the account, from the blocks alone -----

  /** What an access can find. */
  datatype Find = AnyPass | OpenSet | OpenWhileClosing | OpenWhileClosed | CutsShort

  predicate Finds(s: Door, what: Find) {
    match what
    case AnyPass => s.pc == ReadStatus
    case OpenSet => s.pc == ReadOpen && s.block.openButton == 1
    case OpenWhileClosing => s.pc == ReadOpen && s.block.openButton == 1 && s.current == Closing
    case OpenWhileClosed => s.pc == ReadOpen && s.block.openButton == 1 && s.current == Closed
    case CutsShort =>
      s.current == Open
      && ((s.pc == ReadOpen && s.block.openButton == 1) || (s.pc == ReadClose && s.block.closeButton == 1))
  }

  /** How many of the routine's accesses before state i found it so. */
  ghost function Tally(run: seq<Door>, i: nat, what: Find): nat
    requires i < |run|
  {
    if i == 0 then 0 else Tally(run, i - 1, what) + if Own(run, i - 1) && Finds(run[i - 1], what) then 1 else 0
  }

  lemma AccessCounts(s: Door)
    requires PointAgrees(s) && s.pc != Done
    ensures var p, q := s.past, DoorStep(s).past;
            && q.passes == p.passes + (if Finds(s, AnyPass) then 1 else 0)
            && q.presses == p.presses + (if Finds(s, OpenSet) then 1 else 0)
            && q.fromClosing == p.fromClosing + (if Finds(s, OpenWhileClosing) then 1 else 0)
            && q.fromClosed == p.fromClosed + (if Finds(s, OpenWhileClosed) then 1 else 0)
            && q.cutShort == p.cutShort + (if Finds(s, CutsShort) then 1 else 0)
  {
  }

  lemma {:induction false} CountsAreTallies(run: seq<Door>, i: nat)
    requires IsRun(run) && i < |run|
    ensures var p := run[i].past;
            && p.passes == Tally(run, i, AnyPass) && p.presses == Tally(run, i, OpenSet)
            && p.fromClosing == Tally(run, i, OpenWhileClosing) && p.fromClosed == Tally(run, i, OpenWhileClosed)
            && p.cutShort == Tally(run, i, CutsShort)
  {
    if i > 0 {
      CountsAreTallies(run, i - 1);
      RunIsSteadfast(run, i - 1);
      OwnOrOthers(run, i - 1);
      if Own(run, i - 1) { AccessCounts(run[i - 1]); }
    }
  }

  /** A routine that has left made four passes, two more for each time it found the open button set while
      closing, three for each time while closed, and one less for each time a button cut an open phase
      short. */
  lemma PassesFollowFromButtons(run: seq<Door>, i: nat)
    requires IsRun(run) && i < |run| && run[i].pc == Done
    ensures Tally(run, i, AnyPass)
         == 4 + 2 * Tally(run, i, OpenWhileClosing) + 3 * Tally(run, i, OpenWhileClosed) - Tally(run, i, CutsShort)
  {
    CountsAreTallies(run, i);
    DoorsTerminate(run, i);
  }
}
