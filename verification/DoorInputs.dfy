/** Runs of the door routine that show what becomes of its results when others do what they should not:
    the process thread moves the car, or a second routine works on the same doors. */
module DoorInputs {
  import opened Floors
  import opened SharedMemory
  import opened Safety
  import opened Door
  import opened DoorRoutine

  lemma OwnStep(run: seq<Door>) returns (longer: seq<Door>)
    requires IsRun(run) && Last(run).pc != Done
    ensures longer == run + [DoorStep(Last(run))] && IsRun(longer)
    ensures AllOrderly(run) ==> AllOrderly(longer)
  {
    RunGrows(run, DoorStep(Last(run)));
    longer := run + [DoorStep(Last(run))];
  }

  lemma OtherStep(run: seq<Door>, block: CarData) returns (longer: seq<Door>)
    requires IsRun(run)
    ensures longer == run + [Last(run).(block := block)] && IsRun(longer)
  {
    RunGrows(run, Last(run).(block := block));
    longer := run + [Last(run).(block := block)];
  }

  /** The process thread sets the car off just after the routine has looked, and the routine opens the
      doors between floors. */
  lemma DoorsOpenBetweenFloors(block: CarData) returns (run: seq<Door>)
    requires block.status == Some(Closed)
    ensures IsRun(run) && |run| == 4 && IsOrderly(run, 3) && run[0] == Start(block)
    ensures SetsOff(run[1], run[2]) && Shows(run[2], run[3])
    ensures run[2].block.status == Some(Between) && run[3].block.status == Some(Opening)
  {
    run := OwnStep([Start(block)]);
    run := OtherStep(run, block.(status := Some(Between)));
    run := OwnStep(run);
    assert OrderlyAt(run, 0) && OrderlyAt(run, 1) && OrderlyAt(run, 2);
  }

  predicate Unpressed(d: CarData) {
    d.openButton != 1 && d.closeButton != 1
  }

  lemma NothingPressed(run: seq<Door>) returns (longer: seq<Door>)
    requires IsRun(run) && Last(run).pc == ReadOpen && Last(run).block.openButton != 1
    ensures IsRun(longer) && run <= longer && |longer| == |run| + 1
    ensures Last(longer) == Last(run).(pc := ReadClose, past := Last(longer).past)
    ensures Last(longer).past.written == Last(run).past.written
  {
    longer := OwnStep(run);
  }

  lemma NothingClosed(run: seq<Door>) returns (longer: seq<Door>)
    requires IsRun(run) && Last(run).pc == ReadClose && Last(run).block.closeButton != 1
    ensures IsRun(longer) && run <= longer && |longer| == |run| + 1
    ensures Last(longer) == Last(run).(pc := Publish, past := Last(longer).past)
    ensures Last(longer).past.written == Last(run).past.written
  {
    longer := OwnStep(run);
  }

  lemma Published(run: seq<Door>) returns (longer: seq<Door>)
    requires IsRun(run) && Last(run).pc == Publish && Last(run).current != Between
    ensures IsRun(longer) && run <= longer && |longer| == |run| + 1
    ensures var s, t := Last(run), Last(longer);
            && t.block == s.block.(status := Some(s.current))
            && t.past.written == s.past.written + [s.current]
            && t.pc == (if s.current == Closed then Done else ReadStatus)
            && (s.current != Closed ==> t.current == Following(s.current))
  {
    longer := OwnStep(run);
  }

  lemma StatusPutRight(run: seq<Door>) returns (longer: seq<Door>)
    requires IsRun(run) && Last(run).pc == ReadStatus
    ensures IsRun(longer) && run <= longer && |run| < |longer|
    ensures var s, t := Last(run), Last(longer);
            t.pc == ReadOpen && t.current == s.current && t.block == s.block.(status := Some(s.current))
    ensures forall k :: |run| <= k < |longer| ==> longer[k].current == Last(run).current
  {
    longer := OwnStep(run);
    if Last(longer).pc == FixStatus {
      longer := OwnStep(longer);
    }
  }

  /** A pass with no button pressed and nobody about. */
  lemma QuietPass(run: seq<Door>) returns (longer: seq<Door>)
    requires IsRun(run) && Last(run).pc == ReadStatus && Unpressed(Last(run).block)
    ensures IsRun(longer) && run <= longer && |run| < |longer|
    ensures var s, t := Last(run), Last(longer);
            && t.block == s.block.(status := Some(s.current))
            && t.past.written != [] && t.past.written[|t.past.written| - 1] == s.current
            && t.pc == (if s.current == Closed then Done else ReadStatus)
            && (s.current != Closed ==> t.current == Following(s.current))
    ensures forall k :: |run| <= k < |longer| - 1 ==> longer[k].current == Last(run).current
  {
    longer := StatusPutRight(run);
    longer := NothingPressed(longer);
    longer := NothingClosed(longer);
    RunIsSteadfast(longer, |longer| - 1);
    longer := Published(longer);
  }

  /** If a second routine clears the open button after the safety system has pressed it, the obstruction
      is forgotten: the routine shuts the doors and leaves. */
  lemma ObstructionIsForgotten(block: CarData) returns (run: seq<Door>, i: nat)
    requires Unpressed(block) && block.doorObstruction == 1
    ensures IsRun(run) && run[0] == Start(block) && i + 2 < |run|
    ensures Fires(run[i], run[i + 1]) && !LeavesOpen(run[i + 1], run[i + 2]) && Last(run).pc == Done
    ensures forall k :: i < k < |run| - 1 ==> !PublishesOpening(run[k], run[k + 1])
  {
    run := QuietPass([Start(block)]);
    run := QuietPass(run);
    run := QuietPass(run);
    i := |run| - 1;
    run := OtherStep(run, Monitored(Last(run).block));
    run := OtherStep(run, Edited(Last(run).block, ClearOpen, 0, Opening));
    run := QuietPass(run);
  }

  /** The three accesses that turn closing doors round. */
  lemma TurnedRound(run: seq<Door>) returns (longer: seq<Door>)
    requires IsRun(run) && Last(run).pc == ReadOpen && Last(run).current == Closing
    requires Last(run).block.openButton == 1
    ensures IsRun(longer) && Last(longer).pc == ReadClose && Last(longer).current == Opening
    ensures Last(longer).past.written == Last(run).past.written && longer[0] == run[0]
    ensures Last(longer).block == Last(run).block.(openButton := 0)
  {
    longer := OwnStep(run);
    longer := OwnStep(longer);
    longer := OwnStep(longer);
  }

  lemma AlreadyShown(run: seq<Door>) returns (longer: seq<Door>)
    requires IsRun(run) && Last(run).pc == ReadStatus && Last(run).block.status == Some(Last(run).current)
    ensures IsRun(longer) && run <= longer
    ensures Last(longer) == Last(run).(pc := ReadOpen, past := Last(longer).past)
    ensures Last(longer).past.written == Last(run).past.written
  {
    longer := OwnStep(run);
  }

  /** If a second routine shows Closing where this one is about to, and the open button is pressed, this
      one shows Opening right after Open. */
  lemma OrderIsBroken(block: CarData) returns (run: seq<Door>)
    requires Unpressed(block)
    ensures IsRun(run) && run[0] == Start(block) && !IsDoorPath(Last(run).past.written)
  {
    run := QuietPass([Start(block)]);
    run := QuietPass(run);
    ghost var w := Last(run).past.written;
    run := OtherStep(run, Last(run).block.(status := Some(Closing), openButton := 1));
    run := AlreadyShown(run);
    run := TurnedRound(run);
    run := NothingClosed(run);
    run := Published(run);
    assert !DoorEdge((w + [Opening])[|w| - 1], (w + [Opening])[|w| - 1 + 1]);
  }
}
