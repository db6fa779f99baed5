/** One car's queue of stops as a sequence: where a call goes, and what any run of calls and removals
    does to the stops already queued. */
module Stops {
  import opened Floors
  import opened SharedMemory

  datatype Direction = Upward | Downward | Idle

  datatype Stop = Stop(floor: int, direction: Direction)

  function RequestDirection(source: int, destination: int): Direction {
    if destination > source then Upward else Downward
  }

  /** The block direction the search holds at node i. */
  function BlockDirection(q: seq<Stop>, current: Direction, i: nat): Direction
    requires i < |q|
  {
    if i == 0 then current
    else if q[i - 1].direction != q[i].direction then q[i].direction
    else BlockDirection(q, current, i - 1)
  }

  /** The search stops at node i: its block goes the call's way and its floor is passed. */
  predicate Fits(q: seq<Stop>, current: Direction, stop: Stop, i: nat)
    requires i < |q|
  {
    && BlockDirection(q, current, i) == stop.direction
    && ((stop.direction == Upward && stop.floor >= q[i].floor)
        || (stop.direction == Downward && stop.floor <= q[i].floor))
  }

  /** The least index from `from` on that fits, or the length of the queue. */
  function FirstFit(q: seq<Stop>, current: Direction, stop: Stop, from: nat): (i: nat)
    requires from <= |q|
    ensures from <= i <= |q| && (i < |q| ==> Fits(q, current, stop, i))
    ensures forall j :: from <= j < i ==> !Fits(q, current, stop, j)
    decreases |q| - from
  {
    if from == |q| || Fits(q, current, stop, from) then from else FirstFit(q, current, stop, from + 1)
  }

  /** The car stands at the source with its doors not closing, and is going that way or nowhere. */
  predicate Boards(carFloor: int, carStatus: Option<Status>, current: Direction, stop: Stop) {
    carFloor == stop.floor && carStatus != Some(Closing) && (current == stop.direction || current == Idle)
  }

  /** The queue after a call that has to look for its place. */
  function AddedByBlock(q: seq<Stop>, current: Direction, s: Stop, d: Stop): seq<Stop> {
    var i := FirstFit(q, current, s, 0);
    if i < |q| then q[..i + 1] + [s] + q[i + 1..] else q + [s, d]
  }

  /** The queue after a call. */
  function Added(q: seq<Stop>, current: Direction, boards: bool, source: int, destination: int): seq<Stop> {
    var dir := RequestDirection(source, destination);
    var s, d := Stop(source, dir), Stop(destination, dir);
    if q == [] then [s, d]
    else if boards then [s] + q
    else AddedByBlock(q, current, s, d)
  }

  // ----- the block invariant -----

  predicate NoChangeUpTo(q: seq<Stop>, i: nat)
    requires i < |q|
  {
    forall j :: 0 <= j < i ==> q[j].direction == q[j + 1].direction
  }

  /** The loop's block direction is the car's own direction until the queue first changes direction, and
      from then on the direction of the node it is at. */
  lemma {:induction false} BlockDirectionMeaning(q: seq<Stop>, current: Direction, i: nat)
    requires i < |q|
    ensures BlockDirection(q, current, i) == if NoChangeUpTo(q, i) then current else q[i].direction
  {
    if i > 0 {
      BlockDirectionMeaning(q, current, i - 1);
      if q[i - 1].direction == q[i].direction {
        if !NoChangeUpTo(q, i) {
          assert !NoChangeUpTo(q, i - 1);
        }
      }
    }
  }

  // ----- a call is an insertion -----

  function BlockSlot(q: seq<Stop>, current: Direction, s: Stop): (p: nat)
    ensures p <= |q|
  {
    var i := FirstFit(q, current, s, 0);
    if i < |q| then i + 1 else |q|
  }

  /** Where the call's stops go. */
  function Slot(q: seq<Stop>, current: Direction, boards: bool, source: int, destination: int): (p: nat)
    ensures p <= |q|
  {
    if q == [] || boards then 0 else BlockSlot(q, current, Stop(source, RequestDirection(source, destination)))
  }

  /** Whether the destination is linked in as well. */
  predicate LinksDestination(q: seq<Stop>, current: Direction, boards: bool, source: int, destination: int) {
    q == [] || (!boards && FirstFit(q, current, Stop(source, RequestDirection(source, destination)), 0) == |q|)
  }

  function Linked(q: seq<Stop>, current: Direction, boards: bool, source: int, destination: int): seq<Stop> {
    var dir := RequestDirection(source, destination);
    [Stop(source, dir)]
    + if LinksDestination(q, current, boards, source, destination) then [Stop(destination, dir)] else []
  }

  lemma AddedIsInsertion(q: seq<Stop>, current: Direction, boards: bool, source: int, destination: int)
    ensures var p := Slot(q, current, boards, source, destination);
            Added(q, current, boards, source, destination)
            == q[..p] + Linked(q, current, boards, source, destination) + q[p..]
  {
  }

  /** Only a call that finds the queue empty, or finds no block to join, has its destination queued;
      every other caller is collected but their destination is lost. */
  lemma DestinationQueuedExactly(q: seq<Stop>, current: Direction, boards: bool, source: int, destination: int)
    ensures |Added(q, current, boards, source, destination)| == |q| + 2 <==>
            q == [] || (!boards && forall i :: 0 <= i < |q| ==>
                                      !Fits(q, current, Stop(source, RequestDirection(source, destination)), i))
  {
    var s := Stop(source, RequestDirection(source, destination));
    var i := FirstFit(q, current, s, 0);
    assert i < |q| ==> Fits(q, current, s, i);
  }

  // ----- reversals -----

  /** How often the car turns round while serving the queue in order. */
  function Reversals(q: seq<Stop>): nat {
    if |q| <= 1 then 0
    else (if q[0].direction != q[1].direction then 1 else 0) + Reversals(q[1..])
  }

  lemma {:induction false} ReversalsSplit(a: seq<Stop>, b: seq<Stop>)
    requires a != [] && b != []
    ensures Reversals(a + b) == Reversals(a) + Reversals(b) + (if a[|a| - 1].direction != b[0].direction then 1 else 0)
  {
    if |a| == 1 {
      assert (a + b)[1..] == b;
    } else {
      assert (a + b)[1..] == a[1..] + b;
      ReversalsSplit(a[1..], b);
    }
  }

  /** Slipping a stop in after one of its own direction costs no turn. */
  lemma InsertionBesideKin(q: seq<Stop>, p: nat, s: Stop)
    requires 0 < p <= |q| && q[p - 1].direction == s.direction
    ensures Reversals(q[..p] + [s] + q[p..]) == Reversals(q)
  {
    var a, b := q[..p], q[p..];
    ReversalsSplit(a, [s]);
    if b == [] {
      assert a == q && a + [s] + b == q + [s];
    } else {
      ReversalsSplit(a + [s], b);
      ReversalsSplit(a, b);
      assert a + b == q && (a + [s])[|a|] == s && a[|a| - 1] == q[p - 1];
    }
  }

  /** A call joined to a block never adds a turn, and any other call adds at most one, provided the car
      is idle or heading the way of its first stop. */
  lemma ReversalBound(q: seq<Stop>, current: Direction, boards: bool, source: int, destination: int)
    requires q == [] || current == Idle || current == q[0].direction
    ensures var r := Reversals(Added(q, current, boards, source, destination));
            && Reversals(q) <= r <= Reversals(q) + 1
            && (q != [] && !boards && !LinksDestination(q, current, boards, source, destination) ==> r == Reversals(q))
  {
    var dir := RequestDirection(source, destination);
    var s, d := Stop(source, dir), Stop(destination, dir);
    if q == [] {
      assert Reversals([s, d]) == 0;
    } else if boards {
      ReversalsSplit([s], q);
    } else {
      var i := FirstFit(q, current, s, 0);
      if i < |q| {
        BlockDirectionMeaning(q, current, i);
        SameDirectionFromHead(q, i);
        InsertionBesideKin(q, i + 1, s);
      } else {
        ReversalsSplit(q, [s, d]);
        assert Reversals([s, d]) == 0;
      }
    }
  }

  lemma {:induction false} SameDirectionFromHead(q: seq<Stop>, i: nat)
    requires i < |q|
    ensures NoChangeUpTo(q, i) ==> q[i].direction == q[0].direction
  {
    if i > 0 && NoChangeUpTo(q, i) {
      assert q[i - 1].direction == q[i - 1 + 1].direction;
      SameDirectionFromHead(q, i - 1);
    }
  }

  /** Without that proviso a joined call can add two turns.  (The controller never gets there: its cars are
      always idle.) */
  lemma ReversalBoundNeedsDirection()
    ensures Reversals(Added([Stop(1, Downward), Stop(9, Downward)], Upward, false, 5, 6))
         == Reversals([Stop(1, Downward), Stop(9, Downward)]) + 2
  {
    var q := [Stop(1, Downward), Stop(9, Downward)];
    assert Fits(q, Upward, Stop(5, Upward), 0);
    assert Added(q, Upward, false, 5, 6) == [Stop(1, Downward), Stop(5, Upward), Stop(9, Downward)];
    assert Reversals([Stop(9, Downward)]) == 0;
    assert [Stop(5, Upward), Stop(9, Downward)][1..] == [Stop(9, Downward)];
    assert [Stop(1, Downward), Stop(5, Upward), Stop(9, Downward)][1..] == [Stop(5, Upward), Stop(9, Downward)];
  }

  // ----- when a block stays sorted -----

  /** Of two neighbours with one direction, the first is served on the way to the second. */
  predicate InOrder(a: Stop, b: Stop) {
    a.direction == b.direction ==>
      (a.direction == Upward ==> a.floor <= b.floor) && (a.direction == Downward ==> a.floor >= b.floor)
  }

  predicate Sorted(q: seq<Stop>) {
    forall i :: 0 <= i < |q| - 1 ==> InOrder(q[i], q[i + 1])
  }

  lemma SortedJoins(a: seq<Stop>, b: seq<Stop>)
    ensures Sorted(a + b) <==> Sorted(a) && Sorted(b) && (a != [] && b != [] ==> InOrder(a[|a| - 1], b[0]))
  {
    var q := a + b;
    if Sorted(q) {
      forall i | 0 <= i < |a| - 1 ensures InOrder(a[i], a[i + 1]) { assert InOrder(q[i], q[i + 1]); }
      forall i | 0 <= i < |b| - 1 ensures InOrder(b[i], b[i + 1]) { assert InOrder(q[|a| + i], q[|a| + i + 1]); }
      if a != [] && b != [] { assert InOrder(q[|a| - 1], q[|a| - 1 + 1]); }
    } else {
      var i :| 0 <= i < |q| - 1 && !InOrder(q[i], q[i + 1]);
      if i < |a| - 1 {
        assert !InOrder(a[i], a[i + 1]);
      } else if i >= |a| {
        assert !InOrder(b[i - |a|], b[i - |a| + 1]);
      }
    }
  }

  /** A call to an idle car keeps a sorted queue sorted exactly if: boarding, its source does not lie past
      the old head; joining a block, its source does not lie past the stop it is put before; appended, it
      does not start behind the old last stop. */
  lemma SortednessKeptExactly(q: seq<Stop>, boards: bool, source: int, destination: int)
    requires Sorted(q)
    ensures var s := Stop(source, RequestDirection(source, destination));
            var i := FirstFit(q, Idle, s, 0);
            Sorted(Added(q, Idle, boards, source, destination)) <==>
              if q == [] then true
              else if boards then InOrder(s, q[0])
              else if i < |q| then i + 1 == |q| || InOrder(s, q[i + 1])
              else InOrder(q[|q| - 1], s)
  {
    var dir := RequestDirection(source, destination);
    var s, d := Stop(source, dir), Stop(destination, dir);
    var i := FirstFit(q, Idle, s, 0);
    var r := Added(q, Idle, boards, source, destination);
    PairIsSorted(source, destination);
    if q == [] {
      assert r == [s, d];
    } else if boards {
      assert r == [s] + q;
      SortedJoins([s], q);
    } else if i < |q| {
      assert r == q[..i + 1] + [s] + q[i + 1..];
      JoinedIsSortedExactly(q, s, i);
    } else {
      assert r == q + [s, d];
      SortedJoins(q, [s, d]);
    }
  }

  /** A call's own two stops are in order. */
  lemma PairIsSorted(source: int, destination: int)
    ensures var dir := RequestDirection(source, destination);
            && Sorted([Stop(source, dir)])
            && Sorted([Stop(source, dir), Stop(destination, dir)])
  {
  }

  lemma JoinedIsSortedExactly(q: seq<Stop>, s: Stop, i: nat)
    requires Sorted(q) && i < |q| && Fits(q, Idle, s, i) && s.direction != Idle
    ensures Sorted(q[..i + 1] + [s] + q[i + 1..]) <==> i + 1 == |q| || InOrder(s, q[i + 1])
  {
    BlockDirectionMeaning(q, Idle, i);
    assert q[..i + 1] + q[i + 1..] == q;
    SortedJoins(q[..i + 1], q[i + 1..]);
    assert Sorted([s]);
    SortedJoins(q[..i + 1], [s]);
    SortedJoins(q[..i + 1] + [s], q[i + 1..]);
  }

  /** For instance, a joined call lands behind the first stop it has passed, not the last. */
  lemma BlocksNeedNotStaySorted()
    ensures Sorted([Stop(9, Downward), Stop(2, Upward), Stop(5, Upward)])
    ensures Added([Stop(9, Downward), Stop(2, Upward), Stop(5, Upward)], Idle, false, 7, 8)
         == [Stop(9, Downward), Stop(2, Upward), Stop(7, Upward), Stop(5, Upward)]
    ensures !Sorted([Stop(9, Downward), Stop(2, Upward), Stop(7, Upward), Stop(5, Upward)])
  {
    var q := [Stop(9, Downward), Stop(2, Upward), Stop(5, Upward)];
    assert !Fits(q, Idle, Stop(7, Upward), 0) && Fits(q, Idle, Stop(7, Upward), 1);
    var r := [Stop(9, Downward), Stop(2, Upward), Stop(7, Upward), Stop(5, Upward)];
    assert !InOrder(r[2], r[2 + 1]);
  }

  // ----- calls wait for the turn -----

  /** An idle car is never given a stop on its way: a call is put behind the whole leading run, and behind
      at least one stop after the first turn if there is one, exactly unless it boards. */
  lemma CallsWaitForTheTurnExactly(q: seq<Stop>, boards: bool, source: int, destination: int, k: nat)
    requires k < |q| && NoChangeUpTo(q, k)
    requires k + 1 < |q| ==> q[k].direction != q[k + 1].direction
    ensures var p := Slot(q, Idle, boards, source, destination);
            if boards then p == 0 else if k + 1 < |q| then p > k + 1 else p == |q|
  {
    if !boards {
      var s := Stop(source, RequestDirection(source, destination));
      var i := FirstFit(q, Idle, s, 0);
      if i < |q| {
        BlockDirectionMeaning(q, Idle, i);
        assert !NoChangeUpTo(q, i);
      }
    }
  }

  /** For instance, the third call of the controller's routing test: the test expects 8 before the car
      turns round for 7 and 4. */
  lemma TurnaroundIsNotExtended()
    ensures Added([Stop(6, Upward), Stop(7, Downward), Stop(4, Downward)], Idle, false, 8, 4)
         == [Stop(6, Upward), Stop(7, Downward), Stop(4, Downward), Stop(8, Downward), Stop(4, Downward)]
  {
    var q := [Stop(6, Upward), Stop(7, Downward), Stop(4, Downward)];
    var s := Stop(8, Downward);
    assert !Fits(q, Idle, s, 0) && !Fits(q, Idle, s, 1) && !Fits(q, Idle, s, 2);
  }

  // ----- every run of calls and removals -----

  /** A call finds the car at some floor and status; a removal takes the head. */
  datatype QueueOp =
    | Call(source: int, destination: int, carFloor: int, carStatus: Option<Status>)
    | Remove

  predicate OpBoards(current: Direction, op: QueueOp) {
    op.Call?
    && Boards(op.carFloor, op.carStatus, current, Stop(op.source, RequestDirection(op.source, op.destination)))
  }

  function After(q: seq<Stop>, current: Direction, op: QueueOp): seq<Stop> {
    match op
    case Call(source, destination, _, _) => Added(q, current, OpBoards(current, op), source, destination)
    case Remove => if q == [] then q else q[1..]
  }

  function AfterAll(q: seq<Stop>, current: Direction, ops: seq<QueueOp>): seq<Stop>
    decreases |ops|
  {
    if ops == [] then q else AfterAll(After(q, current, ops[0]), current, ops[1..])
  }

  function Flattened(ops: seq<seq<QueueOp>>): seq<QueueOp> {
    if ops == [] then [] else Flattened(ops[..|ops| - 1]) + ops[|ops| - 1]
  }

  lemma {:induction false} AfterAllSplits(q: seq<Stop>, dir: Direction, a: seq<QueueOp>, b: seq<QueueOp>)
    ensures AfterAll(q, dir, a + b) == AfterAll(AfterAll(q, dir, a), dir, b)
    decreases |a|
  {
    if a == [] {
      assert a + b == b;
    } else {
      assert (a + b)[1..] == a[1..] + b;
      AfterAllSplits(After(q, dir, a[0]), dir, a[1..], b);
    }
  }

  /** Where the stop at index k of the queue is after an operation; None once it has been removed. */
  function Follow(q: seq<Stop>, current: Direction, op: QueueOp, k: nat): Option<nat> {
    match op
    case Call(source, destination, _, _) =>
      var b := OpBoards(current, op);
      if k < Slot(q, current, b, source, destination) then Some(k)
      else Some(k + |Linked(q, current, b, source, destination)|)
    case Remove => if k == 0 then None else Some(k - 1)
  }

  function FollowAll(q: seq<Stop>, current: Direction, ops: seq<QueueOp>, k: nat): Option<nat>
    decreases |ops|
  {
    if ops == [] then Some(k)
    else
      var next := Follow(q, current, ops[0], k);
      if next.None? then None else FollowAll(After(q, current, ops[0]), current, ops[1..], next.value)
  }

  lemma FollowStep(q: seq<Stop>, current: Direction, op: QueueOp, k: nat)
    requires k < |q|
    ensures var m := Follow(q, current, op, k);
            m.Some? ==> m.value < |After(q, current, op)| && After(q, current, op)[m.value] == q[k]
  {
    if op.Call? {
      AddedIsInsertion(q, current, OpBoards(current, op), op.source, op.destination);
    }
  }

  /** Through any run of calls and removals a queued stop keeps its floor and direction until it is
      removed, and two queued stops keep their order: the one behind is never served first. */
  lemma {:induction false} StopsKeepTheirOrder(q: seq<Stop>, current: Direction, ops: seq<QueueOp>, j: nat, k: nat)
    requires j < k < |q|
    ensures var final, a, b := AfterAll(q, current, ops), FollowAll(q, current, ops, j), FollowAll(q, current, ops, k);
            && (a.Some? ==> a.value < |final| && final[a.value] == q[j])
            && (b.Some? ==> b.value < |final| && final[b.value] == q[k])
            && (a.Some? ==> b.Some? && a.value < b.value)
    decreases |ops|
  {
    if ops != [] {
      FollowStep(q, current, ops[0], j);
      FollowStep(q, current, ops[0], k);
      var a, b := Follow(q, current, ops[0], j), Follow(q, current, ops[0], k);
      assert b.Some?;
      if a.Some? {
        StopsKeepTheirOrder(After(q, current, ops[0]), current, ops[1..], a.value, b.value);
      } else {
        StopIsFollowed(After(q, current, ops[0]), current, ops[1..], b.value);
      }
    }
  }

  lemma {:induction false} StopIsFollowed(q: seq<Stop>, current: Direction, ops: seq<QueueOp>, k: nat)
    requires k < |q|
    ensures var final, b := AfterAll(q, current, ops), FollowAll(q, current, ops, k);
            b.Some? ==> b.value < |final| && final[b.value] == q[k]
    decreases |ops|
  {
    if ops != [] {
      FollowStep(q, current, ops[0], k);
      var b := Follow(q, current, ops[0], k);
      if b.Some? { StopIsFollowed(After(q, current, ops[0]), current, ops[1..], b.value); }
    }
  }

  /** What one operation links in and takes out. */
  function LinkedBy(q: seq<Stop>, current: Direction, op: QueueOp): seq<Stop> {
    if op.Call? then Linked(q, current, OpBoards(current, op), op.source, op.destination) else []
  }

  function TakenBy(q: seq<Stop>, op: QueueOp): seq<Stop> {
    if op.Remove? && q != [] then [q[0]] else []
  }

  function LinkedIn(q: seq<Stop>, current: Direction, ops: seq<QueueOp>): seq<Stop>
    decreases |ops|
  {
    if ops == [] then [] else LinkedBy(q, current, ops[0]) + LinkedIn(After(q, current, ops[0]), current, ops[1..])
  }

  function TakenOut(q: seq<Stop>, current: Direction, ops: seq<QueueOp>): seq<Stop>
    decreases |ops|
  {
    if ops == [] then [] else TakenBy(q, ops[0]) + TakenOut(After(q, current, ops[0]), current, ops[1..])
  }

  lemma OperationConserves(q: seq<Stop>, current: Direction, op: QueueOp)
    ensures multiset(TakenBy(q, op)) + multiset(After(q, current, op))
            == multiset(q) + multiset(LinkedBy(q, current, op))
  {
    if op.Call? {
      var b := OpBoards(current, op);
      var p, ins := Slot(q, current, b, op.source, op.destination), Linked(q, current, b, op.source, op.destination);
      AddedIsInsertion(q, current, b, op.source, op.destination);
      assert q == q[..p] + q[p..];
    } else if q != [] {
      assert q == [q[0]] + q[1..];
    }
  }

  lemma LedgersAdd(taken: seq<Stop>, takenLater: seq<Stop>, q: seq<Stop>, next: seq<Stop>, final: seq<Stop>,
                   linked: seq<Stop>, linkedLater: seq<Stop>)
    requires multiset(taken) + multiset(next) == multiset(q) + multiset(linked)
    requires multiset(takenLater) + multiset(final) == multiset(next) + multiset(linkedLater)
    ensures multiset(taken + takenLater) + multiset(final) == multiset(q) + multiset(linked + linkedLater)
  {
    var l, r := multiset(taken + takenLater) + multiset(final), multiset(q) + multiset(linked + linkedLater);
    forall x: Stop ensures l[x] == r[x] {
      assert (multiset(taken) + multiset(next))[x] == (multiset(q) + multiset(linked))[x];
      assert (multiset(takenLater) + multiset(final))[x] == (multiset(next) + multiset(linkedLater))[x];
    }
  }

  /** Nothing is lost and nothing is made up: over any run, the stops removed and the stops still queued
      are the stops there were and the stops linked in. */
  lemma {:induction false} StopsAreConserved(q: seq<Stop>, current: Direction, ops: seq<QueueOp>)
    ensures multiset(TakenOut(q, current, ops)) + multiset(AfterAll(q, current, ops))
         == multiset(q) + multiset(LinkedIn(q, current, ops))
    decreases |ops|
  {
    if ops != [] {
      var next := After(q, current, ops[0]);
      OperationConserves(q, current, ops[0]);
      StopsAreConserved(next, current, ops[1..]);
      LedgersAdd(TakenBy(q, ops[0]), TakenOut(next, current, ops[1..]), q, next, AfterAll(next, current, ops[1..]),
                 LinkedBy(q, current, ops[0]), LinkedIn(next, current, ops[1..]));
    }
  }

  /** Index k lies in the leading run of stops with one direction. */
  predicate InLeadingRun(q: seq<Stop>, k: nat) {
    k < |q| && NoChangeUpTo(q, k)
  }

  function Removals(ops: seq<QueueOp>): nat {
    if ops == [] then 0 else (if ops[0].Remove? then 1 else 0) + Removals(ops[1..])
  }

  lemma IdleCallLeavesLeadingRun(q: seq<Stop>, op: QueueOp, k: nat)
    requires InLeadingRun(q, k) && op.Call? && !OpBoards(Idle, op)
    ensures Follow(q, Idle, op, k) == Some(k) && InLeadingRun(After(q, Idle, op), k)
  {
    var p := Slot(q, Idle, false, op.source, op.destination);
    var s := Stop(op.source, RequestDirection(op.source, op.destination));
    var i := FirstFit(q, Idle, s, 0);
    if i < |q| {
      BlockDirectionMeaning(q, Idle, i);
      assert !NoChangeUpTo(q, i);
    }
    AddedIsInsertion(q, Idle, false, op.source, op.destination);
    assert forall j :: 0 <= j <= k ==> After(q, Idle, op)[j] == q[j];
  }

  lemma RemovalShortensLeadingRun(q: seq<Stop>, k: nat)
    requires InLeadingRun(q, k) && k > 0
    ensures InLeadingRun(q[1..], k - 1)
  {
    forall j | 0 <= j < k - 1 ensures q[1..][j].direction == q[1..][j + 1].direction {
      assert q[j + 1].direction == q[j + 1 + 1].direction;
    }
  }

  /** First come, first served within the leading run: for an idle car that boards nobody, the stop at
      index k of the run is removed by exactly the (k+1)-th removal, whatever calls arrive meanwhile. */
  lemma {:induction false} LeadingRunIsFifo(q: seq<Stop>, ops: seq<QueueOp>, k: nat)
    requires InLeadingRun(q, k)
    requires forall i :: 0 <= i < |ops| ==> !OpBoards(Idle, ops[i])
    ensures FollowAll(q, Idle, ops, k) == if Removals(ops) > k then None else Some(k - Removals(ops))
    decreases |ops|
  {
    if ops != [] {
      var next := After(q, Idle, ops[0]);
      if ops[0].Call? {
        IdleCallLeavesLeadingRun(q, ops[0], k);
        LeadingRunIsFifo(next, ops[1..], k);
      } else if k > 0 {
        RemovalShortensLeadingRun(q, k);
        LeadingRunIsFifo(next, ops[1..], k - 1);
      }
    }
  }

  /** So it stands exactly that much nearer the head, with its floor and direction. */
  lemma LeadingStopAdvances(q: seq<Stop>, ops: seq<QueueOp>, k: nat)
    requires InLeadingRun(q, k)
    requires forall i :: 0 <= i < |ops| ==> !OpBoards(Idle, ops[i])
    ensures var final, ahead := AfterAll(q, Idle, ops), k - Removals(ops);
            ahead >= 0 ==> ahead < |final| && final[ahead] == q[k]
  {
    LeadingRunIsFifo(q, ops, k);
    StopIsFollowed(q, Idle, ops, k);
  }

  predicate AllWithin(q: seq<Stop>, lowest: int, highest: int) {
    forall i :: 0 <= i < |q| ==> lowest <= q[i].floor <= highest
  }

  lemma AddedWithin(q: seq<Stop>, current: Direction, boards: bool, source: int, destination: int, lowest: int,
                    highest: int)
    requires AllWithin(q, lowest, highest) && lowest <= source <= highest && lowest <= destination <= highest
    ensures AllWithin(Added(q, current, boards, source, destination), lowest, highest)
  {
  }

  // ----- what becomes of the head -----

  lemma {:induction false} FollowAllSplits(q: seq<Stop>, current: Direction, a: seq<QueueOp>, b: seq<QueueOp>, k: nat)
    ensures var m := FollowAll(q, current, a, k);
            FollowAll(q, current, a + b, k)
            == if m.None? then None else FollowAll(AfterAll(q, current, a), current, b, m.value)
    decreases |a|
  {
    if a == [] {
      assert a + b == b;
    } else {
      assert (a + b)[1..] == a[1..] + b;
      var next := Follow(q, current, a[0], k);
      if next.Some? { FollowAllSplits(After(q, current, a[0]), current, a[1..], b, next.value); }
    }
  }

  /** A call never brings a stop nearer the head; it displaces the head exactly if it boards. */
  lemma CallMovesNothingUp(q: seq<Stop>, op: QueueOp, k: nat)
    requires k < |q| && op.Call?
    ensures var m := Follow(q, Idle, op, k);
            && m.Some? && m.value >= k
            && (m.value == 0 <==> k == 0 && !OpBoards(Idle, op))
  {
    if k == 0 && !OpBoards(Idle, op) {
      IdleCallLeavesLeadingRun(q, op, 0);
    }
  }

  lemma {:induction false} CallsMoveNothingUp(q: seq<Stop>, ops: seq<QueueOp>, k: nat)
    requires k < |q| && Removals(ops) == 0
    ensures var m := FollowAll(q, Idle, ops, k); m.Some? && m.value >= k
    decreases |ops|
  {
    if ops != [] {
      CallMovesNothingUp(q, ops[0], k);
      FollowStep(q, Idle, ops[0], k);
      CallsMoveNothingUp(After(q, Idle, ops[0]), ops[1..], Follow(q, Idle, ops[0], k).value);
    }
  }

  function SourceStop(op: QueueOp): Stop
    requires op.Call?
  {
    Stop(op.source, RequestDirection(op.source, op.destination))
  }

  /** The head after some calls: the last to board, if any did. */
  function HeadAfter(head: Stop, ops: seq<QueueOp>): Stop
    decreases |ops|
  {
    if ops == [] then head
    else
      HeadAfter(if OpBoards(Idle, ops[0]) then SourceStop(ops[0]) else head, ops[1..])
  }

  predicate NoneBoards(ops: seq<QueueOp>) {
    forall i :: 0 <= i < |ops| ==> !OpBoards(Idle, ops[i])
  }

  lemma NoneBoardsFrom(ops: seq<QueueOp>)
    requires ops != []
    ensures NoneBoards(ops) <==> !OpBoards(Idle, ops[0]) && NoneBoards(ops[1..])
  {
    if NoneBoards(ops[1..]) {
      forall i | 0 < i < |ops| ensures !OpBoards(Idle, ops[i]) { assert ops[1..][i - 1] == ops[i]; }
    }
  }

  /** While nothing is removed, the head of an idle car's queue stays the head exactly if no call boards;
      otherwise the last call that boards is the head. */
  lemma {:induction false} HeadStaysExactly(q: seq<Stop>, ops: seq<QueueOp>)
    requires q != [] && Removals(ops) == 0
    ensures FollowAll(q, Idle, ops, 0) == Some(0) <==> NoneBoards(ops)
    ensures var final := AfterAll(q, Idle, ops); final != [] && final[0] == HeadAfter(q[0], ops)
    decreases |ops|
  {
    if ops != [] {
      var next := After(q, Idle, ops[0]);
      CallMovesNothingUp(q, ops[0], 0);
      FollowStep(q, Idle, ops[0], 0);
      NoneBoardsFrom(ops);
      HeadStaysExactly(next, ops[1..]);
      if OpBoards(Idle, ops[0]) {
        CallsMoveNothingUp(next, ops[1..], Follow(q, Idle, ops[0], 0).value);
      }
    }
  }

  /** Operations on a queue that bring a stop (other than at B1) to the head, or leave it there, exactly if
      it is there already and they hide it not. */
  ghost predicate RespectsHead(q: seq<Stop>, ops: seq<QueueOp>, hidden: bool) {
    forall j :: 0 <= j < |q| && q[j].floor != -1 ==> (FollowAll(q, Idle, ops, j) == Some(0) <==> j == 0 && !hidden)
  }

  lemma RespectedOneMore(q: seq<Stop>, earlier: seq<QueueOp>, ops: seq<QueueOp>, hidden: bool)
    requires q != [] && q[0].floor != -1 && RespectsHead(AfterAll(q, Idle, earlier), ops, hidden)
    ensures FollowAll(q, Idle, earlier + ops, 0) == Some(0) <==> FollowAll(q, Idle, earlier, 0) == Some(0) && !hidden
  {
    StopIsFollowed(q, Idle, earlier, 0);
    FollowAllSplits(q, Idle, earlier, ops, 0);
  }

  predicate NoneHidden(hidden: seq<bool>)
  {
    forall m :: 0 <= m < |hidden| ==> !hidden[m]
  }

  lemma NoneHiddenBut(hidden: seq<bool>)
    requires hidden != []
    ensures var n := |hidden| - 1; NoneHidden(hidden) <==> NoneHidden(hidden[..n]) && !hidden[n]
  {
    var n := |hidden| - 1;
    if NoneHidden(hidden[..n]) && !hidden[n] {
      forall m | 0 <= m < |hidden| ensures !hidden[m] { if m < n { assert !hidden[..n][m]; } }
    }
  }

  /** Batch number m respects the head of what the batches before it leave. */
  ghost predicate RespectsAt(q: seq<Stop>, ops: seq<seq<QueueOp>>, hidden: seq<bool>, m: nat)
    requires m < |ops| && m < |hidden|
  {
    RespectsHead(AfterAll(q, Idle, Flattened(ops[..m])), ops[m], hidden[m])
  }

  /** Through batches of such operations the head stays the head exactly if none of them hides it. */
  lemma {:induction false} HeadThrough(q: seq<Stop>, ops: seq<seq<QueueOp>>, hidden: seq<bool>)
    requires |hidden| == |ops| && q != [] && q[0].floor != -1
    requires forall m :: 0 <= m < |ops| ==> RespectsAt(q, ops, hidden, m)
    ensures FollowAll(q, Idle, Flattened(ops), 0) == Some(0) <==> NoneHidden(hidden)
    decreases |ops|
  {
    if ops != [] {
      var n := |ops| - 1;
      forall m | 0 <= m < n ensures RespectsAt(q, ops[..n], hidden[..n], m) {
        assert RespectsAt(q, ops, hidden, m) && ops[..n][..m] == ops[..m];
      }
      HeadThrough(q, ops[..n], hidden[..n]);
      NoneHiddenBut(hidden);
      assert RespectsAt(q, ops, hidden, n);
      RespectedOneMore(q, Flattened(ops[..n]), ops[n], hidden[n]);
    }
  }

  // ----- where a call goes, in the plainest terms -----

  /** The queue changes direction somewhere before its stop number i. */
  predicate TurnsBefore(q: seq<Stop>, i: nat)
    requires i < |q|
  {
    exists j :: 0 <= j < i && q[j].direction != q[j + 1].direction
  }

  /** A caller on `source` can be slipped in right behind stop number i: that stop is served on the call's
      way, and the car passes the source after it or at it. */
  predicate TakesBehind(q: seq<Stop>, current: Direction, source: int, destination: int, i: nat)
    requires i < |q|
  {
    if source < destination then
      (if TurnsBefore(q, i) then q[i].direction == Upward else current == Upward) && q[i].floor <= source
    else
      (if TurnsBefore(q, i) then q[i].direction == Downward else current == Downward) && source <= q[i].floor
  }

  lemma FitsExactly(q: seq<Stop>, current: Direction, source: int, destination: int, i: nat)
    requires i < |q|
    ensures Fits(q, current, Stop(source, RequestDirection(source, destination)), i)
       <==> TakesBehind(q, current, source, destination, i)
  {
    BlockDirectionMeaning(q, current, i);
  }

  /** The calls that find no place to join, with both their stops at the end; and those that do, right
      behind the first stop that takes them, with their destination left out. */
  lemma CallJoinsExactly(q: seq<Stop>, current: Direction, source: int, destination: int, i: nat)
    requires q != [] && i <= |q|
    requires forall j :: 0 <= j < i ==> !TakesBehind(q, current, source, destination, j)
    requires i < |q| ==> TakesBehind(q, current, source, destination, i)
    ensures var way := if source < destination then Upward else Downward;
            Added(q, current, false, source, destination)
            == if i < |q| then q[..i + 1] + [Stop(source, way)] + q[i + 1..]
               else q + [Stop(source, way), Stop(destination, way)]
  {
    var s := Stop(source, RequestDirection(source, destination));
    forall j | 0 <= j < |q| ensures Fits(q, current, s, j) <==> TakesBehind(q, current, source, destination, j) {
      FitsExactly(q, current, source, destination, j);
    }
    assert FirstFit(q, current, s, 0) == i;
  }

  /** For an idle car the stops before the first turn take nobody. */
  lemma IdleCallJoinsExactly(q: seq<Stop>, source: int, destination: int, i: nat)
    requires i < |q|
    ensures TakesBehind(q, Idle, source, destination, i) <==>
            && (exists j :: 0 <= j < i && q[j].direction != q[j + 1].direction)
            && (if source < destination then q[i].direction == Upward && q[i].floor <= source
                else q[i].direction == Downward && source <= q[i].floor)
  {
  }

  /** Which calls board, and that they go to the head of a queue that is not empty; an empty queue takes
      both stops of any call. */
  lemma CallBoardsExactly(q: seq<Stop>, current: Direction, op: QueueOp)
    requires op.Call?
    ensures var way := if op.source < op.destination then Upward else Downward;
            && (OpBoards(current, op) <==>
                  op.carFloor == op.source && op.carStatus != Some(Closing) && (current == way || current == Idle))
            && (q == [] ==> After(q, current, op) == [Stop(op.source, way), Stop(op.destination, way)])
            && (q != [] && OpBoards(current, op) ==> After(q, current, op) == [Stop(op.source, way)] + q)
            && (!OpBoards(current, op) ==>
                  After(q, current, op) == Added(q, current, false, op.source, op.destination))
  {
  }

  /** For instance: with 3 to be served on the way down from 9, a call from 5 down to 1 is slipped in
      behind 9, one from 9 itself too, and so is one from 5 up to 8 behind 5 on the way up. */
  lemma CallsThatJoin()
    ensures var q := [Stop(2, Upward), Stop(9, Downward), Stop(3, Downward)];
            && Added(q, Idle, false, 5, 1) == [Stop(2, Upward), Stop(9, Downward), Stop(5, Downward), Stop(3, Downward)]
            && Added(q, Idle, false, 9, 1) == [Stop(2, Upward), Stop(9, Downward), Stop(9, Downward), Stop(3, Downward)]
    ensures Added([Stop(9, Downward), Stop(5, Upward)], Idle, false, 5, 8)
         == [Stop(9, Downward), Stop(5, Upward), Stop(5, Upward)]
  {
    var q, p := [Stop(2, Upward), Stop(9, Downward), Stop(3, Downward)], [Stop(9, Downward), Stop(5, Upward)];
    assert q[0].direction != q[0 + 1].direction && p[0].direction != p[0 + 1].direction;
    assert !TurnsBefore(q, 0) && !TurnsBefore(p, 0);
    CallJoinsExactly(q, Idle, 5, 1, 1);
    CallJoinsExactly(q, Idle, 9, 1, 1);
    CallJoinsExactly(p, Idle, 5, 8, 1);
  }
}
