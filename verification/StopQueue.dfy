/** One car's queue as the controller keeps it: a singly linked list edited in place. */
module StopQueue {
  import opened Floors
  import opened SharedMemory
  import opened Stops

  class QueueNode {
    var floor: int
    var direction: Direction
    var next: QueueNode?

    constructor (floor: int, direction: Direction)
      ensures this.floor == floor && this.direction == direction && next == null
    {
      this.floor, this.direction, next := floor, direction, null;
    }
  }

  class CarQueue {
    var queueHead: QueueNode?
    var currentDirection: Direction
    var elevatorStatus: Option<Status>
    var currentFloor: string
    ghost var nodes: seq<QueueNode>  // the list from the head on
    ghost var stops: seq<Stop>       // what the nodes hold

    ghost predicate Valid()
      reads this, nodes
    {
      && |stops| == |nodes|
      && Distinct(nodes)
      && queueHead == NodeAt(nodes, 0)
      && (forall i :: 0 <= i < |nodes| ==> Holds(nodes, i, stops[i]))
    }

    /** queue_init */
    constructor (status: string, floor: string)
      ensures Valid() && stops == [] && currentDirection == Idle
      ensures elevatorStatus == StatusOf(status) && currentFloor == floor
    {
      queueHead := null;
      currentDirection := Idle;
      currentFloor := floor;
      nodes, stops := [], [];
      elevatorStatus := StatusOf(status);
    }

    /** The search loop: the first node whose block the stop may join, or null past the end. */
    method FindPlace(s: Stop) returns (current: QueueNode?, prev: QueueNode?)
      requires Valid()
      ensures current == NodeAt(nodes, FirstFit(stops, currentDirection, s, 0))
      ensures current == null && nodes != [] ==> prev == nodes[|nodes| - 1]
    {
      current, prev := queueHead, null;
      var blockDirection := currentDirection;
      ghost var i := 0;
      while current != null
        invariant 0 <= i <= |nodes| && current == NodeAt(nodes, i)
        invariant i < |nodes| ==> blockDirection == BlockDirection(stops, currentDirection, i)
        invariant FirstFit(stops, currentDirection, s, 0) == FirstFit(stops, currentDirection, s, i)
        invariant i > 0 ==> prev == nodes[i - 1]
        decreases |nodes| - i
      {
        assert Holds(nodes, i, stops[i]);
        assert i + 1 < |nodes| ==> Holds(nodes, i + 1, stops[i + 1]);
        if blockDirection == s.direction {
          if (s.direction == Upward && s.floor >= current.floor)
              || (s.direction == Downward && s.floor <= current.floor) {
            return;
          }
        }
        if current.next != null && current.direction != current.next.direction {
          blockDirection := current.next.direction;
        }
        prev := current;
        current := current.next;
        i := i + 1;
      }
    }

    /** Relinks node i to a new node holding s. */
    method LinkAfter(current: QueueNode, node: QueueNode, ghost s: Stop, ghost i: nat)
      requires Valid() && i < |nodes| && nodes[i] == current
      requires node !in nodes && node.floor == s.floor && node.direction == s.direction && node.next == current.next
      modifies this`nodes, this`stops, current`next
      ensures Valid()
      ensures nodes == old(nodes)[..i + 1] + [node] + old(nodes)[i + 1..]
      ensures stops == old(stops)[..i + 1] + [s] + old(stops)[i + 1..]
    {
      assert Holds(nodes, i, stops[i]);
      current.next := node;
      ghost var nodes', stops' := nodes[..i + 1] + [node] + nodes[i + 1..], stops[..i + 1] + [s] + stops[i + 1..];
      InsertionStaysDistinct(nodes, i + 1, node);
      forall k | 0 <= k < |nodes'| ensures Holds(nodes', k, stops'[k]) {
        if k < i { assert old(Holds(nodes, k, stops[k])); }
        if k > i + 1 { assert old(Holds(nodes, k - 1, stops[k - 1])); }
      }
      nodes, stops := nodes', stops';
    }

    /** Makes two new nodes the whole list. */
    method LinkOnly(sourceNode: QueueNode, destNode: QueueNode, ghost s: Stop, ghost d: Stop)
      requires sourceNode != destNode
      requires sourceNode.floor == s.floor && sourceNode.direction == s.direction
      requires destNode.floor == d.floor && destNode.direction == d.direction
      modifies this`nodes, this`stops, this`queueHead, sourceNode`next, destNode`next
      ensures Valid() && nodes == [sourceNode, destNode] && stops == [s, d]
    {
      sourceNode.next := destNode;
      destNode.next := null;
      queueHead := sourceNode;
      nodes, stops := [sourceNode, destNode], [s, d];
    }

    /** Puts a new node before the head. */
    method LinkFirst(node: QueueNode, ghost s: Stop)
      requires Valid()
      requires node !in nodes && node.floor == s.floor && node.direction == s.direction && node.next == queueHead
      modifies this`nodes, this`stops, this`queueHead
      ensures Valid() && nodes == [node] + old(nodes) && stops == [s] + old(stops)
    {
      queueHead := node;
      nodes, stops := [node] + nodes, [s] + stops;
      forall k | 0 <= k < |nodes| ensures Holds(nodes, k, stops[k]) {
        if k > 0 { assert old(Holds(nodes, k - 1, stops[k - 1])); }
      }
    }

    /** Puts two new nodes behind the last one. */
    method LinkLast(prev: QueueNode?, sourceNode: QueueNode, destNode: QueueNode, ghost s: Stop, ghost d: Stop)
      requires Valid() && nodes != [] && prev == nodes[|nodes| - 1]
      requires sourceNode !in nodes && destNode !in nodes && sourceNode != destNode && sourceNode.next == null
      requires sourceNode.floor == s.floor && sourceNode.direction == s.direction
      requires destNode.floor == d.floor && destNode.direction == d.direction
      modifies this`nodes, this`stops, prev`next, sourceNode`next, destNode`next
      ensures Valid() && nodes == old(nodes) + [sourceNode, destNode] && stops == old(stops) + [s, d]
      ensures Spliced(old(nodes), nodes, |old(nodes)|)
    {
      ghost var n := |nodes|;
      InsertionIsSpliced(nodes, n, [sourceNode, destNode]);
      if prev != null {
        assert Holds(nodes, n - 1, stops[n - 1]);
        LinkAfter(prev, sourceNode, s, n - 1);
        assert nodes == old(nodes) + [sourceNode] && stops == old(stops) + [s];
        assert Holds(nodes, n, stops[n]);
        destNode.next := null;
        LinkAfter(sourceNode, destNode, d, n);
      }
    }

    /** The part of a call that searches for a block to join. */
    method AddByBlock(sourceNode: QueueNode, destNode: QueueNode, ghost s: Stop, ghost d: Stop)
      requires Valid() && nodes != []
      requires sourceNode !in nodes && destNode !in nodes && sourceNode != destNode && sourceNode.next == null
      requires sourceNode.floor == s.floor && sourceNode.direction == s.direction
      requires destNode.floor == d.floor && destNode.direction == d.direction
      modifies this`nodes, this`stops, nodes, sourceNode`next, destNode`next
      ensures Valid()
      ensures stops == AddedByBlock(old(stops), currentDirection, s, d)
      ensures Spliced(old(nodes), nodes, BlockSlot(old(stops), currentDirection, s))
      ensures forall n :: n in nodes ==> n in old(nodes) || n in {sourceNode, destNode}
    {
      var current, prev := FindPlace(Stop(sourceNode.floor, sourceNode.direction));
      if current != null {
        JoinBlock(current, sourceNode, destNode, s, FirstFit(stops, currentDirection, s, 0));
      } else {
        LinkLast(prev, sourceNode, destNode, s, d);
      }
    }

    /** Joins the block at node i; the destination node is pointed into the list but never linked. */
    method JoinBlock(current: QueueNode, sourceNode: QueueNode, destNode: QueueNode, ghost s: Stop, ghost i: nat)
      requires Valid() && i < |nodes| && nodes[i] == current
      requires sourceNode !in nodes && destNode !in nodes && sourceNode != destNode
      requires sourceNode.floor == s.floor && sourceNode.direction == s.direction
      modifies this`nodes, this`stops, nodes, sourceNode`next, destNode`next
      ensures Valid()
      ensures stops == old(stops)[..i + 1] + [s] + old(stops)[i + 1..]
      ensures Spliced(old(nodes), nodes, i + 1)
      ensures forall n :: n in nodes ==> n in old(nodes) || n == sourceNode
    {
      ghost var before := nodes;
      sourceNode.next := current.next;
      destNode.next := sourceNode.next;
      LinkAfter(current, sourceNode, s, i);
      InsertionIsSpliced(before, i + 1, [sourceNode]);
    }

    /** Edits the list in place; the new list is the old one with the call's nodes spliced in. */
    method AddToCarQueue(sourceFloor: int, destFloor: int) returns (ok: bool)
      requires Valid()
      modifies this, nodes
      ensures ok && Valid()
      ensures stops == Added(old(stops), currentDirection, BoardsHere(sourceFloor, destFloor), sourceFloor, destFloor)
      ensures Spliced(old(nodes), nodes,
                      Slot(old(stops), currentDirection, BoardsHere(sourceFloor, destFloor), sourceFloor, destFloor))
      ensures forall n :: n in nodes ==> n in old(nodes) || fresh(n)
      ensures currentDirection == old(currentDirection) && elevatorStatus == old(elevatorStatus)
      ensures currentFloor == old(currentFloor)
    {
      ok := AddCall(sourceFloor, destFloor, LabelToFloor(currentFloor));
    }

    predicate BoardsHere(sourceFloor: int, destFloor: int)
      reads this
    {
      BoardsAt(LabelToFloor(currentFloor), sourceFloor, destFloor)
    }

    predicate BoardsAt(floorNow: int, sourceFloor: int, destFloor: int)
      reads this
    {
      Boards(floorNow, elevatorStatus, currentDirection, Stop(sourceFloor, RequestDirection(sourceFloor, destFloor)))
    }

    method AddCall(sourceFloor: int, destFloor: int, floorNow: int) returns (ok: bool)
      requires Valid()
      modifies this`nodes, this`stops, this`queueHead, nodes
      ensures ok && Valid()
      ensures stops == Added(old(stops), currentDirection, BoardsAt(floorNow, sourceFloor, destFloor),
                             sourceFloor, destFloor)
      ensures Spliced(old(nodes), nodes,
                      Slot(old(stops), currentDirection, BoardsAt(floorNow, sourceFloor, destFloor),
                           sourceFloor, destFloor))
      ensures forall n :: n in nodes ==> n in old(nodes) || fresh(n)
    {
      var requestDirection := if destFloor > sourceFloor then Upward else Downward;
      var sourceNode := new QueueNode(sourceFloor, requestDirection);
      var destNode := new QueueNode(destFloor, requestDirection);
      ghost var s, d := Stop(sourceFloor, requestDirection), Stop(destFloor, requestDirection);
      ghost var before := nodes;

      if queueHead == null {
        LinkOnly(sourceNode, destNode, s, d);
        InsertionIsSpliced([], 0, [sourceNode, destNode]);
        return true;
      }

      if floorNow == sourceFloor && elevatorStatus != Some(Closing) {
        if currentDirection == requestDirection || currentDirection == Idle {
          sourceNode.next := queueHead;
          destNode.next := sourceNode.next;
          LinkFirst(sourceNode, s);
          InsertionIsSpliced(before, 0, [sourceNode]);
          return true;
        }
      }

      AddByBlock(sourceNode, destNode, s, d);
      return true;
    }

    /** -1 stands for "no destination", although it is also floor B1. */
    method GetNextDestination() returns (floor: int)
      requires Valid()
      ensures floor == if stops == [] then -1 else stops[0].floor
    {
      if queueHead == null {
        return -1;
      }
      assert Holds(nodes, 0, stops[0]);
      return queueHead.floor;
    }

    method RemoveFromCarQueue()
      requires Valid()
      modifies this
      ensures Valid()
      ensures old(stops) == [] ==> stops == [] && nodes == old(nodes)
      ensures old(stops) != [] ==> stops == old(stops)[1..] && nodes == old(nodes)[1..]
      ensures currentDirection == old(currentDirection) && elevatorStatus == old(elevatorStatus)
      ensures currentFloor == old(currentFloor)
    {
      if queueHead == null {
        return;
      }
      assert Holds(nodes, 0, stops[0]);
      queueHead := queueHead.next;
      forall k | 0 <= k < |nodes| - 1 ensures Holds(nodes[1..], k, stops[1..][k]) {
        assert Holds(nodes, k + 1, stops[k + 1]);
      }
      nodes, stops := nodes[1..], stops[1..];
    }

    /** The loop with which the car search measures a queue. */
    method QueueLength() returns (length: nat)
      requires Valid()
      ensures length == |stops|
    {
      var temp := queueHead;
      length := 0;
      while temp != null
        invariant 0 <= length <= |nodes| && temp == NodeAt(nodes, length)
        decreases |nodes| - length
      {
        assert Holds(nodes, length, stops[length]);
        length := length + 1;
        temp := temp.next;
      }
    }
  }

  ghost predicate Distinct(nodes: seq<QueueNode>) {
    forall i, j :: 0 <= i < j < |nodes| ==> nodes[i] != nodes[j]
  }

  lemma InsertionStaysDistinct(nodes: seq<QueueNode>, p: nat, node: QueueNode)
    requires p <= |nodes| && Distinct(nodes) && node !in nodes
    ensures Distinct(nodes[..p] + [node] + nodes[p..])
  {
  }

  ghost function NodeAt(nodes: seq<QueueNode>, i: nat): QueueNode? {
    if i < |nodes| then nodes[i] else null
  }

  /** Node i holds a stop and points to node i+1, or nowhere if it is the last: the list has no cycle. */
  ghost predicate Holds(nodes: seq<QueueNode>, i: nat, stop: Stop)
    requires i < |nodes|
    reads nodes
  {
    nodes[i].floor == stop.floor && nodes[i].direction == stop.direction && nodes[i].next == NodeAt(nodes, i + 1)
  }

  /** All the old nodes, in their old order, around what was put in at p. */
  ghost predicate Spliced(before: seq<QueueNode>, after: seq<QueueNode>, p: nat)
  {
    && p <= |before| < |after|
    && after[..p] == before[..p]
    && after[p + (|after| - |before|)..] == before[p..]
  }

  lemma InsertionIsSpliced(before: seq<QueueNode>, p: nat, added: seq<QueueNode>)
    requires p <= |before| && added != []
    ensures Spliced(before, before[..p] + added + before[p..], p)
    ensures p == 0 ==> before[..p] + added + before[p..] == added + before
    ensures p == |before| ==> before[..p] + added + before[p..] == before + added
    ensures forall n :: n in before[..p] + added + before[p..] ==> n in before || n in added
  {
  }
}
