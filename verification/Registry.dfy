/** The controller's registry: a growable array of car records, searched and shifted by loops.  A record
    carries its queue as a sequence; module StopQueue shows the linked list that stands for it. */
module Registry {
  import opened Floors
  import opened SharedMemory
  import opened Stops

  const INITIAL_CAPACITY: nat := 10
  const GROWTH_FACTOR: nat := 2

  datatype CarRecord = CarRecord(
    name: string,
    highestFloor: string,
    lowestFloor: string,
    status: string,
    previousStatus: string,
    currentFloor: string,
    destinationFloor: string,
    socket: int,
    queue: seq<Stop>,
    currentDirection: Direction,
    elevatorStatus: Option<Status>)

  // ----- what the searches and the shifts mean on sequences -----

  /** The first car of a name, or the number of cars. */
  function IndexByName(cars: seq<CarRecord>, name: string): (i: nat)
    ensures i <= |cars| && (i < |cars| ==> cars[i].name == name)
    ensures forall j :: 0 <= j < i ==> cars[j].name != name
  {
    if cars == [] || cars[0].name == name then 0 else 1 + IndexByName(cars[1..], name)
  }

  function IndexBySocket(cars: seq<CarRecord>, socket: int): (i: nat)
    ensures i <= |cars| && (i < |cars| ==> cars[i].socket == socket)
    ensures forall j :: 0 <= j < i ==> cars[j].socket != socket
  {
    if cars == [] || cars[0].socket == socket then 0 else 1 + IndexBySocket(cars[1..], socket)
  }

  function NameBySocket(cars: seq<CarRecord>, socket: int): Option<string> {
    var i := IndexBySocket(cars, socket);
    if i < |cars| then Some(cars[i].name) else None
  }

  function SocketByName(cars: seq<CarRecord>, name: string): int {
    var i := IndexByName(cars, name);
    if i < |cars| then cars[i].socket else -1
  }

  function Without(cars: seq<CarRecord>, i: nat): seq<CarRecord>
    requires i < |cars|
  {
    cars[..i] + cars[i + 1..]
  }

  function RemovedByName(cars: seq<CarRecord>, name: string): seq<CarRecord> {
    var i := IndexByName(cars, name);
    if i < |cars| then Without(cars, i) else cars
  }

  function InsertedAt(cars: seq<CarRecord>, pos: nat, car: CarRecord): seq<CarRecord> {
    var p := if pos > |cars| then |cars| else pos;
    cars[..p] + [car] + cars[p..]
  }

  lemma InsertionPointwise(cars: seq<CarRecord>, p: nat, car: CarRecord, after: seq<CarRecord>)
    requires p <= |cars| && |after| == |cars| + 1 && after[p] == car
    requires forall k :: 0 <= k < p ==> after[k] == cars[k]
    requires forall k :: p < k < |after| ==> after[k] == cars[k - 1]
    ensures after == cars[..p] + [car] + cars[p..]
  {
  }

  class Controller {
    var data: array<CarRecord>
    var size: nat
    ghost var peak: nat  // the largest size so far

    /** Capacity is data.Length. */
    ghost predicate Valid()
      reads this
    {
      && size <= data.Length && size <= peak
      && (data.Length <= 10 || data.Length <= 2 * peak)
    }

    function Cars(): (cars: seq<CarRecord>)
      requires size <= data.Length
      reads this, data
    {
      data[..size]
    }

    constructor ()
      ensures Valid() && Cars() == [] && fresh(data) && data.Length == 10 && peak == 0
    {
      data := new CarRecord[INITIAL_CAPACITY];
      size, peak := 0, 0;
    }

    /** `realloc` keeps the whole old block; `size` plays no part. */
    method EnsureCapacity(newSize: nat)
      requires newSize <= peak && (data.Length <= 10 || data.Length <= 2 * peak)
      modifies this`data
      ensures newSize <= data.Length && (data.Length <= 10 || data.Length <= 2 * peak)
      ensures old(data.Length) <= data.Length && data[..old(data.Length)] == old(data[..])
      ensures data == old(data) || (old(data.Length) < newSize && fresh(data))
      ensures data.Length == if newSize <= old(data.Length) then old(data.Length)
                             else if newSize < 2 * old(data.Length) then 2 * old(data.Length)
                             else newSize
    {
      if newSize > data.Length {
        var newCapacity := if data.Length * GROWTH_FACTOR > newSize then data.Length * GROWTH_FACTOR else newSize;
        var newData := new CarRecord[newCapacity];
        var i := 0;
        while i < data.Length
          invariant 0 <= i <= data.Length && newData[..i] == data[..i]
          modifies newData
        {
          newData[i] := data[i];
          i := i + 1;
        }
        data := newData;
      }
    }

    method Push(car: CarRecord)
      requires Valid()
      modifies this, data
      ensures Valid() && Cars() == old(Cars()) + [car]
      ensures data == old(data) || fresh(data)
      ensures peak == if old(peak) < size then size else old(peak)
    {
      peak := if peak < size + 1 then size + 1 else peak;
      EnsureCapacity(size + 1);
      assert data[..size] == data[..old(data.Length)][..size] == old(Cars());
      data[size] := car;
      size := size + 1;
    }

    method Pop()
      requires Valid()
      modifies this
      ensures Valid() && Cars() == (if old(Cars()) == [] then [] else old(Cars())[..|old(Cars())| - 1])
      ensures data == old(data) && peak == old(peak)
    {
      if size > 0 {
        size := size - 1;
      }
    }

    method InsertAt(pos: nat, car: CarRecord)
      requires Valid()
      modifies this, data
      ensures Valid() && Cars() == InsertedAt(old(Cars()), pos, car)
      ensures data == old(data) || fresh(data)
      ensures peak == if old(peak) < size then size else old(peak)
    {
      var p := if pos > size then size else pos;
      peak := if peak < size + 1 then size + 1 else peak;
      EnsureCapacity(size + 1);
      assert data[..size] == data[..old(data.Length)][..size] == old(Cars());
      Place(p, car);
      size := size + 1;
    }

    /** Makes room at p and stores a car there. */
    method Place(p: nat, car: CarRecord)
      requires p <= size < data.Length
      modifies data
      ensures data[..size + 1] == old(data[..size])[..p] + [car] + old(data[..size])[p..]
    {
      ghost var cars := data[..size];
      var i := size;
      while i > p
        invariant p <= i <= size
        invariant forall k :: 0 <= k < i ==> data[k] == cars[k]
        invariant forall k :: i < k <= size ==> data[k] == cars[k - 1]
      {
        data[i] := data[i - 1];
        i := i - 1;
      }
      data[p] := car;
      InsertionPointwise(cars, p, car, data[..size + 1]);
    }

    method GetNameBySocket(socket: int) returns (name: Option<string>)
      requires Valid()
      ensures name == NameBySocket(Cars(), socket)
    {
      var i := 0;
      while i < size
        invariant 0 <= i <= size
        invariant forall j :: 0 <= j < i ==> data[j].socket != socket
      {
        if data[i].socket == socket {
          assert i == IndexBySocket(Cars(), socket);
          return Some(data[i].name);
        }
        i := i + 1;
      }
      return None;
    }

    method GetSocketByName(name: string) returns (socket: int)
      requires Valid()
      ensures socket == SocketByName(Cars(), name)
    {
      var i := 0;
      while i < size
        invariant 0 <= i <= size
        invariant forall j :: 0 <= j < i ==> data[j].name != name
      {
        if data[i].name == name {
          assert i == IndexByName(Cars(), name);
          return data[i].socket;
        }
        i := i + 1;
      }
      return -1;
    }

    method RemoveByName(name: Option<string>)
      requires Valid()
      modifies this, data
      ensures Valid() && data == old(data) && peak == old(peak)
      ensures Cars() == if name.Some? then RemovedByName(old(Cars()), name.value) else old(Cars())
    {
      if name.None? {
        return;
      }
      ghost var cars := Cars();
      var i := 0;
      while i < size
        invariant 0 <= i <= size == |cars| && Cars() == cars && size == old(size)
        invariant forall j :: 0 <= j < i ==> data[j].name != name.value
      {
        if data[i].name == name.value {
          assert i == IndexByName(cars, name.value);
          ShiftDown(i);
          return;
        }
        i := i + 1;
      }
    }

    method ShiftDown(i: nat)
      requires Valid() && i < size
      modifies this`size, data
      ensures Valid() && Cars() == Without(old(Cars()), i)
    {
      ghost var cars := Cars();
      var j := i;
      while j < size - 1
        invariant i <= j <= size - 1 && size == |cars|
        invariant data[..j] == Without(cars, i)[..j]
        invariant data[j + 1..size] == cars[j + 1..]
        modifies data
      {
        data[j] := data[j + 1];
        assert data[j] == cars[j + 1] == Without(cars, i)[j];
        j := j + 1;
        assert data[..j] == data[..j - 1] + [data[j - 1]];
      }
      size := size - 1;
    }

    /** controller_copy from any registry, itself included. */
    method CopyFrom(source: Controller)
      requires Valid() && source.Valid() && (source != this ==> source.data != data)
      modifies this, data
      ensures Valid() && Cars() == old(source.Cars()) && (data == old(data) || fresh(data))
      ensures source.Cars() == old(source.Cars())
    {
      ghost var cars := source.Cars();
      peak := if peak < source.size then source.size else peak;
      size := source.size;
      EnsureCapacity(source.size);
      CopyCars(source.data, data, source.size);
    }

    static method CopyCars(from: array<CarRecord>, target: array<CarRecord>, n: nat)
      requires n <= from.Length && n <= target.Length
      modifies target
      ensures target[..n] == old(from[..n]) && from[..n] == old(from[..n])
    {
      var i := 0;
      while i < n
        invariant 0 <= i <= n && target[..i] == old(from[..i]) && from[..n] == old(from[..n])
      {
        target[i] := from[i];
        i := i + 1;
      }
    }
  }

  // ----- laws of the registry -----

  /** Removing a freshly named car right after inserting it anywhere changes nothing. */
  lemma InsertThenRemove(cars: seq<CarRecord>, pos: nat, car: CarRecord)
    requires forall j :: 0 <= j < |cars| ==> cars[j].name != car.name
    ensures RemovedByName(InsertedAt(cars, pos, car), car.name) == cars
    ensures InsertedAt(cars, pos, car)[if pos < |cars| then pos else |cars|] == car
  {
    var p := if pos > |cars| then |cars| else pos;
    var more := InsertedAt(cars, pos, car);
    assert more[p] == car;
    assert forall j :: 0 <= j < |more| && j != p ==> more[j].name != car.name by {
      assert forall j :: p < j < |more| ==> more[j] == cars[j - 1];
    }
    assert IndexByName(more, car.name) == p;
  }

  predicate DistinctNames(cars: seq<CarRecord>) {
    forall i, j :: 0 <= i < j < |cars| ==> cars[i].name != cars[j].name
  }

  predicate DistinctSockets(cars: seq<CarRecord>) {
    forall i, j :: 0 <= i < j < |cars| ==> cars[i].socket != cars[j].socket
  }

  /** With distinct names and sockets the two lookups are inverse to one another. */
  lemma LookupsAreInverse(cars: seq<CarRecord>, i: nat)
    requires DistinctNames(cars) && DistinctSockets(cars) && i < |cars|
    ensures NameBySocket(cars, cars[i].socket) == Some(cars[i].name)
    ensures SocketByName(cars, cars[i].name) == cars[i].socket
  {
    assert IndexBySocket(cars, cars[i].socket) == i;
    assert IndexByName(cars, cars[i].name) == i;
  }

  /** A hang-up: the socket's name is looked up, then the first car of that name is removed. */
  function HungUp(cars: seq<CarRecord>, socket: int): seq<CarRecord> {
    var name := NameBySocket(cars, socket);
    if name.Some? then RemovedByName(cars, name.value) else cars
  }

  /** A hang-up removes the socket's own car exactly when no earlier car has taken the same name. */
  lemma HangUpRemovesItsCarExactly(cars: seq<CarRecord>, socket: int)
    ensures var k := IndexBySocket(cars, socket);
            if k == |cars| then HungUp(cars, socket) == cars
            else (HungUp(cars, socket) == Without(cars, k) <==> forall j :: 0 <= j < k ==> cars[j].name != cars[k].name)
  {
    var k := IndexBySocket(cars, socket);
    if k < |cars| {
      var i := IndexByName(cars, cars[k].name);
      if i < k {
        OtherCarRemoved(cars, i, k);
      }
    }
  }

  lemma {:induction false} OtherCarRemoved(cars: seq<CarRecord>, i: nat, k: nat)
    requires i < k < |cars|
    requires forall j :: 0 <= j < k ==> cars[j].socket != cars[k].socket
    ensures Without(cars, i) != Without(cars, k)
  {
    assert Without(cars, i)[k - 1] == cars[k];
    assert Without(cars, k)[k - 1] == cars[k - 1];
  }

  lemma WithoutKeepsDistinct(cars: seq<CarRecord>, k: nat)
    requires k < |cars|
    ensures DistinctNames(cars) ==> DistinctNames(Without(cars, k))
    ensures DistinctSockets(cars) ==> DistinctSockets(Without(cars, k))
  {
    var rest := Without(cars, k);
    forall i, j | 0 <= i < j < |rest|
      ensures DistinctNames(cars) ==> rest[i].name != rest[j].name
      ensures DistinctSockets(cars) ==> rest[i].socket != rest[j].socket
    {
      assert rest[i] == cars[if i < k then i else i + 1] && rest[j] == cars[if j < k then j else j + 1];
    }
  }

  /** After a hang-up among distinct cars nobody answers to the socket any more, and the rest stay distinct. */
  lemma HangUpKeepsDistinct(cars: seq<CarRecord>, socket: int)
    requires DistinctNames(cars) && DistinctSockets(cars)
    ensures DistinctNames(HungUp(cars, socket)) && DistinctSockets(HungUp(cars, socket))
    ensures NameBySocket(HungUp(cars, socket), socket) == None
  {
    HangUpRemovesItsCarExactly(cars, socket);
    var k := IndexBySocket(cars, socket);
    if k < |cars| {
      WithoutKeepsDistinct(cars, k);
      SocketIsGone(cars, k);
    }
  }

  lemma SocketIsGone(cars: seq<CarRecord>, k: nat)
    requires DistinctSockets(cars) && k < |cars|
    ensures NameBySocket(Without(cars, k), cars[k].socket) == None
  {
    var rest := Without(cars, k);
    forall j | 0 <= j < |rest| ensures rest[j].socket != cars[k].socket {
      if j < k {
        assert rest[j] == cars[j];
      } else {
        assert rest[j] == cars[j + 1];
      }
    }
  }
}
