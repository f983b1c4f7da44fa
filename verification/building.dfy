/**
 * The building: the FIFO queue of call requests waiting for an elevator and the
 * list of elevator cars.  One object of this class stands for the process-wide
 * instance the simulator shares between its producer, scheduler and cars.
 */
module Building {
  import opened Wrappers
  import opened Model
  import opened Elevators

  class BuildingService {
    var requestQueue: seq<ElevatorCallRequest>
    var elevatorList: seq<Elevator>

    /** The cars are distinct objects: each entry of the list is a car of its own. */
    ghost predicate Valid()
      reads this
    {
      forall i, j :: 0 <= i < j < |elevatorList| ==> elevatorList[i] != elevatorList[j]
    }

    constructor()
      ensures Valid()
      ensures requestQueue == [] && elevatorList == []
    {
      requestQueue := [];
      elevatorList := [];
    }

    /** Appends `noOfElevators` new cars with ids 0, 1, ... to the list. */
    method InitializeElevators(noOfElevators: int)
      requires Valid()
      modifies this`elevatorList
      ensures Valid()
      ensures |elevatorList| == |old(elevatorList)| + (if noOfElevators < 0 then 0 else noOfElevators)
      ensures elevatorList[..|old(elevatorList)|] == old(elevatorList)
      ensures forall i :: |old(elevatorList)| <= i < |elevatorList| ==>
        var e := elevatorList[i];
        && fresh(e)
        && e.id == i - |old(elevatorList)|
        && e.elevatorState == Stationary && e.currentFloor == 0 && e.pathMap == map[]
    {
      var i := 0;
      while i < noOfElevators
        invariant 0 <= i && (noOfElevators < 0 ==> i == 0) && (0 <= noOfElevators ==> i <= noOfElevators)
        invariant Valid()
        invariant |elevatorList| == |old(elevatorList)| + i
        invariant elevatorList[..|old(elevatorList)|] == old(elevatorList)
        invariant forall j :: |old(elevatorList)| <= j < |elevatorList| ==>
          var e := elevatorList[j];
          && fresh(e)
          && e.id == j - |old(elevatorList)|
          && e.elevatorState == Stationary && e.currentFloor == 0 && e.pathMap == map[]
      {
        var elevator := new Elevator(i);
        elevatorList := elevatorList + [elevator];
        i := i + 1;
      }
    }

    /** The head of the queue, left in place; None when nothing is waiting. */
    method Fetch() returns (r: Option<ElevatorCallRequest>)
      ensures r.None? <==> requestQueue == []
      ensures r.Some? ==> r.value == requestQueue[0]
    {
      if requestQueue == [] {
        r := None;
      } else {
        r := Some(requestQueue[0]);
      }
    }

    /** Drops the head of the queue; does nothing when the queue is empty. */
    method RemoveRequest()
      modifies this`requestQueue
      ensures old(requestQueue) == [] ==> requestQueue == []
      ensures old(requestQueue) != [] ==> requestQueue == old(requestQueue)[1..]
    {
      if requestQueue != [] {
        requestQueue := requestQueue[1..];
      }
    }

    /** Appends a request at the tail of the queue. */
    method Submit(request: ElevatorCallRequest)
      modifies this`requestQueue
      ensures requestQueue == old(requestQueue) + [request]
    {
      requestQueue := requestQueue + [request];
    }

    /**
     * The scheduler's view of the queue: fetch the head, let producers submit
     * `arrivals`, then remove the head if one was fetched.  The request removed is the one fetched:
     * the queue has lost exactly its old head and gained the arrivals at the tail.
     */
    method FetchSubmitRemove(arrivals: seq<ElevatorCallRequest>) returns (fetched: Option<ElevatorCallRequest>)
      modifies this`requestQueue
      ensures fetched.Some? <==> old(requestQueue) != []
      ensures fetched.Some? ==> [fetched.value] + requestQueue == old(requestQueue) + arrivals
      ensures fetched.None? ==> requestQueue == arrivals
    {
      fetched := Fetch();
      var i := 0;
      while i < |arrivals|
        invariant 0 <= i <= |arrivals|
        invariant requestQueue == old(requestQueue) + arrivals[..i]
      {
        Submit(arrivals[i]);
        i := i + 1;
      }
      assert arrivals[..i] == arrivals;
      if fetched.Some? {
        RemoveRequest();
      }
    }
  }

  /** The state and floor of every car, in list order: what the scheduler reads. */
  function Positions(es: seq<Elevator>): (ps: seq<Position>)
    reads es
    ensures |ps| == |es|
    ensures forall i :: 0 <= i < |es| ==> ps[i] == Position(es[i].elevatorState, es[i].currentFloor)
  {
    if es == [] then [] else [Position(es[0].elevatorState, es[0].currentFloor)] + Positions(es[1..])
  }

  /** The path map of every car, in list order. */
  function Paths(es: seq<Elevator>): (ms: seq<map<ElevatorState, set<int>>>)
    reads es
    ensures |ms| == |es|
    ensures forall i :: 0 <= i < |es| ==> ms[i] == es[i].pathMap
  {
    if es == [] then [] else [es[0].pathMap] + Paths(es[1..])
  }

  /** What the scheduler sees of one car. */
  datatype Position = Position(state: ElevatorState, floor: int)
}
