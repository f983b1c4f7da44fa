/**
 * The default simulator's configuration: the bounds on floors and cars, the
 * validating constructors, and the random choice of two distinct floors.
 */
module Simulation {
  import opened Wrappers

  const MaxFloors := 100
  const MinFloors := 0
  const MaxElevators := 10
  const MinElevators := 0
  const DefaultSimulationTimeInterval := 3000
  const DefaultSimulationCount := 10

  /** A configured simulator; `S` is the type of the scheduler it drives. */
  datatype DefaultSimulator<S> =
    DefaultSimulator(floorCount: int, elevatorCount: int, scheduler: S, interval: int, simulationCount: int)

  /** The simulator's bad-request error. */
  datatype SimulationError = BadRequest

  /** A building of 1 to 100 floors served by 1 to 10 cars. */
  function IsValid(floorCount: int, elevatorCount: int): (valid: bool)
    ensures valid <==> 1 <= floorCount <= 100 && 1 <= elevatorCount <= 10
  {
    floorCount > MinFloors && floorCount <= MaxFloors && elevatorCount > MinElevators && elevatorCount <= MaxElevators
  }

  /** The five-argument constructor: rejects an invalid size, otherwise stores its arguments. */
  function New<S>(floorCount: int, elevatorCount: int, scheduler: S, interval: int, simulationCount: int)
    : (r: Result<DefaultSimulator<S>, SimulationError>)
    ensures r.Failure? <==> !IsValid(floorCount, elevatorCount)
    ensures r.Failure? ==> r.error == BadRequest
    ensures r.Success? ==>
      && r.value.floorCount == floorCount && r.value.elevatorCount == elevatorCount
      && r.value.scheduler == scheduler && r.value.interval == interval
      && r.value.simulationCount == simulationCount
  {
    if !IsValid(floorCount, elevatorCount) then Failure(BadRequest)
    else Success(DefaultSimulator(floorCount, elevatorCount, scheduler, interval, simulationCount))
  }

  /** The three-argument constructor: the five-argument one with a 3000 ms interval and 10 requests. */
  function NewWithDefaults<S>(floorCount: int, elevatorCount: int, scheduler: S)
    : (r: Result<DefaultSimulator<S>, SimulationError>)
    ensures r == New(floorCount, elevatorCount, scheduler, 3000, 10)
    ensures r.Success? ==> r.value.interval == 3000 && r.value.simulationCount == 10
  {
    New(floorCount, elevatorCount, scheduler, DefaultSimulationTimeInterval, DefaultSimulationCount)
  }

  /**
   * Draws pairs of floors until the two differ.  `draws` is the random source:
   * the pairs it yields in turn, each floor in [0, floorCount).  None means the
   * source ran dry before a distinct pair came up; with one floor that always
   * happens, because the source can only yield equal floors.
   */
  method GenerateRandom(floorCount: int, draws: seq<(int, int)>) returns (pair: Option<(int, int)>)
    requires forall i :: 0 <= i < |draws| ==> 0 <= draws[i].0 < floorCount && 0 <= draws[i].1 < floorCount
    ensures pair.Some? ==>
      && pair.value.0 != pair.value.1
      && 0 <= pair.value.0 < floorCount && 0 <= pair.value.1 < floorCount
    ensures pair.Some? ==>
      exists k :: 0 <= k < |draws| && draws[k] == pair.value && forall j :: 0 <= j < k ==> draws[j].0 == draws[j].1
    ensures pair.None? <==> forall j :: 0 <= j < |draws| ==> draws[j].0 == draws[j].1
    ensures floorCount == 1 ==> pair.None?
  {
    var a, b := 0, 0;
    var i := 0;
    while a == b
      invariant 0 <= i <= |draws|
      invariant a == b ==> forall j :: 0 <= j < i ==> draws[j].0 == draws[j].1
      invariant a != b ==> 0 < i && draws[i - 1] == (a, b) && forall j :: 0 <= j < i - 1 ==> draws[j].0 == draws[j].1
      decreases |draws| - i
    {
      if i == |draws| {
        return None;
      }
      a, b := draws[i].0, draws[i].1;
      i := i + 1;
    }
    pair := Some((a, b));
  }
}
