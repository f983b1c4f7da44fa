# Elevator dispatch model

A Dafny model of the dispatch core of the ElevatorSimulation program. The
program is a Java building simulator in which:

- a producer submits call requests (a request floor and a target floor) to a
  FIFO queue held by the building service;
- a naive scheduler polls that queue, picks a car for the head request, and
  installs a path of floor checkpoints in the chosen car's path map;
- each car drains its path map, one floor at a time, in the order its UP and
  DOWN checkpoint sets dictate.

Modules:

- `Model` (`model.dfy`): the elevator states UP, DOWN and STATIONARY, and the
  call request as a value pair.
- `OrderedSets` (`ordered_sets.dfy`): the sorted-set operations the car uses.
  These are `pollFirst`, `pollLast`, `higher` and `lower` over a `set<int>`,
  together with the ghost minimum and maximum that specify them.
- `Elevators` (`elevator.dfy`): the `Elevator` class with its fields and
  `move`. Ghost functions specify what one pass of `move` does.
  - `Pass` gives the car at the end of the pass and the floors it stops at.
  - `LegStops` gives the floors of one UP or DOWN leg.
- `Building` (`building.dfy`): the `BuildingService` class, holding the request
  queue and the list of cars.
- `Requests` (`requests.dfy`): submitting a request to the building.
- `NaiveScheduler` (`scheduler.dfy`): the direction of a request and the
  choice of a car. The choice is modelled as `Choose`, a function over a
  snapshot of every car's state and floor. The module also covers installing
  the path (`SetUpElevatorPath`), `schedule`, and one iteration of the
  scheduler's polling loop (`Tick`).
- `Simulation` (`simulation.dfy`): the simulator's constants, the validating
  constructors, and the random choice of two distinct floors.

Behaviour of the code that the model keeps as written:

- Both candidate searches minimise the signed key `requestFloor -
  currentFloor`. Minimising it picks the *highest* car of each kind, not the
  nearest one. So the stationary candidate is the first stationary car with
  the greatest floor. For a DOWN request, the approaching candidate is the
  approaching car farthest above the request floor.
- When both candidates exist, a DOWN request goes to the lower of the two
  (NaiveScheduler.java:119). One case: a stationary car at floor 0, a car at
  floor 6 moving DOWN, and request 4 -> 1. The comment "prefer a moving
  elevator" suggests the moving car, but the code picks the stationary car.
  `NaiveScheduler.PickLowerForDown` states this case, and the model follows
  the code.
- `move` sets the reported state to every key it visits, even when that key's
  set is empty (Elevator.java:69). A car with nothing left to do can therefore
  end a pass reporting UP or DOWN. `Elevators.IdlePass` and
  `Elevators.PassFinalState` state this.
- The simulator's error message speaks of 1-1000 floors, but the bound
  checked is `MAX_FLOORS = 100` (util/Constants.java:12). The model follows the
  constant.

## Model

| member | source | states |
|---|---|---|
| `NaiveScheduler.GetRequestedElevatorDirection` | src/main/java/org/example/elevatorsimulation/scheduler/NaiveScheduler.java:173-182 | UP exactly when the target lies above the request floor, DOWN exactly when it does not (equal floors give DOWN) |
| `NaiveScheduler.StreamMin` | src/main/java/org/example/elevatorsimulation/scheduler/NaiveScheduler.java:79-81 | `Stream.filter(..).min(comparingInt(..))`: None exactly when no car passes the filter; otherwise a passing car with the least key, with no earlier passing car tying it |
| `NaiveScheduler.MinFromFinds` | src/main/java/org/example/elevatorsimulation/scheduler/NaiveScheduler.java:79-81 | the left fold behind `min` keeps the earliest car of least key among the cars that pass the filter |
| `NaiveScheduler.StationaryCandidate` | src/main/java/org/example/elevatorsimulation/scheduler/NaiveScheduler.java:79-81 | None exactly when no car is STATIONARY; otherwise the first stationary car with the greatest floor |
| `NaiveScheduler.ApproachingCandidate` | src/main/java/org/example/elevatorsimulation/scheduler/NaiveScheduler.java:84-109 | None exactly when no car moves in the request's direction without having passed the request floor; otherwise the first such car with the greatest floor |
| `NaiveScheduler.Choose` | src/main/java/org/example/elevatorsimulation/scheduler/NaiveScheduler.java:84-126 | the picked car exists in the list and is stationary or approaching; no car is picked exactly when no car is either; any pick is the stationary candidate or the approaching candidate |
| `NaiveScheduler.ChoiceAmongCandidates` | src/main/java/org/example/elevatorsimulation/scheduler/NaiveScheduler.java:90-125 | the pick is the candidate of its own kind, so the first car in list order among the highest of that kind. For UP, the other candidate is strictly lower than a stationary pick and no higher than an approaching pick. For DOWN, the other candidate is strictly higher than a stationary pick and no lower than an approaching pick |
| `NaiveScheduler.UpPicksHighest` | src/main/java/org/example/elevatorsimulation/scheduler/NaiveScheduler.java:90-103 | for an UP request no stationary or approaching car stands higher than the pick |
| `NaiveScheduler.PickAtRequestFloor` | src/main/java/org/example/elevatorsimulation/scheduler/NaiveScheduler.java:90-98 | stationary car at 5, car at 3 moving UP, request 5 -> 9: the stationary car at the request floor is picked |
| `NaiveScheduler.PickFirstOfTwins` | src/main/java/org/example/elevatorsimulation/scheduler/NaiveScheduler.java:79-81 | two stationary cars at floor 5, request 5 -> 9: the first car in list order is picked |
| `NaiveScheduler.PickLowerForDown` | src/main/java/org/example/elevatorsimulation/scheduler/NaiveScheduler.java:112-120 | stationary car at 0, car at 6 moving DOWN, request 4 -> 1: the lower, stationary car is picked over the approaching one |
| `NaiveScheduler.InstalledPath` | src/main/java/org/example/elevatorsimulation/scheduler/NaiveScheduler.java:144-165 | the request's direction set holds the request and target floors. When the car is elsewhere, the lead direction set holds the car's floor and the request floor. Existing checkpoints are kept, only UP or DOWN keys are added, and no floor beyond those three is added |
| `NaiveScheduler.SetUpElevatorPath` | src/main/java/org/example/elevatorsimulation/scheduler/NaiveScheduler.java:144-165 | the car's path map, updated in place, becomes `InstalledPath` of its old map, its floor and the request |
| `NaiveScheduler.InstalledRequestServed` | src/main/java/org/example/elevatorsimulation/scheduler/NaiveScheduler.java:157-164 | after the path is installed, the car's next pass stops at the request floor and at the target floor, whatever the order of the map's keys |
| `NaiveScheduler.GroundFloorRequestPath` | src/main/java/org/example/elevatorsimulation/scheduler/NaiveScheduler.java:144-165 | a car at floor 0 with an empty map, given request 3 -> 7, ends with the single set UP = {0, 3, 7} |
| `NaiveScheduler.GroundFloorRequestPass` | src/main/java/org/example/elevatorsimulation/service/Elevator.java:63-107 | draining UP = {0, 3, 7} from floor 0 stops at floors 0..7 and leaves the car STATIONARY at 7 with the set empty |
| `NaiveScheduler.GroundFloorRequestLeg` | src/main/java/org/example/elevatorsimulation/service/Elevator.java:76-96 | the UP leg over {0, 3, 7} stops at 0, 1, ..., 7 and ends at 7 |
| `NaiveScheduler.Schedule` | src/main/java/org/example/elevatorsimulation/scheduler/NaiveScheduler.java:70-136 | returns whether `Choose` found a car; only that car's path map changes, to `InstalledPath`; no car's state or floor changes |
| `NaiveScheduler.Tick` | src/main/java/org/example/elevatorsimulation/scheduler/NaiveScheduler.java:46-53 | the head request is removed exactly when the queue was non-empty and it was scheduled; paths change as in `Schedule`, and not at all for an empty queue |
| `Elevators.Pass` | src/main/java/org/example/elevatorsimulation/service/Elevator.java:66-106 | the reference definition of one `move` pass over the keys in iteration order; a pass never adds or removes a key of the path map |
| `Elevators.Elevator.constructor` | src/main/java/org/example/elevatorsimulation/service/Elevator.java:28-34 | a new car stands at floor 0, STATIONARY, with an empty path map and the given id |
| `Elevators.Elevator.Move` | src/main/java/org/example/elevatorsimulation/service/Elevator.java:63-107 | for the map's keys in iteration order, the car's new state, floor and path map, and the floors it stops at, are those of `Pass` from its old state |
| `Elevators.Elevator.VisitKey` | src/main/java/org/example/elevatorsimulation/service/Elevator.java:68-105 | visiting one key: a non-empty STATIONARY set ends the pass at once; otherwise the key's set is drained and the pass resumes after it; the map's keys never change |
| `Elevators.Elevator.DrainLeg` | src/main/java/org/example/elevatorsimulation/service/Elevator.java:76-105 | draining a non-empty UP or DOWN set empties it and leaves every other key as it was. The car ends STATIONARY at the set's far end (top for UP, bottom for DOWN), having stopped at `LegStops` |
| `Elevators.Elevator.GenerateIntermediateFloorCheckpoints` | src/main/java/org/example/elevatorsimulation/service/Elevator.java:115-132 | floors at most one apart add nothing; otherwise every floor after `initial` up to and including `target` is added, and nothing else |
| `Elevators.LegStops` | src/main/java/org/example/elevatorsimulation/service/Elevator.java:76-96 | a leg stops at every floor from one end of the set to the other, one floor per step, upward for UP and downward for DOWN; every checkpoint is among the stops |
| `Elevators.WalkUp` | src/main/java/org/example/elevatorsimulation/service/Elevator.java:128-131 | stepping up from `lo` to `hi` passes every floor in between, one floor per step |
| `Elevators.WalkDown` | src/main/java/org/example/elevatorsimulation/service/Elevator.java:128-131 | stepping down from `hi` to `lo` passes every floor in between, one floor per step |
| `Elevators.DrainStep` | src/main/java/org/example/elevatorsimulation/service/Elevator.java:78-96 | one poll-and-fill step keeps the leg invariant: the remaining set spans from the next floor to the far end, and the stops so far form the walk from the near end |
| `Elevators.IdlePass` | src/main/java/org/example/elevatorsimulation/service/Elevator.java:68-76 | a pass over keys whose sets are all empty does not move the car and leaves it reporting the last key visited |
| `Elevators.PassEmptiesVisitedSets` | src/main/java/org/example/elevatorsimulation/service/Elevator.java:76-96 | a pass over UP/DOWN keys empties every set it visits and leaves the other sets and the key set unchanged |
| `Elevators.PassFinalState` | src/main/java/org/example/elevatorsimulation/service/Elevator.java:68-96 | after a pass over distinct UP/DOWN keys, the car reports STATIONARY only when the last key visited had floors; otherwise it reports that key |
| `Elevators.PassEndsAtLastStop` | src/main/java/org/example/elevatorsimulation/service/Elevator.java:89 | a pass leaves the car at the last floor it stopped at, or where it was if it never stopped |
| `Elevators.PassVisitsCheckpoints` | src/main/java/org/example/elevatorsimulation/service/Elevator.java:76-96 | a pass over UP/DOWN keys stops at every floor stored under any key it visits |
| `OrderedSets.PollFirst` | src/main/java/org/example/elevatorsimulation/service/Elevator.java:79 | removes and returns the least floor of a non-empty set |
| `OrderedSets.PollLast` | src/main/java/org/example/elevatorsimulation/service/Elevator.java:83 | removes and returns the greatest floor of a non-empty set |
| `OrderedSets.HigherThan` | src/main/java/org/example/elevatorsimulation/service/Elevator.java:80 | the least floor strictly above `x`, None when there is none |
| `OrderedSets.LowerThan` | src/main/java/org/example/elevatorsimulation/service/Elevator.java:84 | the greatest floor strictly below `x`, None when there is none |
| `Building.BuildingService.constructor` | src/main/java/org/example/elevatorsimulation/service/BuildingService.java:22-28 | a new building has an empty request queue and no cars |
| `Building.BuildingService.InitializeElevators` | src/main/java/org/example/elevatorsimulation/service/BuildingService.java:41-50 | appends `noOfElevators` new cars (none for a negative count), with ids 0, 1, ... and each at floor 0, STATIONARY, with an empty map; earlier cars are kept and all cars stay distinct |
| `Building.BuildingService.Fetch` | src/main/java/org/example/elevatorsimulation/service/BuildingService.java:56-58 | the head of the queue without removing it; None exactly when the queue is empty |
| `Building.BuildingService.RemoveRequest` | src/main/java/org/example/elevatorsimulation/service/BuildingService.java:60-64 | drops the head of a non-empty queue; an empty queue stays empty |
| `Building.BuildingService.Submit` | src/main/java/org/example/elevatorsimulation/service/BuildingService.java:66-68 | appends the request at the tail of the queue |
| `Building.BuildingService.FetchSubmitRemove` | src/main/java/org/example/elevatorsimulation/service/BuildingService.java:56-68 | FIFO discipline across a fetch, later submissions and a removal: the request removed is the one fetched, and the arrivals follow the rest of the old queue |
| `Building.Positions` | src/main/java/org/example/elevatorsimulation/service/BuildingService.java:52-54 | the state and floor of every car of the list, in list order |
| `Requests.SubmitRequest` | src/main/java/org/example/elevatorsimulation/model/ElevatorCallRequest.java:30-32 | the request is appended at the tail of the building's queue |
| `Simulation.IsValid` | src/main/java/org/example/elevatorsimulation/simulation/DefaultSimulator.java:48-50 | valid exactly for 1 to 100 floors and 1 to 10 cars |
| `Simulation.New` | src/main/java/org/example/elevatorsimulation/simulation/DefaultSimulator.java:34-46 | a bad-request error exactly when the sizes are invalid; otherwise a simulator holding all five arguments |
| `Simulation.NewWithDefaults` | src/main/java/org/example/elevatorsimulation/simulation/DefaultSimulator.java:30-32 | the five-argument constructor with a 3000 ms interval and 10 requests |
| `Simulation.GenerateRandom` | src/main/java/org/example/elevatorsimulation/simulation/DefaultSimulator.java:72-83 | the result is the first drawn pair of distinct floors, both in `[0, floorCount)`. It is None exactly when every draw is a pair of equal floors, which is always the case for a one-floor building |

## Left out

- Threads, `Thread.sleep`, the `running` flags, `start` and `stop`, and the
  endless `run` loops of the scheduler, the cars and the simulator are not
  modelled. `NaiveScheduler.Tick` is one iteration of the scheduler loop, and
  `Elevators.Elevator.Move` is one call of `move`.
- `synchronized` blocks and the concurrent collections are not modelled. The
  queue is a `seq`, the car list a `seq` of objects, the path map a `map`, and
  each checkpoint set a `set<int>`. Interleavings with other threads are not
  modelled, apart from the submissions between a fetch and a removal that
  `FetchSubmitRemove` allows.
- The `BuildingService` singleton (`getInstance`) is replaced by an explicit
  object passed to the methods. `getElevatorList` is a plain read of the field.
- Logging, `System.out.println`, and the exception paths for an interrupted
  sleep are not modelled.
- `Elevators.Elevator.Move`: the iteration order of the concurrent hash map's
  keys is a parameter, `keys`. The car's `buildingService` back-reference and
  the `elevatorList.set(id, this)` calls are not modelled. They store the same
  object again only when every car's id equals its list index, which holds
  when `InitializeElevators` is called once, on a building with no cars, as
  the simulator's `start` does. After a second call, `set(id, this)` would
  overwrite the earlier car with that id, and the list would hold one car
  twice, which `Building.BuildingService.Valid` rules out.
- `Elevators.Elevator.Move`: the floors stopped at are a ghost result. The
  one-second pace between floors is not modelled.
- Elevators.Elevator.DrainLeg: the `pathCheckpoints` field, which aliases the
  set stored in the map, is a local variable that is written back to the map
  after every step.
- Floors and counts are unbounded integers. Java's 32-bit wrap-around in
  `targetFloor - requestFloor`, `requestFloor - currentFloor` and
  `Math.abs(initial - target)` is not modelled. Simulated floors lie in
  [0, 100), where no wrap-around can occur.
- `Simulation.GenerateRandom`: `getRandomNumberUsingInts` is replaced by a
  finite sequence of drawn pairs. A None result stands for the source running
  out; the real loop would keep drawing, and with one floor it never ends.
- `DefaultSimulator.run`, which submits `simulationCount` generated requests,
  is not modelled apart from `GenerateRandom` and `Requests.SubmitRequest`.
  `DefaultSimulator.start`, `App.main`, the `Scheduler` and `Simulator`
  interfaces, and the exception classes are not modelled either.
- The getters of `ElevatorCallRequest` and `Elevator` are the fields of the
  datatype and the class.
