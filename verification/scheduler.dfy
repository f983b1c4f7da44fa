/**
 * The naive scheduler: the direction of a request, the choice of a car for it
 * (a stationary candidate against a car already approaching in the request's
 * direction), the installation of the chosen car's path, and one iteration of
 * the scheduler's polling loop.
 */
module NaiveScheduler {
  import opened Wrappers
  import opened Model
  import opened Elevators
  import opened Building
  import opened OrderedSets

  /** UP when the target lies above the request floor; DOWN otherwise, equal floors included. */
  function GetRequestedElevatorDirection(request: ElevatorCallRequest): (d: ElevatorState)
    ensures d == Up <==> request.targetFloor > request.requestFloor
    ensures d == Down <==> request.targetFloor <= request.requestFloor
  {
    if request.targetFloor - request.requestFloor > 0 then Up else Down
  }

  /** The signed comparison key of both candidate searches: request floor minus car floor. */
  function Key(request: ElevatorCallRequest, p: Position): (key: int)
  {
    request.requestFloor - p.floor
  }

  predicate IsStationary(p: Position)
  {
    p.state == Stationary
  }

  /** The car moves in the request's direction and has not yet passed the request floor. */
  predicate IsApproaching(request: ElevatorCallRequest, p: Position)
  {
    if GetRequestedElevatorDirection(request) == Up then p.state == Up && p.floor <= request.requestFloor
    else p.state == Down && p.floor >= request.requestFloor
  }

  /**
   * Stream.min over the entries of `ps` that pass the filter, scanning from
   * index `i` with `best` the pick so far: a later entry replaces the pick only
   * when its key is strictly smaller.
   */
  function MinFrom(ps: seq<Position>, pass: Position -> bool, key: Position -> int, i: nat, best: Option<nat>)
    : (pick: Option<nat>)
    requires i <= |ps| && (best.Some? ==> best.value < i)
    decreases |ps| - i
  {
    if i == |ps| then best
    else if !pass(ps[i]) then MinFrom(ps, pass, key, i + 1, best)
    else if best.Some? && key(ps[best.value]) <= key(ps[i]) then MinFrom(ps, pass, key, i + 1, best)
    else MinFrom(ps, pass, key, i + 1, Some(i))
  }

  /** No entry among the first `n` passes the filter. */
  ghost predicate NonePass(ps: seq<Position>, pass: Position -> bool, n: nat)
    requires n <= |ps|
  {
    forall j :: 0 <= j < n ==> !pass(ps[j])
  }

  /** Among the first `n` entries, `k` passes and has the least key, and no earlier passing entry ties it. */
  ghost predicate FirstMinimal(ps: seq<Position>, pass: Position -> bool, key: Position -> int, k: nat, n: nat)
    requires n <= |ps|
  {
    && k < n
    && pass(ps[k])
    && (forall j :: 0 <= j < n && pass(ps[j]) ==> key(ps[k]) <= key(ps[j]))
    && (forall j :: 0 <= j < k && pass(ps[j]) ==> key(ps[k]) < key(ps[j]))
  }

  lemma {:induction false} MinFromFinds(ps: seq<Position>, pass: Position -> bool, key: Position -> int,
                                        i: nat, best: Option<nat>)
    requires i <= |ps| && (best.Some? ==> best.value < i)
    requires best.None? ==> NonePass(ps, pass, i)
    requires best.Some? ==> FirstMinimal(ps, pass, key, best.value, i)
    ensures MinFrom(ps, pass, key, i, best).None? ==> NonePass(ps, pass, |ps|)
    ensures MinFrom(ps, pass, key, i, best).Some? ==> FirstMinimal(ps, pass, key, MinFrom(ps, pass, key, i, best).value, |ps|)
    decreases |ps| - i
  {
    if i < |ps| {
      if !pass(ps[i]) {
        MinFromFinds(ps, pass, key, i + 1, best);
      } else if best.Some? && key(ps[best.value]) <= key(ps[i]) {
        MinFromFinds(ps, pass, key, i + 1, best);
      } else {
        MinFromFinds(ps, pass, key, i + 1, Some(i));
      }
    }
  }

  /** Stream.filter(pass).min(comparingInt(key)), as an index into `ps`. */
  function StreamMin(ps: seq<Position>, pass: Position -> bool, key: Position -> int): (r: Option<nat>)
    ensures r.None? <==> NonePass(ps, pass, |ps|)
    ensures r.Some? ==> FirstMinimal(ps, pass, key, r.value, |ps|)
  {
    MinFromFinds(ps, pass, key, 0, None);
    MinFrom(ps, pass, key, 0, None)
  }

  /** `k` passes the filter, no passing car is higher, and no earlier passing car is as high. */
  ghost predicate FirstHighest(ps: seq<Position>, pass: Position -> bool, k: nat)
  {
    && k < |ps|
    && pass(ps[k])
    && (forall j :: 0 <= j < |ps| && pass(ps[j]) ==> ps[j].floor <= ps[k].floor)
    && (forall j :: 0 <= j < k && pass(ps[j]) ==> ps[j].floor < ps[k].floor)
  }

  /**
   * The stationary candidate.  The key is signed, so minimising it picks the
   * first stationary car with the greatest floor, wherever the request is.
   */
  function StationaryCandidate(ps: seq<Position>, request: ElevatorCallRequest): (c: Option<nat>)
    ensures c.None? <==> forall j :: 0 <= j < |ps| ==> !IsStationary(ps[j])
    ensures c.Some? ==> FirstHighest(ps, IsStationary, c.value)
  {
    StreamMin(ps, IsStationary, p => Key(request, p))
  }

  /**
   * The approaching candidate: the first approaching car with the greatest
   * floor; for a DOWN request that is the farthest one above the request floor.
   */
  function ApproachingCandidate(ps: seq<Position>, request: ElevatorCallRequest): (c: Option<nat>)
    ensures c.None? <==> forall j :: 0 <= j < |ps| ==> !IsApproaching(request, ps[j])
    ensures c.Some? ==> FirstHighest(ps, p => IsApproaching(request, p), c.value)
  {
    StreamMin(ps, p => IsApproaching(request, p), p => Key(request, p))
  }

  /**
   * The car `schedule` picks, as an index into the list.  With both candidates,
   * the approaching one wins a tie in floors; otherwise the higher car wins for
   * an UP request and the lower car for a DOWN request.
   */
  function Choose(ps: seq<Position>, request: ElevatorCallRequest): (c: Option<nat>)
    ensures c.Some? ==> c.value < |ps| && (IsStationary(ps[c.value]) || IsApproaching(request, ps[c.value]))
    ensures c.None? <==> forall j :: 0 <= j < |ps| ==> !IsStationary(ps[j]) && !IsApproaching(request, ps[j])
    ensures c.Some? ==> c == StationaryCandidate(ps, request) || c == ApproachingCandidate(ps, request)
  {
    var stationary := StationaryCandidate(ps, request);
    var approaching := ApproachingCandidate(ps, request);
    if approaching.Some? && stationary.Some? then
      var a, s := ps[approaching.value], ps[stationary.value];
      if a.floor == s.floor then approaching
      else if GetRequestedElevatorDirection(request) == Up then (if a.floor > s.floor then approaching else stationary)
      else (if a.floor < s.floor then approaching else stationary)
    else if stationary.Some? then stationary
    else approaching
  }

  /**
   * How the pick relates to the two candidates: it is the candidate of its own
   * kind, so the first car in list order among the highest of that kind; for an UP request no car of the other kind is higher (none is as
   * high when the pick is stationary); for a DOWN request the highest car of the
   * other kind is at least as high (strictly higher when the pick is stationary).
   */
  lemma ChoiceAmongCandidates(ps: seq<Position>, request: ElevatorCallRequest)
    requires Choose(ps, request).Some?
    ensures var k := Choose(ps, request).value;
      var stationary, approaching := StationaryCandidate(ps, request), ApproachingCandidate(ps, request);
      var up := GetRequestedElevatorDirection(request) == Up;
      && (IsStationary(ps[k]) ==> Some(k) == stationary)
      && (IsApproaching(request, ps[k]) ==> Some(k) == approaching)
      && (IsStationary(ps[k]) ==> forall j :: 0 <= j < |ps| && IsStationary(ps[j]) ==> ps[j].floor <= ps[k].floor)
      && (IsApproaching(request, ps[k]) ==>
            forall j :: 0 <= j < |ps| && IsApproaching(request, ps[j]) ==> ps[j].floor <= ps[k].floor)
      && (up && IsStationary(ps[k]) && approaching.Some? ==> ps[approaching.value].floor < ps[k].floor)
      && (up && IsApproaching(request, ps[k]) && stationary.Some? ==> ps[stationary.value].floor <= ps[k].floor)
      && (!up && IsStationary(ps[k]) && approaching.Some? ==> ps[k].floor < ps[approaching.value].floor)
      && (!up && IsApproaching(request, ps[k]) && stationary.Some? ==> ps[k].floor <= ps[stationary.value].floor)
  {
  }

  /** For an UP request the pick is a highest car among all stationary and approaching cars. */
  lemma UpPicksHighest(ps: seq<Position>, request: ElevatorCallRequest)
    requires GetRequestedElevatorDirection(request) == Up && Choose(ps, request).Some?
    ensures var k := Choose(ps, request).value;
      forall j :: 0 <= j < |ps| && (IsStationary(ps[j]) || IsApproaching(request, ps[j])) ==> ps[j].floor <= ps[k].floor
  {
    ChoiceAmongCandidates(ps, request);
  }

  /**
   * A stationary car at floor 5 and a car at floor 3 moving UP, request 5 -> 9:
   * the approaching car is lower, so the stationary car at the request floor is picked.
   */
  lemma PickAtRequestFloor()
    ensures Choose([Position(Stationary, 5), Position(Up, 3)], ElevatorCallRequest(5, 9)) == Some(0)
  {
    var ps := [Position(Stationary, 5), Position(Up, 3)];
    var request := ElevatorCallRequest(5, 9);
    assert IsApproaching(request, ps[1]);
    assert FirstHighest(ps, IsStationary, StationaryCandidate(ps, request).value);
  }

  /** Two stationary cars at the same floor: the first one in list order is picked. */
  lemma PickFirstOfTwins()
    ensures Choose([Position(Stationary, 5), Position(Stationary, 5)], ElevatorCallRequest(5, 9)) == Some(0)
  {
    var ps := [Position(Stationary, 5), Position(Stationary, 5)];
    var request := ElevatorCallRequest(5, 9);
    assert !IsApproaching(request, ps[0]) && !IsApproaching(request, ps[1]);
    assert FirstHighest(ps, IsStationary, StationaryCandidate(ps, request).value);
  }

  /**
   * A stationary car at floor 0 and a car at floor 6 moving DOWN, request 4 -> 1:
   * both are candidates and the lower one wins, so the stationary car is picked
   * although the moving one is approaching.
   */
  lemma PickLowerForDown()
    ensures Choose([Position(Stationary, 0), Position(Down, 6)], ElevatorCallRequest(4, 1)) == Some(0)
  {
    var ps := [Position(Stationary, 0), Position(Down, 6)];
    var request := ElevatorCallRequest(4, 1);
    assert IsApproaching(request, ps[1]);
    assert !IsApproaching(request, ps[0]);
  }

  /** The checkpoints of `m` under direction `d`; none when `d` is not a key. */
  function Checkpoints(m: map<ElevatorState, set<int>>, d: ElevatorState): (floors: set<int>)
  {
    if d in m then m[d] else {}
  }

  /** Unions `floors` into the set under `d`, creating it when absent. */
  function AddCheckpoints(m: map<ElevatorState, set<int>>, d: ElevatorState, floors: set<int>)
    : (m': map<ElevatorState, set<int>>)
  {
    m[d := Checkpoints(m, d) + floors]
  }

  /**
   * The path map after installing `request` on a car at `current`: the leg to
   * the request floor (when the car is elsewhere) and the service leg.
   */
  function InstalledPath(m: map<ElevatorState, set<int>>, current: int, request: ElevatorCallRequest)
    : (r: map<ElevatorState, set<int>>)
    ensures var d := GetRequestedElevatorDirection(request);
      d in r && request.requestFloor in r[d] && request.targetFloor in r[d]
    ensures current != request.requestFloor ==>
      var lead := GetRequestedElevatorDirection(ElevatorCallRequest(current, request.requestFloor));
      lead in r && current in r[lead] && request.requestFloor in r[lead]
    ensures forall d :: d in m ==> d in r && m[d] <= r[d]
    ensures forall d :: d in r ==> d in m || d == Up || d == Down
    ensures forall d :: d in r ==> r[d] <= Checkpoints(m, d) + {current, request.requestFloor, request.targetFloor}
  {
    var toTarget := GetRequestedElevatorDirection(request);
    var m' :=
      if current != request.requestFloor then
        AddCheckpoints(m, GetRequestedElevatorDirection(ElevatorCallRequest(current, request.requestFloor)),
                       {current, request.requestFloor})
      else m;
    AddCheckpoints(m', toTarget, {request.requestFloor, request.targetFloor})
  }

  /**
   * A scheduled request is served by the chosen car's next pass: when the car's
   * map holds no STATIONARY set, the pass over the installed path stops at the
   * request floor and at the target floor, whatever the order of the keys.
   */
  lemma InstalledRequestServed(state: ElevatorState, m: map<ElevatorState, set<int>>, current: int,
                               request: ElevatorCallRequest, keys: seq<ElevatorState>)
    requires Stationary !in m
    requires KeyOrder(keys, InstalledPath(m, current, request))
    ensures var t := Pass(Car(state, current, InstalledPath(m, current, request)), keys);
      request.requestFloor in t.stops && request.targetFloor in t.stops
  {
    var r := InstalledPath(m, current, request);
    var d := GetRequestedElevatorDirection(request);
    assert Stationary !in keys;
    assert d in keys;
    PassVisitsCheckpoints(Car(state, current, r), keys);
  }

  /** A car at floor 0 with no checkpoints, given request 3 -> 7, gets both legs in its UP set. */
  lemma GroundFloorRequestPath()
    ensures InstalledPath(map[], 0, ElevatorCallRequest(3, 7)) == map[Up := {0, 3, 7}]
  {
    var m: map<ElevatorState, set<int>> := map[];
    assert Checkpoints(m, Up) == {};
    assert Checkpoints(m, Up) + {0, 3} == {0, 3};
    var lead := AddCheckpoints(m, Up, {0, 3});
    assert lead == map[Up := {0, 3}];
    assert Checkpoints(lead, Up) + {3, 7} == {0, 3, 7};
  }

  /**
   * One pass over that UP set stops at every floor from 0 to 7 and leaves the
   * car at floor 7, STATIONARY, with the set drained.
   */
  lemma GroundFloorRequestPass()
    ensures Pass(Car(Stationary, 0, map[Up := {0, 3, 7}]), [Up])
         == Travel(Car(Stationary, 7, map[Up := {}]), [0, 1, 2, 3, 4, 5, 6, 7])
  {
    var s: set<int> := {0, 3, 7};
    GroundFloorRequestLeg();
    assert [Up] == [Up] + [];
    PassFirstKey(Car(Stationary, 0, map[Up := s]), Up, []);
  }

  /** The UP leg over {0, 3, 7} stops at 0, 1, ..., 7 and ends at 7. */
  lemma GroundFloorRequestLeg()
    ensures LegEnd(Up, {0, 3, 7}) == 7
    ensures LegStops(Up, {0, 3, 7}) == [0, 1, 2, 3, 4, 5, 6, 7]
  {
    var s: set<int> := {0, 3, 7};
    GroundFloorRequestBounds();
    var stops := LegStops(Up, s);
    assert stops[0] == 0 && stops[1] == 1 && stops[2] == 2 && stops[3] == 3;
    assert stops[4] == 4 && stops[5] == 5 && stops[6] == 6 && stops[7] == 7;
  }

  /** The request's checkpoint set {0, 3, 7} runs from floor 0 to floor 7. */
  lemma GroundFloorRequestBounds()
    ensures SetMin({0, 3, 7}) == 0 && SetMax({0, 3, 7}) == 7
  {
    var s: set<int> := {0, 3, 7};
    assert 0 in s && 7 in s;
  }

  /** Installs the path for `request` into the chosen car's map, in place. */
  method SetUpElevatorPath(request: ElevatorCallRequest, elevator: Elevator)
    modifies elevator`pathMap
    ensures elevator.pathMap == InstalledPath(old(elevator.pathMap), elevator.currentFloor, request)
  {
    ghost var m := elevator.pathMap;
    if elevator.currentFloor != request.requestFloor {
      var toRequestFloor := ElevatorCallRequest(elevator.currentFloor, request.requestFloor);
      var requestFloorDirection := GetRequestedElevatorDirection(toRequestFloor);
      var pathCheckpoints := if requestFloorDirection in elevator.pathMap then elevator.pathMap[requestFloorDirection] else {};
      pathCheckpoints := pathCheckpoints + {elevator.currentFloor};
      pathCheckpoints := pathCheckpoints + {request.requestFloor};
      assert pathCheckpoints == Checkpoints(m, requestFloorDirection) + {elevator.currentFloor, request.requestFloor};
      elevator.pathMap := elevator.pathMap[requestFloorDirection := pathCheckpoints];
      assert elevator.pathMap == AddCheckpoints(m, requestFloorDirection, {elevator.currentFloor, request.requestFloor});
    }
    ghost var m' := elevator.pathMap;
    var toTargetFloor := ElevatorCallRequest(request.requestFloor, request.targetFloor);
    var targetFloorDirection := GetRequestedElevatorDirection(toTargetFloor);
    var targetPathCheckpoints := if targetFloorDirection in elevator.pathMap then elevator.pathMap[targetFloorDirection] else {};
    targetPathCheckpoints := targetPathCheckpoints + {request.requestFloor};
    targetPathCheckpoints := targetPathCheckpoints + {request.targetFloor};
    assert targetPathCheckpoints == Checkpoints(m', targetFloorDirection) + {request.requestFloor, request.targetFloor};
    elevator.pathMap := elevator.pathMap[targetFloorDirection := targetPathCheckpoints];
    assert elevator.pathMap == AddCheckpoints(m', targetFloorDirection, {request.requestFloor, request.targetFloor});
  }

  /**
   * The cars' path maps after scheduling `request` on the car `choice` (None:
   * on no car): that car's map is `before`'s with the request's path installed
   * at its floor in `ps`, and every other map is as it was in `before`.
   */
  ghost predicate PathsInstalled(es: seq<Elevator>, before: seq<map<ElevatorState, set<int>>>, ps: seq<Position>,
                                 request: ElevatorCallRequest, choice: Option<nat>)
    reads es
  {
    && |before| == |es| && |ps| == |es|
    && forall i :: 0 <= i < |es| ==>
         es[i].pathMap == if choice == Some(i) then InstalledPath(before[i], ps[i].floor, request) else before[i]
  }

  /**
   * Picks a car for `request` and installs its path.  Only the chosen car's
   * path map changes; no car's floor or state does.
   */
  method Schedule(building: BuildingService, request: ElevatorCallRequest) returns (scheduled: bool)
    requires building.Valid()
    modifies building.elevatorList
    ensures var ps := old(Positions(building.elevatorList));
      && scheduled == Choose(ps, request).Some?
      && Positions(building.elevatorList) == ps
      && PathsInstalled(building.elevatorList, old(Paths(building.elevatorList)), ps, request, Choose(ps, request))
  {
    var elevatorList := building.elevatorList;
    var choice := Choose(Positions(elevatorList), request);
    if choice.Some? {
      SetUpElevatorPath(request, elevatorList[choice.value]);
    }
    scheduled := choice.Some?;
  }

  /**
   * One iteration of the scheduler loop: fetch the head request, try to
   * schedule it, and remove it from the queue only when that succeeded.
   */
  method Tick(building: BuildingService) returns (scheduled: bool)
    requires building.Valid()
    modifies building`requestQueue, building.elevatorList
    ensures building.elevatorList == old(building.elevatorList)
    ensures var q := old(building.requestQueue);
      var ps := old(Positions(building.elevatorList));
      && scheduled == (q != [] && Choose(ps, q[0]).Some?)
      && building.requestQueue == (if scheduled then q[1..] else q)
      && Positions(building.elevatorList) == ps
      && (q == [] ==> Paths(building.elevatorList) == old(Paths(building.elevatorList)))
      && (q != [] ==> PathsInstalled(building.elevatorList, old(Paths(building.elevatorList)), ps, q[0], Choose(ps, q[0])))
  {
    ghost var es, ps, before := building.elevatorList, Positions(building.elevatorList), Paths(building.elevatorList);
    scheduled := false;
    var head := building.Fetch();
    if head.Some? {
      scheduled := Schedule(building, head.value);
      ghost var choice := Choose(ps, head.value);
      assert PathsInstalled(es, before, ps, head.value, choice) && Positions(es) == ps;
      if scheduled {
        building.RemoveRequest();
      }
      assert PathsInstalled(es, before, ps, head.value, choice) && Positions(es) == ps;
    }
  }
}
