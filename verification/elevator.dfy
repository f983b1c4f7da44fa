/**
 * One elevator car: its position, the state it reports and, per direction, the
 * set of floors it still has to pass.  `Move` is one pass of the car's movement
 * loop: it visits the keys of the path map in the order given and drains each
 * set one floor per step.
 */
module Elevators {
  import opened Wrappers
  import opened Model
  import opened OrderedSets

  /** The observable state of a car: reported state, current floor, checkpoint sets. */
  datatype Car = Car(state: ElevatorState, floor: int, path: map<ElevatorState, set<int>>)

  /** A car after a pass of `move`, with the floors it stopped at, in order. */
  datatype Travel = Travel(car: Car, stops: seq<int>)

  function Abs(x: int): (a: nat)
  {
    if x < 0 then -x else x
  }

  ghost predicate Distinct(keys: seq<ElevatorState>)
  {
    forall i, j :: 0 <= i < j < |keys| ==> keys[i] != keys[j]
  }

  /** `keys` enumerates the key set of `path`, each key once: an iteration order of the map. */
  ghost predicate KeyOrder(keys: seq<ElevatorState>, path: map<ElevatorState, set<int>>)
  {
    Distinct(keys) && forall k :: k in path <==> k in keys
  }

  /** Where a leg in direction `k` over the non-empty set `s` ends: its top for UP, its bottom for DOWN. */
  ghost function LegEnd(k: ElevatorState, s: set<int>): (floor: int)
    requires s != {}
  {
    if k == Down then SetMin(s) else SetMax(s)
  }

  /** The floors a leg in direction `k` stops at: every floor from one end of `s` to the other. */
  ghost function LegStops(k: ElevatorState, s: set<int>): (w: seq<int>)
    requires s != {}
    ensures |w| == SetMax(s) - SetMin(s) + 1
    ensures w[0] == (if k == Down then SetMax(s) else SetMin(s))
    ensures w[|w| - 1] == LegEnd(k, s)
    ensures forall i :: 0 < i < |w| ==> w[i] == (if k == Down then w[i - 1] - 1 else w[i - 1] + 1)
    ensures forall x :: x in s ==> x in w
  {
    var lo, hi := SetMin(s), SetMax(s);
    if k == Down then
      WalkDown(lo, hi);
      Walk(hi, hi - lo + 1, -1)
    else
      WalkUp(lo, hi);
      Walk(lo, hi - lo + 1, 1)
  }

  /** Walking up from `lo` to `hi` passes every floor in between, one floor per step. */
  lemma WalkUp(lo: int, hi: int)
    requires lo <= hi
    ensures var w := Walk(lo, hi - lo + 1, 1);
      && w[0] == lo && w[|w| - 1] == hi
      && (forall i :: 0 < i < |w| ==> w[i] == w[i - 1] + 1)
      && forall x :: lo <= x <= hi ==> x in w
  {
    var w := Walk(lo, hi - lo + 1, 1);
    assert forall i :: 0 <= i < |w| ==> w[i] == lo + i;
    forall x | lo <= x <= hi
      ensures x in w
    {
      assert w[x - lo] == x;
    }
  }

  /** Walking down from `hi` to `lo` passes every floor in between, one floor per step. */
  lemma WalkDown(lo: int, hi: int)
    requires lo <= hi
    ensures var w := Walk(hi, hi - lo + 1, -1);
      && w[0] == hi && w[|w| - 1] == lo
      && (forall i :: 0 < i < |w| ==> w[i] == w[i - 1] - 1)
      && forall x :: lo <= x <= hi ==> x in w
  {
    var w := Walk(hi, hi - lo + 1, -1);
    assert forall i :: 0 <= i < |w| ==> w[i] == hi - i;
    forall x | lo <= x <= hi
      ensures x in w
    {
      assert w[hi - x] == x;
    }
  }

  /**
   * One pass of the movement loop over the path-map keys in the order `keys`.
   * Each visited key becomes the reported state; a non-empty UP or DOWN set is
   * drained to its far end, after which the car reports STATIONARY; a non-empty
   * set under the STATIONARY key ends the pass at once.
   */
  ghost function Pass(c: Car, keys: seq<ElevatorState>): (t: Travel)
    requires forall k :: k in keys ==> k in c.path
    ensures t.car.path.Keys == c.path.Keys
    decreases |keys|
  {
    if keys == [] then Travel(c, [])
    else
      var k := keys[0];
      var s := c.path[k];
      if s == {} then Pass(c.(state := k), keys[1..])
      else if k == Stationary then Travel(c.(state := k), [])
      else
        var rest := Pass(Car(Stationary, LegEnd(k, s), c.path[k := {}]), keys[1..]);
        Travel(rest.car, LegStops(k, s) + rest.stops)
  }

  /** The first step of a pass: what visiting the key `k` does before the keys `later`. */
  lemma PassFirstKey(c: Car, k: ElevatorState, later: seq<ElevatorState>)
    requires k in c.path && forall j :: j in later ==> j in c.path
    ensures c.path[k] == {} ==> Pass(c, [k] + later) == Pass(c.(state := k), later)
    ensures c.path[k] != {} && k == Stationary ==> Pass(c, [k] + later) == Travel(c.(state := k), [])
    ensures c.path[k] != {} && k != Stationary ==>
      var t := Pass(Car(Stationary, LegEnd(k, c.path[k]), c.path[k := {}]), later);
      Pass(c, [k] + later) == Travel(t.car, LegStops(k, c.path[k]) + t.stops)
  {
  }

  /** What a pass over `keys` from `c` makes of a journey whose earlier stops were `acc`. */
  ghost function Resume(c: Car, keys: seq<ElevatorState>, acc: seq<int>): (t: Travel)
    requires forall k :: k in keys ==> k in c.path
  {
    var t := Pass(c, keys);
    Travel(t.car, acc + t.stops)
  }

  /** Before the first key nothing has been travelled. */
  lemma ResumeStart(c: Car, keys: seq<ElevatorState>)
    requires forall k :: k in keys ==> k in c.path
    ensures Pass(c, keys) == Resume(c, keys[0..], [])
  {
  }

  /** After the last key the car is where the loop left it. */
  lemma ResumeEnd(c: Car, keys: seq<ElevatorState>, acc: seq<int>)
    ensures Resume(c, keys[|keys|..], acc) == Travel(c, acc)
  {
  }

  /** The keys after index `i`, all of them keys of `path` when `keys` are. */
  ghost function Suffix(keys: seq<ElevatorState>, path: map<ElevatorState, set<int>>, i: nat): (later: seq<ElevatorState>)
    requires i < |keys|
    ensures keys[i..] == [keys[i]] + later
    ensures (forall k :: k in keys ==> k in path) ==> keys[i] in path && forall j :: j in later ==> j in path
  {
    keys[i + 1..]
  }

  /** Visiting a key whose set is empty only changes the reported state. */
  lemma ResumeSkip(before: Car, k: ElevatorState, later: seq<ElevatorState>, acc: seq<int>)
    requires k in before.path && forall j :: j in later ==> j in before.path
    requires before.path[k] == {}
    ensures Resume(before, [k] + later, acc) == Resume(before.(state := k), later, acc)
  {
  }

  /** A non-empty STATIONARY set ends the pass with the car reporting STATIONARY where it is. */
  lemma ResumeHalt(before: Car, later: seq<ElevatorState>, acc: seq<int>)
    requires Stationary in before.path && forall j :: j in later ==> j in before.path
    requires before.path[Stationary] != {}
    ensures Resume(before, [Stationary] + later, acc) == Travel(before.(state := Stationary), acc)
  {
  }

  /** Draining the set under `k` moves the stops of its leg from the pass's remainder to the travelled prefix. */
  lemma ResumeLeg(before: Car, k: ElevatorState, later: seq<ElevatorState>, after: Car, leg: seq<int>, acc: seq<int>)
    requires k in before.path && forall j :: j in later ==> j in before.path
    requires k != Stationary && before.path[k] != {}
    requires after == Car(Stationary, LegEnd(k, before.path[k]), before.path[k := {}])
    requires leg == LegStops(k, before.path[k])
    ensures Resume(before, [k] + later, acc) == Resume(after, later, acc + leg)
  {
  }

  /**
   * After popping `m` on the way up, with `n` the next stop, the filled-in set
   * runs from `m + 1` to the same top floor `hi`.
   */
  lemma NextStopAbove(rest: set<int>, m: int, n: int, r: set<int>, hi: int)
    requires hi in rest && forall y :: y in rest ==> m < y <= hi
    requires n in rest && forall y :: y in rest ==> n <= y
    requires Abs(m - n) <= 1 ==> r == rest
    requires Abs(m - n) > 1 ==> forall x :: x in r <==> x in rest || (x != m && Between(x, m, n))
    ensures Spans(r, m + 1, hi)
  {
    if Abs(m - n) > 1 {
      assert m + 1 in r;
    }
  }

  /** The mirror image of NextStopAbove for the way down, with bottom floor `lo`. */
  lemma NextStopBelow(rest: set<int>, m: int, n: int, r: set<int>, lo: int)
    requires lo in rest && forall y :: y in rest ==> lo <= y < m
    requires n in rest && forall y :: y in rest ==> y <= n
    requires Abs(m - n) <= 1 ==> r == rest
    requires Abs(m - n) > 1 ==> forall x :: x in r <==> x in rest || (x != m && Between(x, m, n))
    ensures Spans(r, lo, m - 1)
  {
    if Abs(m - n) > 1 {
      assert m - 1 in r;
    }
  }

  /**
   * When no stop follows the popped floor `m` (the bottom `a` of `c` on the way
   * up, its top `b` on the way down), `c` held `m` alone: the leg is over.
   */
  lemma LastStop(c: set<int>, m: int, rest: set<int>, a: int, b: int, up: bool)
    requires Spans(c, a, b) && m == (if up then a else b) && rest == c - {m}
    requires up ==> forall y :: y in rest ==> y <= m
    requires !up ==> forall y :: y in rest ==> m <= y
    ensures rest == {} && a == b
  {
    if rest != {} {
      Inhabited(rest);
      assert false;
    }
    assert a in c && b in c;
    assert a !in rest && b !in rest;
  }

  /**
   * The state of a leg in direction `k` over floors `lo`..`hi` after the stops
   * `stops`: the floors visited so far are consecutive; while checkpoints remain
   * the car reports `k` and the checkpoints run from the next floor to the far
   * end; once they are gone the car is at the far end and reports STATIONARY.
   */
  ghost predicate Draining(k: ElevatorState, lo: int, hi: int, c: set<int>, stops: seq<int>,
                           state: ElevatorState, floor: int)
  {
    && |stops| <= hi - lo + 1
    && stops == (if k == Up then Walk(lo, |stops|, 1) else Walk(hi, |stops|, -1))
    && (c != {} ==> state == k && if k == Up then Spans(c, lo + |stops|, hi) else Spans(c, lo, hi - |stops|))
    && (c == {} ==> |stops| == hi - lo + 1 && state == Stationary && floor == (if k == Up then hi else lo))
  }

  /** Before the first step of a leg nothing has been visited and the set spans its own extremes. */
  lemma DrainStart(k: ElevatorState, s: set<int>, floor: int)
    requires k != Stationary && s != {}
    ensures Draining(k, SetMin(s), SetMax(s), s, [], k, floor)
  {
  }

  /** A drained leg has visited exactly the stops of `LegStops` and ended at the far end. */
  lemma DrainEnd(k: ElevatorState, s: set<int>, stops: seq<int>, state: ElevatorState, floor: int)
    requires k != Stationary && s != {}
    requires Draining(k, SetMin(s), SetMax(s), {}, stops, state, floor)
    ensures state == Stationary && floor == LegEnd(k, s) && stops == LegStops(k, s)
  {
  }

  /** One step of a leg: pop the nearest floor, look up the next stop, fill in the floors between. */
  lemma DrainStep(k: ElevatorState, lo: int, hi: int, c: set<int>, stops: seq<int>,
                  m: int, rest: set<int>, next: Option<int>, c': set<int>)
    requires k != Stationary && c != {}
    requires Draining(k, lo, hi, c, stops, k, m)
    requires m in c && rest == c - {m}
    requires k == Up ==> (forall x :: x in c ==> m <= x) && next == Higher(rest, m)
    requires k == Down ==> (forall x :: x in c ==> x <= m) && next == Lower(rest, m)
    requires next.None? ==> c' == rest
    requires next.Some? && Abs(m - next.value) <= 1 ==> c' == rest
    requires next.Some? && Abs(m - next.value) > 1 ==>
      forall x :: x in c' <==> x in rest || (x != m && Between(x, m, next.value))
    ensures Draining(k, lo, hi, c', stops + [m], if next.None? then Stationary else k, m)
  {
    WalkExtends(if k == Up then lo else hi, |stops|, if k == Up then 1 else -1);
    if next.Some? {
      if k == Up {
        NextStopAbove(rest, m, next.value, c', hi);
      } else {
        NextStopBelow(rest, m, next.value, c', lo);
      }
    } else if k == Up {
      LastStop(c, m, rest, lo + |stops|, hi, true);
    } else {
      LastStop(c, m, rest, lo, hi - |stops|, false);
    }
  }

  /**
   * A pass over sets that are all empty moves nothing: the floor stays, and the
   * car is left reporting the last key it visited, UP or DOWN included.
   */
  lemma {:induction false} IdlePass(c: Car, keys: seq<ElevatorState>)
    requires keys != []
    requires forall k :: k in keys ==> k in c.path && c.path[k] == {}
    ensures Pass(c, keys) == Travel(c.(state := keys[|keys| - 1]), [])
    decreases |keys|
  {
    if |keys| > 1 {
      IdlePass(c.(state := keys[0]), keys[1..]);
    }
  }

  /**
   * A pass over direction keys empties every set it visits and leaves the other
   * sets and the key set as they were.
   */
  lemma {:induction false} PassEmptiesVisitedSets(c: Car, keys: seq<ElevatorState>)
    requires forall k :: k in keys ==> k in c.path
    requires Stationary !in keys
    ensures Pass(c, keys).car.path.Keys == c.path.Keys
    ensures forall d :: d in c.path ==> Pass(c, keys).car.path[d] == if d in keys then {} else c.path[d]
    decreases |keys|
  {
    if keys != [] {
      var k := keys[0];
      if c.path[k] == {} {
        PassEmptiesVisitedSets(c.(state := k), keys[1..]);
      } else {
        PassEmptiesVisitedSets(Car(Stationary, LegEnd(k, c.path[k]), c.path[k := {}]), keys[1..]);
      }
    }
  }

  /**
   * After a pass over distinct direction keys the car reports STATIONARY only
   * when the last key visited had floors to drain; an empty last set leaves it
   * reporting that key's direction although it does not move.
   */
  lemma {:induction false} PassFinalState(c: Car, keys: seq<ElevatorState>)
    requires keys != [] && Distinct(keys)
    requires forall k :: k in keys ==> k in c.path
    requires Stationary !in keys
    ensures Pass(c, keys).car.state ==
      if c.path[keys[|keys| - 1]] == {} then keys[|keys| - 1] else Stationary
    decreases |keys|
  {
    var k := keys[0];
    if |keys| > 1 {
      assert keys[|keys| - 1] == keys[1..][|keys[1..]| - 1] && keys[|keys| - 1] != k;
      if c.path[k] == {} {
        PassFinalState(c.(state := k), keys[1..]);
      } else {
        PassFinalState(Car(Stationary, LegEnd(k, c.path[k]), c.path[k := {}]), keys[1..]);
      }
    }
  }

  /** A pass over direction keys stops at every floor stored under any key it visits. */
  lemma {:induction false} PassVisitsCheckpoints(c: Car, keys: seq<ElevatorState>)
    requires forall k :: k in keys ==> k in c.path
    requires Stationary !in keys
    ensures forall d, x :: d in keys && x in c.path[d] ==> x in Pass(c, keys).stops
    decreases |keys|
  {
    if keys != [] {
      var k := keys[0];
      assert forall d :: d in keys ==> d == k || d in keys[1..];
      if c.path[k] == {} {
        PassVisitsCheckpoints(c.(state := k), keys[1..]);
      } else {
        var c' := Car(Stationary, LegEnd(k, c.path[k]), c.path[k := {}]);
        PassVisitsCheckpoints(c', keys[1..]);
        assert Pass(c, keys).stops == LegStops(k, c.path[k]) + Pass(c', keys[1..]).stops;
      }
    }
  }

  /** A pass leaves the car at the last floor it stopped at, or where it was if it never stopped. */
  lemma {:induction false} PassEndsAtLastStop(c: Car, keys: seq<ElevatorState>)
    requires forall k :: k in keys ==> k in c.path
    ensures var t := Pass(c, keys); t.car.floor == if t.stops == [] then c.floor else t.stops[|t.stops| - 1]
    decreases |keys|
  {
    if keys != [] {
      var k := keys[0];
      if c.path[k] == {} {
        PassEndsAtLastStop(c.(state := k), keys[1..]);
      } else if k != Stationary {
        PassEndsAtLastStop(Car(Stationary, LegEnd(k, c.path[k]), c.path[k := {}]), keys[1..]);
      }
    }
  }

  class Elevator {
    const id: int
    var elevatorState: ElevatorState
    var currentFloor: int
    var pathMap: map<ElevatorState, set<int>>

    /** A new car stands at floor 0, STATIONARY, with no checkpoints. */
    constructor(id: int)
      ensures this.id == id
      ensures elevatorState == Stationary && currentFloor == 0 && pathMap == map[]
    {
      this.id := id;
      pathMap := map[];
      currentFloor := 0;
      elevatorState := Stationary;
    }

    function AsCar(): (c: Car)
      reads this
    {
      Car(elevatorState, currentFloor, pathMap)
    }

    /**
     * One pass of the movement loop: for each key in the map's iteration order
     * the key becomes the reported state and its set is drained.
     */
    method Move(keys: seq<ElevatorState>) returns (ghost stops: seq<int>)
      requires KeyOrder(keys, pathMap)
      modifies this
      ensures Pass(old(AsCar()), keys) == Travel(AsCar(), stops)
    {
      stops := [];
      ResumeStart(AsCar(), keys);
      var i := 0;
      while i < |keys|
        invariant 0 <= i <= |keys|
        invariant pathMap.Keys == old(pathMap).Keys
        invariant Pass(old(AsCar()), keys) == Resume(AsCar(), keys[i..], stops)
      {
        ghost var later := Suffix(keys, pathMap, i);
        var halt, leg := VisitKey(keys[i], later, stops);
        if halt {
          return;
        }
        stops := stops + leg;
        i := i + 1;
      }
      ResumeEnd(AsCar(), keys, stops);
    }

    /**
     * One iteration of the movement loop: report the key `k` as the state and
     * drain its set; `halt` is set when the set under STATIONARY is non-empty,
     * for which the drain loop has no branch and move returns at once.
     */
    method VisitKey(k: ElevatorState, ghost later: seq<ElevatorState>, ghost acc: seq<int>)
      returns (halt: bool, ghost leg: seq<int>)
      requires k in pathMap && forall j :: j in later ==> j in pathMap
      modifies this
      ensures pathMap.Keys == old(pathMap).Keys
      ensures halt ==> Resume(old(AsCar()), [k] + later, acc) == Travel(AsCar(), acc)
      ensures !halt ==> Resume(old(AsCar()), [k] + later, acc) == Resume(AsCar(), later, acc + leg)
    {
      ghost var before := AsCar();
      elevatorState := k;
      var checkpoints := pathMap[k];
      halt, leg := false, [];
      if checkpoints != {} {
        if k == Stationary {
          ResumeHalt(before, later, acc);
          halt := true;
          return;
        }
        leg := DrainLeg(k);
        ResumeLeg(before, k, later, AsCar(), leg, acc);
      } else {
        ResumeSkip(before, k, later, acc);
        assert acc + [] == acc;
      }
    }

    /**
     * Drains the non-empty set stored under the direction `k`: pollFirst/higher
     * for UP, pollLast/lower for DOWN, filling in the floors up to the next stop
     * so that the car moves one floor per step.
     */
    method DrainLeg(k: ElevatorState) returns (ghost stops: seq<int>)
      requires k != Stationary && k in pathMap && pathMap[k] != {} && elevatorState == k
      modifies this
      ensures pathMap == old(pathMap)[k := {}]
      ensures elevatorState == Stationary && currentFloor == LegEnd(k, old(pathMap[k]))
      ensures stops == LegStops(k, old(pathMap[k]))
    {
      var checkpoints := pathMap[k];
      ghost var lo, hi := SetMin(checkpoints), SetMax(checkpoints);
      stops := [];
      DrainStart(k, checkpoints, currentFloor);
      while checkpoints != {}
        invariant pathMap == old(pathMap)[k := checkpoints]
        invariant Draining(k, lo, hi, checkpoints, stops, elevatorState, currentFloor)
        decreases hi - lo + 1 - |stops|
      {
        var currFlr: int;
        var nextFlr: Option<int>;
        var rest: set<int>;
        if elevatorState == Up {
          currFlr, rest := PollFirst(checkpoints);
          nextFlr := HigherThan(rest, currFlr);
        } else {
          currFlr, rest := PollLast(checkpoints);
          nextFlr := LowerThan(rest, currFlr);
        }
        currentFloor := currFlr;
        ghost var popped := checkpoints;
        if nextFlr.Some? {
          checkpoints := GenerateIntermediateFloorCheckpoints(rest, currFlr, nextFlr.value);
        } else {
          checkpoints := rest;
          elevatorState := Stationary;
        }
        DrainStep(k, lo, hi, popped, stops, currFlr, rest, nextFlr, checkpoints);
        pathMap := pathMap[k := checkpoints];
        stops := stops + [currFlr];
      }
      DrainEnd(k, old(pathMap[k]), stops, elevatorState, currentFloor);
    }

    /**
     * Adds to `checkpoints` every floor after `initial` up to and including
     * `target`, stepping one floor at a time; adds nothing when the two floors
     * are at most one apart.
     */
    static method GenerateIntermediateFloorCheckpoints(checkpoints: set<int>, initial: int, target: int)
      returns (r: set<int>)
      ensures Abs(initial - target) <= 1 ==> r == checkpoints
      ensures Abs(initial - target) > 1 ==>
        forall x :: x in r <==> x in checkpoints || (x != initial && Between(x, initial, target))
    {
      r := checkpoints;
      if Abs(initial - target) <= 1 {
        return;
      }
      var n := 1;
      if target - initial < 0 {
        n := -1;
      }
      var floor := initial;
      while floor != target
        invariant if n == 1 then initial <= floor <= target else target <= floor <= initial
        invariant forall x :: x in r <==> x in checkpoints || (x != initial && Between(x, initial, floor))
        decreases if n == 1 then target - floor else floor - target
      {
        floor := floor + n;
        r := r + {floor};
      }
    }
  }

  /** `x` lies on the closed interval between `a` and `b`, in either order. */
  predicate Between(x: int, a: int, b: int)
  {
    if a <= b then a <= x <= b else b <= x <= a
  }

  /** `a` and `b` are in `s`, and every element of `s` lies between them. */
  ghost predicate Spans(s: set<int>, a: int, b: int)
  {
    a in s && b in s && forall x :: x in s ==> a <= x <= b
  }
}
