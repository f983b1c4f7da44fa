/**
 * The navigable-set operations the elevators rely on (first, last, poll, higher,
 * lower), stated over Dafny's finite `set<int>`, and walks of consecutive floors.
 */
module OrderedSets {
  import opened Wrappers

  /** A non-empty set has an element to pick. */
  lemma Inhabited(s: set<int>)
    requires s != {}
    ensures exists x :: x in s
  {
    if forall x :: x !in s {
      assert false;
    }
  }

  /** The least element of a non-empty set. */
  ghost function SetMin(s: set<int>): (m: int)
    requires s != {}
    ensures m in s && forall x :: x in s ==> m <= x
  {
    Inhabited(s);
    var x :| x in s;
    var rest := s - {x};
    assert forall z :: z in s ==> z == x || z in rest;
    if rest == {} then x
    else
      var y := SetMin(rest);
      if x < y then x else y
  }

  /** The greatest element of a non-empty set. */
  ghost function SetMax(s: set<int>): (m: int)
    requires s != {}
    ensures m in s && forall x :: x in s ==> x <= m
  {
    Inhabited(s);
    var x :| x in s;
    var rest := s - {x};
    assert forall z :: z in s ==> z == x || z in rest;
    if rest == {} then x
    else
      var y := SetMax(rest);
      if x > y then x else y
  }

  /** The least element strictly above `x`, if any (NavigableSet.higher). */
  ghost function Higher(s: set<int>, x: int): (r: Option<int>)
    ensures r.None? <==> forall y :: y in s ==> y <= x
    ensures r.Some? ==> r.value in s && x < r.value && forall y :: y in s && x < y ==> r.value <= y
  {
    var above := set y | y in s && x < y;
    assert forall y :: y in s && x < y ==> y in above;
    if above == {} then None else Some(SetMin(above))
  }

  /** The greatest element strictly below `x`, if any (NavigableSet.lower). */
  ghost function Lower(s: set<int>, x: int): (r: Option<int>)
    ensures r.None? <==> forall y :: y in s ==> x <= y
    ensures r.Some? ==> r.value in s && r.value < x && forall y :: y in s && y < x ==> y <= r.value
  {
    var below := set y | y in s && y < x;
    assert forall y :: y in s && y < x ==> y in below;
    if below == {} then None else Some(SetMax(below))
  }

  /** NavigableSet.pollFirst on a non-empty set: removes and returns the least element. */
  method PollFirst(s: set<int>) returns (m: int, rest: set<int>)
    requires s != {}
    ensures m in s && (forall x :: x in s ==> m <= x) && rest == s - {m}
  {
    ghost var least := SetMin(s);
    m :| m in s && forall x :: x in s ==> m <= x;
    rest := s - {m};
  }

  /** NavigableSet.pollLast on a non-empty set: removes and returns the greatest element. */
  method PollLast(s: set<int>) returns (m: int, rest: set<int>)
    requires s != {}
    ensures m in s && (forall x :: x in s ==> x <= m) && rest == s - {m}
  {
    ghost var greatest := SetMax(s);
    m :| m in s && forall x :: x in s ==> x <= m;
    rest := s - {m};
  }

  /** NavigableSet.higher: the least element strictly above `x`, or None. */
  method HigherThan(s: set<int>, x: int) returns (r: Option<int>)
    ensures r == Higher(s, x)
  {
    var above := set y | y in s && x < y;
    if above == {} {
      r := None;
    } else {
      ghost var least := SetMin(above);
      var n :| n in above && forall y :: y in above ==> n <= y;
      r := Some(n);
    }
  }

  /** NavigableSet.lower: the greatest element strictly below `x`, or None. */
  method LowerThan(s: set<int>, x: int) returns (r: Option<int>)
    ensures r == Lower(s, x)
  {
    var below := set y | y in s && y < x;
    if below == {} {
      r := None;
    } else {
      ghost var greatest := SetMax(below);
      var n :| n in below && forall y :: y in below ==> y <= n;
      r := Some(n);
    }
  }

  /** `count` floors starting at `from`, each `step` away from the previous one. */
  function Walk(from: int, count: nat, step: int): (w: seq<int>)
    ensures |w| == count
    ensures forall i :: 0 <= i < count ==> w[i] == from + step * i
    decreases count
  {
    if count == 0 then [] else [from] + Walk(from + step, count - 1, step)
  }

  /** A walk one floor longer is the walk with its next floor appended. */
  lemma WalkExtends(from: int, count: nat, step: int)
    ensures Walk(from, count + 1, step) == Walk(from, count, step) + [from + step * count]
  {
    var w, v := Walk(from, count + 1, step), Walk(from, count, step) + [from + step * count];
    assert |w| == |v| && forall i :: 0 <= i < |w| ==> w[i] == v[i];
  }
}
