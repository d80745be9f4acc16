// The search path through a skip list, on positions and heights alone. Position 0 is the head
// node; hs[p] is the highest level the node at position p takes part in.
module SkipPath {
  import opened Sequences

  const MAX_LEVEL := 16

  /** The successor of position p at level i, or |hs| when there is none. */
  function Next(hs: seq<int>, p: nat, i: int): (q: nat)
    requires p < |hs|
    ensures p < q <= |hs|
    ensures q < |hs| ==> hs[q] >= i
    ensures forall r :: p < r < q ==> hs[r] < i
    decreases |hs| - p
  {
    if p + 1 == |hs| || hs[p + 1] >= i then p + 1 else Next(hs, p + 1, i)
  }

  lemma NextUnique(hs: seq<int>, p: nat, i: int, q: nat)
    requires p < |hs| && p < q <= |hs|
    requires q < |hs| ==> hs[q] >= i
    requires forall r :: p < r < q ==> hs[r] < i
    ensures Next(hs, p, i) == q
  {
  }

  /** Where a walk along level i from p stops: at the last node before the target. */
  function Walk(before: seq<bool>, hs: seq<int>, i: int, p: nat): (r: nat)
    requires |before| == |hs| && p < |hs|
    ensures p <= r < |hs|
    decreases |hs| - p
  {
    var q := Next(hs, p, i);
    if q < |hs| && before[q] then Walk(before, hs, i, q) else p
  }

  /** Where the descent from level top stands after finishing level i. */
  function Path(before: seq<bool>, hs: seq<int>, top: nat, i: nat): (r: nat)
    requires |before| == |hs| > 0
    ensures r < |hs|
    decreases top + 1 - i
  {
    if i > top then 0 else Walk(before, hs, i, Path(before, hs, top, i + 1))
  }

  /** The heights a list of the given top level can have. */
  predicate Shape(hs: seq<int>, top: nat) {
    && |hs| > 0 && top <= MAX_LEVEL && hs[0] == MAX_LEVEL
    && forall p :: 1 <= p < |hs| ==> 0 <= hs[p] <= top
  }

  // One unfolding of each recursion, for callers that keep the definitions closed.

  lemma WalkStep(before: seq<bool>, hs: seq<int>, i: int, p: nat)
    requires |before| == |hs| && p < |hs|
    ensures var q := Next(hs, p, i);
      && p < q <= |hs| && (q < |hs| ==> hs[q] >= i)
      && Walk(before, hs, i, p) == if q < |hs| && before[q] then Walk(before, hs, i, q) else p
  {
  }

  lemma PathStep(before: seq<bool>, hs: seq<int>, top: nat, i: nat)
    requires |before| == |hs| > 0 && i <= top
    ensures Path(before, hs, top, i) == Walk(before, hs, i, Path(before, hs, top, i + 1))
  {
  }

  lemma PathEnds(before: seq<bool>, hs: seq<int>, top: nat)
    requires |before| == |hs| > 0
    ensures Path(before, hs, top, top + 1) == 0
  {
  }

  lemma {:induction false} WalkFacts(before: seq<bool>, hs: seq<int>, i: int, p: nat)
    requires |before| == |hs| && p < |hs|
    ensures var r := Walk(before, hs, i, p);
      && (r == p || (before[r] && hs[r] >= i))
      && (Next(hs, r, i) == |hs| || !before[Next(hs, r, i)])
    decreases |hs| - p
  {
    var q := Next(hs, p, i);
    if q < |hs| && before[q] {
      WalkFacts(before, hs, i, q);
    }
  }

  /** A walk never passes a node of its level that is not before the target. */
  lemma {:induction false} WalkBound(before: seq<bool>, hs: seq<int>, i: int, p: nat, bound: nat)
    requires |before| == |hs| && p < bound <= |hs|
    requires bound < |hs| ==> !before[bound] && hs[bound] >= i
    ensures Walk(before, hs, i, p) < bound
    decreases |hs| - p
  {
    var q := Next(hs, p, i);
    if q < |hs| && before[q] {
      WalkBound(before, hs, i, q, bound);
    }
  }

  /** At every level the path stops at a node of that level, just short of a node that is not
      before the target. */
  lemma {:induction false} PathFacts(before: seq<bool>, hs: seq<int>, top: nat, i: nat)
    requires |before| == |hs| && Shape(hs, top) && i <= top + 1
    ensures var r := Path(before, hs, top, i);
      && (r == 0 || before[r])
      && (i <= top ==>
          && hs[r] >= i
          && (Next(hs, r, i) == |hs| || !before[Next(hs, r, i)]))
    decreases top + 1 - i
  {
    if i <= top {
      PathFacts(before, hs, top, i + 1);
      WalkFacts(before, hs, i, Path(before, hs, top, i + 1));
    }
  }

  /** No node but the head reaches above the top level. */
  lemma AboveTop(before: seq<bool>, hs: seq<int>, top: nat, i: nat)
    requires |before| == |hs| && Shape(hs, top) && i > top
    ensures Path(before, hs, top, i) == 0 && Next(hs, 0, i) == |hs|
  {
    NextUnique(hs, 0, i, |hs|);
  }

  /** The descent below level i stays strictly between the stop of level i and its successor. */
  lemma {:induction false} PathBracket(before: seq<bool>, hs: seq<int>, top: nat, i: nat, j: nat)
    requires |before| == |hs| && Shape(hs, top) && j <= i
    ensures Path(before, hs, top, i) <= Path(before, hs, top, j) < Next(hs, Path(before, hs, top, i), i)
    decreases i - j
  {
    hide Path, Walk, Next;
    var r := Path(before, hs, top, i);
    if i > top {
      AboveTop(before, hs, top, i);
    } else {
      PathFacts(before, hs, top, i);
      if j < i {
        PathStep(before, hs, top, j);
        PathBracket(before, hs, top, i, j + 1);
        WalkBound(before, hs, j, Path(before, hs, top, j + 1), Next(hs, r, i));
      }
    }
  }

  /** All or nothing: a node right behind the final stop is the successor of the stop of level i
      exactly for the levels it takes part in. */
  lemma TargetLinked(before: seq<bool>, hs: seq<int>, top: nat, i: nat)
    requires |before| == |hs| && Shape(hs, top)
    requires Path(before, hs, top, 0) + 1 < |hs|
    ensures var t := Path(before, hs, top, 0) + 1;
      Next(hs, Path(before, hs, top, i), i) == t <==> hs[t] >= i
  {
    hide Path, Next, Shape;
    PathBracket(before, hs, top, i, 0);
  }

  /** The stop of level i is the only node of that level at or before the final stop whose
      successor lies behind it. */
  lemma OnlyPredecessor(before: seq<bool>, hs: seq<int>, top: nat, i: nat, p: nat)
    requires |before| == |hs| && Shape(hs, top)
    requires p <= Path(before, hs, top, 0) && hs[p] >= i
    ensures Next(hs, p, i) > Path(before, hs, top, 0) <==> p == Path(before, hs, top, i)
  {
    hide Path, Next;
    PathBracket(before, hs, top, i, 0);
    if i <= top {
      PathFacts(before, hs, top, i);
    } else {
      AboveTop(before, hs, top, i);
    }
  }

  // ----- the search is exact -----

  /** Exactly the nodes ahead of position t are before the target. */
  predicate SplitAt(before: seq<bool>, t: nat) {
    forall p :: 1 <= p < |before| ==> (before[p] <==> p < t)
  }

  lemma SplitFound(before: seq<bool>, hs: seq<int>, top: nat, t: nat)
    requires |before| == |hs| && Shape(hs, top) && 1 <= t <= |hs|
    requires SplitAt(before, t)
    ensures Path(before, hs, top, 0) + 1 == t
  {
    PathFacts(before, hs, top, 0);
  }

  /** Position t is found for every choice of heights. */
  ghost predicate AlwaysFound(before: seq<bool>, t: nat)
    requires |before| > 0
  {
    forall hs: seq<int>, top: nat :: |hs| == |before| && Shape(hs, top) ==> Path(before, hs, top, 0) + 1 == t
  }

  /** A search is sure to stop in front of t, whatever the random heights, exactly when the nodes
      ahead of t are the ones before the target. */
  lemma SearchExact(before: seq<bool>, t: nat)
    requires 1 <= t <= |before|
    ensures AlwaysFound(before, t) <==> SplitAt(before, t)
  {
    if SplitAt(before, t) {
      forall hs: seq<int>, top: nat | |hs| == |before| && Shape(hs, top)
        ensures Path(before, hs, top, 0) + 1 == t
      {
        SplitFound(before, hs, top, t);
      }
    } else {
      var x :| 1 <= x < |before| && before[x] != (x < t);
      var hs := seq(|before|, p => if p == 0 then MAX_LEVEL else if p == x then 1 else 0);
      if before[x] {
        // one tall node behind t: the walk on level 1 jumps past t
        assert Shape(hs, 1);
        NextUnique(hs, 0, 1, x);
        assert Path(before, hs, 1, 1) == Walk(before, hs, 1, 0) >= x by {
          assert Path(before, hs, 1, 2) == 0;
        }
        assert Path(before, hs, 1, 0) >= x;
      } else {
        // all heights zero: the walk cannot pass x
        var flat := hs[x := 0];
        assert Shape(flat, 0);
        WalkBound(before, flat, 0, 0, x);
        assert Path(before, flat, 0, 1) == 0;
        assert Path(before, flat, 0, 0) < x;
      }
    }
  }

  /** Position t is missed for every choice of heights. */
  ghost predicate NeverFound(before: seq<bool>, t: nat)
    requires |before| > 0
  {
    forall hs: seq<int>, top: nat :: |hs| == |before| && Shape(hs, top) ==> Path(before, hs, top, 0) + 1 != t
  }

  /** Some heights let the search stop in front of t exactly when the node ahead of t is before the
      target and t is not. */
  lemma MissExact(before: seq<bool>, t: nat)
    requires 1 <= t < |before|
    ensures NeverFound(before, t) <==> before[t] || (t > 1 && !before[t - 1])
  {
    if before[t] || (t > 1 && !before[t - 1]) {
      forall hs: seq<int>, top: nat | |hs| == |before| && Shape(hs, top)
        ensures Path(before, hs, top, 0) + 1 != t
      {
        PathFacts(before, hs, top, 0);
        if Path(before, hs, top, 0) + 1 == t { NextUnique(hs, t - 1, 0, t); }
      }
    } else {
      LeapFinds(before, t);
    }
  }

  lemma LeapFinds(before: seq<bool>, t: nat)
    requires 1 <= t < |before| && !before[t] && (t > 1 ==> before[t - 1])
    ensures !NeverFound(before, t)
  {
    var hs := seq(|before|, p => if p == 0 then MAX_LEVEL else if p == t - 1 then 1 else 0);
    assert Shape(hs, 1);
    LeapPath(before, hs, t);
  }

  /** One tall node right ahead of t carries the search there, whatever lies between. */
  lemma LeapPath(before: seq<bool>, hs: seq<int>, t: nat)
    requires 1 <= t < |before| == |hs| && !before[t] && (t > 1 ==> before[t - 1])
    requires hs[t] >= 0 && hs[t - 1] >= 1 && forall p :: 1 <= p < |hs| && p != t - 1 ==> hs[p] < 1
    ensures Path(before, hs, 1, 0) + 1 == t
  {
    hide Path, Walk, Next;
    PathEnds(before, hs, 1);
    PathStep(before, hs, 1, 1);
    PathStep(before, hs, 1, 0);
    NextUnique(hs, t - 1, 1, |hs|);
    NextUnique(hs, t - 1, 0, t);
    WalkStep(before, hs, 1, t - 1);
    WalkStep(before, hs, 0, t - 1);
    if t > 1 {
      NextUnique(hs, 0, 1, t - 1);
      WalkStep(before, hs, 1, 0);
    }
  }

  // ----- heights after an insertion or a removal -----

  lemma NextInserted(hs: seq<int>, t: nat, lvl: int, p: nat, i: int)
    requires 1 <= t <= |hs| && p <= |hs|
    ensures var hs' := Inserted(hs, t, lvl);
      Next(hs', p, i) ==
        if p < t then
          var q := Next(hs, p, i); if q < t then q else if lvl >= i then t else q + 1
        else Next(hs, p - 1, i) + 1
  {
    var hs' := Inserted(hs, t, lvl);
    var q := if p < t then Next(hs, p, i) else Next(hs, p - 1, i);
    assert forall r :: t < r <= |hs| ==> hs'[r] == hs[r - 1];
    assert forall r :: 0 <= r < t ==> hs'[r] == hs[r];
    NextUnique(hs', p, i, if p < t then if q < t then q else if lvl >= i then t else q + 1 else q + 1);
  }

  lemma NextRemoved(hs: seq<int>, t: nat, p: nat, i: int)
    requires 1 <= t < |hs| && p < |hs| - 1
    ensures var hs' := Removed(hs, t);
      Next(hs', p, i) ==
        if p < t then
          var q := Next(hs, p, i); if q < t then q else if q == t then Next(hs, t, i) - 1 else q - 1
        else Next(hs, p + 1, i) - 1
  {
    var hs' := Removed(hs, t);
    var q := if p < t then Next(hs, p, i) else Next(hs, p + 1, i);
    var u := Next(hs, t, i);
    assert forall r :: t <= r < |hs'| ==> hs'[r] == hs[r + 1];
    assert forall r :: 0 <= r < t ==> hs'[r] == hs[r];
    NextUnique(hs', p, i, if p < t then if q < t then q else if q == t then u - 1 else q - 1 else q - 1);
  }

  // ----- levels as subsequences -----

  /** Positions after p of height at least i, in order. */
  function Level(hs: seq<int>, p: nat, i: int): seq<nat>
    requires p <= |hs|
    decreases |hs| - p
  {
    if p == |hs| then []
    else (if hs[p] >= i then [p] else []) + Level(hs, p + 1, i)
  }

  /** Following Next from p lists exactly the positions behind p of that height. */
  lemma {:induction false} LevelStep(hs: seq<int>, p: nat, i: int)
    requires p < |hs|
    ensures var q := Next(hs, p, i);
      Level(hs, p + 1, i) == if q == |hs| then [] else [q] + Level(hs, q + 1, i)
    decreases |hs| - p
  {
    if p + 1 < |hs| && hs[p + 1] < i {
      LevelStep(hs, p + 1, i);
      assert [] + Level(hs, p + 2, i) == Level(hs, p + 2, i);
    }
  }

  /** A level holds the positions of sufficient height, no others, in increasing order. */
  lemma {:induction false} LevelPositions(hs: seq<int>, p: nat, i: int)
    requires p <= |hs|
    ensures forall q: nat :: q in Level(hs, p, i) <==> p <= q < |hs| && hs[q] >= i
    ensures forall j, k :: 0 <= j < k < |Level(hs, p, i)| ==> Level(hs, p, i)[j] < Level(hs, p, i)[k]
    decreases |hs| - p
  {
    if p < |hs| {
      var rest := Level(hs, p + 1, i);
      LevelPositions(hs, p + 1, i);
      if hs[p] >= i {
        assert Level(hs, p, i) == [p] + rest;
        assert forall k :: 0 <= k < |rest| ==> rest[k] in rest;
      } else {
        assert Level(hs, p, i) == rest;
      }
    }
  }
}
