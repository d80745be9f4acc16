// A skip list: members ordered by score, threaded on up to seventeen levels of random height.
module Skiplists {
  import opened Bytes
  import opened Sequences
  import opened SkipPath

  class SkiplistNode {
    const member: Text
    const score: int
    const forward: array<SkiplistNode?>

    constructor (member: Text, score: int, level: nat)
      ensures this.member == member && this.score == score
      ensures fresh(forward) && forward.Length == level + 1
      ensures forall i :: 0 <= i <= level ==> forward[i] == null
    {
      this.member, this.score := member, score;
      forward := new SkiplistNode?[level + 1](i => null);
    }
  }

  /** What a descent looks for: a score, or a member at a score. */
  datatype Target = ByScore(score: int) | ByKey(score: int, member: Text)

  /** The loop guards of Insert, and of Delete and Search. */
  predicate Before(n: SkiplistNode, t: Target) {
    match t
    case ByScore(score) => n.score < score
    case ByKey(score, member) => n.score < score || (n.score == score && Less(n.member, member))
  }

  function Befores(all: seq<SkiplistNode>, t: Target): (bs: seq<bool>)
    ensures |bs| == |all|
  {
    seq(|all|, p requires 0 <= p < |all| => Before(all[p], t))
  }

  /** Heights never change once a node exists. */
  function Heights(all: seq<SkiplistNode>): (hs: seq<int>)
    ensures |hs| == |all|
  {
    seq(|all|, p requires 0 <= p < |all| => all[p].forward.Length - 1)
  }

  function NodeAt(all: seq<SkiplistNode>, p: nat): SkiplistNode? {
    if p < |all| then all[p] else null
  }

  /** No two nodes share a forward array. */
  predicate Separate(all: seq<SkiplistNode>) {
    forall p, q :: 0 <= p < q < |all| ==> all[p].forward != all[q].forward
  }

  /** Every forward pointer leads to the next node tall enough for its level. */
  ghost predicate Links(all: seq<SkiplistNode>)
    reads set n | n in all :: n.forward
  {
    forall p, i {:trigger all[p].forward[i]} :: 0 <= p < |all| && 0 <= i < all[p].forward.Length ==>
      all[p].forward[i] == NodeAt(all, Next(Heights(all), p, i))
  }

  lemma LinkAt(all: seq<SkiplistNode>, p: nat, i: nat)
    requires Links(all) && p < |all| && i < all[p].forward.Length
    ensures all[p].forward[i] == NodeAt(all, Next(Heights(all), p, i))
  {
  }

  predicate SortedByScore(nodes: seq<SkiplistNode>) {
    forall j, k :: 0 <= j < k < |nodes| ==> nodes[j].score <= nodes[k].score
  }

  /** The level of a list is the height of its tallest node. */
  predicate Tight(hs: seq<int>, level: int) {
    level == 0 || exists p :: 1 <= p < |hs| && hs[p] == level
  }

  /** The index of the first node whose score is not below the given one. */
  function LowerBound(nodes: seq<SkiplistNode>, score: int): (k: nat)
    ensures k <= |nodes|
    ensures forall j :: 0 <= j < k ==> nodes[j].score < score
    ensures k < |nodes| ==> nodes[k].score >= score
  {
    if nodes == [] || nodes[0].score >= score then 0 else 1 + LowerBound(nodes[1..], score)
  }

  // ----- pointers after an insertion or a removal -----

  /** The pointers in the middle of a splice: levels below done go through the new node n. */
  ghost predicate Spliced(all: seq<SkiplistNode>, u: seq<nat>, n: SkiplistNode, done: nat)
    requires |u| <= n.forward.Length && done <= |u|
    reads n.forward, set m | m in all :: m.forward
  {
    && (forall j {:trigger n.forward[j]} :: 0 <= j < done ==>
          u[j] < |all| && n.forward[j] == NodeAt(all, Next(Heights(all), u[j], j)))
    && (forall p, j {:trigger all[p].forward[j]} :: 0 <= p < |all| && 0 <= j < all[p].forward.Length ==>
          all[p].forward[j] ==
            if j < done && p == u[j] then n else NodeAt(all, Next(Heights(all), p, j)))
  }

  /** The pointers in the middle of an unlinking: levels below done skip position t. */
  ghost predicate Bypassed(all: seq<SkiplistNode>, u: seq<nat>, t: nat, done: nat)
    requires t < |all| && done <= |u|
    reads set m | m in all :: m.forward
  {
    forall p, j {:trigger all[p].forward[j]} :: 0 <= p < |all| && 0 <= j < all[p].forward.Length ==>
      all[p].forward[j] ==
        if j < done && p == u[j] && Heights(all)[t] >= j then NodeAt(all, Next(Heights(all), t, j))
        else NodeAt(all, Next(Heights(all), p, j))
  }

  /** The stops of the descent, level by level; above the top they are all the head. */
  function Stops(bs: seq<bool>, hs: seq<int>, top: nat, count: nat): (u: seq<nat>)
    requires |bs| == |hs| > 0
    ensures |u| == count
    ensures forall j :: 0 <= j < count ==> u[j] == Path(bs, hs, top, j)
  {
    seq(count, j requires 0 <= j < count => Path(bs, hs, top, j))
  }

  /** One pointer after an insertion. */
  lemma LinkAfterInsert(all: seq<SkiplistNode>, bs: seq<bool>, top: nat, n: SkiplistNode, p: nat, j: nat)
    requires |bs| == |all| && Shape(Heights(all), top) && n.forward.Length >= 1
    requires Spliced(all, Stops(bs, Heights(all), top, n.forward.Length), n, n.forward.Length)
    requires var all' := Inserted(all, Path(bs, Heights(all), top, 0) + 1, n);
      p < |all'| && j < all'[p].forward.Length
    ensures var all' := Inserted(all, Path(bs, Heights(all), top, 0) + 1, n);
      all'[p].forward[j] == NodeAt(all', Next(Heights(all'), p, j))
  {
    hide Path, Next, Inserted, Spliced, Heights;
    var hs, lvl := Heights(all), n.forward.Length - 1;
    var t := Path(bs, hs, top, 0) + 1;
    HeightsInserted(all, t, n);
    NextInserted(hs, t, lvl, p, j);
    InsertedAt(all, t, n, p, Next(hs, if p < t then p else p - 1, j));
    if p < t {
      InsertAhead(all, bs, top, n, p, j);
    } else if p == t {
      InsertNew(all, bs, top, n, j);
    } else {
      InsertBehind(all, bs, top, n, p - 1, j);
    }
  }

  lemma HeightsInserted(all: seq<SkiplistNode>, t: nat, n: SkiplistNode)
    requires t <= |all|
    ensures Heights(Inserted(all, t, n)) == Inserted(Heights(all), t, n.forward.Length - 1)
  {
  }

  lemma LinksAfterInsert(all: seq<SkiplistNode>, bs: seq<bool>, top: nat, n: SkiplistNode)
    requires |bs| == |all| && Shape(Heights(all), top) && n.forward.Length >= 1
    requires Spliced(all, Stops(bs, Heights(all), top, n.forward.Length), n, n.forward.Length)
    ensures Links(Inserted(all, Path(bs, Heights(all), top, 0) + 1, n))
  {
    hide Path, Next, Inserted, Spliced, Heights, Stops, NodeAt;
    var all' := Inserted(all, Path(bs, Heights(all), top, 0) + 1, n);
    forall p, j {:trigger all'[p].forward[j]} | 0 <= p < |all'| && 0 <= j < all'[p].forward.Length
      ensures all'[p].forward[j] == NodeAt(all', Next(Heights(all'), p, j))
    {
      LinkAfterInsert(all, bs, top, n, p, j);
    }
  }

  /** Where positions p and q of a sequence go when n is inserted at t. */
  lemma InsertedAt(all: seq<SkiplistNode>, t: nat, n: SkiplistNode, p: nat, q: nat)
    requires 1 <= t <= |all| && p <= |all| && q <= |all|
    ensures var all' := Inserted(all, t, n);
      && all'[p] == (if p < t then all[p] else if p == t then n else all[p - 1])
      && NodeAt(all', t) == n
      && NodeAt(all, q) == NodeAt(all', if q < t then q else q + 1)
  {
  }

  lemma InsertNew(all: seq<SkiplistNode>, bs: seq<bool>, top: nat, n: SkiplistNode, j: nat)
    requires |bs| == |all| && Shape(Heights(all), top) && j < n.forward.Length
    requires Spliced(all, Stops(bs, Heights(all), top, n.forward.Length), n, n.forward.Length)
    ensures var q := Next(Heights(all), Path(bs, Heights(all), top, 0), j);
      n.forward[j] == NodeAt(all, q) && q > Path(bs, Heights(all), top, 0)
  {
    NextAcross(bs, Heights(all), top, j);
    PathBracket(bs, Heights(all), top, j, 0);
  }

  lemma InsertBehind(all: seq<SkiplistNode>, bs: seq<bool>, top: nat, n: SkiplistNode, p: nat, j: nat)
    requires |bs| == |all| && Shape(Heights(all), top) && n.forward.Length >= 1
    requires Spliced(all, Stops(bs, Heights(all), top, n.forward.Length), n, n.forward.Length)
    requires Path(bs, Heights(all), top, 0) < p < |all| && j < all[p].forward.Length
    ensures all[p].forward[j] == NodeAt(all, Next(Heights(all), p, j))
  {
    PathBracket(bs, Heights(all), top, j, 0);
  }

  lemma InsertAhead(all: seq<SkiplistNode>, bs: seq<bool>, top: nat, n: SkiplistNode, p: nat, j: nat)
    requires |bs| == |all| && Shape(Heights(all), top) && n.forward.Length >= 1
    requires Spliced(all, Stops(bs, Heights(all), top, n.forward.Length), n, n.forward.Length)
    requires p <= Path(bs, Heights(all), top, 0) && j < all[p].forward.Length
    ensures var q, t := Next(Heights(all), p, j), Path(bs, Heights(all), top, 0) + 1;
      all[p].forward[j] == if q >= t && n.forward.Length > j then n else NodeAt(all, q)
  {
    assert Heights(all)[p] >= j;
    OnlyPredecessor(bs, Heights(all), top, j, p);
  }

  /** The stop of level j and the last node passed have the same successor on level j. */
  lemma NextAcross(bs: seq<bool>, hs: seq<int>, top: nat, j: nat)
    requires |bs| == |hs| && Shape(hs, top)
    ensures Next(hs, Path(bs, hs, top, j), j) == Next(hs, Path(bs, hs, top, 0), j)
  {
    PathBracket(bs, hs, top, j, 0);
    NextUnique(hs, Path(bs, hs, top, 0), j, Next(hs, Path(bs, hs, top, j), j));
  }

  lemma RemovedAt(all: seq<SkiplistNode>, t: nat, p: nat, q: nat)
    requires 1 <= t < |all| && p < |all| - 1 && q <= |all| && q != t
    ensures var all' := Removed(all, t);
      && all'[p] == (if p < t then all[p] else all[p + 1])
      && NodeAt(all, q) == NodeAt(all', if q < t then q else q - 1)
  {
  }

  lemma HeightsRemoved(all: seq<SkiplistNode>, t: nat)
    requires t < |all|
    ensures Heights(Removed(all, t)) == Removed(Heights(all), t)
  {
  }

  /** A pointer ahead of the removed node at t. */
  lemma RemoveAhead(all: seq<SkiplistNode>, bs: seq<bool>, top: nat, t: nat, p: nat, j: nat)
    requires |bs| == |all| && Shape(Heights(all), top)
    requires t == Path(bs, Heights(all), top, 0) + 1 < |all| && p < t && j < all[p].forward.Length
    requires Bypassed(all, Stops(bs, Heights(all), top, top + 1), t, top + 1)
    ensures var q := Next(Heights(all), p, j);
      all[p].forward[j] == NodeAt(all, if q == t then Next(Heights(all), t, j) else q)
  {
    assert Heights(all)[p] >= j;
    OnlyPredecessor(bs, Heights(all), top, j, p);
    TargetLinked(bs, Heights(all), top, j);
    if j > top {
      AboveTop(bs, Heights(all), top, j);
    }
  }

  lemma RemoveBehind(all: seq<SkiplistNode>, bs: seq<bool>, top: nat, t: nat, p: nat, j: nat)
    requires |bs| == |all| && Shape(Heights(all), top)
    requires t == Path(bs, Heights(all), top, 0) + 1 <= p < |all| && j < all[p].forward.Length
    requires Bypassed(all, Stops(bs, Heights(all), top, top + 1), t, top + 1)
    ensures all[p].forward[j] == NodeAt(all, Next(Heights(all), p, j))
  {
    PathBracket(bs, Heights(all), top, j, 0);
  }

  /** One pointer after a removal. */
  lemma LinkAfterRemove(all: seq<SkiplistNode>, bs: seq<bool>, top: nat, t: nat, p: nat, j: nat)
    requires |bs| == |all| && Shape(Heights(all), top)
    requires t == Path(bs, Heights(all), top, 0) + 1 < |all|
    requires Bypassed(all, Stops(bs, Heights(all), top, top + 1), t, top + 1)
    requires p < |all| - 1 && j < Removed(all, t)[p].forward.Length
    ensures var all' := Removed(all, t);
      all'[p].forward[j] == NodeAt(all', Next(Heights(all'), p, j))
  {
    hide Path, Removed, Bypassed, Heights, Stops, NodeAt;
    var hs := Heights(all);
    HeightsRemoved(all, t);
    NextRemoved(hs, t, p, j);
    var q := Next(hs, if p < t then p else p + 1, j);
    var q' := if q == t then Next(hs, t, j) else q;
    RemovedAt(all, t, p, q');
    if p < t {
      RemoveAhead(all, bs, top, t, p, j);
    } else {
      RemoveBehind(all, bs, top, t, p + 1, j);
    }
  }

  lemma LinksAfterRemove(all: seq<SkiplistNode>, bs: seq<bool>, top: nat, t: nat)
    requires |bs| == |all| && Shape(Heights(all), top)
    requires t == Path(bs, Heights(all), top, 0) + 1 < |all|
    requires Bypassed(all, Stops(bs, Heights(all), top, top + 1), t, top + 1)
    ensures Links(Removed(all, t))
  {
    hide Path, Next, Removed, Bypassed, Heights, Stops, NodeAt;
    var all' := Removed(all, t);
    forall p, j {:trigger all'[p].forward[j]} | 0 <= p < |all'| && 0 <= j < all'[p].forward.Length
      ensures all'[p].forward[j] == NodeAt(all', Next(Heights(all'), p, j))
    {
      LinkAfterRemove(all, bs, top, t, p, j);
    }
  }

  lemma PositionUnique(all: seq<SkiplistNode>, t: nat, q: nat)
    requires Separate(all) && t < |all|
    ensures NodeAt(all, q) == all[t] <==> q == t
  {
    if q < |all| && q != t {
      var lo, hi := if q < t then q else t, if q < t then t else q;
      assert all[lo].forward != all[hi].forward;
    }
  }

  lemma SpliceStart(all: seq<SkiplistNode>, u: seq<nat>, n: SkiplistNode)
    requires Links(all) && |u| <= n.forward.Length
    ensures Spliced(all, u, n, 0)
  {
  }

  lemma BypassStart(all: seq<SkiplistNode>, u: seq<nat>, t: nat)
    requires Links(all) && t < |all|
    ensures Bypassed(all, u, t, 0)
  {
  }

  /** Before level i is handled, its stop points at the target exactly when the target is that tall. */
  lemma StopLink(all: seq<SkiplistNode>, bs: seq<bool>, top: nat, t: nat, i: nat, u: seq<nat>)
    requires |bs| == |all| && Shape(Heights(all), top) && Separate(all) && i <= top
    requires t == Path(bs, Heights(all), top, 0) + 1 < |all|
    requires u == Stops(bs, Heights(all), top, top + 1) && Bypassed(all, u, t, i)
    ensures u[i] == Path(bs, Heights(all), top, i) < t && i < all[u[i]].forward.Length
    ensures Heights(all)[t] == all[t].forward.Length - 1
    ensures all[u[i]].forward[i] == all[t] <==> Heights(all)[t] >= i
    ensures i < all[t].forward.Length ==> all[t].forward[i] == NodeAt(all, Next(Heights(all), t, i))
  {
    TargetLinked(bs, Heights(all), top, i);
    PathFacts(bs, Heights(all), top, i);
    PathBracket(bs, Heights(all), top, i, 0);
    PositionUnique(all, t, Next(Heights(all), u[i], i));
  }

  // ----- insertion keeps a list well formed -----

  lemma InsertPosition(head: SkiplistNode, nodes: seq<SkiplistNode>, score: int, top: nat)
    requires SortedByScore(nodes) && Shape(Heights([head] + nodes), top)
    ensures Path(Befores([head] + nodes, ByScore(score)), Heights([head] + nodes), top, 0) == LowerBound(nodes, score)
  {
    var all, k := [head] + nodes, LowerBound(nodes, score);
    var bs := Befores(all, ByScore(score));
    assert SplitAt(bs, k + 1) by {
      forall p | 1 <= p < |bs| ensures bs[p] <==> p < k + 1 {
        assert all[p] == nodes[p - 1];
        if p > k + 1 {
          assert nodes[k].score <= nodes[p - 1].score;
        }
      }
    }
    SplitFound(bs, Heights(all), top, k + 1);
  }

  lemma InsertedSorted(nodes: seq<SkiplistNode>, n: SkiplistNode)
    requires SortedByScore(nodes)
    ensures SortedByScore(Inserted(nodes, LowerBound(nodes, n.score), n))
  {
    var k := LowerBound(nodes, n.score);
    var nodes' := Inserted(nodes, k, n);
    forall i, j | 0 <= i < j < |nodes'| ensures nodes'[i].score <= nodes'[j].score {
      assert j > k ==> nodes'[j] == nodes[j - 1];
      assert i > k ==> nodes'[i] == nodes[i - 1];
      assert j > k ==> nodes[k].score <= nodes[j - 1].score;
    }
  }

  lemma InsertedShape(hs: seq<int>, top: nat, t: nat, lvl: nat)
    requires Shape(hs, top) && Tight(hs, top) && 1 <= t <= |hs| && lvl <= MAX_LEVEL
    ensures var top', hs' := if lvl > top then lvl else top, Inserted(hs, t, lvl);
      Shape(hs', top') && Tight(hs', top')
  {
    var top', hs' := if lvl > top then lvl else top, Inserted(hs, t, lvl);
    assert hs'[t] == lvl;
    if top' == top > 0 {
      var p :| 1 <= p < |hs| && hs[p] == top;
      assert hs'[if p < t then p else p + 1] == top;
    }
  }

  lemma InsertedSeparate(all: seq<SkiplistNode>, t: nat, n: SkiplistNode)
    requires Separate(all) && t <= |all|
    requires forall p :: 0 <= p < |all| ==> all[p].forward != n.forward
    ensures Separate(Inserted(all, t, n))
  {
    var all' := Inserted(all, t, n);
    assert forall p :: t < p < |all'| ==> all'[p] == all[p - 1];
  }

  // ----- removal keeps a list well formed -----

  lemma RemovedShape(hs: seq<int>, top: nat, t: nat)
    requires Shape(hs, top) && 1 <= t < |hs|
    ensures Shape(Removed(hs, t), top)
  {
    var hs' := Removed(hs, t);
    assert forall p :: t <= p < |hs'| ==> hs'[p] == hs[p + 1];
  }

  lemma RemovedSeparate(all: seq<SkiplistNode>, t: nat)
    requires Separate(all) && t < |all|
    ensures Separate(Removed(all, t))
  {
    var all' := Removed(all, t);
    assert forall p :: t <= p < |all'| ==> all'[p] == all[p + 1];
  }

  lemma RemovedSorted(nodes: seq<SkiplistNode>, k: nat)
    requires SortedByScore(nodes) && k < |nodes|
    ensures SortedByScore(Removed(nodes, k))
  {
    var nodes' := Removed(nodes, k);
    assert forall p :: k <= p < |nodes'| ==> nodes'[p] == nodes[p + 1];
  }

  /** The list without its node k is well formed again. */
  lemma AfterRemove(head: SkiplistNode, nodes: seq<SkiplistNode>, bs: seq<bool>, top: nat, k: nat)
    requires var all := [head] + nodes;
      && |bs| == |all| && Shape(Heights(all), top) && Separate(all) && SortedByScore(nodes)
      && k == Path(bs, Heights(all), top, 0) && k < |nodes|
      && Bypassed(all, Stops(bs, Heights(all), top, top + 1), k + 1, top + 1)
    ensures var all' := [head] + Removed(nodes, k);
      && Links(all') && Shape(Heights(all'), top) && Separate(all') && SortedByScore(Removed(nodes, k))
      && (forall n :: n in Removed(nodes, k) ==> n in nodes)
  {
    hide Next, Path, Separate, Links, Shape, SortedByScore, Stops, Heights, Bypassed;
    var all := [head] + nodes;
    assert [head] + Removed(nodes, k) == Removed(all, k + 1);
    LinksAfterRemove(all, bs, top, k + 1);
    RemovedShape(Heights(all), top, k + 1);
    HeightsRemoved(all, k + 1);
    RemovedSeparate(all, k + 1);
    RemovedSorted(nodes, k);
  }

  /** The list with n in front of the first score not below its own is well formed again. */
  lemma AfterInsert(head: SkiplistNode, nodes: seq<SkiplistNode>, bs: seq<bool>, top: nat, n: SkiplistNode)
    requires var all, lvl := [head] + nodes, n.forward.Length - 1;
      && |bs| == |all| && Shape(Heights(all), top) && Tight(Heights(all), top) && Separate(all)
      && SortedByScore(nodes) && 0 <= lvl <= MAX_LEVEL
      && Path(bs, Heights(all), top, 0) == LowerBound(nodes, n.score)
      && Spliced(all, Stops(bs, Heights(all), top, lvl + 1), n, lvl + 1)
      && forall p :: 0 <= p < |all| ==> all[p].forward != n.forward
    ensures var lvl := n.forward.Length - 1;
      var nodes' := Inserted(nodes, LowerBound(nodes, n.score), n);
      var all', top' := [head] + nodes', if lvl > top then lvl else top;
      && Links(all') && Shape(Heights(all'), top') && Tight(Heights(all'), top')
      && Separate(all') && SortedByScore(nodes')
      && (forall m :: m in nodes' <==> m == n || m in nodes)
  {
    hide Next, Path, Separate, Links, Spliced, Shape, Tight, SortedByScore, Stops, Heights, LowerBound;
    var all, k := [head] + nodes, LowerBound(nodes, n.score);
    assert [head] + Inserted(nodes, k, n) == Inserted(all, k + 1, n);
    LinksAfterInsert(all, bs, top, n);
    InsertedShape(Heights(all), top, k + 1, n.forward.Length - 1);
    HeightsInserted(all, k + 1, n);
    InsertedSeparate(all, k + 1, n);
    InsertedSorted(nodes, n);
  }

  /** The top level is in use exactly when the head has a successor there. */
  lemma TopInUse(all: seq<SkiplistNode>, level: nat)
    requires Links(all) && Shape(Heights(all), level) && level > 0
    ensures level < all[0].forward.Length
    ensures if all[0].forward[level] == null then Shape(Heights(all), level - 1) else Tight(Heights(all), level)
  {
    var hs := Heights(all);
    assert hs[0] == MAX_LEVEL;
    var q := Next(hs, 0, level);
    assert all[0].forward[level] == NodeAt(all, q);
    if q < |hs| {
      assert hs[q] == level;
    }
  }

  /** Every stop takes part in its level. */
  lemma StopsFit(all: seq<SkiplistNode>, bs: seq<bool>, top: nat, lvl: nat)
    requires |bs| == |all| && Shape(Heights(all), top) && lvl <= MAX_LEVEL
    ensures forall j :: 0 <= j <= lvl ==>
      var p := Path(bs, Heights(all), top, j); p < |all| && j < all[p].forward.Length && (j > top ==> p == 0)
  {
    forall j | 0 <= j <= lvl
      ensures var p := Path(bs, Heights(all), top, j); p < |all| && j < all[p].forward.Length && (j > top ==> p == 0)
    {
      if j <= top {
        PathFacts(bs, Heights(all), top, j);
      } else {
        AboveTop(bs, Heights(all), top, j);
        assert Heights(all)[0] == MAX_LEVEL;
      }
    }
  }

  predicate Matches(n: SkiplistNode, member: Text, score: int) {
    n.member == member && n.score == score
  }

  /** The list without the node at position p, if that is the one asked for. */
  function Deleted(nodes: seq<SkiplistNode>, p: nat, member: Text, score: int): seq<SkiplistNode> {
    if p < |nodes| && Matches(nodes[p], member, score) then Removed(nodes, p) else nodes
  }

  lemma ZeroTight(hs: seq<int>)
    ensures Tight(hs, 0)
  {
  }

  /** Level 0 threads every node. */
  lemma LevelZero(all: seq<SkiplistNode>, top: nat, p: nat)
    requires Links(all) && Shape(Heights(all), top) && p < |all|
    ensures all[p].forward.Length > 0 && all[p].forward[0] == NodeAt(all, p + 1)
  {
    assert Heights(all)[p] >= 0;
    assert all[p].forward[0] == NodeAt(all, Next(Heights(all), p, 0));
  }

  lemma FinalStep(all: seq<SkiplistNode>, bs: seq<bool>, top: nat)
    requires Links(all) && |bs| == |all| && Shape(Heights(all), top)
    ensures var n := all[Path(bs, Heights(all), top, 0)];
      n.forward.Length > 0 && n.forward[0] == NodeAt(all, Path(bs, Heights(all), top, 0) + 1)
    ensures top <= MAX_LEVEL && all[0].forward.Length == MAX_LEVEL + 1
  {
    assert Heights(all)[0] == MAX_LEVEL;
    LevelZero(all, top, Path(bs, Heights(all), top, 0));
  }

  class Skiplist {
    var level: int
    const head: SkiplistNode
    ghost var nodes: seq<SkiplistNode>  // level 0, without the head

    ghost function All(): (all: seq<SkiplistNode>)
      reads this
    {
      [head] + nodes
    }

    ghost function Arrays(): set<object>
      reads this
    {
      set n | n in All() :: n.forward
    }

    ghost predicate Valid()
      reads this, Arrays()
    {
      && level >= 0
      && Shape(Heights(All()), level)
      && Tight(Heights(All()), level)
      && Separate(All())
      && Links(All())
      && SortedByScore(nodes)
    }

    constructor ()
      ensures Valid() && nodes == [] && fresh(Arrays())
    {
      level := 0;
      head := new SkiplistNode(ROOT, -1, MAX_LEVEL);
      nodes := [];
    }

    /** The position where a search for t ends: the number of nodes it has passed. */
    ghost function Position(t: Target): nat
      reads this
      requires level >= 0
    {
      Path(Befores(All(), t), Heights(All()), level, 0)
    }

    /** The top-down walk shared by Insert, Delete and Search, recording where it leaves each level. */
    method Descend(t: Target) returns (updates: array<SkiplistNode?>)
      requires Valid()
      ensures fresh(updates) && updates.Length == MAX_LEVEL + 1
      ensures forall i {:trigger updates[i]} :: 0 <= i <= level ==>
        updates[i] == All()[Path(Befores(All(), t), Heights(All()), level, i)]
    {
      hide Links, Separate, SortedByScore, Tight, Path, Walk, Next;
      updates := new SkiplistNode?[MAX_LEVEL + 1](i => null);
      ghost var all, bs, hs := All(), Befores(All(), t), Heights(All());
      var current := head;
      ghost var p := 0;
      var i := level;
      PathEnds(bs, hs, level);
      while i >= 0
        invariant -1 <= i <= level
        invariant p == Path(bs, hs, level, i + 1) && current == all[p]
        invariant Links(all)
        invariant forall j {:trigger updates[j]} :: i < j <= level ==> updates[j] == all[Path(bs, hs, level, j)]
      {
        PathFacts(bs, hs, level, i + 1);
        PathEnds(bs, hs, level);
        PathStep(bs, hs, level, i);
        while current.forward[i] != null && Before(current.forward[i], t)
          invariant p < |all| && current == all[p] && hs[p] >= i
          invariant Walk(bs, hs, i, p) == Path(bs, hs, level, i)
          invariant forall j {:trigger updates[j]} :: i < j <= level ==> updates[j] == all[Path(bs, hs, level, j)]
          decreases |all| - p
        {
          WalkStep(bs, hs, i, p);
          LinkAt(all, p, i);
          p := Next(hs, p, i);
          current := current.forward[i];
        }
        WalkStep(bs, hs, i, p);
        LinkAt(all, p, i);
        updates[i] := current;
        i := i - 1;
      }
    }

    /** Any number of promotions up to the maximum can come out of the coin tosses. */
    method RandomLevel() returns (lvl: nat)
      ensures lvl <= 16
    {
      lvl := 0;
      var heads: bool := *;
      while heads && lvl < MAX_LEVEL
        invariant lvl <= MAX_LEVEL
        decreases MAX_LEVEL - lvl
      {
        lvl := lvl + 1;
        heads := *;
      }
    }

    /** Threads n into every level it takes part in, behind the recorded stops. */
    method Splice(n: SkiplistNode, updates: array<SkiplistNode?>, ghost all: seq<SkiplistNode>, ghost u: seq<nat>)
      requires |u| == n.forward.Length <= updates.Length
      requires Separate(all) && Links(all) && n !in all
      requires n.forward != updates
      requires forall p :: 0 <= p < |all| ==> n.forward != all[p].forward && updates != all[p].forward
      requires forall j :: 0 <= j < |u| ==> u[j] < |all| && updates[j] == all[u[j]] && j < all[u[j]].forward.Length
      modifies n.forward, set m | m in all :: m.forward
      ensures Spliced(all, u, n, |u|)
    {
      hide Next, Heights, NodeAt, Spliced, Separate, Links;
      SpliceStart(all, u, n);
      for i := 0 to n.forward.Length
        invariant Spliced(all, u, n, i)
        invariant forall j :: 0 <= j < |u| ==> updates[j] == all[u[j]]
      {
        SpliceAt(n, updates[i], i, all, u);
      }
    }

    /** One level: the new node goes between its stop and what the stop pointed at. */
    method SpliceAt(n: SkiplistNode, stop: SkiplistNode, i: nat, ghost all: seq<SkiplistNode>, ghost u: seq<nat>)
      requires i < |u| <= n.forward.Length && u[i] < |all| && stop == all[u[i]] && i < stop.forward.Length
      requires Separate(all) && Spliced(all, u, n, i)
      requires forall p :: 0 <= p < |all| ==> n.forward != all[p].forward
      modifies n.forward, stop.forward
      ensures Spliced(all, u, n, i + 1)
    {
      hide Next, Heights;
      assert n.forward != all[u[i]].forward;
      assert stop.forward[i] == NodeAt(all, Next(Heights(all), u[i], i));
      n.forward[i] := stop.forward[i];
      stop.forward[i] := n;
      forall j | 0 <= j < i
        ensures u[j] < |all| && n.forward[j] == NodeAt(all, Next(Heights(all), u[j], j))
      {
        assert n.forward[j] == old(n.forward[j]);
      }
    }

    /** Takes the node at position t out of every level it takes part in. */
    method Bypass(current: SkiplistNode, updates: array<SkiplistNode?>, ghost all: seq<SkiplistNode>,
                  ghost bs: seq<bool>, ghost t: nat)
      requires |bs| == |all| && 0 <= level <= MAX_LEVEL && Shape(Heights(all), level)
      requires Separate(all) && Links(all)
      requires t == Path(bs, Heights(all), level, 0) + 1 < |all| && current == all[t]
      requires updates.Length == MAX_LEVEL + 1
      requires forall p :: 0 <= p < |all| ==> updates != all[p].forward
      requires forall i {:trigger updates[i]} :: 0 <= i <= level ==>
        updates[i] == all[Path(bs, Heights(all), level, i)]
      modifies set m | m in all :: m.forward
      ensures Bypassed(all, Stops(bs, Heights(all), level, level + 1), t, level + 1)
    {
      hide Next, Path, Heights, Shape, Stops, Links, Separate, Bypassed;
      ghost var u := Stops(bs, Heights(all), level, level + 1);
      BypassStart(all, u, t);
      for i := 0 to level + 1
        invariant Bypassed(all, u, t, i)
        invariant forall j {:trigger updates[j]} :: 0 <= j <= level ==>
          updates[j] == all[Path(bs, Heights(all), level, j)]
      {
        assert updates[i] == all[Path(bs, Heights(all), level, i)];
        StopLink(all, bs, level, t, i, u);
        BypassAt(updates[i], current, i, all, u, t);
      }
    }

    /** One level: the stop skips the target if it points at it. */
    method BypassAt(stop: SkiplistNode, current: SkiplistNode, i: nat,
                    ghost all: seq<SkiplistNode>, ghost u: seq<nat>, ghost t: nat)
      requires Separate(all) && i < |u| && u[i] < t < |all| && stop == all[u[i]] && current == all[t]
      requires Bypassed(all, u, t, i) && i < stop.forward.Length
      requires Heights(all)[t] == current.forward.Length - 1
      requires stop.forward[i] == current <==> Heights(all)[t] >= i
      requires i < current.forward.Length ==> current.forward[i] == NodeAt(all, Next(Heights(all), t, i))
      modifies stop.forward
      ensures Bypassed(all, u, t, i + 1)
    {
      hide Next, Heights, NodeAt;
      if stop.forward[i] != current {
        return;
      }
      stop.forward[i] := current.forward[i];
    }

    /** Above the old top every level starts at the head. */
    method RaiseLevel(lvl: nat, updates: array<SkiplistNode?>, ghost all: seq<SkiplistNode>)
      requires lvl < updates.Length && 0 <= level && Links(all)
      requires forall p :: 0 <= p < |all| ==> updates != all[p].forward
      modifies this`level, updates
      ensures level == (if lvl > old(level) then lvl else old(level)) && Links(all)
      ensures forall j {:trigger updates[j]} :: 0 <= j < updates.Length ==>
        updates[j] == if old(level) < j <= lvl then head else old(updates[j])
    {
      hide Next, Heights, NodeAt, Links;
      ghost var top := level;
      if lvl > level {
        for i := level + 1 to lvl + 1
          invariant Links(all)
          invariant forall j {:trigger updates[j]} :: 0 <= j < updates.Length ==>
            updates[j] == if top < j < i then head else old(updates[j])
        {
          updates[i] := head;
        }
        level := lvl;
      }
    }

    method Insert(member: Text, score: int) returns (node: SkiplistNode)
      requires Valid()
      modifies this, Arrays()
      ensures Valid() && fresh(node) && fresh(node.forward)
      ensures node.member == member && node.score == score
      ensures nodes == Inserted(old(nodes), LowerBound(old(nodes), score), node)
      ensures fresh(Arrays() - old(Arrays()))
    {
      hide Next, Path, Separate, Links, Spliced, Shape, Tight, SortedByScore, Stops, Heights, LowerBound;
      ghost var all, top := All(), level;
      ghost var bs, hs := Befores(all, ByScore(score)), Heights(all);
      ghost var ns, k := nodes, LowerBound(nodes, score);
      InsertPosition(head, nodes, score, level);
      var updates := Descend(ByScore(score));
      var lvl := RandomLevel();
      RaiseLevel(lvl, updates, all);
      node := new SkiplistNode(member, score, lvl);
      StopsFit(all, bs, top, lvl);
      Splice(node, updates, all, Stops(bs, hs, top, lvl + 1));
      AfterInsert(head, ns, bs, top, node);
      hide Befores;
      nodes := Inserted(ns, k, node);
    }

    /** Removes the node the search ends at when it is the one asked for; otherwise nothing changes. */
    method Delete(member: Text, score: int)
      requires Valid()
      modifies this, Arrays()
      ensures Valid()
      ensures nodes == Deleted(old(nodes), old(Position(ByKey(score, member))), member, score)
      ensures var p, was := old(Position(ByKey(score, member))), old(nodes);
        if p < |was| && was[p].member == member && was[p].score == score
        then nodes == was[..p] + was[p + 1..] else nodes == was
      ensures Arrays() <= old(Arrays())
    {
      hide Next, Path, Separate, Links, Shape, Tight, SortedByScore, Stops, Heights, Bypassed;
      var t := ByKey(score, member);
      ghost var ns, all, top := nodes, All(), level;
      ghost var bs, hs := Befores(all, t), Heights(all);
      ghost var p := Path(bs, hs, top, 0);
      var updates := Descend(t);
      FinalStep(all, bs, top);
      var current := updates[0].forward[0];
      if current != null && current.member == member && current.score == score {
        Bypass(current, updates, all, bs, p + 1);
        AfterRemove(head, ns, bs, top, p);
        hide Removed, Befores;
        nodes := Removed(ns, p);
        LowerLevel();
      }
    }

    /** Levels that have become empty are given up. */
    method LowerLevel()
      requires 0 <= level && Shape(Heights(All()), level) && Links(All())
      modifies this`level
      ensures 0 <= level <= old(level) && Shape(Heights(All()), level) && Tight(Heights(All()), level)
    {
      hide Next, Links, Shape, Tight, Heights, NodeAt;
      ghost var all := All();
      ZeroTight(Heights(all));
      if level > 0 { TopInUse(all, level); }
      while level > 0 && head.forward[level] == null
        invariant 0 <= level <= old(level) && Shape(Heights(all), level) && Links(all)
        invariant level > 0 ==> level < head.forward.Length
        invariant level > 0 && head.forward[level] != null ==> Tight(Heights(all), level)
      {
        TopInUse(all, level);
        level := level - 1;
        if level > 0 { TopInUse(all, level); }
      }
    }

    /** The node at the end of the search when it is the one asked for. */
    method Search(member: Text, score: int) returns (found: SkiplistNode?)
      requires Valid()
      ensures var p := Position(ByKey(score, member));
        found == if p < |nodes| && nodes[p].member == member && nodes[p].score == score then nodes[p] else null
    {
      hide Next, Path, Separate, Links, Shape, Tight, SortedByScore, Heights;
      var t := ByKey(score, member);
      var updates := Descend(t);
      FinalStep(All(), Befores(All(), t), level);
      found := updates[0].forward[0];
      if found != null && !(found.score == score && found.member == member) {
        found := null;
      }
    }

    /** The nodes at positions start..stop of level 0. */
    method Zrange(start: int, stop: int) returns (result: seq<SkiplistNode>)
      requires Valid()
      ensures result == Window(nodes, start, stop)
      ensures var lo := if start < 0 then 0 else start;
        && |result| == (if stop < lo || lo >= |nodes| then 0
                        else (if stop < |nodes| then stop + 1 else |nodes|) - lo)
        && forall j {:trigger result[j]} :: 0 <= j < |result| ==> result[j] == nodes[lo + j]
    {
      hide Next, Separate, Links, Shape, Tight, SortedByScore, Heights, Window;
      result := [];
      ghost var all := All();
      LevelZero(all, level, 0);
      var current := head.forward[0];
      var index := 0;
      while current != null && index < start
        invariant 0 <= index <= |nodes| && (index <= start || index == 0) && current == NodeAt(all, index + 1)
        decreases |nodes| - index
      {
        LevelZero(all, level, index + 1);
        current := current.forward[0];
        index := index + 1;
      }
      ghost var first := index;
      while current != null && index <= stop
        invariant first <= index <= |nodes| && current == NodeAt(all, index + 1)
        invariant index == first || index <= stop + 1
        invariant result == nodes[first..index]
        decreases |nodes| - index
      {
        LevelZero(all, level, index + 1);
        result := result + [current];
        current := current.forward[0];
        index := index + 1;
      }
      WindowAt(nodes, start, stop);
      assert result == Window(nodes, start, stop);
    }
  }

  // ----- what the levels are -----

  /** The nodes at positions ps form the chain of level i: head to first, each to the next, last to null. */
  ghost predicate Threads(all: seq<SkiplistNode>, p: nat, ps: seq<nat>, i: nat)
    requires p < |all| && forall k :: 0 <= k < |ps| ==> ps[k] < |all|
    reads set n | n in all :: n.forward
    decreases |ps|
  {
    i < all[p].forward.Length &&
    if ps == [] then all[p].forward[i] == null
    else all[p].forward[i] == all[ps[0]] && Threads(all, ps[0], ps[1..], i)
  }

  /** Level i of a list is exactly the subsequence of level 0 made of the nodes of height at least i. */
  lemma LevelIsSubsequence(sl: Skiplist, i: nat)
    requires sl.Valid() && i <= MAX_LEVEL
    ensures var ps := Level(Heights(sl.All()), 1, i);
      && (forall k :: 0 <= k < |ps| ==> ps[k] < |sl.All()|)
      && Threads(sl.All(), 0, ps, i)
      && (i > sl.level ==> ps == [] && sl.head.forward[i] == null)
  {
    var all, hs := sl.All(), Heights(sl.All());
    assert hs[0] == MAX_LEVEL;
    LevelThreads(all, 0, i);
    LevelPositions(hs, 1, i);
    var ps := Level(hs, 1, i);
    assert ps != [] ==> ps[0] in ps;
  }

  lemma {:induction false} LevelThreads(all: seq<SkiplistNode>, p: nat, i: nat)
    requires Links(all) && p < |all| && i < all[p].forward.Length
    ensures var ps := Level(Heights(all), p + 1, i);
      && (forall k :: 0 <= k < |ps| ==> ps[k] < |all|)
      && Threads(all, p, ps, i)
    decreases |all| - p
  {
    var hs := Heights(all);
    var q := Next(hs, p, i);
    LevelStep(hs, p, i);
    LinkAt(all, p, i);
    if q < |all| {
      assert hs[q] == all[q].forward.Length - 1;
      LevelThreads(all, q, i);
      assert Level(hs, p + 1, i)[1..] == Level(hs, q + 1, i);
    }
  }

  // ----- what searching by key finds -----

  predicate SortedByKey(nodes: seq<SkiplistNode>) {
    forall j, k :: 0 <= j < k < |nodes| ==> Before(nodes[j], ByKey(nodes[k].score, nodes[k].member))
  }

  /** Whatever the heights, deleting or finding node k is certain exactly when the nodes ahead of
      it, and no others, are smaller by score and then member. */
  lemma DeleteExact(head: SkiplistNode, nodes: seq<SkiplistNode>, k: nat)
    requires k < |nodes|
    ensures var key := ByKey(nodes[k].score, nodes[k].member);
      AlwaysFound(Befores([head] + nodes, key), k + 1)
      <==> forall j :: 0 <= j < |nodes| ==> (Before(nodes[j], key) <==> j < k)
  {
    var key := ByKey(nodes[k].score, nodes[k].member);
    var bs := Befores([head] + nodes, key);
    SearchExact(bs, k + 1);
    assert forall p :: 1 <= p < |bs| ==> bs[p] == Before(nodes[p - 1], key);
    if SplitAt(bs, k + 1) {
      forall j | 0 <= j < |nodes| ensures Before(nodes[j], key) <==> j < k {
        assert bs[j + 1] == Before(nodes[j], key);
      }
    }
  }

  /** Whatever the heights, node k is missed by Search and Delete exactly when the node ahead of it is
      not smaller by score and then member. */
  lemma HiddenExact(head: SkiplistNode, nodes: seq<SkiplistNode>, k: nat)
    requires k < |nodes|
    ensures var key := ByKey(nodes[k].score, nodes[k].member);
      NeverFound(Befores([head] + nodes, key), k + 1) <==> k > 0 && !Before(nodes[k - 1], key)
  {
    var key := ByKey(nodes[k].score, nodes[k].member);
    var bs := Befores([head] + nodes, key);
    LessTotal(nodes[k].member, nodes[k].member);
    assert bs[k + 1] == Before(nodes[k], key);
    assert k > 0 ==> bs[k] == Before(nodes[k - 1], key);
    MissExact(bs, k + 1);
  }

  /** An insertion in front of a node with the same score and a smaller member hides that node: from then
      on Search and Delete miss it whatever the heights. */
  lemma TiedMemberIsMissed(head: SkiplistNode, nodes: seq<SkiplistNode>, n: SkiplistNode)
    requires var k := LowerBound(nodes, n.score);
      k < |nodes| && nodes[k].score == n.score && Less(nodes[k].member, n.member)
    ensures var k := LowerBound(nodes, n.score);
      var nodes' := Inserted(nodes, k, n);
      && nodes'[k] == n && nodes'[k + 1] == nodes[k]
      && NeverFound(Befores([head] + nodes', ByKey(nodes[k].score, nodes[k].member)), k + 2)
  {
    hide LowerBound;
    var k := LowerBound(nodes, n.score);
    var nodes' := Inserted(nodes, k, n);
    assert nodes'[k] == n && nodes'[k + 1] == nodes[k];
    LessTotal(nodes[k].member, n.member);
    HiddenExact(head, nodes', k + 1);
  }

  /** Insertion goes in front of equal scores, so it keeps the order by score and member exactly
      when the node it lands in front of has another score or a greater member. */
  lemma InsertKeepsKeyOrder(nodes: seq<SkiplistNode>, n: SkiplistNode)
    requires SortedByKey(nodes)
    ensures var k := LowerBound(nodes, n.score);
      SortedByKey(Inserted(nodes, k, n))
      <==> (k < |nodes| && nodes[k].score == n.score ==> Less(n.member, nodes[k].member))
  {
    hide LowerBound, Less, SortedByKey;
    var k := LowerBound(nodes, n.score);
    if k < |nodes| {
      InsertedInFront(nodes, k, n);
    } else {
      InsertedLast(nodes, n);
    }
  }

  lemma InsertedInFront(nodes: seq<SkiplistNode>, k: nat, n: SkiplistNode)
    requires SortedByKey(nodes) && k < |nodes| && nodes[k].score >= n.score
    requires forall j :: 0 <= j < k ==> nodes[j].score < n.score
    ensures SortedByKey(Inserted(nodes, k, n))
      <==> (nodes[k].score == n.score ==> Less(n.member, nodes[k].member))
  {
    hide Less;
    var nodes' := Inserted(nodes, k, n);
    assert nodes'[k] == n && nodes'[k + 1] == nodes[k];
    if nodes[k].score == n.score ==> Less(n.member, nodes[k].member) {
      forall i, j | 0 <= i < j < |nodes'| ensures Before(nodes'[i], ByKey(nodes'[j].score, nodes'[j].member)) {
        if i == k && j > k + 1 {
          BeforeTransitive(n, nodes[k], ByKey(nodes[j - 1].score, nodes[j - 1].member));
        }
      }
    } else {
      assert !Before(nodes'[k], ByKey(nodes'[k + 1].score, nodes'[k + 1].member));
    }
  }

  lemma InsertedLast(nodes: seq<SkiplistNode>, n: SkiplistNode)
    requires SortedByKey(nodes)
    requires forall j :: 0 <= j < |nodes| ==> nodes[j].score < n.score
    ensures SortedByKey(Inserted(nodes, |nodes|, n))
  {
  }

  /** On a list sorted by score and member the search ends in front of a node exactly when a
      linear scan would find it there. */
  lemma SearchIsLinearScan(sl: Skiplist, member: Text, score: int)
    requires sl.Valid() && SortedByKey(sl.nodes)
    ensures var p := sl.Position(ByKey(score, member));
      && (forall j :: 0 <= j < |sl.nodes| && Matches(sl.nodes[j], member, score) ==> j == p)
      && (forall j :: 0 <= j < |sl.nodes| ==> (Before(sl.nodes[j], ByKey(score, member)) <==> j < p))
  {
    var key, p := ByKey(score, member), sl.Position(ByKey(score, member));
    PathStop(sl, key);
    hide Skiplist.Valid, Skiplist.Position, Skiplist.All, Before, SortedByKey;
    Crossing(sl.nodes, key, p);
  }

  /** The search stops between a node before its target and one that is not. */
  lemma PathStop(sl: Skiplist, t: Target)
    requires sl.Valid()
    ensures var p := sl.Position(t);
      && p <= |sl.nodes|
      && (p > 0 ==> Before(sl.nodes[p - 1], t))
      && (p < |sl.nodes| ==> !Before(sl.nodes[p], t))
  {
    hide Before, Path, Links, Separate, Tight;
    var all, p := sl.All(), sl.Position(t);
    var bs, hs := Befores(all, t), Heights(all);
    PathFacts(bs, hs, sl.level, 0);
    ZeroNext(hs, p);
    assert p > 0 ==> all[p] == sl.nodes[p - 1];
    assert p < |sl.nodes| ==> all[p + 1] == sl.nodes[p];
  }

  lemma ZeroNext(hs: seq<int>, p: nat)
    requires p < |hs| && forall q :: 0 <= q < |hs| ==> hs[q] >= 0
    ensures Next(hs, p, 0) == p + 1
  {
  }

  /** On a sorted list a single crossing point decides for every node whether it is before t. */
  lemma Crossing(nodes: seq<SkiplistNode>, t: Target, p: nat)
    requires SortedByKey(nodes) && t.ByKey? && p <= |nodes|
    requires p > 0 ==> Before(nodes[p - 1], t)
    requires p < |nodes| ==> !Before(nodes[p], t)
    ensures forall j :: 0 <= j < |nodes| ==> (Before(nodes[j], t) <==> j < p)
    ensures forall j :: 0 <= j < |nodes| && Matches(nodes[j], t.member, t.score) ==> j == p
  {
    forall j | 0 <= j < |nodes| ensures Before(nodes[j], t) <==> j < p {
      if j + 1 < p {
        BeforeTransitive(nodes[j], nodes[p - 1], t);
      } else if j > p && Before(nodes[j], t) {
        BeforeTransitive(nodes[p], nodes[j], t);
      }
    }
    LessTotal(t.member, t.member);
    assert forall j :: p < j < |nodes| ==> Before(nodes[p], ByKey(nodes[j].score, nodes[j].member));
  }

  lemma BeforeTransitive(a: SkiplistNode, b: SkiplistNode, t: Target)
    requires t.ByKey? && Before(a, ByKey(b.score, b.member)) && Before(b, t)
    ensures Before(a, t)
  {
    if a.score == b.score == t.score {
      LessTransitive(a.member, b.member, t.member);
    }
  }

  const ROOT: Text := [114, 111, 111, 116]  // "root"
}
