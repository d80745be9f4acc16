// A sorted set: a skip list beside a dictionary from member to node.
module Zsets {
  import opened Bytes
  import opened Sequences
  import opened Skiplists

  datatype Item = Item(member: Text, score: int)

  function Items(nodes: seq<SkiplistNode>): (items: seq<Item>)
    ensures |items| == |nodes|
  {
    seq(|nodes|, i requires 0 <= i < |nodes| => Item(nodes[i].member, nodes[i].score))
  }

  /** The member can go in front of all other members listed at the score. */
  predicate Fits(nodes: seq<SkiplistNode>, member: Text, score: int) {
    forall j :: 0 <= j < |nodes| && nodes[j].score == score && nodes[j].member != member ==>
      Less(member, nodes[j].member)
  }

  /** Every node is the one the dictionary names for its member. */
  predicate Named(nodes: seq<SkiplistNode>, dict: map<Text, SkiplistNode>) {
    forall j :: 0 <= j < |nodes| ==> nodes[j].member in dict && dict[nodes[j].member] == nodes[j]
  }

  /** The nodes of other members, in order. */
  function Without(nodes: seq<SkiplistNode>, member: Text): seq<SkiplistNode> {
    if nodes == [] then []
    else if nodes[0].member == member then Without(nodes[1..], member)
    else [nodes[0]] + Without(nodes[1..], member)
  }

  class Zset {
    var dict: map<Text, SkiplistNode>
    const list: Skiplist

    ghost predicate Valid()
      reads this, list, list.Arrays()
    {
      list.Valid()
    }

    /** The list is sorted by score and member, and every node is the one the dictionary names; the
        dictionary may name removed nodes as well. */
    ghost predicate Coherent()
      reads this, list
    {
      SortedByKey(list.nodes) && Named(list.nodes, dict)
    }

    /** What removing a member leaves of the list, in any state: its node is unlinked if the search for its
        last score ends in front of it. */
    ghost function Rest(member: Text): seq<SkiplistNode>
      requires list.level >= 0
      reads this, list
    {
      if member in dict then
        var score := dict[member].score;
        Deleted(list.nodes, list.Position(ByKey(score, member)), member, score)
      else list.nodes
    }

    constructor ()
      ensures Valid() && Coherent() && dict == map[] && list.nodes == []
      ensures fresh(list) && fresh(list.Arrays())
    {
      dict := map[];
      list := new Skiplist();
    }

    /** Removes a live member; a member deleted before is reported as removed again, because its
        dictionary entry stays. */
    method Delete(member: Text) returns (removed: int)
      requires Valid()
      modifies list, list.Arrays()
      ensures Valid() && list.Arrays() <= old(list.Arrays())
      ensures removed == if member in dict then 1 else 0
      ensures list.nodes == old(Rest(member))
      ensures forall j :: 0 <= j < |list.nodes| ==> list.nodes[j] in old(list.nodes)
      ensures old(Coherent()) ==> Coherent() && list.nodes == Without(old(list.nodes), member)
    {
      hide Skiplist.Valid, Skiplist.Position, Deleted, SortedByKey, Named, Without;
      ghost var nodes, coherent := list.nodes, Coherent();
      if member in dict {
        if coherent {
          DeleteFindsLive(list, dict, member);
          WithoutCoherent(nodes, dict, member);
        }
        DeletedSubset(nodes, member, dict[member].score);
        list.Delete(member, dict[member].score);
        return 1;
      }
      if coherent {
        NotListed(nodes, dict, member);
      }
      return 0;
    }

    /** Moves a member to its new score. From a coherent set the dictionary keeps naming every node, and
        the order survives exactly when no smaller member is listed at the new score. From any set that
        is named it stays so exactly when the old node of the member was found. */
    method Add(member: Text, score: int)
      requires Valid()
      modifies this, list, list.Arrays()
      ensures Valid() && fresh(list.Arrays() - old(list.Arrays()))
      ensures member in dict && dict == old(dict)[member := dict[member]]
      ensures dict[member].member == member && dict[member].score == score && dict[member] in list.nodes
      ensures var rest := old(Rest(member));
        && list.nodes == Inserted(rest, LowerBound(rest, score), dict[member])
        && (old(Named(list.nodes, dict)) ==> (Named(list.nodes, dict) <==> Absent(rest, member)))
      ensures old(Coherent()) ==>
        && old(Rest(member)) == Without(old(list.nodes), member)
        && Named(list.nodes, dict)
        && (SortedByKey(list.nodes) <==> Fits(old(list.nodes), member, score))
    {
      hide Skiplist.Valid, Skiplist.Position, Deleted, LowerBound, Inserted;
      hide SortedByKey, Named, Without, Fits, Absent;
      ghost var nodes, before := list.nodes, dict;
      var _ := Delete(member);
      ghost var rest := list.nodes;
      var node := list.Insert(member, score);
      InsertedHere(rest, LowerBound(rest, score), node);
      NamedExact(nodes, rest, before, node);
      if old(Coherent()) {
        AddCoherent(nodes, dict, node);
      }
      dict := dict[member := node];
    }

    method Search(member: Text) returns (score: int, exists_: bool)
      ensures exists_ == (member in dict)
      ensures exists_ ==> score == dict[member].score
      ensures Coherent() ==> forall j :: 0 <= j < |list.nodes| && list.nodes[j].member == member ==>
        exists_ && score == list.nodes[j].score
    {
      if member in dict {
        return dict[member].score, true;
      }
      return 0, false;
    }

    method Range(start: int, stop: int) returns (res: seq<Text>)
      requires Valid()
      ensures res == Window(Members(list.nodes), start, stop)
      ensures var lo := if start < 0 then 0 else start;
        && |res| == (if stop < lo || lo >= |list.nodes| then 0
                     else (if stop < |list.nodes| then stop + 1 else |list.nodes|) - lo)
        && forall j {:trigger res[j]} :: 0 <= j < |res| ==> res[j] == list.nodes[lo + j].member
    {
      var found := list.Zrange(start, stop);
      res := [];
      for i := 0 to |found|
        invariant res == Members(found[..i])
      {
        assert found[..i + 1] == found[..i] + [found[i]];
        res := res + [found[i].member];
      }
      assert found[..|found|] == found;
      WindowMembers(list.nodes, start, stop);
      WindowAt(Members(list.nodes), start, stop);
    }

    /** A run from an empty set. As long as every add finds no smaller member at its score, list and
        dictionary are coherent and the list holds exactly the live members with their last scores, sorted
        by score and member; and the first add that finds one is the one that breaks the order. */
    method Run(ops: seq<Op>)
      requires Valid() && list.nodes == []
      modifies this, list, list.Arrays()
      ensures Valid() && fresh(list.Arrays() - old(list.Arrays()))
      ensures Respectful(ops) ==>
        && Coherent() && Items(list.nodes) == ItemsAfter(ops)
        && Represents(Items(list.nodes), LiveAfter(ops))
      ensures ops != [] && Respectful(ops[..|ops| - 1]) ==>
        Named(list.nodes, dict) && (SortedByKey(list.nodes) <==> Respectful(ops))
    {
      hide Skiplist.Valid, SortedByKey, Named, Respectful, ItemsAfter, LiveAfter, Items, Represents, Apply, Fits;
      RunStart(ops, dict);
      for i := 0 to |ops|
        invariant Valid() && fresh(list.Arrays() - old(list.Arrays()))
        invariant Respectful(ops[..i]) ==> Coherent() && Items(list.nodes) == ItemsAfter(ops[..i])
        invariant i > 0 && Respectful(ops[..i - 1]) ==>
          Named(list.nodes, dict) && (SortedByKey(list.nodes) <==> Respectful(ops[..i]))
      {
        RunStep(ops, i, list.nodes);
        Perform(ops[i]);
      }
      assert ops[..|ops|] == ops;
      if Respectful(ops) { RunSorted(ops); }
    }

    method Perform(op: Op)
      requires Valid()
      modifies this, list, list.Arrays()
      ensures Valid() && fresh(list.Arrays() - old(list.Arrays()))
      ensures old(Coherent()) ==>
        && Items(list.nodes) == Apply(Items(old(list.nodes)), op)
        && Named(list.nodes, dict)
        && (SortedByKey(list.nodes) <==> (op.AddOp? ==> Fits(old(list.nodes), op.member, op.score)))
    {
      hide Skiplist.Valid, SortedByKey, Named, Items, Fits, Apply;
      ghost var nodes := list.nodes;
      match op {
        case AddOp(member, score) =>
          Add(member, score);
          AddIsApply(nodes, dict[member]);
        case DeleteOp(member) =>
          var _ := Delete(member);
          WithoutItems(nodes, member);
      }
    }
  }

  function Members(nodes: seq<SkiplistNode>): (ms: seq<Text>)
    ensures |ms| == |nodes|
  {
    seq(|nodes|, i requires 0 <= i < |nodes| => nodes[i].member)
  }

  lemma WindowMembers(nodes: seq<SkiplistNode>, start: int, stop: int)
    ensures Members(Window(nodes, start, stop)) == Window(Members(nodes), start, stop)
  {
  }

  /** In a coherent set no member occurs twice in a range. */
  lemma RangeDistinct(nodes: seq<SkiplistNode>, dict: map<Text, SkiplistNode>, start: int, stop: int)
    requires SortedByKey(nodes) && Named(nodes, dict)
    ensures var ms := Window(Members(nodes), start, stop);
      forall j, k :: 0 <= j < k < |ms| ==> ms[j] != ms[k]
  {
    MembersDistinct(nodes, dict);
  }

  lemma MembersDistinct(nodes: seq<SkiplistNode>, dict: map<Text, SkiplistNode>)
    requires SortedByKey(nodes) && Named(nodes, dict)
    ensures forall j, k :: 0 <= j < k < |nodes| ==> nodes[j].member != nodes[k].member
  {
    forall j, k | 0 <= j < k < |nodes| ensures nodes[j].member != nodes[k].member {
      LessTotal(nodes[j].member, nodes[k].member);
      assert Before(nodes[j], ByKey(nodes[k].score, nodes[k].member));
    }
  }

  // ----- deleting -----

  lemma {:induction false} WithoutAbsent(nodes: seq<SkiplistNode>, member: Text)
    requires forall j :: 0 <= j < |nodes| ==> nodes[j].member != member
    ensures Without(nodes, member) == nodes
  {
    if nodes != [] {
      WithoutAbsent(nodes[1..], member);
      assert nodes == [nodes[0]] + nodes[1..];
    }
  }

  lemma {:induction false} WithoutOne(nodes: seq<SkiplistNode>, member: Text, p: nat)
    requires p < |nodes| && forall j :: 0 <= j < |nodes| ==> (nodes[j].member == member <==> j == p)
    ensures Without(nodes, member) == Removed(nodes, p)
  {
    if p == 0 {
      WithoutAbsent(nodes[1..], member);
      assert Removed(nodes, 0) == nodes[1..];
    } else {
      WithoutOne(nodes[1..], member, p - 1);
      assert Removed(nodes, p) == [nodes[0]] + Removed(nodes[1..], p - 1);
    }
  }

  lemma DeletedSubset(nodes: seq<SkiplistNode>, member: Text, score: int)
    ensures forall p: nat, n :: n in Deleted(nodes, p, member, score) ==> n in nodes
  {
  }

  lemma DeleteFindsLive(sl: Skiplist, dict: map<Text, SkiplistNode>, member: Text)
    requires sl.Valid() && SortedByKey(sl.nodes) && Named(sl.nodes, dict) && member in dict
    ensures var score := dict[member].score;
      Deleted(sl.nodes, sl.Position(ByKey(score, member)), member, score) == Without(sl.nodes, member)
  {
    hide Skiplist.Position;
    var nodes, score := sl.nodes, dict[member].score;
    var p := sl.Position(ByKey(score, member));
    SearchIsLinearScan(sl, member, score);
    MembersDistinct(nodes, dict);
    if j :| 0 <= j < |nodes| && nodes[j].member == member {
      assert Matches(nodes[j], member, score);
      assert j == p;
      forall i | 0 <= i < |nodes| ensures nodes[i].member == member <==> i == p {
        var lo, hi := if i < p then i else p, if i < p then p else i;
        assert lo < hi ==> nodes[lo].member != nodes[hi].member;
      }
      WithoutOne(nodes, member, p);
    } else {
      WithoutAbsent(nodes, member);
    }
  }

  lemma {:induction false} WithoutSubset(nodes: seq<SkiplistNode>, member: Text, rest: seq<SkiplistNode>)
    requires rest == Without(nodes, member)
    ensures forall k :: 0 <= k < |rest| ==> rest[k] in nodes && rest[k].member != member
    ensures forall j :: 0 <= j < |nodes| && nodes[j].member != member ==> nodes[j] in rest
  {
    if nodes != [] {
      var tail, more := nodes[1..], Without(nodes[1..], member);
      WithoutSubset(tail, member, more);
      assert nodes == [nodes[0]] + tail;
    }
  }

  lemma {:induction false} WithoutSorted(nodes: seq<SkiplistNode>, member: Text, rest: seq<SkiplistNode>)
    requires rest == Without(nodes, member) && SortedByKey(nodes)
    ensures SortedByKey(rest)
  {
    if nodes != [] {
      hide Less;
      var tail, more := nodes[1..], Without(nodes[1..], member);
      assert forall j :: 0 <= j < |tail| ==> tail[j] == nodes[j + 1];
      WithoutSorted(tail, member, more);
      WithoutSubset(tail, member, more);
      forall k | 0 <= k < |more| ensures Before(nodes[0], ByKey(more[k].score, more[k].member)) {
        assert more[k] in tail;
      }
    }
  }

  lemma WithoutCoherent(nodes: seq<SkiplistNode>, dict: map<Text, SkiplistNode>, member: Text)
    requires SortedByKey(nodes) && Named(nodes, dict)
    ensures SortedByKey(Without(nodes, member)) && Named(Without(nodes, member), dict)
  {
    var rest := Without(nodes, member);
    WithoutSorted(nodes, member, rest);
    WithoutSubset(nodes, member, rest);
  }

  lemma NotListed(nodes: seq<SkiplistNode>, dict: map<Text, SkiplistNode>, member: Text)
    requires Named(nodes, dict) && member !in dict
    ensures Without(nodes, member) == nodes
  {
    WithoutAbsent(nodes, member);
  }

  // ----- adding -----

  predicate Absent(nodes: seq<SkiplistNode>, member: Text) {
    forall j :: 0 <= j < |nodes| ==> nodes[j].member != member
  }

  /** An Add keeps every node named exactly when the old node of its member is gone. */
  lemma NamedExact(nodes: seq<SkiplistNode>, rest: seq<SkiplistNode>, dict: map<Text, SkiplistNode>, n: SkiplistNode)
    requires n !in rest && forall j :: 0 <= j < |rest| ==> rest[j] in nodes
    ensures var nodes' := Inserted(rest, LowerBound(rest, n.score), n);
      Named(nodes, dict) ==> (Named(nodes', dict[n.member := n]) <==> Absent(rest, n.member))
  {
    hide LowerBound;
    var k := LowerBound(rest, n.score);
    var nodes', dict' := Inserted(rest, k, n), dict[n.member := n];
    assert nodes'[k] == n;
    assert forall j :: 0 <= j < |rest| ==> rest[j] == nodes'[if j < k then j else j + 1];
    if Named(nodes, dict) && Absent(rest, n.member) {
      forall j | 0 <= j < |nodes'| ensures nodes'[j].member in dict' && dict'[nodes'[j].member] == nodes'[j] {
        assert nodes'[j] == if j < k then rest[j] else if j == k then n else rest[j - 1];
      }
    }
  }

  /** From a coherent set the dictionary keeps naming every node, tied or not, and the order survives
      exactly when the member fits in front of those it is tied with. */
  lemma AddCoherent(nodes: seq<SkiplistNode>, dict: map<Text, SkiplistNode>, n: SkiplistNode)
    requires SortedByKey(nodes) && Named(nodes, dict) && n !in nodes
    ensures var rest := Without(nodes, n.member);
      var nodes' := Inserted(rest, LowerBound(rest, n.score), n);
      && Named(nodes', dict[n.member := n])
      && (SortedByKey(nodes') <==> Fits(nodes, n.member, n.score))
  {
    hide LowerBound, Without, SortedByKey, Inserted, Fits, Less;
    var rest := Without(nodes, n.member);
    WithoutCoherent(nodes, dict, n.member);
    WithoutSubset(nodes, n.member, rest);
    InsertKeepsKeyOrder(rest, n);
    TieVisible(nodes, n, rest);
    NamedExact(nodes, rest, dict, n);
  }

  /** A smaller member at the same score shows up right where the new node goes. */
  lemma TieVisible(nodes: seq<SkiplistNode>, n: SkiplistNode, rest: seq<SkiplistNode>)
    requires rest == Without(nodes, n.member) && SortedByKey(rest)
    ensures var k := LowerBound(rest, n.score);
      Fits(nodes, n.member, n.score)
      <==> (k < |rest| && rest[k].score == n.score ==> Less(n.member, rest[k].member))
  {
    hide LowerBound, Without, Less;
    var k := LowerBound(rest, n.score);
    WithoutSubset(nodes, n.member, rest);
    if k < |rest| && rest[k].score == n.score {
      assert rest[k] in nodes;
      var j :| 0 <= j < |nodes| && nodes[j] == rest[k];
    }
    if k < |rest| && rest[k].score == n.score ==> Less(n.member, rest[k].member) {
      forall j | 0 <= j < |nodes| && nodes[j].score == n.score && nodes[j].member != n.member
        ensures Less(n.member, nodes[j].member)
      {
        assert nodes[j] in rest;
        var i :| 0 <= i < |rest| && rest[i] == nodes[j];
        if i > k {
          assert Before(rest[k], ByKey(rest[i].score, rest[i].member));
          LessTransitive(n.member, rest[k].member, rest[i].member);
        }
      }
    }
  }

  lemma InsertedHere(nodes: seq<SkiplistNode>, k: nat, n: SkiplistNode)
    requires k <= |nodes|
    ensures var nodes' := Inserted(nodes, k, n); nodes'[k] == n && n in nodes'
  {
  }

  // ----- whole runs -----

  datatype Op = AddOp(member: Text, score: int) | DeleteOp(member: Text)

  function DropMember(items: seq<Item>, member: Text): seq<Item> {
    if items == [] then []
    else (if items[0].member == member then [] else [items[0]]) + DropMember(items[1..], member)
  }

  /** Insertion by score into a sorted item list. */
  function Place(items: seq<Item>, item: Item): (r: seq<Item>) {
    if items == [] || items[0].score >= item.score then [item] + items
    else [items[0]] + Place(items[1..], item)
  }

  function Apply(items: seq<Item>, op: Op): seq<Item> {
    match op
    case AddOp(member, score) => Place(DropMember(items, member), Item(member, score))
    case DeleteOp(member) => DropMember(items, member)
  }

  /** The methods of a coherent set do to its items what Apply does. */
  lemma AddIsApply(nodes: seq<SkiplistNode>, n: SkiplistNode)
    ensures var rest := Without(nodes, n.member);
      Items(Inserted(rest, LowerBound(rest, n.score), n)) == Apply(Items(nodes), AddOp(n.member, n.score))
  {
    WithoutItems(nodes, n.member);
    PlaceItems(Without(nodes, n.member), n);
  }

  lemma {:induction false} WithoutItems(nodes: seq<SkiplistNode>, member: Text)
    ensures Items(Without(nodes, member)) == Apply(Items(nodes), DeleteOp(member))
  {
    if nodes != [] {
      WithoutItems(nodes[1..], member);
      assert Items(nodes)[1..] == Items(nodes[1..]);
      assert Items([nodes[0]] + Without(nodes[1..], member)) == [Items(nodes)[0]] + Items(Without(nodes[1..], member));
    }
  }

  lemma ItemsCons(n: SkiplistNode, nodes: seq<SkiplistNode>)
    ensures Items([n] + nodes) == [Item(n.member, n.score)] + Items(nodes)
  {
  }

  lemma {:induction false} PlaceItems(nodes: seq<SkiplistNode>, n: SkiplistNode)
    ensures Items(Inserted(nodes, LowerBound(nodes, n.score), n)) == Place(Items(nodes), Item(n.member, n.score))
  {
    hide Inserted, LowerBound, Place, Items;
    PlaceStep(nodes, n);
    if nodes == [] || nodes[0].score >= n.score {
      ItemsCons(n, nodes);
    } else {
      var rest := nodes[1..];
      PlaceItems(rest, n);
      ItemsCons(nodes[0], Inserted(rest, LowerBound(rest, n.score), n));
    }
  }

  lemma PlaceStep(nodes: seq<SkiplistNode>, n: SkiplistNode)
    ensures var placed, more := Place(Items(nodes), Item(n.member, n.score)), nodes[if nodes == [] then 0 else 1..];
      if nodes == [] || nodes[0].score >= n.score then
        && Inserted(nodes, LowerBound(nodes, n.score), n) == [n] + nodes
        && placed == [Item(n.member, n.score)] + Items(nodes)
      else
        && Inserted(nodes, LowerBound(nodes, n.score), n) == [nodes[0]] + Inserted(more, LowerBound(more, n.score), n)
        && placed == [Item(nodes[0].member, nodes[0].score)] + Place(Items(more), Item(n.member, n.score))
  {
    if nodes != [] { assert Items(nodes)[1..] == Items(nodes[1..]); }
  }

  /** The members and scores a run leaves behind, as a plain map. */
  function LiveAfter(ops: seq<Op>): map<Text, int> {
    if ops == [] then map[]
    else
      var live, op := LiveAfter(ops[..|ops| - 1]), ops[|ops| - 1];
      match op
      case AddOp(member, score) => live[member := score]
      case DeleteOp(member) => live - {member}
  }

  function ItemsAfter(ops: seq<Op>): seq<Item> {
    if ops == [] then [] else Apply(ItemsAfter(ops[..|ops| - 1]), ops[|ops| - 1])
  }

  /** No smaller member is live at the score. */
  predicate Room(live: map<Text, int>, member: Text, score: int) {
    forall m :: m in live && live[m] == score && m != member ==> Less(member, m)
  }

  /** No Add of the run takes a score at which a smaller member is live. */
  predicate Respectful(ops: seq<Op>) {
    ops == [] ||
    (Respectful(ops[..|ops| - 1]) &&
     match ops[|ops| - 1]
     case AddOp(member, score) => Room(LiveAfter(ops[..|ops| - 1]), member, score)
     case DeleteOp(_) => true)
  }

  predicate Precedes(x: Item, y: Item) {
    x.score < y.score || (x.score == y.score && Less(x.member, y.member))
  }

  predicate Ascending(items: seq<Item>) {
    forall j, k :: 0 <= j < k < |items| ==> Precedes(items[j], items[k])
  }

  /** Sorted strictly by score and member, and exactly the live members with their scores. */
  ghost predicate Represents(items: seq<Item>, live: map<Text, int>) {
    && Ascending(items)
    && (forall x: Item :: x in items <==> x.member in live && live[x.member] == x.score)
  }

  lemma {:induction false} DropMemberFacts(items: seq<Item>, member: Text, r: seq<Item>)
    requires r == DropMember(items, member)
    requires Ascending(items)
    ensures Ascending(r)
    ensures forall x: Item {:trigger x in r} {:trigger x in items} :: x in r <==> x in items && x.member != member
    decreases |items|
  {
    if items != [] {
      var tail, more := items[1..], DropMember(items[1..], member);
      assert forall j :: 0 <= j < |tail| ==> tail[j] == items[j + 1];
      DropMemberFacts(tail, member, more);
      assert items == [items[0]] + tail;
      forall k | 0 <= k < |more| ensures Precedes(items[0], more[k]) {
        assert more[k] in more && more[k] in tail;
      }
    }
  }

  lemma {:induction false} PlaceFacts(items: seq<Item>, item: Item, r: seq<Item>)
    requires r == Place(items, item)
    requires Ascending(items)
    requires forall j :: 0 <= j < |items| && items[j].score == item.score ==> Less(item.member, items[j].member)
    ensures Ascending(r)
    ensures forall x: Item {:trigger x in r} {:trigger x in items} :: x in r <==> x in items || x == item
    decreases |items|
  {
    hide Less;
    if items == [] || items[0].score >= item.score {
      assert r == [item] + items;
      forall k | 0 <= k < |items| ensures Precedes(item, items[k]) {
        assert k > 0 ==> Precedes(items[0], items[k]);
      }
    } else {
      var tail, more := items[1..], Place(items[1..], item);
      assert forall j :: 0 <= j < |tail| ==> tail[j] == items[j + 1];
      PlaceFacts(tail, item, more);
      assert items == [items[0]] + tail && r == [items[0]] + more;
      forall k | 0 <= k < |more| ensures Precedes(items[0], more[k]) {
        assert more[k] in more;
        assert more[k] in tail || more[k] == item;
      }
    }
  }

  /** Over every respectful run the list is the live members sorted by score and member: an Add moves its
      member and leaves all others in place. */
  lemma {:induction false} RunSorted(ops: seq<Op>)
    requires Respectful(ops)
    ensures Represents(ItemsAfter(ops), LiveAfter(ops))
    decreases |ops|
  {
    if ops != [] {
      var before, op := ops[..|ops| - 1], ops[|ops| - 1];
      RunSorted(before);
      var items, live := ItemsAfter(before), LiveAfter(before);
      var rest := DropMember(items, op.member);
      DropMemberFacts(items, op.member, rest);
      match op
      case DeleteOp(member) =>
        assert Represents(rest, live - {member});
      case AddOp(member, score) =>
        forall j | 0 <= j < |rest| && rest[j].score == score ensures Less(member, rest[j].member) {
          assert rest[j] in rest && rest[j] in items;
        }
        PlaceFacts(rest, Item(member, score), Place(rest, Item(member, score)));
        assert Represents(Place(rest, Item(member, score)), live[member := score]);
    }
  }

  // ----- runs of the set itself -----

  lemma RunStart(ops: seq<Op>, dict: map<Text, SkiplistNode>)
    ensures Respectful(ops[..0]) && Items([]) == ItemsAfter(ops[..0])
    ensures SortedByKey([]) && Named([], dict)
  {
  }

  /** On what a respectful run left behind, an op is respectful exactly when its member fits. */
  lemma RunStep(ops: seq<Op>, i: nat, nodes: seq<SkiplistNode>)
    requires i < |ops|
    ensures Respectful(ops[..i + 1]) ==> Respectful(ops[..i])
    ensures Respectful(ops[..i]) && Items(nodes) == ItemsAfter(ops[..i]) ==>
      && ItemsAfter(ops[..i + 1]) == Apply(Items(nodes), ops[i])
      && (Respectful(ops[..i + 1]) <==> (ops[i].AddOp? ==> Fits(nodes, ops[i].member, ops[i].score)))
  {
    hide Apply, Represents, Fits, Room, Items, LiveAfter;
    assert ops[..i + 1][..i] == ops[..i] && ops[..i + 1][i] == ops[i];
    if Respectful(ops[..i]) && Items(nodes) == ItemsAfter(ops[..i]) {
      RunSorted(ops[..i]);
      if ops[i].AddOp? {
        FitsIsRoom(nodes, LiveAfter(ops[..i]), ops[i].member, ops[i].score);
      }
    }
  }

  lemma FitsIsRoom(nodes: seq<SkiplistNode>, live: map<Text, int>, member: Text, score: int)
    requires Represents(Items(nodes), live)
    ensures Fits(nodes, member, score) <==> Room(live, member, score)
  {
    hide Less;
    var items := Items(nodes);
    if Room(live, member, score) {
      forall j | 0 <= j < |nodes| && nodes[j].score == score && nodes[j].member != member
        ensures Less(member, nodes[j].member)
      {
        assert items[j] in items;
      }
    }
    if Fits(nodes, member, score) {
      forall m | m in live && live[m] == score && m != member ensures Less(member, m) {
        assert Item(m, score) in items;
        var j :| 0 <= j < |items| && items[j] == Item(m, score);
      }
    }
  }
}
