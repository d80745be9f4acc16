// A quicklist: a doubly linked chain of listpacks holding one list value.
module Quicklists {
  import opened Bytes
  import opened Sequences
  import opened ListpackFormat
  import opened Listpacks
  import opened ListpackLimits
  import Decimal

  /** What a command appends to a client's reply buffer. */
  datatype Reply = Null | ArrayLen(n: int) | Bulk(s: Text) | Integer(v: int64)

  function EntryReply(e: Entry): Reply {
    match e
    case IntEntry(v) => Integer(v)
    case StrEntry(s) => Bulk(s)
  }

  function Replies(es: seq<Entry>): (rs: seq<Reply>)
    ensures |rs| == |es|
  {
    seq(|es|, i requires 0 <= i < |es| => EntryReply(es[i]))
  }

  /** Integers are sent as integers, strings as bulk strings. */
  lemma RepliesAt(es: seq<Entry>)
    ensures forall i :: 0 <= i < |es| ==>
      && (es[i].IntEntry? ==> Replies(es)[i] == Integer(es[i].v))
      && (es[i].StrEntry? ==> Replies(es)[i] == Bulk(es[i].s))
  {
  }

  /** What LRANGE sends behind its header. */
  lemma RangeReplies(es: seq<Entry>, start: int, stop: int)
    ensures var lo, rs := if start < 0 then 0 else start, Replies(Window(es, start, stop));
      && |rs| == (if stop < lo || lo >= |es| then 0 else (if stop < |es| then stop + 1 else |es|) - lo)
      && forall j :: 0 <= j < |rs| ==>
           && (es[lo + j].IntEntry? ==> rs[j] == Integer(es[lo + j].v))
           && (es[lo + j].StrEntry? ==> rs[j] == Bulk(es[lo + j].s))
  {
    RepliesAt(Window(es, start, stop));
    hide Replies, EntryReply;
    var lo := if start < 0 then 0 else start;
    assert forall j :: 0 <= j < |Window(es, start, stop)| ==> Window(es, start, stop)[j] == es[lo + j];
  }

  lemma RepliesAppend(a: seq<Entry>, b: seq<Entry>)
    ensures Replies(a + b) == Replies(a) + Replies(b)
  {
  }

  /** LRANGE announces as many values as it sends exactly when the range is empty by one, or
      lies inside the list. */
  lemma RangeHeaderExact<T>(es: seq<T>, start: int, stop: int)
    requires es != []
    ensures |Window(es, start, stop)| == stop - start + 1
      <==> stop == start - 1 || 0 <= start <= stop < |es|
  {
    var lo := if start < 0 then 0 else if start > |es| then |es| else start;
    var hi := if stop + 1 < lo then lo else if stop + 1 > |es| then |es| else stop + 1;
    assert |Window(es, start, stop)| == hi - lo;
  }

  /** The text of an entry in a dump. */
  function Token(e: Entry): Text {
    match e
    case IntEntry(v) => Decimal.FormatInt(v)
    case StrEntry(s) => s
  }

  function Tokens(es: seq<Entry>): (ts: seq<Text>)
    ensures |ts| == |es|
  {
    seq(|es|, i requires 0 <= i < |es| => Token(es[i]))
  }

  class QuicklistNode {
    const lp: Listpack
    var prev: QuicklistNode?
    var next: QuicklistNode?

    ghost predicate Holds(es: seq<Entry>)
      reads lp, lp.data
    {
      lp.Valid() && lp.elems == es && Healthy(es)
    }

    constructor ()
      ensures fresh(lp) && fresh(lp.data) && Holds([])
      ensures prev == null && next == null
    {
      lp := new Listpack();
      prev, next := null, null;
      HealthyEmpty();
    }

    /** The length word of a healthy node is its true size. */
    method TotalLen(ghost es: seq<Entry>) returns (n: nat)
      requires Holds(es)
      ensures n == |Pack(es)|
    {
      lp.HeaderIsExact();
      n := lp.TotalLen();
    }

    method Add(val: Entry, prepend: bool, ghost es: seq<Entry>)
      requires Holds(es) && Storable(val) && |Pack(es)| + ESTIMATED <= SPLIT_AT
      modifies lp, lp.data
      ensures Holds(if prepend then [val] + es else es + [val])
      ensures lp.data == old(lp.data) || fresh(lp.data)
      ensures |Encode(val)| <= ESTIMATED ==> lp.data == old(lp.data)
    {
      hide Pack, Storable, Healthy, Encode;
      HealthyAdd(es, val, prepend);
      OneMore(es, val, prepend);
      match val {
        case IntEntry(v) => lp.AddInt(v, prepend);
        case StrEntry(t) => lp.AddString(t, prepend);
      }
    }
  }

  // ----- reading and draining one node -----

  /** Emits up to limit entries from the front of a node and measures the bytes they fill. */
  method ReadFront(node: QuicklistNode, limit: int, ghost es: seq<Entry>)
    returns (taken: nat, size: nat, out: seq<Reply>)
    requires node.Holds(es) && limit >= 0
    ensures taken == (if limit < |es| then limit else |es|)
    ensures size == |EncodeAll(es[..taken])|
    ensures out == Replies(es[..taken])
  {
    hide Encode, DecodeEntry, Pack, EncodeAll;
    var lp := node.lp;
    var pos := HEADER_SIZE;
    taken, size, out := 0, 0, [];
    assert EncodeAll(es[..0]) == [] by { NothingPacked(es[..0]); }
    StepAt(es, 0);
    while pos < lp.len && lp.data[pos] != END_BYTE && taken < limit
      invariant taken <= |es| && taken <= limit
      invariant pos == Offset(es, taken) && size == |EncodeAll(es[..taken])|
      invariant pos < lp.len && (lp.data[pos] == END_BYTE <==> taken == |es|)
      invariant out == Replies(es[..taken])
      decreases |es| - taken
    {
      StepAt(es, taken);
      var (e, n) := DecodeEntry(lp.Bytes(), pos);
      out := out + [EntryReply(e)];
      size, pos, taken := size + n, pos + n, taken + 1;
      StepAt(es, taken);
      assert es[..taken] == es[..taken - 1] + [e];
    }
  }

  /** Walks one node whose first value has position index and emits those inside start..stop;
      stops as soon as the position passes stop. */
  method ReadWindow(node: QuicklistNode, index: int, start: int, stop: int, ghost es: seq<Entry>)
    returns (count: nat, out: seq<Reply>, done: bool)
    requires node.Holds(es) && index >= 0
    ensures out == Replies(Window(es, start - index, stop - index))
    ensures if done then index + |es| > stop else count == |es|
  {
    hide Encode, DecodeEntry, Pack, EncodeAll, Window;
    var lp := node.lp;
    var pos := HEADER_SIZE;
    count, out := 0, [];
    EmptyWindow(es[..0], start - index, stop - index);
    assert EncodeAll(es[..0]) == [] by { NothingPacked(es[..0]); }
    StepAt(es, 0);
    while pos < lp.len && lp.data[pos] != END_BYTE
      invariant count <= |es| && pos == Offset(es, count)
      invariant pos < lp.len && (lp.data[pos] == END_BYTE <==> count == |es|)
      invariant out == Replies(Window(es[..count], start - index, stop - index))
      decreases |es| - count
    {
      StepAt(es, count);
      var (e, n) := DecodeEntry(lp.Bytes(), pos);
      if start <= index + count <= stop {
        out := out + [EntryReply(e)];
      }
      WindowStep(es, count, start - index, stop - index);
      pos, count := pos + n, count + 1;
      StepAt(es, count);
      if index + count > stop {
        WindowDone(es, count, start - index, stop - index);
        return count, out, true;
      }
    }
    assert es[..count] == es;
    done := false;
  }

  method DumpNode(node: QuicklistNode, ghost es: seq<Entry>) returns (tokens: seq<Text>)
    requires node.Holds(es)
    ensures tokens == Tokens(es)
  {
    hide Encode, DecodeEntry, Pack, EncodeAll, Token;
    var lp := node.lp;
    var pos := HEADER_SIZE;
    tokens := [];
    ghost var i := 0;
    assert EncodeAll(es[..0]) == [] by { NothingPacked(es[..0]); }
    StepAt(es, 0);
    while pos < lp.len && lp.data[pos] != END_BYTE
      invariant i <= |es| && pos == Offset(es, i)
      invariant pos < lp.len && (lp.data[pos] == END_BYTE <==> i == |es|)
      invariant tokens == Tokens(es[..i])
      decreases |es| - i
    {
      StepAt(es, i);
      var (e, n) := DecodeEntry(lp.Bytes(), pos);
      tokens := tokens + [Token(e)];
      pos := pos + n;
      i := i + 1;
      StepAt(es, i);
      assert es[..i] == es[..i - 1] + [e];
    }
    assert es[..i] == es;
  }

  /** Cuts n entries that fill size bytes off the front of a node. */
  method DropFront(node: QuicklistNode, n: nat, size: nat, ghost es: seq<Entry>)
    requires node.Holds(es) && 0 < n <= |es| && size == |EncodeAll(es[..n])|
    modifies node.lp, node.lp.data
    ensures node.Holds(es[n..]) && node.lp.data == old(node.lp.data)
  {
    hide Encode, Pack, EncodeAll, SplitBound;
    node.lp.DropFront(n, size);
    HealthyDrop(es, n);
  }

  lemma NoNodes(ps: seq<seq<Entry>>)
    ensures ps == [] ==> Concat(ps) == []
  {
  }

  /** The bytes measured are zero exactly when no entry was taken. */
  lemma SomethingTaken(es: seq<Entry>)
    requires |EncodeAll(es)| > 0
    ensures es != []
  {
    if es == [] {
      NothingPacked(es);
    }
  }

  lemma NothingTaken(es: seq<Entry>)
    requires |EncodeAll(es)| == 0
    ensures es == []
  {
    EncodedLength(es);
  }

  /** On a healthy node the emptiness test of the listpack is exact. */
  lemma EmptyExact(node: QuicklistNode, es: seq<Entry>)
    requires node.Holds(es)
    ensures node.lp.InBounds() && (node.lp.IsEmpty() <==> es == [])
  {
    hide Encode;
    node.lp.HeaderIsExact();
    EncodedLength(es);
  }

  // ----- the shape of a chain, one aspect at a time -----

  /** The nodes, their listpacks and their buffers belong to repr. */
  ghost predicate Members(ns: seq<QuicklistNode>, repr: set<object>) {
    forall i :: 0 <= i < |ns| ==> ns[i] in repr && ns[i].lp in repr
  }

  ghost predicate Owned(ns: seq<QuicklistNode>, repr: set<object>)
    reads set n | n in ns :: n.lp
  {
    Members(ns, repr) && forall i {:trigger ns[i].lp.data} :: 0 <= i < |ns| ==> ns[i].lp.data in repr
  }

  /** No two nodes share a buffer, hence no two share a listpack or are the same. */
  ghost predicate Separate(ns: seq<QuicklistNode>)
    reads set n | n in ns :: n.lp
  {
    forall i, j {:trigger ns[i].lp.data, ns[j].lp.data} :: 0 <= i < j < |ns| ==> ns[i].lp.data != ns[j].lp.data
  }

  /** prev and next follow the sequence and end in null on both sides. */
  ghost predicate Linked(ns: seq<QuicklistNode>)
    reads ns
  {
    ns != [] ==>
      && ns[0].prev == null && ns[|ns| - 1].next == null
      && (forall i {:trigger ns[i].prev} :: 1 <= i < |ns| ==> ns[i].prev == ns[i - 1])
      && (forall i {:trigger ns[i].next} :: 0 <= i < |ns| - 1 ==> ns[i].next == ns[i + 1])
  }

  /** Node i holds exactly the entries ps[i]. */
  ghost predicate Packed(ns: seq<QuicklistNode>, ps: seq<seq<Entry>>)
    reads set n | n in ns :: n.lp, set n | n in ns :: n.lp.data
  {
    |ps| == |ns| && forall i {:trigger ns[i].Holds(ps[i])} :: 0 <= i < |ns| ==> ns[i].Holds(ps[i])
  }

  lemma NodeFacts(ns: seq<QuicklistNode>, ps: seq<seq<Entry>>, repr: set<object>, i: nat)
    requires Owned(ns, repr) && Packed(ns, ps) && i < |ns|
    ensures ns[i] in repr && ns[i].lp in repr && ns[i].lp.data in repr
    ensures ns[i].Holds(ps[i])
  {
  }

  lemma DistinctNodes(ns: seq<QuicklistNode>)
    requires Separate(ns)
    ensures forall i, j :: 0 <= i < j < |ns| ==> ns[i] != ns[j]
  {
    forall i, j | 0 <= i < j < |ns| ensures ns[i] != ns[j] {
      assert ns[i].lp.data != ns[j].lp.data;
    }
  }

  /** What holds of the nodes other than node i, whatever happens to that one. */
  ghost predicate OthersHold(ns: seq<QuicklistNode>, ps: seq<seq<Entry>>, repr: set<object>, i: nat, own: object)
    reads set n | n in ns :: n.lp, set n | n in ns :: n.lp.data
  {
    && |ps| == |ns| && i < |ns| && Members(ns, repr)
    && (forall j {:trigger ns[j].lp.data} :: 0 <= j < |ns| && j != i ==>
          ns[j].lp != ns[i].lp && ns[j].lp.data != own && ns[j].lp.data in repr)
    && (forall j, k {:trigger ns[j].lp.data, ns[k].lp.data} :: 0 <= j < k < |ns| && j != i && k != i ==>
          ns[j].lp.data != ns[k].lp.data)
    && (forall j {:trigger ns[j].Holds(ps[j])} :: 0 <= j < |ns| && j != i ==> ns[j].Holds(ps[j]))
  }

  lemma SetApart(ns: seq<QuicklistNode>, ps: seq<seq<Entry>>, repr: set<object>, i: nat)
    requires Owned(ns, repr) && Separate(ns) && Packed(ns, ps) && i < |ns|
    ensures OthersHold(ns, ps, repr, i, ns[i].lp.data)
  {
    hide QuicklistNode.Holds;
    forall j | 0 <= j < |ns| && j != i ensures ns[j].lp.data != ns[i].lp.data {
      var a, b := if i < j then i else j, if i < j then j else i;
      assert ns[a].lp.data != ns[b].lp.data;
    }
  }

  lemma PutBack(ns: seq<QuicklistNode>, ps: seq<seq<Entry>>, repr: set<object>, i: nat, es: seq<Entry>)
    requires i < |ns| && OthersHold(ns, ps, repr, i, ns[i].lp.data) && ns[i].Holds(es)
    ensures Members(ns, repr + {ns[i].lp.data}) && Owned(ns, repr + {ns[i].lp.data})
    ensures Separate(ns) && Packed(ns, ps[i := es])
  {
    hide QuicklistNode.Holds;
  }

  /** A fresh node joins at the back, or at the front. */
  lemma Joined(ns: seq<QuicklistNode>, ps: seq<seq<Entry>>, repr: set<object>, n: QuicklistNode)
    requires Owned(ns, repr) && Separate(ns) && Packed(ns, ps)
    requires n.Holds([]) && n.lp.data !in repr
    ensures var repr' := repr + {n, n.lp, n.lp.data};
      && Members(ns + [n], repr') && Members([n] + ns, repr')
      && Owned(ns + [n], repr') && Separate(ns + [n]) && Packed(ns + [n], ps + [[]])
      && Owned([n] + ns, repr') && Separate([n] + ns) && Packed([n] + ns, [[]] + ps)
  {
    hide QuicklistNode.Holds;
  }

  lemma Neighbours(ns: seq<QuicklistNode>, i: nat)
    requires Linked(ns) && i < |ns|
    ensures ns[i].prev == (if i > 0 then ns[i - 1] else null)
    ensures ns[i].next == (if i + 1 < |ns| then ns[i + 1] else null)
  {
  }

  lemma LeftMembers(ns: seq<QuicklistNode>, repr: set<object>, i: nat)
    requires Owned(ns, repr) && Separate(ns) && i < |ns|
    ensures var ns' := ns[..i] + ns[i + 1..];
      Members(ns', repr) && Owned(ns', repr) && Separate(ns')
  {
    var ns' := ns[..i] + ns[i + 1..];
    assert forall j :: 0 <= j < |ns'| ==> ns'[j] == ns[if j < i then j else j + 1];
  }

  lemma LeftPacked(ns: seq<QuicklistNode>, ps: seq<seq<Entry>>, i: nat)
    requires Packed(ns, ps) && i < |ns|
    ensures Packed(ns[..i] + ns[i + 1..], ps[..i] + ps[i + 1..])
  {
    hide QuicklistNode.Holds;
    var ns', ps' := ns[..i] + ns[i + 1..], ps[..i] + ps[i + 1..];
    forall j {:trigger ns'[j].Holds(ps'[j])} | 0 <= j < |ns'| ensures ns'[j].Holds(ps'[j]) {
      var k := if j < i then j else j + 1;
      assert ns'[j] == ns[k] && ps'[j] == ps[k];
      assert ns[k].Holds(ps[k]);
    }
  }

  /** An empty node leaves the chain. */
  lemma Left(ns: seq<QuicklistNode>, ps: seq<seq<Entry>>, repr: set<object>, i: nat)
    requires Owned(ns, repr) && Separate(ns) && Packed(ns, ps)
    requires i < |ns| && ps[i] == []
    ensures var ns', ps' := ns[..i] + ns[i + 1..], ps[..i] + ps[i + 1..];
      && Members(ns', repr) && Owned(ns', repr) && Separate(ns') && Packed(ns', ps')
      && Concat(ps') == Concat(ps)
  {
    LeftMembers(ns, repr, i);
    LeftPacked(ns, ps, i);
    hide QuicklistNode.Holds, Members, Owned, Separate, Packed;
    ConcatAppend(ps[..i], ps[i + 1..]);
    ConcatCons(ps[i], ps[i + 1..]);
    ConcatAppend(ps[..i], [ps[i]] + ps[i + 1..]);
    assert ps == ps[..i] + ([ps[i]] + ps[i + 1..]);
  }

  class Quicklist {
    var head: QuicklistNode?
    var tail: QuicklistNode?
    var len: int
    ghost var nodes: seq<QuicklistNode>
    ghost var packs: seq<seq<Entry>>
    ghost var Repr: set<object>

    ghost predicate Chained()
      reads this, Repr
    {
      && this in Repr
      && |packs| == |nodes|
      && Members(nodes, Repr)
      && Owned(nodes, Repr) && Separate(nodes) && Linked(nodes) && Packed(nodes, packs)
      && head == (if nodes == [] then null else nodes[0])
      && tail == (if nodes == [] then null else nodes[|nodes| - 1])
    }

    ghost predicate Valid()
      reads this, Repr
      ensures Valid() ==> this in Repr
    {
      Chained() && len == |Contents()|
    }

    /** The list value: all entries from head to tail. */
    ghost function Contents(): seq<Entry>
      reads this
    {
      Concat(packs)
    }

    constructor ()
      ensures Valid() && fresh(Repr)
      ensures Contents() == []
    {
      var node := new QuicklistNode();
      head, tail, len := node, node, 0;
      nodes, packs, Repr := [node], [[]], {this, node, node.lp, node.lp.data};
      new;
      hide QuicklistNode.Holds;
      ConcatSingle<Entry>([]);
    }

    function Size(): int
      reads this
    {
      len
    }

    lemma LengthExact()
      requires Valid()
      ensures len == |Contents()|
    {
    }

    method SplitTail()
      requires Valid() && tail != null
      modifies this, tail
      ensures Valid() && fresh(Repr - old(Repr))
      ensures tail != null && packs[|packs| - 1] == []
      ensures Contents() == old(Contents())
    {
      hide QuicklistNode.Holds, Members, Owned, Separate, Packed, Concat, Linked;
      var newNode := new QuicklistNode();
      DistinctNodes(nodes);
      LinkBehind(newNode);
      Joined(nodes, packs, Repr, newNode);
      ConcatSnoc(packs, []);
      nodes, packs, Repr := nodes + [newNode], packs + [[]], Repr + {newNode, newNode.lp, newNode.lp.data};
    }

    method SplitHead()
      requires Valid() && head != null
      modifies this, head
      ensures Valid() && fresh(Repr - old(Repr))
      ensures head != null && packs[0] == []
      ensures Contents() == old(Contents())
    {
      hide QuicklistNode.Holds, Members, Owned, Separate, Packed, Linked;
      var newNode := new QuicklistNode();
      DistinctNodes(nodes);
      LinkAhead(newNode);
      Joined(nodes, packs, Repr, newNode);
      nodes, packs, Repr := [newNode] + nodes, [[]] + packs, Repr + {newNode, newNode.lp, newNode.lp.data};
      assert packs[1..] == old(packs);
    }

    /** The pointers of a node that joins at the back, or at the front. */
    method LinkBehind(newNode: QuicklistNode)
      requires nodes != [] && Linked(nodes) && tail == nodes[|nodes| - 1] && newNode !in nodes
      requires forall j, k :: 0 <= j < k < |nodes| ==> nodes[j] != nodes[k]
      requires newNode.next == null
      modifies this`tail, tail, newNode
      ensures tail == newNode && Linked(nodes + [newNode])
    {
      tail.next := newNode;
      newNode.prev := tail;
      tail := newNode;
    }

    method LinkAhead(newNode: QuicklistNode)
      requires nodes != [] && Linked(nodes) && head == nodes[0] && newNode !in nodes
      requires forall j, k :: 0 <= j < k < |nodes| ==> nodes[j] != nodes[k]
      requires newNode.prev == null
      modifies this`head, head, newNode
      ensures head == newNode && Linked([newNode] + nodes)
    {
      newNode.next := head;
      head.prev := newNode;
      head := newNode;
    }

    /** A drained list gets a first node again. */
    method EnsureNode()
      requires Valid()
      modifies this
      ensures Valid() && fresh(Repr - old(Repr)) && head != null && tail != null
      ensures if old(tail) == null then fresh(head) && fresh(tail) else head == old(head) && tail == old(tail)
      ensures Contents() == old(Contents())
    {
      hide QuicklistNode.Holds;
      if tail == null {
        var node := new QuicklistNode();
        head, tail := node, node;
        nodes, packs := [node], [[]];
        Repr := Repr + {node, node.lp, node.lp.data};
        ConcatSingle<Entry>([]);
      }
    }

    /** Writes one entry into node i. */
    method Add(ghost i: nat, node: QuicklistNode, val: Entry, prepend: bool)
      requires Chained() && i < |nodes| && node == nodes[i]
      requires |Pack(packs[i])| + ESTIMATED <= SPLIT_AT && Storable(val)
      modifies this`packs, this`Repr, node.lp, node.lp.data
      ensures Chained() && fresh(Repr - old(Repr)) && nodes == old(nodes)
      ensures packs == old(packs)[i := if prepend then [val] + old(packs)[i] else old(packs)[i] + [val]]
      ensures |Encode(val)| <= ESTIMATED ==> node.lp.data == old(node.lp.data)
    {
      hide QuicklistNode.Holds, Pack, Linked, Owned, Separate, Packed, Members, Storable, Encode;
      ghost var es := packs[i];
      ghost var after := if prepend then [val] + es else es + [val];
      NodeFacts(nodes, packs, Repr, i);
      SetApart(nodes, packs, Repr, i);
      node.Add(val, prepend, es);
      assert OthersHold(nodes, packs, Repr, i, node.lp.data);
      PutBack(nodes, packs, Repr, i, after);
      packs := packs[i := after];
      Repr := Repr + {node.lp.data};
    }

    /** The tail node, replaced by a fresh one when it has no room for an estimated entry. */
    method TailWithRoom()
      requires Valid()
      modifies this, if tail == null then {} else {tail}
      ensures Valid() && fresh(Repr - old(Repr)) && tail != null
      ensures Contents() == old(Contents())
      ensures |Pack(packs[|packs| - 1])| + ESTIMATED <= SPLIT_AT
    {
      hide QuicklistNode.Holds, Pack, Linked, Members, Owned, Packed, Separate, Concat;
      EnsureNode();
      NodeFacts(nodes, packs, Repr, |nodes| - 1);
      var total := tail.TotalLen(packs[|packs| - 1]);
      if total + ESTIMATED > MAX_LISTPACK_BYTES {
        SplitTail();
        EmptyPack();
      }
    }

    /** A value of at most 16 bytes joins without any buffer being replaced. */
    method AddToTail(val: Entry)
      requires Valid() && Storable(val)
      modifies Repr
      ensures Valid() && fresh(Repr - old(Repr))
      ensures Contents() == old(Contents()) + [val]
      ensures |Encode(val)| <= ESTIMATED ==>
        forall j {:trigger old(nodes)[j]} :: 0 <= j < |old(nodes)| ==>
          old(nodes)[j].lp.data == old(nodes[j].lp.data)
    {
      hide QuicklistNode.Holds, Pack, Linked, Members, Owned, Packed, Separate, Concat, Storable, Encode;
      if tail != null { NodeFacts(nodes, packs, Repr, |nodes| - 1); }
      TailWithRoom();
      ghost var last := |nodes| - 1;
      ghost var front, es := packs[..last], packs[last];
      assert packs == front + [es];
      NodeFacts(nodes, packs, Repr, last);
      Add(last, tail, val, false);
      ConcatSnoc(front, es);
      ConcatSnoc(front, es + [val]);
      assert packs == front + [es + [val]];
      len := len + 1;
    }

    /** The head node, replaced by a fresh one when it is within 16 bytes of the limit. */
    method HeadWithRoom()
      requires Valid()
      modifies this, if head == null then {} else {head}
      ensures Valid() && fresh(Repr - old(Repr)) && head != null
      ensures Contents() == old(Contents())
      ensures |Pack(packs[0])| + ESTIMATED <= SPLIT_AT
    {
      hide QuicklistNode.Holds, Pack, Linked, Members, Owned, Packed, Separate, Concat;
      EnsureNode();
      NodeFacts(nodes, packs, Repr, 0);
      var total := head.TotalLen(packs[0]);
      if total + ESTIMATED >= MAX_LISTPACK_BYTES {
        SplitHead();
        EmptyPack();
      }
    }

    method AddToHead(val: Entry)
      requires Valid() && Storable(val)
      modifies Repr
      ensures Valid() && fresh(Repr - old(Repr))
      ensures Contents() == [val] + old(Contents())
      ensures |Encode(val)| <= ESTIMATED ==>
        forall j {:trigger old(nodes)[j]} :: 0 <= j < |old(nodes)| ==>
          old(nodes)[j].lp.data == old(nodes[j].lp.data)
    {
      hide QuicklistNode.Holds, Pack, Linked, Members, Owned, Packed, Separate, Concat, Storable, Encode;
      if head != null { NodeFacts(nodes, packs, Repr, 0); }
      HeadWithRoom();
      ghost var es, rest := packs[0], packs[1..];
      assert packs == [es] + rest;
      NodeFacts(nodes, packs, Repr, 0);
      Add(0, head, val, true);
      ConcatCons(es, rest);
      ConcatCons([val] + es, rest);
      assert [val] + es + Concat(rest) == [val] + (es + Concat(rest));
      assert packs == [[val] + es] + rest;
      len := len + 1;
    }

    /** Takes an emptied node out of the chain. */
    method Unlink(ghost i: nat, node: QuicklistNode)
      requires Chained() && i < |nodes| && node == nodes[i] && packs[i] == []
      modifies Repr
      ensures Chained() && Repr == old(Repr)
      ensures nodes == old(nodes)[..i] + old(nodes)[i + 1..]
      ensures Contents() == old(Contents()) && len == old(len)
    {
      hide QuicklistNode.Holds, Members, Owned, Separate, Packed, Linked, Concat;
      DistinctNodes(nodes);
      NodeFacts(nodes, packs, Repr, i);
      if i > 0 { NodeFacts(nodes, packs, Repr, i - 1); }
      if i + 1 < |nodes| { NodeFacts(nodes, packs, Repr, i + 1); }
      Neighbours(nodes, i);
      Bridge(i, node);
      Left(nodes, packs, Repr, i);
      nodes, packs := nodes[..i] + nodes[i + 1..], packs[..i] + packs[i + 1..];
    }

    /** The neighbours of node i are linked to each other. */
    method Bridge(ghost i: nat, node: QuicklistNode)
      requires i < |nodes| && node == nodes[i] && Linked(nodes)
      requires forall j, k :: 0 <= j < k < |nodes| ==> nodes[j] != nodes[k]
      requires head == nodes[0] && tail == nodes[|nodes| - 1]
      requires node.prev == (if i > 0 then nodes[i - 1] else null)
      requires node.next == (if i + 1 < |nodes| then nodes[i + 1] else null)
      modifies this`head, this`tail
      modifies if i > 0 then {nodes[i - 1]} else {}, if i + 1 < |nodes| then {nodes[i + 1]} else {}
      ensures var ns := nodes[..i] + nodes[i + 1..];
        && Linked(ns)
        && head == (if ns == [] then null else ns[0])
        && tail == (if ns == [] then null else ns[|ns| - 1])
    {
      var next := node.next;
      if node.prev != null {
        node.prev.next := next;
      } else {
        head := next;
      }
      if next != null {
        next.prev := node.prev;
      } else {
        tail := node.prev;
      }
    }

    /** Drops n entries from the front of node i. */
    method Drain(ghost i: nat, node: QuicklistNode, n: nat, size: nat)
      requires Chained() && i < |nodes| && node == nodes[i]
      requires 0 < n <= |packs[i]| && size == |EncodeAll(packs[i][..n])|
      modifies this`packs, this`len, node.lp, node.lp.data
      ensures Chained() && Repr == old(Repr) && nodes == old(nodes) && len == old(len) - n
      ensures packs == old(packs)[i := old(packs)[i][n..]]
    {
      hide QuicklistNode.Holds, Linked, EncodeAll;
      ghost var es := packs[i];
      DropFront(node, n, size, es);
      packs := packs[i := es[n..]];
      len := len - n;
    }

    /** Serves up to want values from the head node and unlinks it once it is empty. */
    method PopFromHead(node: QuicklistNode, want: int)
      returns (taken: int, out: seq<Reply>, next: QuicklistNode?)
      requires Valid() && node == head && want > 0
      modifies Repr
      ensures Valid() && Repr == old(Repr)
      ensures 0 <= taken <= want && taken <= |old(Contents())|
      ensures out == Replies(old(Contents())[..taken])
      ensures Contents() == old(Contents())[taken..]
      ensures |nodes| <= |old(nodes)|
      ensures taken < want ==> next == head && |nodes| < |old(nodes)|
    {
      hide QuicklistNode.Holds, Linked, Members, Owned, Packed, Separate, EncodeAll, Concat, Replies;
      ghost var es, rest := packs[0], packs[1..];
      assert packs == [es] + rest;
      ConcatCons(es, rest);
      NodeFacts(nodes, packs, Repr, 0);
      next := NextOf(node, 0);
      var size;
      taken, size, out := ReadFront(node, want, es);
      assert Contents()[..taken] == es[..taken];
      assert es[taken..] + Concat(rest) == (es + Concat(rest))[taken..];
      if size > 0 {
        SomethingTaken(es[..taken]);
        Drain(0, node, taken, size);
      } else {
        NothingTaken(es[..taken]);
      }
      assert packs == [es[taken..]] + rest;
      ConcatCons(es[taken..], rest);
      NodeFacts(nodes, packs, Repr, 0);
      EmptyExact(node, packs[0]);
      if node.lp.IsEmpty() {
        Unlink(0, node);
      }
    }

    /** Emits and removes the first min(count, len) values; an empty list or a count below one
        answers null. */
    method RemoveElements(count: int) returns (reply: seq<Reply>)
      requires Valid()
      modifies Repr
      ensures Valid() && fresh(Repr - old(Repr))
      ensures if old(len) == 0 || count <= 0
              then reply == [Null] && Contents() == old(Contents())
              else var k := if count > old(len) then old(len) else count;
                   && reply == [ArrayLen(k)] + Replies(old(Contents())[..k])
                   && Contents() == old(Contents())[k..]
                   && forall i :: 0 <= i < k ==>
                        var e := old(Contents())[i];
                        && (e.IntEntry? ==> reply[1 + i] == Integer(e.v))
                        && (e.StrEntry? ==> reply[1 + i] == Bulk(e.s))
    {
      hide QuicklistNode.Holds, Linked, Members, Owned, Packed, Separate, Concat, Replies, EntryReply;
      ghost var all := Contents();
      NoNodes(packs);
      if head == null || len == 0 || count <= 0 {
        reply := [Null];
        return;
      }
      var n := if count > len then len else count;
      reply := [ArrayLen(n)];
      var removed := 0;
      var node := head;
      while node != null && removed < n
        invariant Valid() && Repr == old(Repr)
        invariant 0 <= removed <= n <= |all|
        invariant Contents() == all[removed..]
        invariant reply == [ArrayLen(n)] + Replies(all[..removed])
        invariant removed < n ==> node == head
        decreases |nodes| + (if removed < n then 1 else 0)
      {
        var taken, out, next := PopFromHead(node, n - removed);
        reply := reply + out;
        Consecutive(all, removed, taken);
        RepliesAppend(all[..removed], all[removed..][..taken]);
        removed := removed + taken;
        node := next;
      }
      NoNodes(packs);
      RepliesAt(all[..n]);
      assert forall i :: 0 <= i < n ==> all[..n][i] == all[i];
      if head == null {
        tail := null;
      }
    }

    method NextOf(node: QuicklistNode, ghost i: nat) returns (next: QuicklistNode?)
      requires Chained() && i < |nodes| && node == nodes[i]
      ensures next == if i + 1 < |nodes| then nodes[i + 1] else null
    {
      next := node.next;
    }

    /** Emits the values at positions start..stop under a header that is not clamped. */
    method GetElements(start: int, stop: int) returns (reply: seq<Reply>)
      requires Valid()
      ensures if len == 0 then reply == [Null]
              else reply == [ArrayLen(stop - start + 1)] + Replies(Window(Contents(), start, stop))
      ensures len > 0 ==>
        var lo := if start < 0 then 0 else start;
        && |reply| == 1 + (if stop < lo || lo >= |Contents()| then 0
                           else (if stop < |Contents()| then stop + 1 else |Contents()|) - lo)
        && forall j {:trigger reply[j]} :: 1 <= j < |reply| ==>
             var e := Contents()[lo + j - 1];
             && (e.IntEntry? ==> reply[j] == Integer(e.v))
             && (e.StrEntry? ==> reply[j] == Bulk(e.s))
    {
      hide QuicklistNode.Holds, Linked, Members, Owned, Packed, Separate, Concat, Window;
      NoNodes(packs);
      if head == null || len == 0 {
        return [Null];
      }
      reply := [ArrayLen(stop - start + 1)];
      var index := 0;
      var node := head;
      ghost var i := 0;
      EmptyWindow<Entry>([], start, stop);
      NoNodes(packs[..0]);
      while node != null
        invariant i <= |nodes| && node == (if i < |nodes| then nodes[i] else null)
        invariant index == |Concat(packs[..i])|
        invariant reply == [ArrayLen(stop - start + 1)] + Replies(Window(Concat(packs[..i]), start, stop))
        decreases |nodes| - i
      {
        NodeFacts(nodes, packs, Repr, i);
        ghost var seen, es := Concat(packs[..i]), packs[i];
        PrefixConcat(packs, i);
        SplitConcat(packs, i + 1);
        WindowAppend(seen, es, start, stop);
        var count, out, done := ReadWindow(node, index, start, stop, es);
        reply := reply + out;
        if done {
          WindowAppend(seen + es, Concat(packs[i + 1..]), start, stop);
          EmptyWindow(Concat(packs[i + 1..]), start - |seen + es|, stop - |seen + es|);
          RangeReplies(Contents(), start, stop);
          return;
        }
        index := index + count;
        node := NextOf(node, i);
        i := i + 1;
      }
      assert packs[..i] == packs;
      RangeReplies(Contents(), start, stop);
    }

    /** The text of every value, head to tail. */
    method DumpQuicklist() returns (tokens: seq<Text>)
      requires Valid()
      ensures tokens == Tokens(Contents())
    {
      hide QuicklistNode.Holds, Linked, Members, Owned, Packed, Separate, Concat;
      NoNodes(packs[..0]);
      tokens := [];
      var node := head;
      ghost var i := 0;
      while node != null
        invariant i <= |nodes| && node == (if i < |nodes| then nodes[i] else null)
        invariant tokens == Tokens(Concat(packs[..i]))
        decreases |nodes| - i
      {
        NodeFacts(nodes, packs, Repr, i);
        PrefixConcat(packs, i);
        var out := DumpNode(node, packs[i]);
        tokens := tokens + out;
        node := NextOf(node, i);
        i := i + 1;
      }
      assert packs[..i] == packs;
    }
  }
}
