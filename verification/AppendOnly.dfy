// The store of list values, its dump to the append-only file and the replay of that file.
module AppendOnly {
  import opened Bytes
  import opened Options
  import opened Sequences
  import opened ListpackFormat
  import opened ListpackLimits
  import opened Quicklists
  import opened RespFormat
  import opened RespStream
  import opened ListValues
  import Resp
  import Written = RespRoundTrip

  /** Arguments whose entries stay addressable. */
  predicate Pushable(args: seq<Text>) {
    forall i :: 0 <= i < |args| ==> Storable(ToEntry(args[i]))
  }

  /** The push loop of RPUSH. */
  method PushTail(ql: Quicklist, args: seq<Text>)
    requires ql.Valid() && Pushable(args)
    modifies ql.Repr
    ensures ql.Valid() && fresh(ql.Repr - old(ql.Repr))
    ensures ql.Contents() == old(ql.Contents()) + ToEntries(args)
  {
    hide Quicklist.Valid, Quicklist.Contents, Storable, ToEntry;
    for i := 0 to |args|
      invariant ql.Valid() && fresh(ql.Repr - old(ql.Repr))
      invariant ql.Contents() == old(ql.Contents()) + ToEntries(args[..i])
    {
      var e := ParseEntry(args[i]);
      ql.AddToTail(e);
      assert ToEntries(args[..i + 1]) == ToEntries(args[..i]) + [ToEntry(args[i])];
    }
    assert args[..|args|] == args;
  }

  /** The push loop of LPUSH: the last argument ends up first. */
  method PushHead(ql: Quicklist, args: seq<Text>)
    requires ql.Valid() && Pushable(args)
    modifies ql.Repr
    ensures ql.Valid() && fresh(ql.Repr - old(ql.Repr))
    ensures ql.Contents() == Reversed(ToEntries(args)) + old(ql.Contents())
  {
    hide Quicklist.Valid, Quicklist.Contents, Storable, ToEntry;
    for i := 0 to |args|
      invariant ql.Valid() && fresh(ql.Repr - old(ql.Repr))
      invariant ql.Contents() == Reversed(ToEntries(args[..i])) + old(ql.Contents())
    {
      var e := ParseEntry(args[i]);
      ql.AddToHead(e);
      assert ToEntries(args[..i + 1]) == ToEntries(args[..i]) + [ToEntry(args[i])];
      assert [e] + (Reversed(ToEntries(args[..i])) + old(ql.Contents()))
          == ([e] + Reversed(ToEntries(args[..i]))) + old(ql.Contents());
    }
    assert args[..|args|] == args;
  }

  /** The arguments end up in front, the last one first. */
  function PushAhead(m: Lists, k: Text, args: seq<Text>): (r: Lists)
    ensures k in r
  {
    m[k := Reversed(ToEntries(args)) + (if k in m then m[k] else [])]
  }

  method ParseEntry(arg: Text) returns (e: Entry)
    ensures e == ToEntry(arg)
  {
    var isInt := IsIntScan(arg);
    if isInt {
      e := IntEntry(Atoi(arg));
    } else {
      e := StrEntry(arg);
    }
  }

  class ListStore {
    var lists: map<Text, Quicklist>

    /** Every list owns its nodes and buffers. */
    ghost predicate Apart()
      reads this, set k | k in lists :: lists[k]
    {
      && (forall k :: k in lists ==> lists[k] in lists[k].Repr && this !in lists[k].Repr)
      && (forall j, k :: j in lists && k in lists && j != k ==> lists[j].Repr !! lists[k].Repr)
    }

    ghost function Parts(): set<object>
      reads this, set k | k in lists :: lists[k]
    {
      set k, o | k in lists && o in lists[k].Repr :: o
    }

    ghost predicate Valid()
      reads this, set k | k in lists :: lists[k], Parts()
    {
      Apart() && forall k :: k in lists ==> lists[k].Valid() && AllStored(lists[k].Contents())
    }

    ghost function Abs(): Lists
      reads this, set k | k in lists :: lists[k]
    {
      map k | k in lists :: lists[k].Contents()
    }

    constructor ()
      ensures Valid() && Abs() == map[] && lists == map[]
    {
      lists := map[];
    }

    /** The list under a key, created empty when there is none. */
    method ListAt(key: Text) returns (ql: Quicklist)
      requires Valid()
      modifies this
      ensures Valid() && key in lists && lists[key] == ql
      ensures if key in old(lists) then lists == old(lists) else lists == old(lists)[key := ql] && fresh(ql.Repr)
      ensures forall k :: k in old(lists) ==> old(lists)[k].Repr == old(lists[k].Repr)
      ensures Abs() == if key in old(lists) then old(Abs()) else old(Abs())[key := []]
    {
      hide Quicklist.Valid, Quicklist.Contents, Stored;
      if key !in lists {
        ql := new Quicklist();
        lists := lists[key := ql];
      } else {
        ql := lists[key];
      }
    }

    /** Pushes arguments at one end of a list that exists. */
    method PushOnto(key: Text, args: seq<Text>, front: bool)
      requires Valid() && Pushable(args) && key in lists
      modifies lists[key].Repr
      ensures Valid() && lists == old(lists)
      ensures forall k :: k in lists && k != key ==> lists[k].Repr == old(lists[k].Repr)
      ensures fresh(lists[key].Repr - old(lists[key].Repr))
      ensures Abs() == old(Abs())[key :=
        if front then Reversed(ToEntries(args)) + old(Abs())[key] else old(Abs())[key] + ToEntries(args)]
    {
      hide Quicklist.Valid, Quicklist.Contents, ToEntries, Stored;
      var ql := lists[key];
      ghost var es := ql.Contents();
      PushedStored(es, args);
      if front {
        PushHead(ql, args);
      } else {
        PushTail(ql, args);
      }
      assert Apart();
      assert forall k :: k in lists && k != key ==> lists[k].Valid() && lists[k].Contents() == old(lists[k].Contents());
    }

    method PushBack(key: Text, args: seq<Text>) returns (size: nat)
      requires Valid() && Pushable(args)
      modifies this, set o | key in lists && o in lists[key].Repr :: o
      ensures Valid() && Abs() == Push(old(Abs()), key, args) && size == |Push(old(Abs()), key, args)[key]|
      ensures key in lists && lists.Keys == old(lists).Keys + {key}
      ensures forall k :: k in old(lists) ==> lists[k] == old(lists)[k]
      ensures forall k :: k in lists && k != key ==> lists[k].Repr == old(lists[k].Repr)
      ensures fresh(lists[key].Repr - old(if key in lists then lists[key].Repr else {}))
    {
      hide Quicklist.Valid, Quicklist.Contents, ToEntries, Valid;
      var ql := ListAt(key);
      PushOnto(key, args, false);
      assert Abs() == Push(old(Abs()), key, args);
      size := LengthOf(key);
    }

    /** RPUSH answers the new length, or an error when there is nothing to push. */
    method Rpush(key: Text, args: seq<Text>) returns (size: Option<nat>)
      requires Valid() && Pushable(args)
      modifies this, set o | key in lists && o in lists[key].Repr :: o
      ensures Valid()
      ensures if args == [] then size == None && Abs() == old(Abs())
              else Abs() == Push(old(Abs()), key, args) && size == Some(|Push(old(Abs()), key, args)[key]|)
    {
      hide Quicklist.Valid, Quicklist.Contents, Valid, Abs, Pushable, Push;
      if args == [] {
        return None;
      }
      var n := PushBack(key, args);
      return Some(n);
    }

    method LengthOf(key: Text) returns (size: nat)
      requires Valid() && key in lists
      ensures Valid() && key in Abs() && size == |Abs()[key]|
    {
      hide Quicklist.Contents, AllStored;
      lists[key].LengthExact();
      size := lists[key].Size();
    }

    /** One step of a replay. */
    method ReplayValue(v: Value)
      requires Valid() && LoadableOne(v)
      modifies this, Parts()
      ensures Valid() && fresh(Parts() - old(Parts()))
      ensures Abs() == ReplayOne(old(Abs()), v)
    {
      hide Quicklist.Valid, Quicklist.Contents, Pushable, Push, Valid, Abs;
      if v.Arr? && |v.elems| > 0 && v.elems[0] == Str(RPUSH) {
        var args := StringArgs(v.elems[1..]);
        if |args| >= 2 {
          var _ := PushBack(args[0], args[1..]);
        }
      }
    }

    method PushFront(key: Text, args: seq<Text>) returns (size: nat)
      requires Valid() && Pushable(args)
      modifies this, set o | key in lists && o in lists[key].Repr :: o
      ensures Valid() && Abs() == PushAhead(old(Abs()), key, args) && size == |PushAhead(old(Abs()), key, args)[key]|
    {
      hide Quicklist.Valid, Quicklist.Contents, ToEntries, Valid, Reversed;
      var ql := ListAt(key);
      assert forall es: seq<Entry> :: es + [] == es;
      PushOnto(key, args, true);
      assert Abs() == PushAhead(old(Abs()), key, args);
      size := LengthOf(key);
    }

    /** LPUSH answers the new length, or an error when there is nothing to push. */
    method Lpush(key: Text, args: seq<Text>) returns (size: Option<nat>)
      requires Valid() && Pushable(args)
      modifies this, set o | key in lists && o in lists[key].Repr :: o
      ensures Valid()
      ensures if args == [] then size == None && Abs() == old(Abs())
              else Abs() == PushAhead(old(Abs()), key, args) && size == Some(|PushAhead(old(Abs()), key, args)[key]|)
    {
      hide Quicklist.Valid, Quicklist.Contents, Valid, Abs, Pushable, PushAhead;
      if args == [] {
        return None;
      }
      var n := PushFront(key, args);
      return Some(n);
    }

    method PopFrom(key: Text, count: int) returns (reply: seq<Reply>)
      requires Valid() && key in lists
      modifies lists[key].Repr
      ensures Valid() && lists == old(lists)
      ensures var es := old(Abs())[key];
        var k := if count <= 0 then 0 else if count > |es| then |es| else count;
        && Abs() == old(Abs())[key := es[k..]]
        && reply == if k == 0 then [Null] else [ArrayLen(k)] + Replies(es[..k])
    {
      hide Quicklist.Valid, Quicklist.Contents, Stored, Storable, Replies;
      var ql := lists[key];
      ql.LengthExact();
      ghost var es := ql.Contents();
      assert es[0..] == es;
      reply := ql.RemoveElements(count);
      assert Apart();
      assert forall k :: k in lists && k != key ==> lists[k].Valid() && lists[k].Contents() == old(lists[k].Contents());
    }

    /** LPOP; an emptied list stays in the store, and a missing one answers null. */
    method Lpop(key: Text, count: int) returns (reply: seq<Reply>)
      requires Valid()
      modifies set o | key in lists && o in lists[key].Repr :: o
      ensures Valid() && lists == old(lists)
      ensures if key !in lists then reply == [Null] && Abs() == old(Abs())
              else
                var es := old(Abs())[key];
                var k := if count <= 0 then 0 else if count > |es| then |es| else count;
                && Abs() == old(Abs())[key := es[k..]]
                && reply == (if k == 0 then [Null] else [ArrayLen(k)] + Replies(es[..k]))
                && forall i :: 0 <= i < k ==>
                     && (es[i].IntEntry? ==> reply[1 + i] == Integer(es[i].v))
                     && (es[i].StrEntry? ==> reply[1 + i] == Bulk(es[i].s))
    {
      hide Quicklist.Valid, Quicklist.Contents, Valid, Replies;
      if key !in lists {
        return [Null];
      }
      ghost var es := Abs()[key];
      ghost var k := if count <= 0 then 0 else if count > |es| then |es| else count;
      RepliesAt(es[..k]);
      assert forall i :: 0 <= i < k ==> es[..k][i] == es[i];
      reply := PopFrom(key, count);
    }

    /** One record per non-empty list, keys in any order. */
    method DumpAll() returns (out: Text, order: seq<Text>)
      requires Valid() && AllDumpable(Abs())
      ensures Distinct(order) && (forall k :: k in Abs() <==> k in order)
      ensures forall i :: 0 <= i < |order| ==> order[i] in Abs()
      ensures out == DumpBytes(Abs(), order)
    {
      hide Quicklist.Contents, Quicklist.Valid, Dumpable, Records, Written.EncodeSeq;
      ghost var m := Abs();
      out, order := [], [];
      var remaining := lists.Keys;
      NoRecords(m);
      while remaining != {}
        invariant remaining <= lists.Keys && Distinct(order)
        invariant forall i :: 0 <= i < |order| ==> order[i] in m && order[i] !in remaining
        invariant forall k :: k in lists && k !in remaining ==> k in order
        invariant out == DumpBytes(m, order)
        decreases |remaining|
      {
        var k :| k in remaining;
        remaining := remaining - {k};
        out := DumpKey(k, out);
        DumpSnoc(m, order, k);
        order := order + [k];
      }
      assert forall k :: k in order ==> k in m;
    }

    method DumpKey(k: Text, fp: Text) returns (out: Text)
      requires Valid() && k in lists && Dumpable(k, Abs()[k])
      ensures out == fp + if Abs()[k] == [] then [] else Written.Frame(Written.Bulks(Record(k, Abs()[k])))
    {
      hide Quicklist.Contents, Quicklist.Valid, AllStored, Written.Frame;
      var tokens := [RPUSH, k];
      var elements := lists[k].DumpQuicklist();
      tokens := tokens + elements;
      RecordFits(k, Abs()[k]);
      if |tokens| > 2 {
        out := Resp.EncodeStrings(fp, tokens);
      } else {
        out := fp;
      }
    }
  }

  lemma RecordFits(k: Text, es: seq<Entry>)
    requires Dumpable(k, es)
    ensures var ts := Record(k, es);
      |ts| < TWO_63 && forall i :: 0 <= i < |ts| ==> |ts[i]| < TWO_63
  {
    hide Written.Frame, AllStored, Token;
    var ts := Record(k, es);
    assert forall i :: 2 <= i < |ts| ==> ts[i] == Token(es[i - 2]);
  }

  lemma NoRecords(m: Lists)
    requires AllDumpable(m)
    ensures DumpBytes(m, []) == []
  {
  }

  /** Dumping one more key appends its record. */
  lemma DumpSnoc(m: Lists, order: seq<Text>, k: Text)
    requires AllDumpable(m) && k in m && forall i :: 0 <= i < |order| ==> order[i] in m
    ensures forall i :: 0 <= i <= |order| ==> (order + [k])[i] in m
    ensures DumpBytes(m, order + [k]) == DumpBytes(m, order) +
      if m[k] == [] then [] else Written.Frame(Written.Bulks(Record(k, m[k])))
  {
    hide Written.EncodeSeq, Record;
    RecordsSnoc(m, order, k);
    if m[k] != [] {
      RecordFits(k, m[k]);
      Written.EncodeSeqSnoc(Records(m, order), Written.Bulks(Record(k, m[k])));
    } else {
      assert Records(m, order) + [] == Records(m, order);
    }
    assert DumpBytes(m, order) + [] == DumpBytes(m, order);
  }

  lemma {:induction false} RecordsSnoc(m: Lists, order: seq<Text>, k: Text)
    requires AllDumpable(m) && k in m && forall i :: 0 <= i < |order| ==> order[i] in m
    ensures forall i :: 0 <= i <= |order| ==> (order + [k])[i] in m
    ensures Records(m, order + [k]) == Records(m, order) + RecordAt(m, k)
    decreases |order|
  {
    RecordsHead(m, order + [k]);
    if order == [] {
      NoRecords(m);
      assert order + [k] == [k] && [k][1..] == [];
    } else {
      RecordsHead(m, order);
      RecordsSnoc(m, order[1..], k);
      assert (order + [k])[1..] == order[1..] + [k];
      hide Records, RecordAt;
      var one := RecordAt(m, order[0]);
      assert one + (Records(m, order[1..]) + RecordAt(m, k)) == (one + Records(m, order[1..])) + RecordAt(m, k);
    }
  }

  function RecordAt(m: Lists, k: Text): seq<Value>
    requires AllDumpable(m) && k in m
  {
    if m[k] == [] then [] else [Written.Bulks(Record(k, m[k]))]
  }

  lemma RecordsHead(m: Lists, order: seq<Text>)
    requires AllDumpable(m) && order != [] && forall i :: 0 <= i < |order| ==> order[i] in m
    ensures forall i :: 0 <= i < |order| - 1 ==> order[1..][i] in m
    ensures Records(m, order) == RecordAt(m, order[0]) + Records(m, order[1..])
  {
    assert forall i :: 0 <= i < |order| - 1 ==> order[1..][i] == order[i + 1];
  }

  /** The arguments a record hands to RPUSH, behind the key, are addressable. */
  predicate LoadableOne(v: Value) {
    v.Arr? && v.elems != [] ==>
      var args := StringsOf(v.elems[1..]);
      |args| >= 2 ==> Pushable(args[1..])
  }

  predicate Loadable(vs: seq<Value>) {
    forall i :: 0 <= i < |vs| ==> LoadableOne(vs[i])
  }

  lemma RecordLoadable(k: Text, es: seq<Entry>)
    requires Dumpable(k, es)
    ensures LoadableOne(Written.Bulks(Record(k, es)))
  {
    hide Written.Frame, Token, Storable, ToEntry;
    var items := Record(k, es);
    var v := Written.Bulks(items);
    StringsOfBulks(v.elems[1..]);
    assert Strings(v.elems[1..]) == [k] + Tokens(es);
    assert ([k] + Tokens(es))[1..] == Tokens(es);
    forall i | 0 <= i < |es| ensures Storable(ToEntry(Tokens(es)[i])) {
      TokenExact(es[i]);
    }
  }

  lemma {:induction false} RecordsLoadable(m: Lists, order: seq<Text>)
    requires AllDumpable(m) && forall i :: 0 <= i < |order| ==> order[i] in m
    ensures Loadable(Records(m, order))
    decreases |order|
  {
    if order != [] {
      hide Record, LoadableOne;
      RecordsStep(m, order);
      RecordsLoadable(m, order[1..]);
      RecordLoadable(order[0], m[order[0]]);
      var vs := Records(m, order);
      assert m[order[0]] != [] ==> forall i :: 1 <= i < |vs| ==> vs[i] == vs[1..][i - 1];
    }
  }

  lemma DumpLoadable(m: Lists, order: seq<Text>)
    requires AllDumpable(m) && forall i :: 0 <= i < |order| ==> order[i] in m
    ensures Loadable(ParseAll(DumpBytes(m, order)).values)
  {
    FramesParse(Records(m, order));
    RecordsLoadable(m, order);
  }

  /** Reads a file back into a new store; a file that does not decode restores nothing. */
  method Restore(data: Text) returns (s: ListStore)
    requires Loadable(ParseAll(data).values)
    ensures s.Valid()
    ensures s.Abs() == if Restored(data).Some? then Restored(data).value else map[]
  {
    hide Quicklist.Valid, Quicklist.Contents, ParseAll, Pushable;
    var b := Resp.Decode(data);
    s := new ListStore();
    if b.end != Clean {
      return;
    }
    var vs := b.values;
    for i := 0 to |vs|
      invariant fresh(s) && fresh(s.Parts()) && s.Valid()
      invariant Replay(map[], vs) == Replay(s.Abs(), vs[i..])
    {
      s.ReplayValue(vs[i]);
      assert vs[i..][1..] == vs[i + 1..];
    }
  }

  method StringArgs(vs: seq<Value>) returns (args: seq<Text>)
    ensures args == StringsOf(vs)
  {
    args := [];
    assert vs[0..] == vs;
    for i := 0 to |vs|
      invariant StringsOf(vs) == args + StringsOf(vs[i..])
    {
      StringsAt(vs, i, args);
      if vs[i].Str? {
        args := args + [vs[i].s];
      }
    }
  }

  lemma StringsAt(vs: seq<Value>, i: nat, done: seq<Text>)
    requires i < |vs|
    ensures done + StringsOf(vs[i..])
         == (if vs[i].Str? then done + [vs[i].s] else done) + StringsOf(vs[i + 1..])
  {
    assert vs[i..][1..] == vs[i + 1..];
  }

  /** A server that dumps its lists, stops, and starts again from the file has the same non-empty
      lists as before. */
  method Restart(before: ListStore) returns (after: ListStore)
    requires before.Valid() && AllDumpable(before.Abs())
    ensures after.Valid()
    ensures after.Abs() == map k | k in before.Abs() && before.Abs()[k] != [] :: before.Abs()[k]
  {
    hide Quicklist.Valid, Quicklist.Contents, ListStore.Valid, Dumpable, DumpBytes, ParseAll, Loadable;
    ghost var m := before.Abs();
    var file, order := before.DumpAll();
    DumpRestores(m, order);
    DumpLoadable(m, order);
    after := Restore(file);
  }

  lemma PushedStored(es: seq<Entry>, args: seq<Text>)
    requires AllStored(es) && Pushable(args)
    ensures AllStored(es + ToEntries(args))
    ensures AllStored(Reversed(ToEntries(args)) + es)
  {
    hide Storable, IsInt, Atoi;
    var pushed := ToEntries(args);
    forall i | 0 <= i < |pushed| ensures Stored(pushed[i]) && Storable(pushed[i]) {
      PushedIsStored(args[i]);
    }
  }
}
