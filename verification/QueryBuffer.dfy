// A client's query buffer: grown, filled from the socket, parsed and shifted.
module QueryBuffers {
  import opened Bytes
  import opened Sequences
  import opened RespFormat
  import opened RespStream
  import Memory
  import Resp
  import Written = RespRoundTrip

  /** The strings of an array; the type assertion on anything else panics. */
  method ToArrayString(vs: seq<Value>) returns (ok: bool, ts: seq<Text>)
    ensures ok <==> AllStrings(vs)
    ensures ok ==> ts == Strings(vs)
  {
    ts := [];
    for i := 0 to |vs|
      invariant |ts| == i
      invariant forall j :: 0 <= j < i ==> vs[j].Str? && ts[j] == vs[j].s
    {
      if !vs[i].Str? {
        return false, [];
      }
      ts := ts + [vs[i].s];
    }
    ok := true;
  }

  method ParseCommands(data: Text) returns (r: Reading)
    ensures r == ReadCommands(data)
    ensures r.Commands? ==> forall j, i :: 0 <= j < |r.cmds| && 0 <= i < |r.cmds[j].name| ==>
      !(97 <= r.cmds[j].name[i] <= 122)
  {
    if |data| == 0 {
      return Commands([], 0);
    }
    var b := Resp.Decode(data);
    if b.end == Failed {
      return ParseError;
    }
    if b.end == Crashed {
      return Crash;
    }
    var cmds := [];
    var values := b.values;
    for i := 0 to |values|
      invariant Convertible(values[..i]) && cmds == ToCommands(values[..i])
      invariant forall j, n :: 0 <= j < |cmds| && 0 <= n < |cmds[j].name| ==> !(97 <= cmds[j].name[n] <= 122)
    {
      assert values[..i + 1] == values[..i] + [values[i]];
      ToCommandsAppend(values[..i], [values[i]]);
      ConvertiblePrefix(values, i + 1);
      OneCommand(values[i]);
      if values[i].Arr? {
        var ok, tokens := ToArrayString(values[i].elems);
        if !ok {
          return Crash;
        }
        if |tokens| > 0 {
          cmds := cmds + [Command(Upper(tokens[0]), tokens[1..])];
        }
      }
    }
    assert values[..|values|] == values;
    r := Commands(cmds, b.n);
  }

  lemma ConvertiblePrefix(values: seq<Value>, i: nat)
    requires i <= |values|
    ensures Convertible(values) ==> Convertible(values[..i])
  {
    ConvertibleAppend(values[..i], values[i..]);
    assert values[..i] + values[i..] == values;
  }

  lemma OneCommand(v: Value)
    ensures Convertible([v]) <==> (v.Arr? ==> AllStrings(v.elems))
    ensures Convertible([v]) ==> ToCommands([v]) == ToCommand(v)
  {
    assert [v][0] == v && [v][1..] == [];
    if Convertible([v]) {
      assert ToCommand(v) + [] == ToCommand(v);
    }
  }

  class QueryBuffer {
    var data: array<byte>
    var len: nat

    ghost predicate Valid()
      reads this
    {
      len <= data.Length
    }

    function Bytes(): Text
      reads this, data
      requires Valid()
    {
      data[..len]
    }

    constructor ()
      ensures Valid() && Bytes() == [] && fresh(data)
    {
      data := new byte[4096](i => 0);
      len := 0;
    }

    /** Doubles the capacity of a full buffer. */
    method Reserve()
      requires Valid()
      modifies this`data
      ensures Valid() && len < data.Length && Bytes() == old(Bytes())
      ensures data == old(data) || fresh(data)
    {
      if len == data.Length {
        var newCap := data.Length * 2;
        if newCap == 0 {
          newCap := 4096;
        }
        var newBuf := new byte[newCap](i => 0);
        Memory.Move(newBuf, 0, data, 0, len);
        data := newBuf;
      }
    }

    /** A read from the socket: some of the waiting bytes, at least one, no more than fit. */
    method Read(waiting: Text) returns (n: nat)
      requires Valid() && len < data.Length && waiting != []
      modifies this`len, data
      ensures Valid() && data == old(data) && 1 <= n <= |waiting|
      ensures Bytes() == old(Bytes()) + waiting[..n]
    {
      n := *;
      if n < 1 || n > |waiting| || n > data.Length - len {
        n := 1;
      }
      Memory.Put(data, len, waiting[..n]);
      len := len + n;
    }

    /** Parses what has arrived and shifts the rest to the front. */
    method Process() returns (r: Reading)
      requires Valid()
      modifies this`len, data
      ensures Valid() && data == old(data)
      ensures r == ReadCommands(old(Bytes()))
      ensures Bytes() == if r.Commands? then old(Bytes())[r.n..] else old(Bytes())
    {
      r := ParseCommands(Bytes());
      if r.Commands? && r.n > 0 {
        Memory.Move(data, 0, data, r.n, len - r.n);
        len := len - r.n;
      }
    }

    /** Serves everything waiting on the socket, in reads of any size. */
    method ReadQuery(pending: Text) returns (c: Connection)
      requires Valid() && Parse(Bytes()) == Incomplete
      modifies this, data
      ensures Valid() && (data == old(data) || fresh(data))
      ensures match ReadCommands(old(Bytes()) + pending)
        case Commands(cmds, n) =>
          && c == Open(cmds, (old(Bytes()) + pending)[n..])
          && Bytes() == c.buf && Parse(Bytes()) == Incomplete
        case _ => !c.Open?
    {
      hide ReadCommands, Parse, Concat, Run;
      ghost var start := Bytes();
      ghost var chunks: seq<Text> := [];
      var cmds := [];
      var waiting := pending;
      NoChunks(start);
      while waiting != []
        invariant Valid() && (data == old(data) || fresh(data))
        invariant Concat(chunks) + waiting == pending
        invariant Run(start, chunks) == Open(cmds, Bytes())
        invariant Parse(Bytes()) == Incomplete
        decreases |waiting|
      {
        var n, r := ReadOnce(waiting);
        ghost var chunk := waiting[..n];
        assert Concat(chunks) + (chunk + waiting[n..]) == (Concat(chunks) + chunk) + waiting[n..];
        assert chunk + waiting[n..] == waiting;
        ConcatSnoc(chunks, chunk);
        RunSnoc(start, chunks, chunk);
        chunks := chunks + [chunk];
        waiting := waiting[n..];
        if !r.Commands? {
          Disturbed(start, chunks, waiting);
          return if r == ParseError then Closed else Down;
        }
        cmds := cmds + r.cmds;
      }
      assert Concat(chunks) + [] == Concat(chunks);
      ChunkingIrrelevant(start, chunks);
      c := Open(cmds, Bytes());
    }

    /** One turn of the read loop: make room, read, process. */
    method ReadOnce(waiting: Text) returns (n: nat, r: Reading)
      requires Valid() && waiting != []
      modifies this, data
      ensures Valid() && (data == old(data) || fresh(data)) && 1 <= n <= |waiting|
      ensures r == ReadCommands(old(Bytes()) + waiting[..n])
      ensures r.Commands? ==> Bytes() == (old(Bytes()) + waiting[..n])[r.n..] && Parse(Bytes()) == Incomplete
    {
      hide ReadCommands, Parse;
      Reserve();
      n := Read(waiting);
      ghost var all := Bytes();
      r := Process();
      if r.Commands? {
        Drained(all);
      }
    }
  }

  lemma NoChunks(buf: Text)
    ensures Concat<byte>([]) == [] && Run(buf, []) == Open([], buf)
  {
  }

  /** One more chunk continues a run where it stood. */
  lemma {:induction false} RunSnoc(buf: Text, chunks: seq<Text>, chunk: Text)
    ensures match Run(buf, chunks)
      case Open(cmds, left) =>
        (match ReadCommands(left + chunk)
         case Commands(more, n) => Run(buf, chunks + [chunk]) == Open(cmds + more, (left + chunk)[n..])
         case ParseError => Run(buf, chunks + [chunk]) == Closed
         case Crash => Run(buf, chunks + [chunk]) == Down)
      case other => Run(buf, chunks + [chunk]) == other
    decreases |chunks|
  {
    hide ReadCommands;
    if chunks == [] {
      assert chunks + [chunk] == [chunk];
      assert [chunk][1..] == [];
      var r := ReadCommands(buf + chunk);
      if r.Commands? {
        assert Run((buf + chunk)[r.n..], []) == Open([], (buf + chunk)[r.n..]);
        assert r.cmds + [] == r.cmds && [] + r.cmds == r.cmds;
      }
    } else {
      assert (chunks + [chunk])[1..] == chunks[1..] + [chunk];
      var r := ReadCommands(buf + chunks[0]);
      if r.Commands? {
        var buf' := (buf + chunks[0])[r.n..];
        RunSnoc(buf', chunks[1..], chunk);
        var c := Run(buf', chunks[1..]);
        if c.Open? {
          var s := ReadCommands(c.buf + chunk);
          if s.Commands? {
            assert r.cmds + (c.cmds + s.cmds) == (r.cmds + c.cmds) + s.cmds;
          }
        }
      }
    }
  }

  /** A run that has ended stays ended, so the whole stream has no clean reading either. */
  lemma Disturbed(start: Text, chunks: seq<Text>, waiting: Text)
    requires Parse(start) == Incomplete && !Run(start, chunks).Open?
    ensures !ReadCommands(start + (Concat(chunks) + waiting)).Commands?
  {
    hide ReadCommands, Parse, Concat;
    RunSnoc(start, chunks, waiting);
    ConcatSnoc(chunks, waiting);
    ChunkingIrrelevant(start, chunks + [waiting]);
  }

  lemma Drained(data: Text)
    requires ReadCommands(data).Commands?
    ensures Parse(data[ReadCommands(data).n..]) == Incomplete
  {
    LeftoverIncomplete(data);
  }

  // ----- a pipeline of commands -----

  predicate Sendable(c: Command) {
    && |c.args| + 1 < TWO_63 && |c.name| < TWO_63
    && forall i :: 0 <= i < |c.args| ==> |c.args[i]| < TWO_63
  }

  /** A command on the wire: an array of bulk strings. */
  function Wire(c: Command): Text
    requires Sendable(c)
  {
    Written.Frame(Written.Bulks([c.name] + c.args))
  }

  function Wires(cs: seq<Command>): (ws: seq<Text>)
    requires forall i :: 0 <= i < |cs| ==> Sendable(cs[i])
    ensures |ws| == |cs|
  {
    seq(|cs|, i requires 0 <= i < |cs| => Wire(cs[i]))
  }

  function Uppered(cs: seq<Command>): (us: seq<Command>)
    ensures |us| == |cs|
  {
    seq(|cs|, i requires 0 <= i < |cs| => cs[i].(name := Upper(cs[i].name)))
  }

  /** An encoded command is read back with its arguments, under the name it has in capitals. */
  lemma WireReads(c: Command, name: Text)
    requires Sendable(c) && |Wire(c)| < TWO_63 && |name| == |c.name|
    requires forall i :: 0 <= i < |name| ==> !(97 <= name[i] <= 122)
    requires forall i :: 0 <= i < |name| ==>
      c.name[i] == name[i] || (65 <= name[i] <= 90 && c.name[i] == name[i] + 32)
    ensures ReadCommands(Wire(c)) == Commands([Command(name, c.args)], |Wire(c)|)
  {
    hide ReadCommands, Wire, Upper;
    WireUppered(c);
    assert Upper(c.name) == name;
  }

  lemma WireUppered(c: Command)
    requires Sendable(c) && |Wire(c)| < TWO_63
    ensures ReadCommands(Wire(c)) == Commands([c.(name := Upper(c.name))], |Wire(c)|)
  {
    var items := [c.name] + c.args;
    var v, w := Written.Bulks(items), Wire(c);
    Written.FrameReads(v, []);
    assert w + [] == w;
    ReturnedBulks(v);
    assert w[|w|..] == [];
    assert ParseAll([]) == Batch([], 0, Clean);
    assert ParseAll(w) == Batch([v], |w|, Clean);
    OneCommand(v);
    assert Strings(v.elems) == items;
    assert items[1..] == c.args;
  }

  lemma ReturnedBulks(v: Value)
    requires v.Arr? && AllStrings(v.elems)
    ensures Written.Returned(v) == v
  {
    Written.ReturnExact(v);
  }

  lemma WiresCons(cs: seq<Command>)
    requires cs != [] && forall i :: 0 <= i < |cs| ==> Sendable(cs[i])
    ensures Concat(Wires(cs)) == Wire(cs[0]) + Concat(Wires(cs[1..]))
    ensures Uppered(cs) == [cs[0].(name := Upper(cs[0].name))] + Uppered(cs[1..])
  {
    hide Wire, Upper;
    assert Wires(cs)[1..] == Wires(cs[1..]);
  }

  /** A stream of encoded commands reads as those commands. */
  lemma {:induction false} WiresRead(cs: seq<Command>)
    requires forall i :: 0 <= i < |cs| ==> Sendable(cs[i]) && |Wire(cs[i])| < TWO_63
    ensures ReadCommands(Concat(Wires(cs))) == Commands(Uppered(cs), |Concat(Wires(cs))|)
    decreases |cs|
  {
    if cs == [] {
      assert ParseAll([]) == Batch([], 0, Clean);
    } else {
      hide ReadCommands, Wire, Wires, Upper, Uppered, Concat;
      WiresRead(cs[1..]);
      WireUppered(cs[0]);
      WiresCons(cs);
      var w, rest := Wire(cs[0]), Concat(Wires(cs[1..]));
      ReadSplit(w, rest);
      assert w[|w|..] + rest == rest;
    }
  }

  /** Any pipeline of commands, cut into chunks in any way, is received whole, in order and once, with the
      arguments untouched and the names in capitals. */
  lemma PipelineDelivered(cs: seq<Command>, chunks: seq<Text>)
    requires forall i :: 0 <= i < |cs| ==> Sendable(cs[i]) && |Wire(cs[i])| < TWO_63
    requires Concat(chunks) == Concat(Wires(cs))
    ensures var r := Run([], chunks);
      && r.Open? && r.buf == [] && |r.cmds| == |cs|
      && forall i :: 0 <= i < |cs| ==> r.cmds[i].args == cs[i].args && Capitals(cs[i].name, r.cmds[i].name)
  {
    hide ReadCommands, Wire, Concat, Upper, Capitals;
    WiresRead(cs);
    var w := Concat(Wires(cs));
    assert [] + Concat(chunks) == w && w[|w|..] == [];
    ChunkingIrrelevant([], chunks);
  }
}
