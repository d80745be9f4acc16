// From a byte stream to commands, and why the network's chopping does not matter.
module RespStream {
  import opened Bytes
  import opened Sequences
  import opened RespFormat

  datatype Status = Clean | Failed | Crashed

  /** The values at the front of a buffer, the bytes they take, and what stopped the scan. */
  datatype Batch = Batch(values: seq<Value>, n: nat, end: Status)

  function ParseAll(data: Text): (b: Batch)
    ensures b.n <= |data|
    decreases |data|
  {
    match Parse(data)
    case Incomplete => Batch([], 0, Clean)
    case Invalid(_) => Batch([], 0, Failed)
    case Panic => Batch([], 0, Crashed)
    case Ok(v, n) =>
      var rest := ParseAll(data[n..]);
      Batch([v] + rest.values, n + rest.n, rest.end)
  }

  datatype Command = Command(name: Text, args: seq<Text>)

  /** The name u is t with the lower-case ASCII letters replaced by their capitals. */
  predicate Capitals(t: Text, u: Text) {
    && |u| == |t|
    && forall i :: 0 <= i < |t| ==> !(97 <= u[i] <= 122) && (t[i] == u[i] || (65 <= u[i] <= 90 && t[i] == u[i] + 32))
  }

  /** ASCII letters in upper case. */
  function Upper(t: Text): (r: Text)
    ensures Capitals(t, r)
  {
    seq(|t|, i requires 0 <= i < |t| => if 97 <= t[i] <= 122 then t[i] - 32 else t[i])
  }

  predicate AllStrings(vs: seq<Value>) {
    forall i :: 0 <= i < |vs| ==> vs[i].Str?
  }

  function Strings(vs: seq<Value>): (ts: seq<Text>)
    requires AllStrings(vs)
    ensures |ts| == |vs|
  {
    seq(|vs|, i requires 0 <= i < |vs| => vs[i].s)
  }

  /** Commands are the non-empty arrays; other values are dropped. */
  function ToCommand(v: Value): seq<Command>
    requires v.Arr? ==> AllStrings(v.elems)
  {
    if v.Arr? && v.elems != [] then
      var tokens := Strings(v.elems);
      [Command(Upper(tokens[0]), tokens[1..])]
    else []
  }

  /** An array with an element that is no string fails a type assertion. */
  predicate Convertible(values: seq<Value>) {
    forall i :: 0 <= i < |values| && values[i].Arr? ==> AllStrings(values[i].elems)
  }

  function ToCommands(values: seq<Value>): seq<Command>
    requires Convertible(values)
  {
    if values == [] then []
    else
      assert Convertible(values[1..]) by {
        assert forall i :: 0 <= i < |values| - 1 ==> values[1..][i] == values[i + 1];
      }
      ToCommand(values[0]) + ToCommands(values[1..])
  }

  /** Every command of the pass comes from a non-empty array: the texts of its elements, the first one in
      capitals. */
  lemma {:induction false} CommandsAre(values: seq<Value>, j: nat) returns (i: nat)
    requires Convertible(values) && j < |ToCommands(values)|
    ensures i < |values| && values[i].Arr? && values[i].elems != [] && AllStrings(values[i].elems)
    ensures var c, elems := ToCommands(values)[j], values[i].elems;
      && Capitals(elems[0].s, c.name)
      && |c.args| == |elems| - 1 && forall n :: 0 <= n < |c.args| ==> c.args[n] == elems[n + 1].s
    decreases |values|
  {
    hide Capitals, Upper;
    if j < |ToCommand(values[0])| {
      i := 0;
    } else {
      i := CommandsAre(values[1..], j - |ToCommand(values[0])|);
      i := i + 1;
    }
  }

  datatype Reading = Commands(cmds: seq<Command>, n: nat) | ParseError | Crash

  /** One pass over the query buffer. A parse error discards the commands ahead of it. */
  function ReadCommands(data: Text): (r: Reading)
    ensures r.Commands? ==> r.n <= |data|
  {
    var b := ParseAll(data);
    if b.end == Failed then ParseError
    else if b.end == Crashed || !Convertible(b.values) then Crash
    else Commands(ToCommands(b.values), b.n)
  }

  datatype Connection = Open(cmds: seq<Command>, buf: Text) | Closed | Down

  /** Append a chunk, read, shift; for every chunk in turn. */
  function Run(buf: Text, chunks: seq<Text>): Connection
    decreases |chunks|
  {
    if chunks == [] then Open([], buf)
    else
      var data := buf + chunks[0];
      match ReadCommands(data)
      case ParseError => Closed
      case Crash => Down
      case Commands(cmds, n) =>
        match Run(data[n..], chunks[1..])
        case Closed => Closed
        case Down => Down
        case Open(more, left) => Open(cmds + more, left)
  }

  // ----- splitting a buffer -----

  lemma {:induction false} ParseAllSplit(a: Text, b: Text)
    ensures var x := ParseAll(a);
      if x.end != Clean then ParseAll(a + b) == x
      else var y := ParseAll(a[x.n..] + b);
        ParseAll(a + b) == Batch(x.values + y.values, x.n + y.n, y.end)
    decreases |a|
  {
    hide Parse;
    if Parse(a) == Incomplete {
      assert a[0..] + b == a + b;
      assert [] + ParseAll(a + b).values == ParseAll(a + b).values;
    } else {
      ParseStable(a, b);
      if Parse(a).Ok? {
        var n := Parse(a).n;
        ParseAllSplit(a[n..], b);
        assert (a + b)[n..] == a[n..] + b;
        var m := ParseAll(a[n..]).n;
        assert a[n..][m..] == a[n + m..];
        var y := ParseAll(a[n + m..] + b);
        assert [Parse(a).value] + (ParseAll(a[n..]).values + y.values)
            == ([Parse(a).value] + ParseAll(a[n..]).values) + y.values;
      }
    }
  }

  /** What a pass leaves in the buffer holds no complete value. */
  lemma {:induction false} LeftoverIncomplete(data: Text)
    requires ParseAll(data).end == Clean
    ensures Parse(data[ParseAll(data).n..]) == Incomplete
    decreases |data|
  {
    if Parse(data).Ok? {
      var n := Parse(data).n;
      LeftoverIncomplete(data[n..]);
      assert data[n..][ParseAll(data[n..]).n..] == data[ParseAll(data).n..];
    } else {
      assert data[0..] == data;
    }
  }

  lemma {:induction false} ToCommandsAppend(a: seq<Value>, b: seq<Value>)
    ensures Convertible(a + b) <==> Convertible(a) && Convertible(b)
    ensures Convertible(a + b) ==> ToCommands(a + b) == ToCommands(a) + ToCommands(b)
    decreases |a|
  {
    ConvertibleAppend(a, b);
    if a == [] {
      assert a + b == b;
    } else if Convertible(a + b) {
      ConvertibleAppend([a[0]], a[1..]);
      assert [a[0]] + a[1..] == a;
      ToCommandsAppend(a[1..], b);
      assert (a + b)[1..] == a[1..] + b;
      var x, y, z := ToCommand(a[0]), ToCommands(a[1..]), ToCommands(b);
      assert x + (y + z) == (x + y) + z;
    }
  }

  lemma ConvertibleAppend(a: seq<Value>, b: seq<Value>)
    ensures Convertible(a + b) <==> Convertible(a) && Convertible(b)
  {
    if Convertible(a + b) {
      assert forall i :: 0 <= i < |a| ==> (a + b)[i] == a[i];
      assert forall i :: 0 <= i < |b| ==> (a + b)[|a| + i] == b[i];
    }
  }

  /** One pass over a + b does what a pass over a, a shift, and a pass over the rest with b do. */
  lemma ReadSplit(a: Text, b: Text)
    ensures match ReadCommands(a)
      case Commands(cmds, n) =>
        (match ReadCommands(a[n..] + b)
         case Commands(more, m) => ReadCommands(a + b) == Commands(cmds + more, n + m)
         case other => ReadCommands(a + b) == other)
      case ParseError => ReadCommands(a + b) == ParseError
      case Crash => !ReadCommands(a + b).Commands?
  {
    hide ToCommands, Convertible;
    ParseAllSplit(a, b);
    var x := ParseAll(a);
    if x.end == Clean {
      ToCommandsAppend(x.values, ParseAll(a[x.n..] + b).values);
    }
  }

  lemma LeftoverOf(data: Text)
    ensures ReadCommands(data).Commands? ==> Parse(data[ReadCommands(data).n..]) == Incomplete
  {
    hide Parse, ParseAll, ToCommands, Convertible;
    if ReadCommands(data).Commands? { LeftoverIncomplete(data); }
  }

  /** Independence from chunking: however the stream is cut, an undisturbed connection has executed
      the commands of one pass over the whole stream and holds the same leftover bytes; and it is
      undisturbed exactly when that single pass is. */
  lemma {:induction false} ChunkingIrrelevant(buf: Text, chunks: seq<Text>)
    requires Parse(buf) == Incomplete
    ensures match ReadCommands(buf + Concat(chunks))
      case Commands(cmds, n) => Run(buf, chunks) == Open(cmds, (buf + Concat(chunks))[n..])
      case _ => !Run(buf, chunks).Open?
    decreases |chunks|
  {
    hide *;
    if chunks == [] {
      NothingSent(buf);
    } else {
      var data, rest := buf + chunks[0], Concat(chunks[1..]);
      ConcatFirst(chunks);
      assert buf + (chunks[0] + rest) == data + rest;
      RunStep(buf, chunks);
      ReadSplit(data, rest);
      match ReadCommands(data)
      case Commands(cmds, n) =>
        LeftoverOf(data);
        ChunkingIrrelevant(data[n..], chunks[1..]);
        Shifted(data, rest, n);
      case _ =>
    }
  }

  lemma NothingSent(buf: Text)
    requires Parse(buf) == Incomplete
    ensures Concat<byte>([]) == [] && ReadCommands(buf + Concat([])) == Commands([], 0)
    ensures Run(buf, []) == Open([], (buf + Concat([]))[0..])
  {
    hide Parse;
    assert buf + Concat([]) == buf && buf[0..] == buf;
    assert ParseAll(buf) == Batch([], 0, Clean);
  }

  lemma ConcatFirst(chunks: seq<Text>)
    requires chunks != []
    ensures Concat(chunks) == chunks[0] + Concat(chunks[1..])
  {
  }

  lemma RunStep(buf: Text, chunks: seq<Text>)
    requires chunks != []
    ensures var data := buf + chunks[0];
      Run(buf, chunks) == match ReadCommands(data)
        case ParseError => Closed
        case Crash => Down
        case Commands(cmds, n) =>
          match Run(data[n..], chunks[1..])
          case Closed => Closed
          case Down => Down
          case Open(more, left) => Open(cmds + more, left)
  {
    hide ReadCommands;
  }

  lemma Shifted(data: Text, rest: Text, n: nat)
    requires n <= |data|
    ensures forall m :: 0 <= m <= |data| - n + |rest| ==> (data[n..] + rest)[m..] == (data + rest)[n + m..]
  {
    assert (data + rest)[n..] == data[n..] + rest;
  }
}
