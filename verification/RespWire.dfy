// Bytes on the wire that no encoder of the server writes, and one request byte by byte.
module RespWire {
  import opened Bytes
  import opened Decimal
  import opened RespFormat
  import opened RespRoundTrip
  import opened RespFrames
  import opened RespStream
  import opened QueryBuffers

  /** Simple strings and errors are read as the text of their line; a return that no line feed follows leaves
      them incomplete. */
  lemma SimpleReads(b: byte, t: Text, x: byte, rest: Text)
    requires (b == 43 || b == 45) && forall i :: 0 <= i < |t| ==> t[i] != 13
    ensures Parse([b] + t + [13, x] + rest) == if x == 10 then Ok(Str(t), |t| + 3) else Incomplete
  {
    var data := [b] + t + [13, x] + rest;
    ScanTo(data, 1, |t| + 1);
    assert data[1..|t| + 1] == t;
    assert Parse(data) == ParseSimple(data);
  }

  lemma {:induction false} ScanTo(data: Text, pos: nat, p: nat)
    requires pos <= p < |data| && data[p] == CR && forall i :: pos <= i < p ==> data[i] != CR
    ensures ScanCR(data, pos) == p
    decreases p - pos
  {
    if pos < p { ScanTo(data, pos + 1, p); }
  }

  /** A number is the digits of its line. */
  lemma IntegerReads(n: nat, rest: Text)
    requires n < 0x8000_0000_0000_0000
    ensures Parse([58] + Digits(n) + [13, 10] + rest) == Ok(Int(n), |Digits(n)| + 3)
  {
    hide Parse, Digits;
    IntReads(n, rest);
    NatReadBack(n);
    assert EncodeInt(n) + rest == [58] + Digits(n) + [13, 10] + rest;
  }

  /** Every other first byte is an error, and nothing at all is incomplete. */
  lemma FirstByte(data: Text)
    ensures data == [] ==> Parse(data) == Incomplete
    ensures data != [] && data[0] !in {43, 45, 58, 36, 42} ==> Parse(data) == Invalid(data[0])
  {
  }

  /** Only non-empty arrays of strings are commands: other values and empty arrays are read and dropped, an
      array with anything but strings in it is a crash, and a bad first byte an error. */
  lemma OddValues(v: Value)
    requires Sized(v) && |Frame(v)| < TWO_63
    ensures !v.Arr? || v.elems == [] ==> ReadCommands(Frame(v)) == Commands([], |Frame(v)|)
    ensures v.Arr? && (exists i :: 0 <= i < |v.elems| && !v.elems[i].Str?) ==> ReadCommands(Frame(v)) == Crash
  {
    hide Parse, Frame, ParseAll;
    var vs, r := [v], Returned(v);
    assert vs[1..] == [];
    assert EncodeSeq(vs) == Frame(v) + EncodeSeq(vs[1..]) == Frame(v);
    FramesRead(vs);
    assert ReturnedSeq(vs) == [r] + ReturnedSeq(vs[1..]) == [r];
    OneCommand(r);
    if v.Arr? { SameKinds(v.elems); }
  }

  lemma {:induction false} SameKinds(vs: seq<Value>)
    ensures forall i :: 0 <= i < |vs| ==> (ReturnedSeq(vs)[i].Str? <==> vs[i].Str?)
    decreases |vs|
  {
    if vs != [] { SameKinds(vs[1..]); }
  }

  lemma BadByte(data: Text)
    requires data != [] && data[0] !in {43, 45, 58, 36, 42}
    ensures ReadCommands(data) == ParseError
  {
    FirstByte(data);
    hide Parse;
  }

  /** The request get k, byte by byte: it is what the client sends and it is received as GET k. */
  lemma GetRequest()
    ensures var c := Command([103, 101, 116], [[107]]);
      var data: Text := [42, 50, 13, 10, 36, 51, 13, 10, 103, 101, 116, 13, 10, 36, 49, 13, 10, 107, 13, 10];
      && Sendable(c) && Wire(c) == data
      && ReadCommands(data) == Commands([Command([71, 69, 84], [[107]])], 20)
  {
    var c := Command([103, 101, 116], [[107]]);
    TwoStrings([103, 101, 116], [107]);
    assert [c.name] + c.args == [[103, 101, 116], [107]];
    GetGlued();
    hide ReadCommands;
    WireReads(c, [71, 69, 84]);
  }

  lemma TwoStrings(a: Text, b: Text)
    requires |a| < 10 && |b| < 10
    ensures Frame(Bulks([a, b])) == [42] + [50] + [13, 10]
      + ([36, 48 + |a|, 13, 10] + a + [13, 10] + ([36, 48 + |b|, 13, 10] + b + [13, 10]))
  {
    var v := Bulks([a, b]);
    assert v.elems == [Str(a)] + [Str(b)];
    assert Digits(2) == [50];
    hide Digits, EncodeString, EncodeSeq, Frame;
    HeaderBytes(v);
    StringFirst(a, [Str(b)]);
    LastFirst(b);
    ShortBytes(a);
    ShortBytes(b);
  }

  lemma GetGlued()
    ensures [42] + [50] + [13, 10]
      + ([36, 51, 13, 10] + [103, 101, 116] + [13, 10] + ([36, 49, 13, 10] + [107] + [13, 10]))
      == [42, 50, 13, 10, 36, 51, 13, 10, 103, 101, 116, 13, 10, 36, 49, 13, 10, 107, 13, 10]
  {
  }
}
