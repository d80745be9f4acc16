// Reading what the server writes.
module RespRoundTrip {
  import opened Bytes
  import opened Decimal
  import opened RespFormat

  function Line(t: Text): (r: Text)
    ensures |r| == |t| + 2
  {
    t + [CR, LF]
  }

  function EncodeString(s: Text): Text {
    [DOLLAR] + Line(Digits(|s|)) + Line(s)
  }

  function EncodeInt(v: int64): Text {
    [COLON] + Line(FormatInt(v))
  }

  function EncodeArrayLen(n: int64): Text {
    [STAR] + Line(FormatInt(n))
  }

  /** The frame of a value. */
  function Frame(v: Value): (r: Text)
    requires Sized(v)
    ensures |r| >= 1
    decreases v
  {
    match v
    case Str(s) => EncodeString(s)
    case Int(i) => EncodeInt(i)
    case Arr(elems) => EncodeArrayLen(|elems|) + EncodeSeq(elems)
  }

  function EncodeSeq(vs: seq<Value>): (r: Text)
    requires forall i :: 0 <= i < |vs| ==> Sized(vs[i])
    ensures |r| >= |vs|
    decreases vs
  {
    if vs == [] then [] else Frame(vs[0]) + EncodeSeq(vs[1..])
  }

  /** An array of bulk strings. */
  function Bulks(items: seq<Text>): (v: Value)
    requires |items| < TWO_63 && forall i :: 0 <= i < |items| ==> |items[i]| < TWO_63
    ensures v.Arr? && |v.elems| == |items| && Sized(v)
    ensures forall i :: 0 <= i < |items| ==> v.elems[i] == Str(items[i])
  {
    Arr(seq(|items|, i requires 0 <= i < |items| => Str(items[i])))
  }

  lemma BulksFrame(items: seq<Text>)
    requires |items| < TWO_63 && forall i :: 0 <= i < |items| ==> |items[i]| < TWO_63
    ensures var vs := Bulks(items).elems;
      Frame(Bulks(items)) == EncodeArrayLen(|items|) + EncodeSeq(vs) && EncodeSeq(vs[..0]) == []
  {
  }

  lemma BulkStep(header: Text, items: seq<Text>, i: nat)
    requires |items| < TWO_63 && forall i :: 0 <= i < |items| ==> |items[i]| < TWO_63
    requires i < |items|
    ensures var vs := Bulks(items).elems;
      header + EncodeSeq(vs[..i + 1]) == header + EncodeSeq(vs[..i]) + EncodeString(items[i])
  {
    var vs := Bulks(items).elems;
    assert vs[..i + 1] == vs[..i] + [vs[i]];
    EncodeSeqSnoc(vs[..i], vs[i]);
  }

  lemma {:induction false} EncodeSeqSnoc(vs: seq<Value>, v: Value)
    requires Sized(v) && forall i :: 0 <= i < |vs| ==> Sized(vs[i])
    ensures forall i :: 0 <= i <= |vs| ==> Sized((vs + [v])[i])
    ensures EncodeSeq(vs + [v]) == EncodeSeq(vs) + Frame(v)
    decreases |vs|
  {
    if vs == [] {
      assert [] + [v] == [v] && [v][1..] == [];
      assert Frame(v) + [] == Frame(v);
    } else {
      EncodeSeqSnoc(vs[1..], v);
      assert (vs + [v])[1..] == vs[1..] + [v];
      assert Frame(vs[0]) + (EncodeSeq(vs[1..]) + Frame(v)) == (Frame(vs[0]) + EncodeSeq(vs[1..])) + Frame(v);
    }
  }

  // ----- frames in bytes -----

  lemma HeaderBytes(v: Value)
    requires v.Arr? && Sized(v)
    ensures Frame(v) == [42] + Digits(|v.elems|) + [13, 10] + EncodeSeq(v.elems)
  {
    hide Digits, EncodeSeq;
  }

  lemma TwoFirst(a: Text, b: Text, rest: seq<Value>)
    requires |a| < TWO_63 && |b| < TWO_63 && forall i :: 0 <= i < |rest| ==> Sized(rest[i])
    ensures EncodeSeq([Str(a), Str(b)] + rest) == EncodeString(a) + (EncodeString(b) + EncodeSeq(rest))
  {
    StringFirst(b, rest);
    StringFirst(a, [Str(b)] + rest);
    hide *;
    assert [Str(a)] + ([Str(b)] + rest) == [Str(a), Str(b)] + rest;
  }

  lemma StringFirst(a: Text, rest: seq<Value>)
    requires |a| < TWO_63 && forall i :: 0 <= i < |rest| ==> Sized(rest[i])
    ensures forall i :: 0 <= i <= |rest| ==> Sized(([Str(a)] + rest)[i])
    ensures EncodeSeq([Str(a)] + rest) == EncodeString(a) + EncodeSeq(rest)
  {
    hide EncodeString;
    var vs := [Str(a)] + rest;
    assert vs[1..] == rest;
    assert EncodeSeq(vs) == Frame(vs[0]) + EncodeSeq(vs[1..]);
  }

  /** The frames of strings and integers, byte by byte. */
  lemma FrameBytes(t: Text, v: int64)
    requires |t| < TWO_63
    ensures Frame(Str(t)) == [36] + Digits(|t|) + [13, 10] + t + [13, 10]
    ensures Frame(Int(v)) == [58] + (if v < 0 then [45] + Digits(-(v as int)) else Digits(v)) + [13, 10]
  {
    hide Digits;
  }

  lemma ShortBytes(t: Text)
    requires |t| < 10
    ensures EncodeString(t) == [36, 48 + |t|, 13, 10] + t + [13, 10]
  {
    assert Digits(|t|) == [48 + |t|];
  }

  lemma LastFirst(a: Text)
    requires |a| < TWO_63
    ensures EncodeSeq([Str(a)]) == EncodeString(a)
  {
    hide EncodeString;
    assert [Str(a)][1..] == [];
    assert EncodeString(a) + [] == EncodeString(a);
    assert Frame(Str(a)) == EncodeString(a);
  }

  /** Go lengths are 63-bit numbers. */
  predicate Sized(v: Value)
    decreases v
  {
    match v
    case Str(s) => |s| < TWO_63
    case Int(_) => true
    case Arr(elems) => |elems| < TWO_63 && forall i :: 0 <= i < |elems| ==> Sized(elems[i])
  }

  /** What a value turns into on the way out and back: only integers can change. */
  function Returned(v: Value): Value
    decreases v
  {
    match v
    case Str(s) => Str(s)
    case Int(i) => Int(Reread(i))
    case Arr(elems) => Arr(ReturnedSeq(elems))
  }

  function ReturnedSeq(vs: seq<Value>): (rs: seq<Value>)
    ensures |rs| == |vs|
    decreases vs
  {
    if vs == [] then [] else [Returned(vs[0])] + ReturnedSeq(vs[1..])
  }

  lemma {:induction false} ScanLine(t: Text, rest: Text, pos: nat)
    requires pos <= |t| && forall k :: pos <= k < |t| ==> t[k] != CR
    ensures ScanCR(t + [CR, LF] + rest, pos) == |t|
    decreases |t| - pos
  {
    if pos < |t| {
      assert (t + [CR, LF] + rest)[pos] == t[pos];
      ScanLine(t, rest, pos + 1);
    }
  }

  /** A line without a return inside reads as one line. */
  lemma LineReads(t: Text, rest: Text, pos: nat)
    requires pos <= |t| && forall k :: pos <= k < |t| ==> t[k] != CR
    ensures var data := Line(t) + rest;
      ScanCR(data, pos) == |t| && LineEnds(data, pos) && data[pos..|t|] == t[pos..]
  {
    ScanLine(t, rest, pos);
    assert Line(t) + rest == t + [CR, LF] + rest;
  }

  lemma LengthReads(n: nat, rest: Text)
    requires n < TWO_63
    ensures ParseLength(Line(FormatInt(n)) + rest) == Ok(n, |FormatInt(n)| + 2)
  {
    hide Digits, Accumulate64, Line, ScanCR;
    NoReturn(n);
    NatReadBack(n);
    LineReads(FormatInt(n), rest, 0);
  }

  lemma StringReads(s: Text, rest: Text)
    requires |EncodeString(s)| < TWO_63
    ensures Parse(EncodeString(s) + rest) == Ok(Str(s), |EncodeString(s)|)
  {
    hide Digits, Accumulate64, ParseLength;
    var header := Line(Digits(|s|));
    var data := EncodeString(s) + rest;
    assert data[1..] == header + (Line(s) + rest);
    LengthReads(|s|, Line(s) + rest);
    var pos := 1 + |header|;
    assert data[pos..pos + |s|] == s;
  }

  lemma IntReads(v: int64, rest: Text)
    ensures Parse(EncodeInt(v) + rest) == Ok(Int(Reread(v)), |EncodeInt(v)|)
  {
    hide Digits, Accumulate64, FormatInt;
    NoReturn(v);
    var t := [COLON] + FormatInt(v);
    var data := EncodeInt(v) + rest;
    assert data == Line(t) + rest;
    LineReads(t, rest, 1);
    assert t[1..] == FormatInt(v);
  }

  /** Every frame the encoder can write reads back, in full and whatever follows, as the value with
      each integer reread. */
  lemma {:induction false} FrameReads(v: Value, rest: Text)
    requires Sized(v) && |Frame(v)| < TWO_63
    ensures Parse(Frame(v) + rest) == Ok(Returned(v), |Frame(v)|)
    decreases v
  {
    hide Parse, ParseElems, ParseLength, EncodeSeq, EncodeString, EncodeInt, EncodeArrayLen, ReturnedSeq;
    match v
    case Str(s) => StringReads(s, rest);
    case Int(i) => IntReads(i, rest);
    case Arr(elems) =>
      ArrayParts(elems, rest);
      LengthReads(|elems|, EncodeSeq(elems) + rest);
      SeqReads(elems, rest);
      ArrayReads(Frame(v) + rest, |elems|, |FormatInt(|elems|)| + 2);
  }

  lemma ArrayParts(elems: seq<Value>, rest: Text)
    requires Sized(Arr(elems))
    ensures var data, header, body := Frame(Arr(elems)) + rest, Line(FormatInt(|elems|)), EncodeSeq(elems);
      && |header| == |FormatInt(|elems|)| + 2 && |Frame(Arr(elems))| == 1 + |header| + |body|
      && data[0] == STAR && data[1..] == header + (body + rest) && data[1 + |header|..] == body + rest
  {
    hide EncodeSeq, FormatInt;
  }

  lemma ArrayReads(data: Text, count: nat, delta: nat)
    requires data != [] && data[0] == STAR && count < TWO_63 && ParseLength(data[1..]) == Ok(count, delta)
    ensures 1 + delta <= |data|
    ensures var r := ParseElems(data[1 + delta..], count);
      r.Ok? ==> Parse(data) == Ok(Arr(r.value), 1 + delta + r.n)
  {
    hide ParseElems, ParseLength;
    assert Parse(data) == ParseArray(data);
  }

  lemma {:induction false} SeqReads(vs: seq<Value>, rest: Text)
    requires forall i :: 0 <= i < |vs| ==> Sized(vs[i])
    requires |EncodeSeq(vs)| < TWO_63
    ensures ParseElems(EncodeSeq(vs) + rest, |vs|) == Ok(ReturnedSeq(vs), |EncodeSeq(vs)|)
    decreases vs
  {
    if vs != [] {
      var frame, more := Frame(vs[0]), EncodeSeq(vs[1..]);
      assert EncodeSeq(vs) + rest == frame + (more + rest);
      FrameReads(vs[0], more + rest);
      assert (frame + (more + rest))[|frame|..] == more + rest;
      SeqReads(vs[1..], rest);
    }
  }

  /** No strict prefix of a frame reads as anything yet. */
  lemma PrefixIncomplete(v: Value, k: nat)
    requires Sized(v) && |Frame(v)| < TWO_63 && k < |Frame(v)|
    ensures Parse(Frame(v)[..k]) == Incomplete
  {
    var frame := Frame(v);
    FrameReads(v, []);
    assert frame + [] == frame && frame[..k] + frame[k..] == frame;
    if Parse(frame[..k]) != Incomplete {
      ParseStable(frame[..k], frame[k..]);
    }
  }

  predicate AllReadable(v: Value)
    decreases v
  {
    match v
    case Str(_) => true
    case Int(i) => Readable(i)
    case Arr(elems) => forall i :: 0 <= i < |elems| ==> AllReadable(elems[i])
  }

  /** A value comes back unchanged exactly when every integer in it is readable. */
  lemma {:induction false} ReturnExact(v: Value)
    ensures Returned(v) == v <==> AllReadable(v)
    decreases v
  {
    match v
    case Str(_) =>
    case Int(i) => IntExact(i);
    case Arr(elems) => ReturnSeqExact(elems);
  }

  lemma {:induction false} ReturnSeqExact(vs: seq<Value>)
    ensures ReturnedSeq(vs) == vs <==> forall i :: 0 <= i < |vs| ==> AllReadable(vs[i])
    decreases vs
  {
    if vs != [] {
      ReturnExact(vs[0]);
      ReturnSeqExact(vs[1..]);
      assert vs == [vs[0]] + vs[1..];
      assert ReturnedSeq(vs)[1..] == ReturnedSeq(vs[1..]);
      assert forall i :: 1 <= i < |vs| ==> vs[i] == vs[1..][i - 1];
    }
  }

  const NULL_ARRAY: Text := [STAR, MINUS, ZERO + 1, CR, LF]
  const NULL_STRING: Text := [DOLLAR, MINUS, ZERO + 1, CR, LF]

  /** The line "-1" is read as the length 2531. */
  lemma MinusOneLength(rest: Text)
    ensures ParseLength([MINUS, ZERO + 1, CR, LF] + rest) == Ok(2531, 4)
  {
    var t := [MINUS, ZERO + 1];
    assert [MINUS, ZERO + 1, CR, LF] + rest == Line(t) + rest;
    LineReads(t, rest, 0);
    assert (Line(t) + rest)[..2] == t;
    assert t[1..] == [ZERO + 1] && [ZERO + 1][1..] == [];
    assert Accumulate64(0, t) == Accumulate64(253, [ZERO + 1]) == 2531;
  }

  /** The null array is never read as one, whatever follows it: it announces 2531 elements. */
  lemma NullArrayUnread(rest: Text)
    ensures var r := Parse(NULL_ARRAY + rest);
      && (r.Ok? <==> ParseElems(rest, 2531).Ok?)
      && (r.Ok? ==> r.value.Arr? && |r.value.elems| == 2531)
  {
    var data := NULL_ARRAY + rest;
    assert data[1..] == [MINUS, ZERO + 1, CR, LF] + rest && data[5..] == rest;
    MinusOneLength(rest);
    hide ParseElems, ParseLength;
    assert Parse(data) == ParseArray(data);
  }

  lemma NullStringHead(rest: Text)
    ensures var data := NULL_STRING + rest;
      ParseLength(data[1..]) == Ok(2531, 4) && Parse(data) == ParseBulk(data)
  {
    var data := NULL_STRING + rest;
    assert data[1..] == [MINUS, ZERO + 1, CR, LF] + rest;
    MinusOneLength(rest);
    hide ParseLength, ParseBulk;
  }

  /** Nor is the null string: it takes the next 2531 bytes and the two behind them. */
  lemma NullStringUnread(rest: Text)
    ensures Parse(NULL_STRING + rest) == if |rest| < 2533 then Incomplete else Ok(Str(rest[..2531]), 2538)
  {
    hide Parse, ParseBulk, ParseLength, Wrap64;
    NullStringHead(rest);
    BulkOf2531(NULL_STRING + rest);
    if |rest| >= 2533 { TakeBehind(NULL_STRING, rest, 2531); }
  }

  lemma TakeBehind(a: Text, b: Text, n: nat)
    requires n <= |b|
    ensures (a + b)[|a|..|a| + n] == b[..n]
  {
  }

  lemma BulkOf2531(data: Text)
    requires data != [] && ParseLength(data[1..]) == Ok(2531, 4)
    ensures ParseBulk(data) == if |data| < 2538 then Incomplete else Ok(Str(data[5..2536]), 2538)
  {
    assert Wrap64(2538) == 2538;
    hide Wrap64, ParseLength;
  }
}
