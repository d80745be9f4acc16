// The reader and writer of the protocol as the server runs them: loops over positions and buffers.
module Resp {
  import opened Bytes
  import opened Decimal
  import opened RespFormat
  import opened RespStream
  import Spec = RespRoundTrip

  // ----- reading -----

  method ReadSimpleString(data: Text) returns (r: Decoded<Value>)
    requires data != []
    ensures r == ParseSimple(data)
  {
    var pos := 1;
    while pos < |data| && data[pos] != CR
      invariant 1 <= pos <= |data|
      invariant ScanCR(data, pos) == ScanCR(data, 1)
    {
      pos := pos + 1;
    }
    if pos + 1 >= |data| || data[pos + 1] != LF {
      return Incomplete;
    }
    return Ok(Str(data[1..pos]), pos + 2);
  }

  method ReadInt(data: Text) returns (r: Decoded<Value>)
    requires data != []
    ensures r == ParseInt(data)
  {
    var pos := 1;
    var value: int64 := 0;
    while pos < |data| && data[pos] != CR
      invariant 1 <= pos <= |data|
      invariant ScanCR(data, pos) == ScanCR(data, 1)
      invariant value == Accumulate64(0, data[1..pos])
    {
      Accumulate64Snoc(0, data[1..pos], data[pos]);
      assert data[1..pos + 1] == data[1..pos] + [data[pos]];
      value := Wrap64(value * 10 + (data[pos] - ZERO) % 256);
      pos := pos + 1;
    }
    if pos + 1 >= |data| || data[pos + 1] != LF {
      return Incomplete;
    }
    return Ok(Int(value), pos + 2);
  }

  method ReadLength(data: Text) returns (r: Decoded<int64>)
    ensures r == ParseLength(data)
  {
    var pos := 0;
    var length: int64 := 0;
    while pos < |data|
      invariant 0 <= pos <= |data|
      invariant ScanCR(data, pos) == ScanCR(data, 0)
      invariant length == Accumulate64(0, data[..pos])
    {
      if data[pos] == CR {
        if pos + 1 >= |data| || data[pos + 1] != LF {
          return Incomplete;
        }
        return Ok(length, pos + 2);
      }
      Accumulate64Snoc(0, data[..pos], data[pos]);
      assert data[..pos + 1] == data[..pos] + [data[pos]];
      length := Wrap64(length * 10 + (data[pos] - ZERO) % 256);
      pos := pos + 1;
    }
    return Incomplete;
  }

  method ReadBulkString(data: Text) returns (r: Decoded<Value>)
    requires data != []
    ensures r == ParseBulk(data)
  {
    var pos := 1;
    var l := ReadLength(data[pos..]);
    if !l.Ok? {
      return Incomplete;
    }
    pos := pos + l.n;
    var length := l.value;
    if Wrap64(pos + length + 2) > |data| {
      return Incomplete;
    }
    if length < 0 || pos + length + 2 >= TWO_63 {
      return Panic;
    }
    return Ok(Str(data[pos..pos + length]), pos + length + 2);
  }

  /** Elements already read, put in front of what is still to come. */
  function Prepend(done: seq<Value>, k: nat, r: Decoded<seq<Value>>): Decoded<seq<Value>> {
    match r
    case Ok(vs, n) => Ok(done + vs, k + n)
    case _ => r
  }

  method ReadArray(data: Text) returns (r: Decoded<Value>)
    requires data != []
    ensures r == ParseArray(data)
    decreases |data|, 0
  {
    var pos := 1;
    var l := ReadLength(data[pos..]);
    if !l.Ok? {
      return Incomplete;
    }
    pos := pos + l.n;
    if l.value < 0 {
      return Panic;
    }
    var elems := ReadElements(data[pos..], l.value);
    match elems {
      case Ok(vs, n) => return Ok(Arr(vs), pos + n);
      case Incomplete => return Incomplete;
      case Invalid(b) => return Invalid(b);
      case Panic => return Panic;
    }
  }

  /** The element loop of an array. */
  method ReadElements(data: Text, count: nat) returns (r: Decoded<seq<Value>>)
    ensures r == ParseElems(data, count)
    decreases |data|, 2
  {
    hide ParseElems, Parse;
    var pos := 0;
    var elems := [];
    assert data[0..] == data;
    PrependNothing(ParseElems(data, count));
    for i := 0 to count
      invariant 0 <= pos <= |data|
      invariant ParseElems(data, count) == Prepend(elems, pos, ParseElems(data[pos..], count - i))
    {
      if pos >= |data| {
        NothingParses();
        ElemStops(data[pos..], count - i);
        return Incomplete;
      }
      var elem := DecodeOne(data[pos..]);
      if !elem.Ok? {
        ElemStops(data[pos..], count - i);
        return Stopped(elem);
      }
      ElemStep(data, pos, count - i, elems, elem.value, elem.n, pos);
      elems := elems + [elem.value];
      pos := pos + elem.n;
    }
    NoneLeft(data[pos..]);
    assert elems + [] == elems;
    r := Ok(elems, pos);
  }

  function Stopped(r: Decoded<Value>): Decoded<seq<Value>>
    requires !r.Ok?
  {
    match r
    case Invalid(b) => Invalid(b)
    case Panic => Panic
    case _ => Incomplete
  }

  lemma PrependNothing(r: Decoded<seq<Value>>)
    ensures Prepend([], 0, r) == r
  {
    if r.Ok? {
      assert [] + r.value == r.value;
    }
  }

  lemma NoneLeft(data: Text)
    ensures ParseElems(data, 0) == Ok([], 0)
  {
  }

  /** A missing or unreadable element decides the whole array. */
  lemma ElemStops(data: Text, left: nat)
    requires left > 0 && !Parse(data).Ok?
    ensures ParseElems(data, left) == Stopped(Parse(data))
  {
  }

  lemma NothingParses()
    ensures Parse([]) == Incomplete
  {
  }

  lemma ElemStep(data: Text, pos: nat, left: nat, done: seq<Value>, v: Value, delta: nat, k: nat)
    requires pos < |data| && left > 0 && Parse(data[pos..]) == Ok(v, delta)
    ensures pos + delta <= |data|
    ensures Prepend(done, k, ParseElems(data[pos..], left))
      == Prepend(done + [v], k + delta, ParseElems(data[pos + delta..], left - 1))
  {
    assert data[pos..][delta..] == data[pos + delta..];
    var r := ParseElems(data[pos + delta..], left - 1);
    if r.Ok? {
      assert done + ([v] + r.value) == (done + [v]) + r.value;
    }
  }

  method DecodeOne(data: Text) returns (r: Decoded<Value>)
    ensures r == Parse(data)
    decreases |data|, 1
  {
    if |data| == 0 {
      return Incomplete;
    }
    if data[0] == PLUS || data[0] == MINUS {
      r := ReadSimpleString(data);
    } else if data[0] == COLON {
      r := ReadInt(data);
    } else if data[0] == DOLLAR {
      r := ReadBulkString(data);
    } else if data[0] == STAR {
      r := ReadArray(data);
    } else {
      r := Invalid(data[0]);
    }
  }

  /** The values read so far, then those of a later pass. */
  function After(values: seq<Value>, index: nat, rest: Batch): Batch {
    Batch(values + rest.values, index + rest.n, rest.end)
  }

  lemma AfterNothing(b: Batch)
    ensures After([], 0, b) == b
  {
    assert [] + b.values == b.values;
  }

  /** A pass that stops at once. */
  lemma PassStops(data: Text, values: seq<Value>, index: nat)
    requires !Parse(data).Ok?
    ensures After(values, index, ParseAll(data))
      == Batch(values, index, match Parse(data) case Incomplete => Clean case Invalid(_) => Failed
                                                case _ => RespStream.Crashed)
  {
    assert values + [] == values;
  }

  lemma PassStep(data: Text, index: nat, values: seq<Value>, v: Value, delta: nat)
    requires index <= |data| && Parse(data[index..]) == Ok(v, delta)
    ensures delta > 0 && index + delta <= |data|
    ensures After(values, index, ParseAll(data[index..]))
      == After(values + [v], index + delta, ParseAll(data[index + delta..]))
  {
    assert data[index..][delta..] == data[index + delta..];
    var rest := ParseAll(data[index + delta..]);
    assert values + ([v] + rest.values) == (values + [v]) + rest.values;
  }

  method Decode(data: Text) returns (b: Batch)
    ensures b == ParseAll(data)
  {
    hide Parse, ParseAll, After;
    var values := [];
    var index := 0;
    assert data[0..] == data;
    AfterNothing(ParseAll(data));
    NothingParses();
    while index < |data|
      invariant 0 <= index <= |data|
      invariant After(values, index, ParseAll(data[index..])) == ParseAll(data)
      decreases |data| - index
    {
      var one := DecodeOne(data[index..]);
      if !one.Ok? { PassStops(data[index..], values, index); }
      match one {
        case Ok(v, delta) =>
          PassStep(data, index, values, v, delta);
          index := index + delta;
          values := values + [v];
        case Incomplete => return Batch(values, index, Clean);
        case Invalid(_) => return Batch(values, index, Failed);
        case Panic => return Batch(values, index, RespStream.Crashed);
      }
    }
    assert data[index..] == [];
    PassStops(data[index..], values, index);
    return Batch(values, index, Clean);
  }

  // ----- writing -----

  /** The digit loop fills a 20-byte scratch array from the back. */
  method EncodeString(buf: Text, v: Text) returns (r: Text)
    requires |v| < TWO_63
    ensures r == buf + Spec.EncodeString(v)
  {
    var n := |v|;
    var tmp := new byte[20](i => 0);
    var i := tmp.Length;
    var x := n;
    if x == 0 {
      i := i - 1;
      tmp[i] := ZERO;
    } else {
      while x > 0
        invariant 0 <= i <= 20
        invariant if x > 0 then Digits(n) == Digits(x) + tmp[i..] else Digits(n) == tmp[i..]
        invariant x * Pow10(20 - i) <= n
        invariant i == 20 ==> x == n
      {
        Room(x, n, i);
        i := i - 1;
        ghost var digits := tmp[i + 1..];
        tmp[i] := ZERO + x % 10;
        assert tmp[i..] == [ZERO + x % 10] + digits;
        assert x >= 10 ==> Digits(x) + digits == Digits(x / 10) + ([ZERO + x % 10] + digits);
        Shrink(x, 20 - i - 1);
        x := x / 10;
      }
    }
    assert tmp[i..] == Digits(n);
    r := buf + [DOLLAR] + tmp[i..] + [CR, LF] + v + [CR, LF];
  }

  /** While digits remain there is room for one more: lengths have at most nineteen. */
  lemma Room(x: nat, n: nat, i: nat)
    requires x > 0 && i <= 20 && x * Pow10(20 - i) <= n < TWO_63
    ensures i > 0
  {
    Pow10High();
    Pow10Steps(19);
    MulMonotone(1, x, Pow10(20 - i));
  }

  lemma Shrink(x: nat, k: nat)
    ensures (x / 10) * Pow10(k + 1) <= x * Pow10(k)
  {
    var q, p := x / 10, Pow10(k);
    assert 10 * q <= x;
    assert (10 * q) * p <= x * p by { MulMonotone(10 * q, x, p); }
    assert q * (10 * p) == (10 * q) * p;
  }

  lemma MulMonotone(a: nat, b: nat, p: nat)
    requires a <= b
    ensures a * p <= b * p
  {
  }

  /** A command or a dump record: an array of bulk strings. */
  method EncodeStrings(buf: Text, items: seq<Text>) returns (r: Text)
    requires |items| < TWO_63 && forall i :: 0 <= i < |items| ==> |items[i]| < TWO_63
    ensures r == buf + Spec.Frame(Spec.Bulks(items))
  {
    r := buf + Spec.EncodeArrayLen(|items|);
    ghost var vs := Spec.Bulks(items).elems;
    ghost var header := r;
    Spec.BulksFrame(items);
    hide Spec.Frame, Spec.EncodeSeq, Spec.EncodeString, Spec.EncodeArrayLen, Spec.Bulks;
    for i := 0 to |items|
      invariant r == header + Spec.EncodeSeq(vs[..i])
    {
      r := EncodeString(r, items[i]);
      Spec.BulkStep(header, items, i);
    }
    assert vs[..|items|] == vs;
  }
}
