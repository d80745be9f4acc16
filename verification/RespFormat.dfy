// The serialization protocol of the server: what the reader makes of a byte string, and what the
// writer produces. RESP2, sections "Simple strings", "Integers", "Bulk strings" and "Arrays".
module RespFormat {
  import opened Bytes
  import opened Decimal

  const CR: byte := 13
  const LF: byte := 10
  const PLUS: byte := 43
  const COLON: byte := 58
  const DOLLAR: byte := 36
  const STAR: byte := 42

  /** Simple strings, errors and bulk strings all read as plain strings. */
  datatype Value = Str(s: Text) | Int(v: int64) | Arr(elems: seq<Value>)

  /** Panic stands for a Go run-time panic: a slice bound or allocation length below zero. */
  datatype Decoded<T> = Ok(value: T, n: nat) | Incomplete | Invalid(b: byte) | Panic

  // ----- reading -----

  function ScanCR(data: Text, pos: nat): (p: nat)
    requires pos <= |data|
    ensures pos <= p <= |data|
    ensures p < |data| ==> data[p] == CR
    ensures forall k :: pos <= k < p ==> data[k] != CR
    decreases |data| - pos
  {
    if pos == |data| || data[pos] == CR then pos else ScanCR(data, pos + 1)
  }

  /** The end of line found from pos, when its line feed has arrived. */
  predicate LineEnds(data: Text, pos: nat)
    requires pos <= |data|
  {
    var p := ScanCR(data, pos);
    p + 1 < |data| && data[p + 1] == LF
  }

  function ParseSimple(data: Text): (r: Decoded<Value>)
    requires data != []
    ensures r.Ok? ==> 1 <= r.n <= |data|
  {
    var p := ScanCR(data, 1);
    if LineEnds(data, 1) then Ok(Str(data[1..p]), p + 2) else Incomplete
  }

  function ParseInt(data: Text): (r: Decoded<Value>)
    requires data != []
    ensures r.Ok? ==> 1 <= r.n <= |data|
  {
    var p := ScanCR(data, 1);
    if LineEnds(data, 1) then Ok(Int(Accumulate64(0, data[1..p])), p + 2) else Incomplete
  }

  function ParseLength(data: Text): (r: Decoded<int64>)
    ensures r.Ok? ==> 2 <= r.n <= |data|
  {
    var p := ScanCR(data, 0);
    if LineEnds(data, 0) then Ok(Accumulate64(0, data[..p]), p + 2) else Incomplete
  }

  /** Lengths are 64-bit, so the bounds test itself can wrap; what it lets through may still be an
      impossible slice. The two bytes after the payload are skipped unseen. */
  function ParseBulk(data: Text): (r: Decoded<Value>)
    requires data != []
    ensures r.Ok? ==> 1 <= r.n <= |data|
  {
    match ParseLength(data[1..])
    case Incomplete => Incomplete
    case Invalid(b) => Invalid(b)
    case Panic => Panic
    case Ok(length, delta) =>
      var pos := 1 + delta;
      if Wrap64(pos + length + 2) > |data| then Incomplete
      else if length < 0 || pos + length + 2 >= TWO_63 then Panic
      else Ok(Str(data[pos..pos + length]), pos + length + 2)
  }

  /** One value at the front of data, and the bytes it takes. */
  function Parse(data: Text): (r: Decoded<Value>)
    ensures r.Ok? ==> 1 <= r.n <= |data|
    decreases |data|, 1
  {
    if data == [] then Incomplete
    else if data[0] == PLUS || data[0] == MINUS then ParseSimple(data)
    else if data[0] == COLON then ParseInt(data)
    else if data[0] == DOLLAR then ParseBulk(data)
    else if data[0] == STAR then ParseArray(data)
    else Invalid(data[0])
  }

  function ParseArray(data: Text): (r: Decoded<Value>)
    requires data != []
    ensures r.Ok? ==> 1 <= r.n <= |data|
    decreases |data|, 0
  {
    match ParseLength(data[1..])
    case Incomplete => Incomplete
    case Invalid(b) => Invalid(b)
    case Panic => Panic
    case Ok(count, delta) =>
      if count < 0 then Panic
      else
        match ParseElems(data[1 + delta..], count)
        case Incomplete => Incomplete
        case Invalid(b) => Invalid(b)
        case Panic => Panic
        case Ok(elems, n) => Ok(Arr(elems), 1 + delta + n)
  }

  /** count values, one after the other. */
  function ParseElems(data: Text, count: nat): (r: Decoded<seq<Value>>)
    ensures r.Ok? ==> r.n <= |data| && |r.value| == count
    decreases |data|, 2
  {
    if count == 0 then Ok([], 0)
    else if data == [] then Incomplete
    else
      match Parse(data)
      case Incomplete => Incomplete
      case Invalid(b) => Invalid(b)
      case Panic => Panic
      case Ok(v, n) =>
        match ParseElems(data[n..], count - 1)
        case Incomplete => Incomplete
        case Invalid(b) => Invalid(b)
        case Panic => Panic
        case Ok(vs, m) => Ok([v] + vs, n + m)
  }

  // ----- every answer but Incomplete is final -----

  lemma {:induction false} ScanStable(a: Text, b: Text, pos: nat)
    requires pos <= |a| && ScanCR(a, pos) < |a|
    ensures ScanCR(a + b, pos) == ScanCR(a, pos)
    decreases |a| - pos
  {
    if a[pos] != CR {
      ScanStable(a, b, pos + 1);
    }
  }

  lemma LineStable(a: Text, b: Text, pos: nat)
    requires pos <= |a| && LineEnds(a, pos)
    ensures LineEnds(a + b, pos) && ScanCR(a + b, pos) == ScanCR(a, pos)
    ensures (a + b)[pos..ScanCR(a, pos)] == a[pos..ScanCR(a, pos)]
  {
    ScanStable(a, b, pos);
  }

  lemma LengthStable(a: Text, b: Text)
    requires ParseLength(a) != Incomplete
    ensures ParseLength(a + b) == ParseLength(a)
  {
    LineStable(a, b, 0);
  }

  lemma BulkStable(a: Text, b: Text)
    requires a != [] && ParseBulk(a) != Incomplete
    ensures ParseBulk(a + b) == ParseBulk(a)
  {
    assert (a + b)[1..] == a[1..] + b;
    LengthStable(a[1..], b);
    var r := ParseLength(a[1..]);
    if r.Ok? && ParseBulk(a).Ok? {
      var pos := 1 + r.n;
      assert (a + b)[pos..pos + r.value] == a[pos..pos + r.value];
    }
  }

  /** Prefix stability on all inputs: a value once read, an invalid byte once seen, stays whatever
      follows. */
  lemma {:induction false} ParseStable(a: Text, b: Text)
    requires Parse(a) != Incomplete
    ensures Parse(a + b) == Parse(a)
    decreases |a|, 0
  {
    assert (a + b)[0] == a[0];
    if a[0] == PLUS || a[0] == MINUS || a[0] == COLON {
      LineStable(a, b, 1);
    } else if a[0] == DOLLAR {
      BulkStable(a, b);
    } else if a[0] == STAR {
      assert (a + b)[1..] == a[1..] + b;
      LengthStable(a[1..], b);
      var r := ParseLength(a[1..]);
      if r.Ok? && r.value >= 0 {
        assert (a + b)[1 + r.n..] == a[1 + r.n..] + b;
        ElemsStable(a[1 + r.n..], b, r.value);
      }
    }
  }

  lemma {:induction false} ElemsStable(a: Text, b: Text, count: nat)
    requires ParseElems(a, count) != Incomplete
    ensures ParseElems(a + b, count) == ParseElems(a, count)
    decreases |a|, 1
  {
    hide Parse, ParseElems;
    ElemsBound(a, count);
    ElemsBound(a + b, count);
    if count > 0 {
      ElemsUnfold(a, count);
      ElemsUnfold(a + b, count);
      if Parse(a) != Incomplete { ParseStable(a, b); }
      var r := Parse(a);
      if r.Ok? {
        assert (a + b)[r.n..] == a[r.n..] + b;
        ElemsStable(a[r.n..], b, count - 1);
      }
    }
  }

  lemma ElemsBound(data: Text, count: nat)
    ensures count == 0 ==> ParseElems(data, count) == Ok([], 0)
    ensures count > 0 && data == [] ==> ParseElems(data, count) == Incomplete
  {
  }

  /** The first element, then the others. */
  lemma ElemsUnfold(data: Text, count: nat)
    requires count > 0 && data != []
    ensures ParseElems(data, count) ==
      match Parse(data)
      case Incomplete => Incomplete
      case Invalid(b) => Invalid(b)
      case Panic => Panic
      case Ok(v, n) =>
        match ParseElems(data[n..], count - 1)
        case Incomplete => Incomplete
        case Invalid(b) => Invalid(b)
        case Panic => Panic
        case Ok(vs, m) => Ok([v] + vs, n + m)
  {
    hide Parse;
  }
}
