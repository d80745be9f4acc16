// List elements: how pushed arguments become entries, and how entries survive a dump.
module ListValues {
  import opened Bytes
  import opened Options
  import opened Decimal
  import opened ListpackFormat
  import opened ListpackLimits
  import opened RespFormat
  import opened RespStream
  import opened RespRoundTrip
  import opened RespFrames
  import opened Quicklists

  /** An optional minus sign and at least one digit. */
  predicate IsInt(v: Text) {
    var digits := if v != [] && v[0] == MINUS then v[1..] else v;
    digits != [] && AllDigits(digits)
  }

  method IsIntScan(v: Text) returns (r: bool)
    ensures r == IsInt(v)
  {
    if |v| == 0 {
      return false;
    }
    var i := 0;
    if v[0] == MINUS {
      i := 1;
      if |v| == 1 {
        return false;
      }
    }
    ghost var start := i;
    while i < |v|
      invariant start <= i <= |v|
      invariant forall j :: start <= j < i ==> IsDigit(v[j])
    {
      if v[i] < ZERO || v[i] > ZERO + 9 {
        assert !IsDigit(v[start..][i - start]);
        return false;
      }
      i := i + 1;
    }
    return true;
  }

  /** strconv.Atoi with its error ignored: out-of-range numbers saturate. */
  function Atoi(v: Text): int64
    requires IsInt(v)
  {
    var x := if v[0] == MINUS then -Accumulate(0, v[1..]) else Accumulate(0, v);
    if x < -TWO_63 then -TWO_63 else if x >= TWO_63 then TWO_63 - 1 else x
  }

  /** How a pushed argument is stored. */
  function ToEntry(t: Text): Entry {
    if IsInt(t) then IntEntry(Atoi(t)) else StrEntry(t)
  }

  function ToEntries(ts: seq<Text>): (es: seq<Entry>)
    ensures |es| == |ts|
  {
    seq(|ts|, i requires 0 <= i < |ts| => ToEntry(ts[i]))
  }

  /** Entries a push can have made: no string looks like an integer. */
  predicate Stored(e: Entry) {
    e.StrEntry? ==> !IsInt(e.s)
  }

  // ----- which integer, which string -----

  lemma {:induction false} LeadingZeros(z: nat, t: Text)
    ensures Accumulate(0, seq(z, i => 48) + t) == Accumulate(0, t)
  {
    var zeros: Text := seq(z, i => 48);
    if z == 0 {
      assert zeros + t == t;
    } else {
      LeadingZeros(z - 1, t);
      assert (zeros + t)[1..] == seq(z - 1, i => 48) + t;
    }
  }

  /** A number with any leading zeros and an optional minus sign is stored as that integer, or as the nearest
      64-bit one when it is out of range. */
  lemma NumberStored(z: nat, n: nat, minus: bool)
    ensures var t: Text := (if minus then [45] else []) + (seq(z, i => 48) + Digits(n));
      var v := if minus then 0 - n else n;
      ToEntry(t) == IntEntry(if v < -0x8000_0000_0000_0000 then -0x8000_0000_0000_0000
                             else if v > 0x7FFF_FFFF_FFFF_FFFF then 0x7FFF_FFFF_FFFF_FFFF else v)
  {
    var digits: Text := seq(z, i => 48) + Digits(n);
    DigitsMagnitude(n);
    DigitsValue(0, n);
    LeadingZeros(z, Digits(n));
    assert AllDigits(digits);
    if minus {
      assert ([45] + digits)[1..] == digits;
    } else {
      assert [] + digits == digits && IsDigit(digits[0]);
    }
  }

  /** Those are all the texts that are stored as integers. */
  lemma NumbersOnly(t: Text) returns (z: nat, n: nat, minus: bool)
    requires ToEntry(t).IntEntry?
    ensures t == (if minus then [45] else []) + (seq(z, i => 48) + Digits(n))
  {
    minus := t[0] == 45;
    var digits := if minus then t[1..] else t;
    z, n := ZerosAndDigits(digits);
    assert minus ==> t == [45] + digits;
    assert !minus ==> t == [] + digits;
  }

  lemma {:induction false} ZerosAndDigits(t: Text) returns (z: nat, n: nat)
    requires t != [] && AllDigits(t)
    ensures t == seq(z, i => 48) + Digits(n)
    decreases |t|
  {
    var init, d := t[..|t| - 1], t[|t| - 1] - 48;
    assert t == init + [48 + d];
    if init == [] {
      z, n := 0, d;
      assert seq(0, i => 48) + Digits(d) == t;
    } else {
      z, n := ZerosAndDigits(init);
      if n == 0 {
        z, n := z + 1, d;
        assert init == seq(z - 1, i => 48) + [48];
        assert t == seq(z, i => 48) + [48 + d];
      } else {
        assert Digits(10 * n + d) == Digits(n) + [48 + d];
        assert t == seq(z, i => 48) + (Digits(n) + [48 + d]);
        n := 10 * n + d;
      }
    }
  }

  /** A text without digits, or with a byte that is none besides one leading minus sign, is stored as it is. */
  lemma TextStored(t: Text)
    requires t == [] || t == [45]
          || exists i :: 0 <= i < |t| && !(48 <= t[i] <= 57) && !(i == 0 && t[i] == 45)
    ensures ToEntry(t) == StrEntry(t)
  {
    if i :| 0 <= i < |t| && !(48 <= t[i] <= 57) && !(i == 0 && t[i] == 45) {
      assert t[0] == 45 ==> i > 0 && t[1..][i - 1] == t[i];
    }
  }

  lemma PushedIsStored(t: Text)
    ensures Stored(ToEntry(t))
  {
  }

  lemma AtoiFormat(v: int64)
    ensures IsInt(FormatInt(v)) && Atoi(FormatInt(v)) == v
  {
    var n: nat := if v < 0 then -(v as int) else v;
    DigitsMagnitude(n);
    DigitsValue(0, n);
    var t := FormatInt(v);
    if v < 0 {
      assert t[1..] == Digits(n);
    } else {
      assert IsDigit(t[0]);
    }
  }

  /** An entry survives being dumped and pushed again exactly when a push can have made it. */
  lemma TokenExact(e: Entry)
    ensures ToEntry(Token(e)) == e <==> Stored(e)
  {
    if e.IntEntry? {
      AtoiFormat(e.v);
    }
  }

  predicate AllStored(es: seq<Entry>) {
    forall i :: 0 <= i < |es| ==> Stored(es[i]) && Storable(es[i])
  }

  lemma TokensBack(es: seq<Entry>)
    requires AllStored(es)
    ensures ToEntries(Tokens(es)) == es
  {
    forall i | 0 <= i < |es| ensures ToEntry(Token(es[i])) == es[i] {
      TokenExact(es[i]);
    }
  }

  // ----- the append-only file -----

  const RPUSH: Text := [82, 80, 85, 83, 72]

  /** The tokens of a key's record. */
  function Record(k: Text, es: seq<Entry>): seq<Text> {
    [RPUSH, k] + Tokens(es)
  }

  /** Records small enough for a Go slice. */
  predicate Dumpable(k: Text, es: seq<Entry>) {
    && AllStored(es)
    && |es| + 2 < TWO_63 && |k| < TWO_63
    && (forall i :: 0 <= i < |es| ==> |Token(es[i])| < TWO_63)
    && |Frame(Bulks(Record(k, es)))| < TWO_63
  }

  /** An array of strings that fits a Go slice. */
  predicate RecordLike(v: Value) {
    v.Arr? && AllStrings(v.elems) && Sized(v) && |Frame(v)| < TWO_63
  }

  type Lists = map<Text, seq<Entry>>

  predicate AllDumpable(m: Lists) {
    forall k :: k in m ==> Dumpable(k, m[k])
  }

  /** The records of a dump that visits the keys in the given order; empty lists leave none. */
  function Records(m: Lists, order: seq<Text>): (vs: seq<Value>)
    requires AllDumpable(m) && forall i :: 0 <= i < |order| ==> order[i] in m
    ensures forall i :: 0 <= i < |vs| ==> RecordLike(vs[i])
  {
    if order == [] then []
    else
      var k := order[0];
      assert order[0] in m && forall i :: 0 <= i < |order| - 1 ==> order[1..][i] == order[i + 1];
      (if m[k] == [] then [] else [Bulks(Record(k, m[k]))]) + Records(m, order[1..])
  }

  function DumpBytes(m: Lists, order: seq<Text>): Text
    requires AllDumpable(m) && forall i :: 0 <= i < |order| ==> order[i] in m
  {
    var vs := Records(m, order);
    assert forall i :: 0 <= i < |vs| ==> RecordLike(vs[i]);
    EncodeSeq(vs)
  }

  /** RPUSH on the abstract store. */
  function Push(m: Lists, k: Text, args: seq<Text>): (r: Lists)
    ensures k in r
  {
    m[k := (if k in m then m[k] else []) + ToEntries(args)]
  }

  /** Only the strings among the elements behind the command name are passed on. */
  function StringsOf(vs: seq<Value>): seq<Text> {
    if vs == [] then [] else (if vs[0].Str? then [vs[0].s] else []) + StringsOf(vs[1..])
  }

  /** Replaying one decoded value; commands other than RPUSH do not touch lists here. */
  function ReplayOne(m: Lists, v: Value): Lists {
    if v.Arr? && v.elems != [] && v.elems[0] == Str(RPUSH) then
      var args := StringsOf(v.elems[1..]);
      if |args| < 2 then m else Push(m, args[0], args[1..])
    else m
  }

  function Replay(m: Lists, vs: seq<Value>): Lists
    decreases |vs|
  {
    if vs == [] then m else Replay(ReplayOne(m, vs[0]), vs[1..])
  }

  /** A file that does not decode restores nothing; a cut-off last record is ignored. */
  function Restored(data: Text): Option<Lists> {
    var b := ParseAll(data);
    if b.end == Clean then Some(Replay(map[], b.values)) else None
  }

  lemma {:induction false} StringsOfBulks(vs: seq<Value>)
    requires AllStrings(vs)
    ensures StringsOf(vs) == Strings(vs)
    decreases |vs|
  {
    if vs != [] {
      StringsOfBulks(vs[1..]);
      assert Strings(vs) == [vs[0].s] + Strings(vs[1..]);
    }
  }

  lemma ReplayRecord(m: Lists, k: Text, es: seq<Entry>)
    requires Dumpable(k, es) && es != []
    ensures ReplayOne(m, Bulks(Record(k, es))) == m[k := (if k in m then m[k] else []) + es]
  {
    hide ToEntries, Frame, StringsOf, AllStored, Sized;
    var items := Record(k, es);
    var v := Bulks(items);
    assert v.elems[0] == Str(items[0]);
    StringsOfBulks(v.elems[1..]);
    assert Strings(v.elems[1..]) == [k] + Tokens(es);
    assert ([k] + Tokens(es))[1..] == Tokens(es);
    TokensBack(es);
  }

  /** Frames of string arrays, back to back, parse as those arrays. */
  lemma FramesParse(vs: seq<Value>)
    requires forall i :: 0 <= i < |vs| ==> RecordLike(vs[i])
    ensures forall i :: 0 <= i < |vs| ==> Sized(vs[i])
    ensures ParseAll(EncodeSeq(vs)) == Batch(vs, |EncodeSeq(vs)|, Clean)
  {
    hide Frame, ParseAll;
    RecordsReturn(vs);
    FramesRead(vs);
  }

  lemma RecordsReturn(vs: seq<Value>)
    requires forall i :: 0 <= i < |vs| ==> RecordLike(vs[i])
    ensures Writable(vs) && ReturnedSeq(vs) == vs
  {
    hide Frame;
    forall i | 0 <= i < |vs| ensures AllReadable(vs[i]) {
      assert RecordLike(vs[i]);
    }
    ReturnSeqExact(vs);
  }

  predicate Distinct(order: seq<Text>) {
    forall i, j :: 0 <= i < j < |order| ==> order[i] != order[j]
  }

  function NonEmptyAt(m: Lists, order: seq<Text>): Lists
    requires forall i :: 0 <= i < |order| ==> order[i] in m
  {
    map k | k in order && m[k] != [] :: m[k]
  }

  lemma {:induction false} ReplayRecords(s: Lists, m: Lists, order: seq<Text>)
    requires AllDumpable(m) && forall i :: 0 <= i < |order| ==> order[i] in m
    requires Distinct(order) && forall i :: 0 <= i < |order| ==> order[i] !in s
    ensures Replay(s, Records(m, order)) == s + NonEmptyAt(m, order)
    decreases |order|
  {
    if order == [] {
      assert NonEmptyAt(m, order) == map[];
    } else {
      hide ReplayOne, Record, NonEmptyAt, Frame;
      var k, rest := order[0], order[1..];
      assert forall i :: 0 <= i < |rest| ==> rest[i] == order[i + 1];
      RecordsStep(m, order);
      if m[k] == [] {
        ReplayRecords(s, m, rest);
      } else {
        ReplayRecord(s, k, m[k]);
        assert [] + m[k] == m[k];
        ReplayRecords(s[k := m[k]], m, rest);
      }
      MapStep(s, m, order);
    }
  }

  lemma RecordsStep(m: Lists, order: seq<Text>)
    requires AllDumpable(m) && order != [] && forall i :: 0 <= i < |order| ==> order[i] in m
    ensures forall i :: 0 <= i < |order| - 1 ==> order[1..][i] in m
    ensures var k, vs := order[0], Records(m, order);
      if m[k] == [] then vs == Records(m, order[1..])
      else vs != [] && vs[0] == Bulks(Record(k, m[k])) && vs[1..] == Records(m, order[1..])
  {
    assert forall i :: 0 <= i < |order| - 1 ==> order[1..][i] == order[i + 1];
  }

  lemma MapStep(s: Lists, m: Lists, order: seq<Text>)
    requires order != [] && Distinct(order) && forall i :: 0 <= i < |order| ==> order[i] in m && order[i] !in s
    ensures forall i :: 0 <= i < |order| - 1 ==> order[1..][i] in m
    ensures var k := order[0];
      s + NonEmptyAt(m, order) ==
        (if m[k] == [] then s else s[k := m[k]]) + NonEmptyAt(m, order[1..])
  {
    NonEmptyStep(m, order);
    MergeStep(s, NonEmptyAt(m, order[1..]), order[0], m[order[0]]);
  }

  lemma NonEmptyStep(m: Lists, order: seq<Text>)
    requires order != [] && Distinct(order) && forall i :: 0 <= i < |order| ==> order[i] in m
    ensures forall i :: 0 <= i < |order| - 1 ==> order[1..][i] in m
    ensures var k, b := order[0], NonEmptyAt(m, order[1..]);
      k !in b && NonEmptyAt(m, order) == if m[k] == [] then b else b[k := m[k]]
  {
    var k, rest := order[0], order[1..];
    assert forall i :: 0 <= i < |rest| ==> rest[i] == order[i + 1];
    assert order == [k] + rest && k !in rest;
  }

  lemma MergeStep<K, V>(s: map<K, V>, b: map<K, V>, k: K, v: V)
    requires k !in b
    ensures s[k := v] + b == s + b[k := v]
  {
  }

  /** Dump and replay is the identity on lists: whatever the order the keys are visited in, the
      restored store holds exactly the non-empty lists, entry for entry and type for type. */
  lemma DumpRestores(m: Lists, order: seq<Text>)
    requires AllDumpable(m) && Distinct(order)
    requires forall k :: k in m <==> k in order
    ensures (forall i :: 0 <= i < |order| ==> order[i] in m)
    ensures Restored(DumpBytes(m, order)) == Some(map k | k in m && m[k] != [] :: m[k])
  {
    hide Frame, Record, Records, EncodeSeq, Replay, ParseAll;
    assert forall i :: 0 <= i < |order| ==> order[i] in order;
    FramesParse(Records(m, order));
    ReplayRecords(map[], m, order);
    assert map[] + NonEmptyAt(m, order) == (map k | k in m && m[k] != [] :: m[k]);
  }

  // ----- the bytes of the file -----

  /** A record is an array whose first strings are RPUSH and the key, and whose others are the values. */
  lemma RecordBytes(m: Lists, k: Text)
    requires AllDumpable(m) && k in m && m[k] != []
    ensures forall i :: 0 <= i < |m[k]| ==> Sized(Str(Token(m[k][i])))
    ensures DumpBytes(m, [k]) ==
      [42] + Digits(|m[k]| + 2) + [13, 10] + (EncodeString([82, 80, 85, 83, 72])
      + (EncodeString(k) + EncodeSeq(seq(|m[k]|, i requires 0 <= i < |m[k]| => Str(Token(m[k][i]))))))
  {
    var es, v := m[k], Bulks(Record(k, m[k]));
    var rest := seq(|es|, i requires 0 <= i < |es| => Str(Token(es[i])));
    SingleRecord(m, k);
    RecordElems(k, es, rest);
    hide Record, Dumpable, DumpBytes, Digits, EncodeString, EncodeSeq, Frame, Token, AllDumpable, Sized;
    HeaderBytes(v);
    TwoFirst(RPUSH, k, rest);
  }

  lemma RecordElems(k: Text, es: seq<Entry>, rest: seq<Value>)
    requires Dumpable(k, es) && rest == seq(|es|, i requires 0 <= i < |es| => Str(Token(es[i])))
    ensures var v := Bulks(Record(k, es)); v.elems == [Str(RPUSH), Str(k)] + rest
    ensures |k| < TWO_63 && forall i :: 0 <= i < |rest| ==> Sized(rest[i])
  {
    hide Token, AllStored, Frame;
  }

  lemma SingleRecord(m: Lists, k: Text)
    requires AllDumpable(m) && k in m && m[k] != []
    ensures DumpBytes(m, [k]) == Frame(Bulks(Record(k, m[k])))
  {
    hide Dumpable, Frame, Record;
    RecordsStep(m, [k]);
    assert [k][1..] == [];
    var vs := Records(m, [k]);
    assert vs[1..] == [];
    assert EncodeSeq(vs) == Frame(vs[0]) + EncodeSeq(vs[1..]);
  }

  /** The file of one record, RPUSH k a, byte by byte: replaying it creates the list of that one string. */
  lemma OneRecord()
    ensures var file: Text := [42, 51, 13, 10, 36, 53, 13, 10, 82, 80, 85, 83, 72, 13, 10,
                               36, 49, 13, 10, 107, 13, 10, 36, 49, 13, 10, 97, 13, 10];
      Restored(file) == Some(map[[107] := [StrEntry([97])]])
  {
    var file: Text := [42, 51, 13, 10, 36, 53, 13, 10, 82, 80, 85, 83, 72, 13, 10,
                       36, 49, 13, 10, 107, 13, 10, 36, 49, 13, 10, 97, 13, 10];
    OneFrame();
    var v := Arr([Str([82, 80, 85, 83, 72]), Str([107]), Str([97])]);
    assert [v][1..] == [] && file + [] == file;
    assert EncodeSeq([v]) == Frame(v) + EncodeSeq([v][1..]);
    FramesParse([v]);
    OneReplayed();
    assert Replay(map[], [v]) == Replay(ReplayOne(map[], v), [v][1..]);
  }

  lemma OneFrame()
    ensures var v := Arr([Str([82, 80, 85, 83, 72]), Str([107]), Str([97])]);
      && Sized(v)
      && Frame(v) == [42, 51, 13, 10, 36, 53, 13, 10, 82, 80, 85, 83, 72, 13, 10,
                      36, 49, 13, 10, 107, 13, 10, 36, 49, 13, 10, 97, 13, 10]
  {
    ShortFrame([82, 80, 85, 83, 72], [107], [97]);
    hide *;
    OneGlued();
  }

  lemma ShortFrame(a: Text, b: Text, c: Text)
    requires |a| < 10 && |b| < 10 && |c| < 10
    ensures var v := Arr([Str(a), Str(b), Str(c)]);
      && Sized(v)
      && Frame(v) == [42] + [51] + [13, 10] + ([36, 48 + |a|, 13, 10] + a + [13, 10]
           + ([36, 48 + |b|, 13, 10] + b + [13, 10] + ([36, 48 + |c|, 13, 10] + c + [13, 10])))
  {
    var v := Arr([Str(a), Str(b), Str(c)]);
    assert v.elems == [Str(a), Str(b)] + [Str(c)];
    assert Digits(3) == [51];
    assert Sized(v);
    hide *;
    HeaderBytes(v);
    TwoFirst(a, b, [Str(c)]);
    LastFirst(c);
    ShortBytes(a);
    ShortBytes(b);
    ShortBytes(c);
  }

  lemma OneGlued()
    ensures var a, b, c: Text := [36, 53, 13, 10] + [82, 80, 85, 83, 72] + [13, 10],
        [36, 49, 13, 10] + [107] + [13, 10], [36, 49, 13, 10] + [97] + [13, 10];
      [42] + [51] + [13, 10] + (a + (b + c))
      == [42, 51, 13, 10, 36, 53, 13, 10, 82, 80, 85, 83, 72, 13, 10,
          36, 49, 13, 10, 107, 13, 10, 36, 49, 13, 10, 97, 13, 10]
  {
  }

  lemma OneReplayed()
    ensures ReplayOne(map[], Arr([Str([82, 80, 85, 83, 72]), Str([107]), Str([97])])) == map[[107] := [StrEntry([97])]]
  {
    var vs := [Str([82, 80, 85, 83, 72]), Str([107]), Str([97])];
    assert vs[1..] == [Str([107]), Str([97])] && vs[1..][1..] == [Str([97])] && [Str([97])][1..] == [];
    assert StringsOf([Str([97])]) == [[97]] + StringsOf([]);
    assert StringsOf(vs[1..]) == [[107]] + StringsOf([Str([97])]) == [[107], [97]];
    assert [[107], [97]][1..] == [[97]];
    assert ToEntries([[97]]) == [StrEntry([97])] by { TextStored([97]); }
    assert [] + [StrEntry([97])] == [StrEntry([97])];
  }

  /** A byte that starts no value, behind any records, makes the whole file restore nothing. */
  lemma BrokenRestoresNothing(vs: seq<Value>, b: byte, rest: Text)
    requires Writable(vs) && b !in {43, 45, 58, 36, 42}
    ensures Restored(EncodeSeq(vs) + [b] + rest) == None
  {
    hide Parse, Frame, EncodeSeq, ParseAll;
    FramesRead(vs);
    var data, tail := EncodeSeq(vs), [b] + rest;
    ParseAllSplit(data, tail);
    assert data[|data|..] + tail == tail && data + [b] + rest == data + tail;
    assert Parse(tail) == Invalid(b) by { BadStart(b, rest); }
    assert ParseAll(tail).end == Failed by { EndsAt(tail, b); }
  }

  lemma BadStart(b: byte, rest: Text)
    requires b !in {43, 45, 58, 36, 42}
    ensures Parse([b] + rest) == Invalid(b)
  {
  }

  lemma EndsAt(data: Text, b: byte)
    requires Parse(data) == Invalid(b)
    ensures ParseAll(data).end == Failed
  {
    hide Parse;
  }

  // ----- a file that was cut off -----

  /** The first record of a dump of j keys. */
  lemma FirstRecord(m: Lists, order: seq<Text>, j: nat)
    requires AllDumpable(m) && forall i :: 0 <= i < |order| ==> order[i] in m
    requires 1 <= j <= |order|
    ensures forall i :: 0 <= i < j ==> order[..j][i] in m
    ensures var rest := order[1..][..j - 1];
      && (forall i :: 0 <= i < |rest| ==> rest[i] in m)
      && var vs, more := Records(m, order[..j]), Records(m, rest);
         if m[order[0]] == [] then vs == more && DumpBytes(m, order[..j]) == DumpBytes(m, rest)
         else
           && vs != [] && vs[0] == Records(m, order)[0] && vs[1..] == more
           && DumpBytes(m, order[..j]) == Frame(vs[0]) + DumpBytes(m, rest)
  {
    hide Record, Frame, AllDumpable, Records;
    assert order[..j][1..] == order[1..][..j - 1];
    assert order[..j][0] == order[0];
    RecordsStep(m, order);
    RecordsStep(m, order[..j]);
  }

  /** The records that are complete in the first n bytes are those of the first j keys. */
  lemma {:induction false} CompleteRecords(m: Lists, order: seq<Text>, n: nat) returns (j: nat)
    requires AllDumpable(m) && forall i :: 0 <= i < |order| ==> order[i] in m
    ensures j <= |order| && Writable(Records(m, order))
    ensures forall i :: 0 <= i < j ==> order[..j][i] in m
    ensures Records(m, order)[..Complete(Records(m, order), n)] == Records(m, order[..j])
    ensures |DumpBytes(m, order[..j])| <= n
    ensures j < |order| ==> |DumpBytes(m, order[..j + 1])| > n
    decreases |order|
  {
    hide Record, Frame, AllDumpable, Records, DumpBytes, Complete;
    var vs := Records(m, order);
    RecordsReturn(vs);
    if order == [] {
      j := 0;
      NoRecord(m, n);
    } else {
      var k, rest := order[0], order[1..];
      assert forall i :: 0 <= i < |rest| ==> rest[i] == order[i + 1];
      RecordsStep(m, order);
      FirstRecord(m, order, 1);
      NoRecord(m, n);
      if m[k] != [] && |Frame(vs[0])| > n {
        j := 0;
        FirstComplete(vs, n);
      } else {
        var n' := if m[k] == [] then n else n - |Frame(vs[0])|;
        j := CompleteRecords(m, rest, n');
        if m[k] != [] { FirstComplete(vs, n); }
        FirstRecord(m, order, j + 1);
        if j + 1 < |order| { FirstRecord(m, order, j + 2); }
        j := j + 1;
      }
    }
  }

  lemma NoRecord(m: Lists, n: nat)
    requires AllDumpable(m)
    ensures Records(m, []) == [] && DumpBytes(m, []) == []
    ensures Writable([]) && Complete([], n) == 0
  {
  }

  /** A dump cut off after any number of bytes restores the non-empty lists of the keys whose records are
      complete, and nothing of the others. */
  lemma CutDumpRestores(m: Lists, order: seq<Text>, n: nat) returns (j: nat)
    requires AllDumpable(m) && Distinct(order)
    requires forall i :: 0 <= i < |order| ==> order[i] in m
    requires n <= |DumpBytes(m, order)|
    ensures j <= |order| && forall i :: 0 <= i < j ==> order[..j][i] in m
    ensures |DumpBytes(m, order[..j])| <= n && (j < |order| ==> |DumpBytes(m, order[..j + 1])| > n)
    ensures Restored(DumpBytes(m, order)[..n]) == Some(NonEmptyAt(m, order[..j]))
  {
    hide Record, Frame, AllDumpable, Records, Writable, Complete, ParseAll, EncodeSeq, Replay, NonEmptyAt;
    j := CompleteRecords(m, order, n);
    var vs, done := Records(m, order), order[..j];
    CutReads(vs, n);
    RecordsReturn(Records(m, done));
    ReplayRecords(map[], m, done);
    assert map[] + NonEmptyAt(m, done) == NonEmptyAt(m, done);
  }
}
