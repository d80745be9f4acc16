// The byte format of a listpack: one header, the entries back to back, one end marker.
module ListpackFormat {
  import opened Bytes
  import opened Options
  import opened Sequences

  const HEADER_SIZE := 6
  const END_BYTE: byte := 0xFF
  const TYPE_INT: byte := 0x01
  const TYPE_STRING: byte := 0x02

  datatype Entry = IntEntry(v: int64) | StrEntry(s: Text)

  /** The masks of the source act on disjoint bits, so the format is written with + and -. */
  lemma MasksAreDisjoint(b: bv8)
    ensures b < 0x40 ==> (0x80 | b) == 0x80 + b && (0x40 | b) == 0x40 + b && (b & 0x3F) == b
    ensures (b & 0xC0) == 0x80 <==> 0x80 <= b < 0xC0
    ensures 0x40 <= b < 0x80 ==> (b & 0x3F) == b - 0x40
    ensures 0x80 <= b < 0xC0 ==> (b & 0x3F) == b - 0x80
  {
  }

  // ----- writing -----

  function IntSize(v: int64): nat {
    if 0 <= v < 128 then 2
    else if 0 <= v < 8192 then 3
    else if -TWO_15 <= v < TWO_15 then 4
    else if -TWO_31 <= v < TWO_31 then 6
    else 10
  }

  function EncodeInt(v: int64): (bs: seq<byte>)
    ensures |bs| == IntSize(v)
  {
    match IntSize(v)
    case 2 => [TYPE_INT, v]
    case 3 => [TYPE_INT, 0x80 + v / 256, v % 256]
    case 4 => [TYPE_INT, 0xC0] + LittleEndian(v % TWO_16, 2)
    case 6 => [TYPE_INT, 0xD0] + LittleEndian(v % TWO_32, 4)
    case _ => [TYPE_INT, 0xE0] + LittleEndian(v % TWO_64, 8)
  }

  function StrHeader(n: nat): seq<byte> {
    if n < 64 then [TYPE_STRING, n]
    else if n < 16384 then [TYPE_STRING, 0x40 + n / 256, n % 256]
    else [TYPE_STRING, 0x80] + LittleEndian(n, 4)
  }

  function Encode(e: Entry): (bs: seq<byte>)
    ensures |bs| >= 2 && bs[0] in {TYPE_INT, TYPE_STRING}
  {
    match e
    case IntEntry(v) => EncodeInt(v)
    case StrEntry(s) => StrHeader(|s|) + s
  }

  function Frames(es: seq<Entry>): (fs: seq<seq<byte>>)
    ensures |fs| == |es|
  {
    seq(|es|, i requires 0 <= i < |es| => Encode(es[i]))
  }

  function EncodeAll(es: seq<Entry>): seq<byte> {
    Concat(Frames(es))
  }

  /** The whole buffer; both header words truncate to their width. */
  function Pack(es: seq<Entry>): (bs: seq<byte>)
    ensures |bs| == 7 + |EncodeAll(es)|
  {
    LittleEndian(7 + |EncodeAll(es)|, 4) + LittleEndian(|es|, 2) + EncodeAll(es) + [END_BYTE]
  }

  /** The five forms of an integer at their limits, the three headers of a string, and the empty list. */
  lemma FormatBytes()
    ensures EncodeInt(0) == [1, 0] && EncodeInt(127) == [1, 127]
    ensures EncodeInt(128) == [1, 0x80, 0x80] && EncodeInt(8191) == [1, 0x9F, 0xFF]
    ensures EncodeInt(8192) == [1, 0xC0, 0x00, 0x20] && EncodeInt(-1) == [1, 0xC0, 0xFF, 0xFF]
    ensures EncodeInt(-32768) == [1, 0xC0, 0x00, 0x80] && EncodeInt(32768) == [1, 0xD0, 0x00, 0x80, 0x00, 0x00]
    ensures EncodeInt(-32769) == [1, 0xD0, 0xFF, 0x7F, 0xFF, 0xFF]
    ensures EncodeInt(0x8000_0000) == [1, 0xE0, 0, 0, 0, 0x80, 0, 0, 0, 0]
    ensures StrHeader(0) == [2, 0] && StrHeader(63) == [2, 63] && StrHeader(64) == [2, 0x40, 64]
    ensures StrHeader(16383) == [2, 0x7F, 0xFF] && StrHeader(16384) == [2, 0x80, 0x00, 0x40, 0x00, 0x00]
    ensures Pack([]) == [7, 0, 0, 0, 0, 0, 0xFF]
  {
    hide LittleEndian;
    FourBytes(0x8000);
    FourBytes(TWO_32 - 32769);
    FourBytes(16384);
    FourBytes(7);
    EightBytes();
    TwoBytes(0x2000);
    TwoBytes(0xFFFF);
    TwoBytes(0x8000);
    TwoBytes(0);
    assert Frames([]) == [];
  }

  lemma EightBytes()
    ensures LittleEndian(0x8000_0000, 8) == [0, 0, 0, 0x80, 0, 0, 0, 0]
  {
    FourBytes(0);
    assert LittleEndian(0x8000_0000, 8) == [0, 0, 0, 0x80] + LittleEndian(0, 4);
  }

  lemma TwoBytes(n: nat)
    requires n < TWO_16
    ensures LittleEndian(n, 2) == [n % 256, n / 256]
  {
    assert LittleEndian(n, 2) == [n % 256] + LittleEndian(n / 256, 1);
    assert LittleEndian(n / 256, 1) == [n / 256 % 256] + LittleEndian(n / 256 / 256, 0);
  }

  lemma FourBytes(n: nat)
    requires n < TWO_32
    ensures LittleEndian(n, 4) == [n % 256, n / 256 % 256, n / 0x1_0000 % 256, n / 0x100_0000]
  {
    assert LittleEndian(n, 4) == [n % 256] + ([n / 256 % 256] + LittleEndian(n / 256 / 256, 2));
    TwoBytes(n / 256 / 256);
  }

  lemma PackParts(es: seq<Entry>)
    ensures Pack(es)[..4] == LittleEndian(|Pack(es)|, 4)
    ensures Pack(es)[4..6] == LittleEndian(|es|, 2)
    ensures Pack(es)[6..] == EncodeAll(es) + [END_BYTE]
  {
    var a, b := LittleEndian(7 + |EncodeAll(es)|, 4), LittleEndian(|es|, 2);
    assert Pack(es) == a + b + (EncodeAll(es) + [END_BYTE]);
  }

  // ----- reading -----

  /** The integer stored at pos and the bytes it takes; 0 bytes when the buffer is too short. */
  function DecodeInt(data: seq<byte>, pos: nat): (int64, nat) {
    var idx := pos + 1;
    if idx >= |data| then (0, 0)
    else
      var b := data[idx];
      if b < 0x80 then (b, 2)
      else if b < 0xC0 then
        if idx + 1 >= |data| then (0, 0) else ((b as int - 0x80) * 256 + data[idx + 1], 3)
      else if b == 0xC0 then
        if idx + 3 > |data| then (0, 0)
        else (Signed(Word(data, idx + 1, 2), TWO_15), 4)
      else if b == 0xD0 then
        if idx + 5 > |data| then (0, 0)
        else (Signed(Word(data, idx + 1, 4), TWO_31), 6)
      else if idx + 9 > |data| then (0, 0)
      else (Signed(Word(data, idx + 1, 8), TWO_63), 10)
  }

  /** The string stored at pos and the bytes it takes; 0 bytes when the buffer is too short. */
  function DecodeString(data: seq<byte>, pos: nat): (r: (Text, nat))
    ensures pos + r.1 <= |data| || r.1 == 0
  {
    var idx := pos + 1;
    if idx >= |data| then ([], 0)
    else
      var b := data[idx];
      if b < 0x40 then
        if idx + 1 + b > |data| then ([], 0)
        else (data[idx + 1 .. idx + 1 + b], 2 + b)
      else if b < 0x80 then
        if idx + 2 > |data| then ([], 0)
        else
          var length: nat := (b as int - 0x40) * 256 + data[idx + 1];
          if idx + 2 + length > |data| then ([], 0)
          else (data[idx + 2 .. idx + 2 + length], 3 + length)
      else if idx + 5 > |data| then ([], 0)
      else
        var length: nat := Word(data, idx + 1, 4);
        if idx + 5 + length > |data| then ([], 0)
        else (data[idx + 5 .. idx + 5 + length], 6 + length)
  }

  function Word(data: seq<byte>, pos: nat, k: nat): (w: nat)
    requires pos + k <= |data|
    ensures k == 2 ==> w < TWO_16
    ensures k == 4 ==> w < TWO_32
    ensures k == 8 ==> w < TWO_64
  {
    WordBound(data[pos .. pos + k]);
    WordSizes();
    FromLittleEndian(data[pos .. pos + k])
  }

  lemma {:induction false} WordBound(bs: seq<byte>)
    ensures FromLittleEndian(bs) < Pow256(|bs|)
  {
    if bs != [] {
      WordBound(bs[1..]);
    }
  }

  /** Walks the entries from pos up to the end marker, as every reader of a listpack does. */
  function ReadEntries(data: seq<byte>, pos: nat): Option<seq<Entry>>
    decreases |data| - pos
  {
    if pos >= |data| || data[pos] == END_BYTE then Some([])
    else
      var (e, size) := DecodeEntry(data, pos);
      if size == 0 then None
      else if pos + size > |data| then Some([e])
      else
        match ReadEntries(data, pos + size)
        case None => None
        case Some(rest) => Some([e] + rest)
  }

  /** Dispatch on the type byte; an unknown type reads as size 0. */
  function DecodeEntry(data: seq<byte>, pos: nat): (Entry, nat)
    requires pos < |data|
  {
    if data[pos] == TYPE_STRING then
      var (s, size) := DecodeString(data, pos);
      (StrEntry(s), size)
    else if data[pos] == TYPE_INT then
      var (v, size) := DecodeInt(data, pos);
      (IntEntry(v), size)
    else (IntEntry(0), 0)
  }

  // ----- the format is inverted exactly -----

  lemma WordAt(pre: seq<byte>, n: nat, k: nat, post: seq<byte>)
    requires n < Pow256(k)
    ensures var data := pre + LittleEndian(n, k) + post;
      |pre| + k <= |data| && FromLittleEndian(data[|pre| .. |pre| + k]) == n
  {
    var data := pre + LittleEndian(n, k) + post;
    assert data[|pre| .. |pre| + k] == LittleEndian(n, k);
    WordRoundTrip(n, k);
    QuotientUnique(n, Pow256(k), 0, n);
  }

  /** A fixed-width integer: tag byte, marker byte, k-byte word. */
  lemma WideIntRoundTrip(pre: seq<byte>, v: int64, marker: byte, k: nat, half: int, post: seq<byte>)
    requires (marker, k, half) in {(0xC0, 2, TWO_15), (0xD0, 4, TWO_31), (0xE0, 8, TWO_63)}
    requires -half <= v < half
    ensures v % (2 * half) >= 0
    ensures DecodeInt(pre + ([TYPE_INT, marker] + LittleEndian(v % (2 * half), k)) + post, |pre|) == (v, k + 2)
  {
    WordSizes();
    SignedRoundTrip(v, half);
    var w := LittleEndian(v % (2 * half), k);
    var data := pre + ([TYPE_INT, marker] + w) + post;
    WordAt(pre + [TYPE_INT, marker], v % (2 * half), k, post);
    assert data == (pre + [TYPE_INT, marker]) + w + post;
    assert data[|pre| + 1] == marker;
  }

  lemma IntRoundTrip(pre: seq<byte>, v: int64, post: seq<byte>)
    ensures DecodeInt(pre + EncodeInt(v) + post, |pre|) == (v, IntSize(v))
  {
    var data := pre + EncodeInt(v) + post;
    match IntSize(v)
    case 4 => WideIntRoundTrip(pre, v, 0xC0, 2, TWO_15, post);
    case 6 => WideIntRoundTrip(pre, v, 0xD0, 4, TWO_31, post);
    case 10 => WideIntRoundTrip(pre, v, 0xE0, 8, TWO_63, post);
    case _ =>
      assert data[|pre| + 1] == EncodeInt(v)[1];
      assert IntSize(v) == 3 ==> data[|pre| + 2] == EncodeInt(v)[2];
  }

  /** A string reads back exactly when its length fits the 32-bit length word. */
  lemma StringRoundTrip(pre: seq<byte>, s: Text, post: seq<byte>)
    ensures DecodeString(pre + Encode(StrEntry(s)) + post, |pre|) == (s, |Encode(StrEntry(s))|)
      <==> |s| < TWO_32
  {
    var n, data := |s|, pre + Encode(StrEntry(s)) + post;
    var h := StrHeader(n);
    assert data == pre + h + s + post;
    assert data[|pre| + |h| .. |pre| + |h| + n] == s;
    if n >= 16384 {
      WordSizes();
      var w := LittleEndian(n, 4);
      assert data[|pre| + 2 .. |pre| + 6] == w;
      WordRoundTrip(n, 4);
      if n < TWO_32 {
        QuotientUnique(n, TWO_32, 0, n);
      } else {
        assert |DecodeString(data, |pre|).0| == n % TWO_32 < n;
      }
    }
  }

  predicate WellSized(es: seq<Entry>) {
    forall i :: 0 <= i < |es| && es[i].StrEntry? ==> |es[i].s| < TWO_32
  }

  lemma EntryRoundTrip(pre: seq<byte>, e: Entry, post: seq<byte>)
    requires WellSized([e])
    ensures |pre + Encode(e) + post| > |pre|
    ensures DecodeEntry(pre + Encode(e) + post, |pre|) == (e, |Encode(e)|)
  {
    assert (pre + Encode(e) + post)[|pre|] == Encode(e)[0];
    assert [e][0] == e;
    match e
    case IntEntry(v) => IntRoundTrip(pre, v, post);
    case StrEntry(s) => StringRoundTrip(pre, s, post);
  }

  /** One step of the walk: the entry at the cursor, then whatever follows it. */
  lemma EntryThenRest(pre: seq<byte>, e: Entry, frame: seq<byte>, rest: seq<byte>, data: seq<byte>)
    requires WellSized([e]) && frame == Encode(e)
    requires data == pre + (frame + rest) + [END_BYTE]
    ensures data == (pre + frame) + rest + [END_BYTE]
    ensures |data| > |pre| && data[|pre|] != END_BYTE
    ensures DecodeEntry(data, |pre|) == (e, |frame|)
  {
    assert data == pre + frame + (rest + [END_BYTE]);
    EntryRoundTrip(pre, e, rest + [END_BYTE]);
    assert data[|pre|] == frame[0];
  }

  lemma ReadEnd(data: seq<byte>, pos: nat)
    requires pos < |data| && data[pos] == END_BYTE
    ensures ReadEntries(data, pos) == Some([])
  {
  }

  lemma ReadStep(data: seq<byte>, pos: nat, e: Entry, size: nat)
    requires pos < |data| && data[pos] != END_BYTE && DecodeEntry(data, pos) == (e, size)
    requires size > 0 && pos + size <= |data|
    ensures var rest := ReadEntries(data, pos + size);
      ReadEntries(data, pos) == if rest.Some? then Some([e] + rest.value) else None
  {
    hide DecodeEntry;
  }

  lemma {:induction false} ParseEntries(pre: seq<byte>, es: seq<Entry>)
    requires WellSized(es)
    ensures ReadEntries(pre + EncodeAll(es) + [END_BYTE], |pre|) == Some(es)
    decreases |es|
  {
    hide Encode, EncodeAll, DecodeEntry, ReadEntries;
    var data := pre + EncodeAll(es) + [END_BYTE];
    if es == [] {
      NothingPacked(es);
      assert data[|pre|] == END_BYTE;
      ReadEnd(data, |pre|);
    } else {
      var e, rest := es[0], es[1..];
      assert [e][0] == e;
      assert es == [e] + rest;
      var frame := Encode(e);
      EncodeAllCons(e, rest);
      EntryThenRest(pre, e, frame, EncodeAll(rest), data);
      ParseEntries(pre + frame, rest);
      ReadStep(data, |pre|, e, |frame|);
    }
  }

  /** Walking a packed buffer from the end of its header yields exactly its entries: payload bytes
      equal to the end marker never stop the walk. */
  lemma ParsePack(es: seq<Entry>)
    requires WellSized(es)
    ensures ReadEntries(Pack(es), HEADER_SIZE) == Some(es)
  {
    var header := LittleEndian(7 + |EncodeAll(es)|, 4) + LittleEndian(|es|, 2);
    ParseEntries(header, es);
    assert Pack(es) == header + EncodeAll(es) + [END_BYTE];
  }

  /** Two entry lists with the same bytes are the same list. */
  lemma PackInjective(es: seq<Entry>, fs: seq<Entry>)
    requires WellSized(es) && WellSized(fs) && Pack(es) == Pack(fs)
    ensures es == fs
  {
    ParsePack(es);
    ParsePack(fs);
  }

  lemma EncodeAllAppend(es: seq<Entry>, fs: seq<Entry>)
    ensures EncodeAll(es + fs) == EncodeAll(es) + EncodeAll(fs)
  {
    assert Frames(es + fs) == Frames(es) + Frames(fs);
    ConcatAppend(Frames(es), Frames(fs));
  }

  lemma NothingPacked(es: seq<Entry>)
    requires es == []
    ensures EncodeAll(es) == []
  {
    assert Frames(es) == [];
  }

  lemma EncodeAllCons(e: Entry, es: seq<Entry>)
    ensures EncodeAll([e] + es) == Encode(e) + EncodeAll(es)
  {
    assert Frames([e] + es)[1..] == Frames(es);
  }

  lemma EncodeAllSnoc(es: seq<Entry>, e: Entry)
    ensures EncodeAll(es + [e]) == EncodeAll(es) + Encode(e)
  {
    assert Frames(es + [e]) == Frames(es) + [Encode(e)];
    ConcatSnoc(Frames(es), Encode(e));
  }

  /** Every entry takes at least two bytes. */
  lemma {:induction false} EncodedLength(es: seq<Entry>)
    ensures 2 * |es| <= |EncodeAll(es)|
  {
    if es != [] {
      EncodedLength(es[1..]);
      EncodeAllCons(es[0], es[1..]);
      assert es == [es[0]] + es[1..];
    }
  }
}
