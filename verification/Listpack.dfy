// A listpack: typed entries packed into one growable byte buffer.
module Listpacks {
  import opened Bytes
  import opened ListpackFormat
  import Memory

  const MAX_LISTPACK_BYTES := 8 * 1024

  class Listpack {
    var data: array<byte>  // the backing array; its length is the capacity
    var len: nat           // the bytes in use
    ghost var elems: seq<Entry>

    ghost predicate InBounds()
      reads this
    {
      HEADER_SIZE < len <= data.Length
    }

    function Bytes(): seq<byte>
      reads this, data
      requires InBounds()
    {
      data[..len]
    }

    /** The buffer is the packed form of elems, and its capacity never shrinks below the first one. */
    ghost predicate Valid()
      reads this, data
    {
      InBounds() && Bytes() == Pack(elems) && data.Length >= MAX_LISTPACK_BYTES
    }

    constructor ()
      ensures Valid() && fresh(data) && data.Length == MAX_LISTPACK_BYTES
      ensures elems == []
    {
      data := new byte[MAX_LISTPACK_BYTES](i => 0);
      len := HEADER_SIZE + 1;
      elems := [];
      new;
      data[HEADER_SIZE] := END_BYTE;
      assert data[4..6] == [0, 0] && FromLittleEndian([0, 0]) == 0 by {
        assert [0 as byte, 0][1..] == [0];
      }
      SetMeta(0);
      assert data[..len][6..] == EncodeAll([]) + [END_BYTE];
      assert data[..len][..4] == data[..4] && data[..len][4..6] == data[4..6];
      PackFromParts(data[..len], []);
    }

    function TotalLen(): nat
      reads this, data
      requires InBounds()
    {
      FromLittleEndian(data[0..4])
    }

    function Elements(): nat
      reads this, data
      requires InBounds()
    {
      FromLittleEndian(data[4..6])
    }

    predicate IsEmpty()
      reads this, data
      requires InBounds()
    {
      len <= HEADER_SIZE + 1 || Elements() == 0
    }

    method SetTotalLen(n: nat)
      requires InBounds()
      modifies data
      ensures data[..4] == LittleEndian(n, 4)
      ensures forall k :: 4 <= k < data.Length ==> data[k] == old(data[k])
    {
      Memory.Put(data, 0, LittleEndian(n, 4));
    }

    method SetElements(n: nat)
      requires InBounds()
      modifies data
      ensures data[4..6] == LittleEndian(n, 2)
      ensures forall k :: 0 <= k < data.Length && !(4 <= k < 6) ==> data[k] == old(data[k])
    {
      Memory.Put(data, 4, LittleEndian(n, 2));
    }

    method SetMeta(n: nat)
      requires InBounds()
      modifies data
      ensures data[..4] == LittleEndian(len, 4)
      ensures data[4..6] == LittleEndian(old(Elements()) + n, 2)
      ensures forall k :: 6 <= k < data.Length ==> data[k] == old(data[k])
    {
      SetTotalLen(len);
      assert data[4..6] == old(data[4..6]);
      SetElements(Elements() + n);
    }

    /** Opens a gap of addLen bytes at pos, in place when the capacity allows it. */
    method Grow(pos: nat, addLen: nat)
      requires InBounds() && pos <= len
      modifies this`data, this`len, data
      ensures InBounds() && len == old(len) + addLen && data.Length >= old(data.Length)
      ensures if old(len) + addLen <= old(data.Length) then data == old(data) else fresh(data)
      ensures forall k :: 0 <= k < pos ==> data[k] == old(data[k])
      ensures forall k :: pos + addLen <= k < len ==> data[k] == old(data[k - addLen])
    {
      var newLen := len + addLen;
      if data.Length < newLen {
        var newData := new byte[newLen * 2](i => 0);
        Memory.Move(newData, 0, data, 0, pos);
        Memory.Move(newData, pos + addLen, data, pos, len - pos);
        data := newData;
      } else {
        Memory.Move(data, pos + addLen, data, pos, len - pos);
      }
      len := newLen;
    }

    /** What both insertions promise: one more entry, at the front or at the back. */
    ghost function Added(e: Entry, prepend: bool): seq<Entry>
      reads this
    {
      if prepend then [e] + elems else elems + [e]
    }

    method AddInt(val: int64, prepend: bool)
      requires Valid()
      modifies this, data
      ensures Valid() && elems == old(Added(IntEntry(val), prepend))
      ensures if len <= old(data.Length) then data == old(data) else fresh(data)
    {
      hide Pack, LittleEndian, EncodeAll, EncodeInt;
      ghost var before, frame := Bytes(), EncodeInt(val);
      var entryLen := if 0 <= val < 128 then 2
                      else if 0 <= val < 8192 then 3
                      else if -TWO_15 <= val < TWO_15 then 4
                      else if -TWO_31 <= val < TWO_31 then 6
                      else 10;
      var pos := if prepend then HEADER_SIZE else len - 1;
      Grow(pos, entryLen);
      WriteInt(data, pos, val, entryLen);
      Commit(pos, IntEntry(val), prepend, frame, before);
    }

    method AddString(s: Text, prepend: bool)
      requires Valid()
      modifies this, data
      ensures Valid() && elems == old(Added(StrEntry(s), prepend))
      ensures if len <= old(data.Length) then data == old(data) else fresh(data)
    {
      hide Pack, LittleEndian, EncodeAll, Encode, StrHeader;
      ghost var before, frame := Bytes(), StrHeader(|s|) + s;
      var n := |s|;
      var entryLen := if n < 64 then 2 + n else if n < 16384 then 3 + n else 6 + n;
      StringFrame(s);
      var pos := if prepend then HEADER_SIZE else len - 1;
      Grow(pos, entryLen);
      WriteString(data, pos, s);
      Commit(pos, StrEntry(s), prepend, frame, before);
    }

    /** The entry's bytes are in the gap: count it in the header. */
    method Commit(pos: nat, e: Entry, prepend: bool, ghost frame: seq<byte>, ghost before: seq<byte>)
      requires InBounds() && before == Pack(elems) && frame == Encode(e) && data.Length >= MAX_LISTPACK_BYTES
      requires pos == if prepend then HEADER_SIZE else |before| - 1
      requires len == |before| + |frame|
      requires forall k :: 0 <= k < pos ==> data[k] == before[k]
      requires data[pos..pos + |frame|] == frame
      requires forall k :: pos + |frame| <= k < len ==> data[k] == before[k - |frame|]
      modifies this`elems, data
      ensures Valid() && elems == old(Added(e, prepend))
    {
      hide Encode, Pack, LittleEndian, EncodeAll;
      ghost var es := elems;
      PackParts(es);
      assert data[4..6] == before[4..6];
      ghost var gapped := data[..len];
      assert gapped[pos..pos + |frame|] == data[pos..pos + |frame|];
      GapFilled(before, frame, pos, gapped);
      SetMeta(1);
      CountTruncates(|es|);
      elems := if prepend then [e] + elems else elems + [e];
      ghost var after := data[..len];
      assert after[..4] == data[..4] && after[4..6] == data[4..6];
      assert after[6..] == gapped[6..];
      BodyAfterInsert(es, e, frame, prepend, before[6..pos], before[pos..]);
      PackFromParts(after, elems);
    }

    /** Cuts length bytes out at pos; out-of-range requests change nothing. */
    method Remove(pos: int, length: int)
      requires InBounds()
      modifies this`len, data
      ensures if 0 <= pos < old(len) && length > 0
              then len <= data.Length && data[..len] == old(Cut(Bytes(), pos, length))
              else len == old(len) && data[..] == old(data[..])
    {
      var oldLen := len;
      if pos < 0 || pos >= oldLen || length <= 0 {
        return;
      }
      var n := if pos + length > oldLen then oldLen - pos else length;
      Memory.Move(data, pos, data, pos + n, oldLen - n - pos);
      len := oldLen - n;
    }

    /** Drops the first n entries, which fill the size bytes after the header. */
    method DropFront(n: nat, size: nat)
      requires Valid() && 0 < n <= |elems| < TWO_16
      requires size == |EncodeAll(elems[..n])|
      modifies this`len, this`elems, data
      ensures Valid() && elems == old(elems)[n..]
    {
      hide Encode, Pack, LittleEndian, EncodeAll, Cut;
      ghost var es, rest := elems, elems[n..];
      ghost var bytes := Bytes();
      FrontCut(es, n);
      HeaderIsExact();
      assert bytes[4..6] == data[4..6];
      Remove(HEADER_SIZE, size);
      assert data[4..6] == data[..len][4..6] == bytes[4..6];
      assert data[6..len] == data[..len][6..];
      SetElements(Elements() - n);
      SetTotalLen(len);
      assert data[6..len] == EncodeAll(rest) + [END_BYTE];
      elems := rest;
      assert data[..len][..4] == data[..4] && data[..len][4..6] == data[4..6];
      PackFromParts(data[..len], rest);
    }

    /** The header words are the true sizes as long as those fit their widths. */
    lemma HeaderIsExact()
      requires Valid()
      ensures len < TWO_32 ==> TotalLen() == len
      ensures |elems| < TWO_16 ==> Elements() == |elems|
    {
      WordSizes();
      assert data[0..4] == Bytes()[0..4] == LittleEndian(len, 4);
      assert data[4..6] == Bytes()[4..6] == LittleEndian(|elems|, 2);
      WordRoundTrip(len, 4);
      WordRoundTrip(|elems|, 2);
      if len < TWO_32 {
        QuotientUnique(len, TWO_32, 0, len);
      }
      if |elems| < TWO_16 {
        QuotientUnique(|elems|, TWO_16, 0, |elems|);
      }
    }
  }

  /** Fills the gap at pos with the encoding of val. */
  method WriteInt(data: array<byte>, pos: nat, val: int64, entryLen: nat)
    requires entryLen == IntSize(val) && pos + entryLen <= data.Length
    modifies data
    ensures data[pos..pos + entryLen] == EncodeInt(val)
    ensures forall k :: 0 <= k < data.Length && !(pos <= k < pos + entryLen) ==> data[k] == old(data[k])
  {
    hide LittleEndian;
    match entryLen {
      case 2 =>
        data[pos] := TYPE_INT;
        data[pos + 1] := val;
      case 3 =>
        data[pos] := TYPE_INT;
        data[pos + 1] := 0x80 + val / 256;
        data[pos + 2] := val % 256;
      case 4 => PutWord(data, pos, TYPE_INT, 0xC0, val % TWO_16, 2);
      case 6 => PutWord(data, pos, TYPE_INT, 0xD0, val % TWO_32, 4);
      case _ => PutWord(data, pos, TYPE_INT, 0xE0, val % TWO_64, 8);
    }
  }

  /** Two tag bytes and a little-endian word of k bytes. */
  method PutWord(data: array<byte>, pos: nat, kind: byte, tag: byte, n: nat, k: nat)
    requires pos + 2 + k <= data.Length
    modifies data
    ensures data[pos..pos + 2 + k] == [kind, tag] + LittleEndian(n, k)
    ensures forall j :: 0 <= j < data.Length && !(pos <= j < pos + 2 + k) ==> data[j] == old(data[j])
  {
    hide LittleEndian;
    data[pos] := kind;
    data[pos + 1] := tag;
    Memory.Put(data, pos + 2, LittleEndian(n, k));
  }

  lemma StringFrame(s: Text)
    ensures var n := |s|;
      && Encode(StrEntry(s)) == StrHeader(n) + s
      && |StrHeader(n) + s| == if n < 64 then 2 + n else if n < 16384 then 3 + n else 6 + n
  {
  }

  /** Fills the gap at pos with the length header and the bytes of s. */
  method WriteString(data: array<byte>, pos: nat, s: Text)
    requires pos + |StrHeader(|s|)| + |s| <= data.Length
    modifies data
    ensures var size := |StrHeader(|s|)| + |s|;
      data[pos..pos + size] == StrHeader(|s|) + s &&
      forall k :: 0 <= k < data.Length && !(pos <= k < pos + size) ==> data[k] == old(data[k])
  {
    hide StrHeader;
    WriteHeader(data, pos, |s|);
    Memory.Put(data, pos + |StrHeader(|s|)|, s);
  }

  method WriteHeader(data: array<byte>, pos: nat, n: nat)
    requires pos + |StrHeader(n)| <= data.Length
    modifies data
    ensures data[pos..pos + |StrHeader(n)|] == StrHeader(n)
    ensures forall k :: 0 <= k < data.Length && !(pos <= k < pos + |StrHeader(n)|) ==> data[k] == old(data[k])
  {
    hide LittleEndian;
    if n < 64 {
      data[pos] := TYPE_STRING;
      data[pos + 1] := n;
    } else if n < 16384 {
      data[pos] := TYPE_STRING;
      data[pos + 1] := 0x40 + n / 256;
      data[pos + 2] := n % 256;
    } else {
      PutWord(data, pos, TYPE_STRING, 0x80, n, 4);
    }
  }

  /** Bytes pos..pos+length taken out, stopping at the end of the buffer. */
  function Cut(bs: seq<byte>, pos: nat, length: nat): seq<byte>
    requires pos <= |bs|
  {
    bs[..pos] + (if pos + length > |bs| then [] else bs[pos + length..])
  }

  /** Cutting the first n entries out of a listpack leaves its header and the other entries. */
  lemma FrontCut(es: seq<Entry>, n: nat)
    requires 0 < n <= |es|
    ensures var bytes, size := Pack(es), |EncodeAll(es[..n])|;
      && size > 0 && HEADER_SIZE + size < |bytes|
      && |Cut(bytes, HEADER_SIZE, size)| == |bytes| - size
      && Cut(bytes, HEADER_SIZE, size)[4..6] == bytes[4..6]
      && Cut(bytes, HEADER_SIZE, size)[6..] == EncodeAll(es[n..]) + [END_BYTE]
  {
    hide Encode, Pack, EncodeAll;
    PackParts(es);
    EncodedLength(es[..n]);
    assert es[..n] + es[n..] == es;
    EncodeAllAppend(es[..n], es[n..]);
    var bytes, size := Pack(es), |EncodeAll(es[..n])|;
    assert bytes[6 + size..] == bytes[6..][size..];
    assert bytes[6..][size..] == EncodeAll(es[n..]) + [END_BYTE];
  }

  /** A buffer is the packed form of es when its three parts are. */
  lemma PackFromParts(bs: seq<byte>, es: seq<Entry>)
    requires |bs| > 6
    requires bs[..4] == LittleEndian(|bs|, 4)
    requires bs[4..6] == LittleEndian(|es|, 2)
    requires bs[6..] == EncodeAll(es) + [END_BYTE]
    ensures bs == Pack(es)
  {
    assert bs == bs[..4] + bs[4..6] + bs[6..];
  }

  lemma GapFilled(before: seq<byte>, frame: seq<byte>, pos: nat, after: seq<byte>)
    requires 6 <= pos <= |before| && |after| == |before| + |frame|
    requires forall k :: 0 <= k < pos ==> after[k] == before[k]
    requires after[pos..pos + |frame|] == frame
    requires forall k :: pos + |frame| <= k < |after| ==> after[k] == before[k - |frame|]
    ensures after[6..] == before[6..pos] + frame + before[pos..]
  {
    assert after[6..pos] == before[6..pos];
    assert after[pos + |frame|..] == before[pos..];
    assert after[6..] == after[6..pos] + after[pos..pos + |frame|] + after[pos + |frame|..];
  }

  lemma BodyAfterInsert(es: seq<Entry>, e: Entry, frame: seq<byte>, prepend: bool, left: seq<byte>, right: seq<byte>)
    requires frame == Encode(e) && left + right == EncodeAll(es) + [END_BYTE]
    requires if prepend then left == [] else |right| == 1
    ensures left + frame + right == EncodeAll(if prepend then [e] + es else es + [e]) + [END_BYTE]
  {
    hide Encode, EncodeAll;
    if prepend {
      EncodeAllCons(e, es);
      assert left + right == right;
    } else {
      EncodeAllSnoc(es, e);
      assert right[0] == (left + right)[|left|];
      assert left == (left + right)[..|left|] && EncodeAll(es) == (EncodeAll(es) + [END_BYTE])[..|left|];
    }
  }

  /** Counting up in a 16-bit word truncates like the true count. */
  lemma CountTruncates(count: nat)
    ensures LittleEndian(FromLittleEndian(LittleEndian(count, 2)) + 1, 2) == LittleEndian(count + 1, 2)
  {
    WordSizes();
    WordRoundTrip(count, 2);
    TruncationPeriodic(count % TWO_16 + 1, count / TWO_16, 2);
  }

  /** Truncation to k bytes ignores multiples of 256^k. */
  lemma {:induction false} TruncationPeriodic(n: nat, q: nat, k: nat)
    ensures n + q * Pow256(k) >= 0
    ensures LittleEndian(n + q * Pow256(k), k) == LittleEndian(n, k)
  {
    if k > 0 {
      var p := Pow256(k - 1);
      var m := n + q * Pow256(k);
      assert q * Pow256(k) == 256 * (q * p);
      assert m == 256 * (q * p) + n;
      assert m % 256 == n % 256 && m / 256 == n / 256 + q * p;
      TruncationPeriodic(n / 256, q, k - 1);
    }
  }
}
