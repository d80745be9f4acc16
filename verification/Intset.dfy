// A set of 16-bit integers kept sorted in a packed little-endian byte array.
module Intsets {
  import opened Bytes
  import opened Sequences
  import Memory

  function At(bs: seq<byte>, i: nat): int16
    requires 2 * i + 1 < |bs|
  {
    Signed(bs[2 * i] as int + 256 * (bs[2 * i + 1] as int), TWO_15)
  }

  /** Two bytes, the low one first, read as a signed number. */
  lemma PairValue(bs: seq<byte>, i: nat)
    requires 2 * i + 1 < |bs|
    ensures var u: int := bs[2 * i] as int + 256 * (bs[2 * i + 1] as int);
      At(bs, i) as int == if u < 0x8000 then u else u - 0x1_0000
  {
  }

  /** The integers packed in a byte string. */
  function Unpack(bs: seq<byte>): (vs: seq<int16>)
    ensures |vs| == |bs| / 2
  {
    seq(|bs| / 2, i requires 0 <= i < |bs| / 2 => At(bs, i))
  }

  predicate Strict(vs: seq<int16>) {
    forall i, j :: 0 <= i < j < |vs| ==> vs[i] < vs[j]
  }

  /** The number of values not above val. */
  ghost predicate Rank(vs: seq<int16>, val: int16, k: int) {
    && 0 <= k <= |vs|
    && (forall i :: 0 <= i < k ==> vs[i] <= val)
    && (forall i :: k <= i < |vs| ==> vs[i] > val)
  }

  class Intset {
    var length: int
    var data: array<byte>
    var len: nat

    ghost predicate Valid()
      reads this, data
    {
      && len <= data.Length && len == 2 * length
      && Strict(Values())
    }

    ghost function Values(): seq<int16>
      reads this, data
      requires len <= data.Length
    {
      Unpack(data[..len])
    }

    /** The set the bytes stand for. */
    ghost function Members(): set<int>
      reads this, data
      requires len <= data.Length
    {
      set v | v in Values()
    }

    constructor ()
      ensures Valid() && Members() == {} && fresh(data)
    {
      length := 0;
      data := new byte[64](i => 0);
      len := 0;
    }

    function Size(): int
      reads this
    {
      length
    }

    method Get(idx: nat) returns (v: int16)
      requires Valid() && idx < length
      ensures v == Values()[idx]
    {
      var offset := idx * 2;
      v := Signed(data[offset] as int + 256 * (data[offset + 1] as int), TWO_15);
    }

    /** The greatest index whose value is at most val, or -1. */
    method Search(val: int16) returns (idx: int)
      requires Valid()
      ensures -1 <= idx < length && Rank(Values(), val, idx + 1)
    {
      ghost var vs := Values();
      var l, r := 0, length - 1;
      idx := -1;
      while r >= l
        invariant 0 <= l <= r + 1 <= length && idx == l - 1
        invariant forall i :: 0 <= i < l ==> vs[i] <= val
        invariant forall i :: r < i < length ==> vs[i] > val
        decreases r - l
      {
        var mid := (l + r) / 2;
        var v := Get(mid);
        if v <= val {
          idx := mid;
          l := mid + 1;
        } else {
          r := mid - 1;
        }
      }
    }

    /** Adds val and reports whether it was new. */
    method Set(val: int16) returns (added: bool)
      requires Valid()
      modifies this, data
      ensures Valid() && (data == old(data) || fresh(data))
      ensures added <==> val !in old(Members())
      ensures Members() == old(Members()) + {val}
      ensures length == old(length) + (if added then 1 else 0)
    {
      hide Strict, Rank, Unpack, LittleEndian, Inserted;
      ghost var vs, bytes := Values(), data[..len];
      var idx := Search(val);
      RankDecides(vs, val, idx + 1);
      if idx != -1 {
        var v := Get(idx);
        if v == val {
          return false;
        }
      }
      var insertAt := (idx + 1) * 2;
      var w := LittleEndian(val % TWO_16, 2);
      InsertWord(insertAt, w);
      length := length + 1;
      UnpackInserted(bytes, idx + 1, val, w);
      InsertedStrict(vs, val, idx + 1);
      InsertedMembers(vs, val, idx + 1);
      added := true;
    }

    /** Opens a gap of one word and fills it. */
    method InsertWord(insertAt: nat, w: seq<byte>)
      requires insertAt <= len <= data.Length && |w| == 2
      modifies this`data, this`len, data
      ensures len == old(len) + 2 <= data.Length && (data == old(data) || fresh(data))
      ensures data[..len] == old(data[..len][..insertAt]) + w + old(data[..len][insertAt..])
    {
      Append2();
      Memory.Move(data, insertAt + 2, data, insertAt, len - 2 - insertAt);
      Memory.Put(data, insertAt, w);
    }

    /** append(data, 0, 0): two more bytes, in place or in a larger array. */
    method Append2()
      requires len <= data.Length
      modifies this`data, this`len, data
      ensures len == old(len) + 2 <= data.Length && (data == old(data) || fresh(data))
      ensures forall k :: 0 <= k < old(len) ==> data[k] == old(data[k])
    {
      if data.Length < len + 2 {
        var bigger := new byte[2 * data.Length + 2](i => 0);
        Memory.Move(bigger, 0, data, 0, len);
        data := bigger;
      } else {
        data[len], data[len + 1] := 0, 0;
      }
      len := len + 2;
    }

    /** Removes val and reports whether it was there. */
    method Del(val: int16) returns (removed: int)
      requires Valid()
      modifies this, data
      ensures Valid() && data == old(data)
      ensures removed == if val in old(Members()) then 1 else 0
      ensures Members() == old(Members()) - {val}
      ensures length == old(length) - removed
    {
      hide Strict, Rank, Unpack, Removed;
      ghost var vs, bytes := Values(), data[..len];
      var idx := Search(val);
      RankDecides(vs, val, idx + 1);
      if idx == -1 {
        return 0;
      }
      var v := Get(idx);
      if v != val {
        return 0;
      }
      var pos := idx * 2;
      Memory.Move(data, pos, data, pos + 2, len - pos - 2);
      len := len - 2;
      length := length - 1;
      assert data[..len] == bytes[..pos] + bytes[pos + 2..];
      UnpackRemoved(bytes, idx);
      RemovedStrict(vs, idx);
      RemovedMembers(vs, idx);
      removed := 1;
    }
  }

  /** Membership shows at the last value not above val. */
  lemma RankDecides(vs: seq<int16>, val: int16, k: nat)
    requires Strict(vs) && Rank(vs, val, k)
    ensures val in vs <==> k > 0 && vs[k - 1] == val
  {
    assert forall i :: 0 <= i < k - 1 ==> vs[i] < vs[k - 1] <= val;
  }

  lemma UnpackInserted(bs: seq<byte>, k: nat, val: int16, w: seq<byte>)
    requires |bs| % 2 == 0 && 2 * k <= |bs|
    requires w == LittleEndian(val % TWO_16, 2)
    ensures Unpack(bs[..2 * k] + w + bs[2 * k..]) == Inserted(Unpack(bs), k, val)
  {
    hide LittleEndian, Signed;
    var bs' := bs[..2 * k] + w + bs[2 * k..];
    PairOf(val, w);
    assert bs'[2 * k] == w[0] && bs'[2 * k + 1] == w[1];
    assert forall i :: 0 <= i < k ==> At(bs', i) == At(bs, i);
    assert forall i :: k < i <= |bs| / 2 ==> At(bs', i) == At(bs, i - 1);
  }

  lemma PairOf(val: int16, w: seq<byte>)
    requires w == LittleEndian(val % TWO_16, 2)
    ensures |w| == 2 && Signed(w[0] as int + 256 * (w[1] as int), TWO_15) == val
  {
    var n := val % TWO_16;
    assert LittleEndian(n / 256, 1) == [(n / 256) % 256] + [];
    assert w[0] == n % 256 && w[1] == (n / 256) % 256;
    SignedRoundTrip(val, TWO_15);
  }

  lemma UnpackRemoved(bs: seq<byte>, k: nat)
    requires |bs| % 2 == 0 && 2 * k + 2 <= |bs|
    ensures Unpack(bs[..2 * k] + bs[2 * k + 2..]) == Removed(Unpack(bs), k)
  {
    var bs' := bs[..2 * k] + bs[2 * k + 2..];
    assert forall i :: 0 <= i < k ==> At(bs', i) == At(bs, i);
    assert forall i :: k <= i < |bs| / 2 - 1 ==> At(bs', i) == At(bs, i + 1);
  }

  lemma InsertedStrict(vs: seq<int16>, val: int16, k: nat)
    requires Strict(vs) && Rank(vs, val, k) && val !in vs
    ensures Strict(Inserted(vs, k, val))
  {
    var vs' := Inserted(vs, k, val);
    assert forall i :: 0 <= i < |vs| ==> vs[i] in vs && vs[i] != val;
    forall i, j | 0 <= i < j < |vs'| ensures vs'[i] < vs'[j] {
      assert vs'[i] == if i < k then vs[i] else if i == k then val else vs[i - 1];
      assert vs'[j] == if j < k then vs[j] else if j == k then val else vs[j - 1];
    }
  }

  lemma InsertedMembers(vs: seq<int16>, val: int16, k: nat)
    requires k <= |vs|
    ensures (set v | v in Inserted(vs, k, val)) == (set v | v in vs) + {val}
  {
    assert vs == vs[..k] + vs[k..];
  }

  lemma RemovedStrict(vs: seq<int16>, k: nat)
    requires Strict(vs) && k < |vs|
    ensures Strict(Removed(vs, k))
  {
    var vs' := Removed(vs, k);
    assert forall i :: 0 <= i < |vs'| ==> vs'[i] == vs[if i < k then i else i + 1];
  }

  lemma RemovedMembers(vs: seq<int16>, k: nat)
    requires Strict(vs) && k < |vs|
    ensures (set v | v in Removed(vs, k)) == (set v | v in vs) - {vs[k]}
  {
    assert vs == vs[..k] + [vs[k]] + vs[k + 1..];
    assert forall i :: 0 <= i < k ==> vs[..k][i] < vs[k];
    var tail := vs[k + 1..];
    assert forall i :: 0 <= i < |tail| ==> tail[i] > vs[k];
  }

  /** Strictly increasing 16-bit values: never more than 65536 of them, so the 32-bit length
      field cannot overflow. */
  lemma LengthBound(vs: seq<int16>)
    requires Strict(vs)
    ensures |vs| <= TWO_16
  {
    if vs != [] {
      Spread(vs, |vs| - 1);
    }
  }

  lemma {:induction false} Spread(vs: seq<int16>, k: nat)
    requires Strict(vs) && k < |vs|
    ensures vs[k] >= vs[0] + k
  {
    if k > 0 {
      Spread(vs, k - 1);
    }
  }
}
