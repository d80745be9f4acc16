// What the split rule of a quicklist guarantees about each of its listpacks.
module ListpackLimits {
  import opened Bytes
  import opened ListpackFormat

  const ESTIMATED := 16
  const SPLIT_AT := 8 * 1024
  const MAX_ENTRIES := 4085

  /** Entries whose node stays addressable by the 32-bit length word. */
  predicate Storable(e: Entry) {
    |Encode(e)| + SPLIT_AT - ESTIMATED < TWO_32
  }

  /** At most one entry of a node reaches past the split limit, and it is the first or the last. */
  predicate SplitBound(es: seq<Entry>) {
    || es == []
    || |Pack(es)| - |Encode(es[0])| <= SPLIT_AT - ESTIMATED
    || |Pack(es)| - |Encode(es[|es| - 1])| <= SPLIT_AT - ESTIMATED
  }

  /** What holds of the entries of every node in every reachable list. */
  predicate Healthy(es: seq<Entry>) {
    && |es| <= MAX_ENTRIES
    && |Pack(es)| < TWO_32
    && WellSized(es)
    && SplitBound(es)
  }

  lemma EmptyPack()
    ensures |Pack([])| == 7
  {
    assert Frames([]) == [];
  }

  lemma HealthyEmpty()
    ensures Healthy([])
  {
    assert Frames([]) == [];
  }

  /** A node with room takes one more entry at either end. */
  lemma HealthyAdd(es: seq<Entry>, e: Entry, prepend: bool)
    requires Healthy(es) && Storable(e) && |Pack(es)| + ESTIMATED <= SPLIT_AT
    ensures var es' := if prepend then [e] + es else es + [e];
      Healthy(es') && |es'| <= 4085 && |Pack(es')| < 0x1_0000_0000
  {
    var es' := if prepend then [e] + es else es + [e];
    EncodeAllCons(e, es);
    EncodeAllSnoc(es, e);
    EncodedLength(es);
    assert |Pack(es')| == |Pack(es)| + |Encode(e)|;
    assert 2 * |es| <= SPLIT_AT - ESTIMATED - 7;
    assert WellSized(es') by {
      hide Pack, EncodeAll;
      forall i | 0 <= i < |es'| && es'[i].StrEntry? ensures |es'[i].s| < TWO_32 {
        if es'[i] != e {
          assert es'[i] == es[if prepend then i - 1 else i];
        }
      }
    }
  }

  /** Removing entries from the front keeps a node healthy. */
  lemma HealthyDrop(es: seq<Entry>, n: nat)
    requires Healthy(es) && n <= |es|
    ensures Healthy(es[n..])
  {
    hide Encode;
    var rest := es[n..];
    EncodeAllAppend(es[..n], rest);
    assert es[..n] + rest == es;
    if n > 0 {
      EncodeAllCons(es[0], es[1..n]);
      assert es[..n] == [es[0]] + es[1..n];
    }
  }

  lemma OneMore(es: seq<Entry>, e: Entry, prepend: bool)
    ensures |Pack(if prepend then [e] + es else es + [e])| == |Pack(es)| + |Encode(e)|
  {
    hide Encode;
    if prepend { EncodeAllCons(e, es); } else { EncodeAllSnoc(es, e); }
  }

  /** Small entries never push a node past its initial capacity. */
  lemma SmallEntriesFit(es: seq<Entry>)
    requires Healthy(es)
    requires forall i :: 0 <= i < |es| ==> |Encode(es[i])| <= ESTIMATED
    ensures |Pack(es)| <= 8192
  {
    hide Encode;
    assert es == [] ==> EncodeAll(es) == [];
  }

  /** The byte position of entry i. */
  function Offset(es: seq<Entry>, i: nat): nat
    requires i <= |es|
  {
    HEADER_SIZE + |EncodeAll(es[..i])|
  }

  /** A reader standing at entry i sees that entry, or the end marker after the last one. */
  lemma StepAt(es: seq<Entry>, i: nat)
    requires WellSized(es) && i <= |es|
    ensures var data, pos := Pack(es), Offset(es, i);
      && pos < |data|
      && (data[pos] == END_BYTE <==> i == |es|)
      && (i < |es| ==>
          && DecodeEntry(data, pos) == (es[i], |Encode(es[i])|)
          && Offset(es, i + 1) == pos + |Encode(es[i])|)
  {
    hide Encode, LittleEndian, DecodeEntry;
    var header := LittleEndian(7 + |EncodeAll(es)|, 4) + LittleEndian(|es|, 2);
    var left, right := es[..i], es[i..];
    assert left + right == es;
    EncodeAllAppend(left, right);
    var pre := header + EncodeAll(left);
    assert Pack(es) == pre + EncodeAll(right) + [END_BYTE];
    if right != [] {
      var rest := right[1..];
      assert right == [es[i]] + rest;
      EncodeAllCons(es[i], rest);
      assert [es[i]][0] == es[i];
      EntryThenRest(pre, es[i], Encode(es[i]), EncodeAll(rest), Pack(es));
      assert es[..i + 1] == left + [es[i]];
      EncodeAllSnoc(left, es[i]);
    } else {
      assert EncodeAll(right) == [];
    }
  }
}
