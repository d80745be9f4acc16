// Frames back to back: what one pass makes of such a stream, whole or cut off anywhere.
module RespFrames {
  import opened Bytes
  import opened RespFormat
  import opened RespRoundTrip
  import opened RespStream

  /** Values whose frames fit a Go slice. */
  predicate Writable(vs: seq<Value>) {
    forall i :: 0 <= i < |vs| ==> Sized(vs[i]) && |Frame(vs[i])| < TWO_63
  }

  /** How many of the frames the first n bytes hold in full. */
  function Complete(vs: seq<Value>, n: nat): (m: nat)
    requires Writable(vs)
    ensures m <= |vs|
  {
    if vs == [] || |Frame(vs[0])| > n then 0 else 1 + Complete(vs[1..], n - |Frame(vs[0])|)
  }

  /** It is the greatest number of frames that take no more than n bytes. */
  lemma {:induction false} CompleteExact(vs: seq<Value>, n: nat)
    requires Writable(vs)
    ensures var m := Complete(vs, n);
      && |EncodeSeq(vs[..m])| <= n
      && (m < |vs| ==> |EncodeSeq(vs[..m + 1])| > n)
  {
    if vs != [] {
      hide Frame;
      FirstFrame(vs, 1);
      if |Frame(vs[0])| <= n {
        var m := Complete(vs[1..], n - |Frame(vs[0])|);
        CompleteExact(vs[1..], n - |Frame(vs[0])|);
        FirstFrame(vs, m + 1);
        if m + 1 < |vs| { FirstFrame(vs, m + 2); }
      } else {
        assert EncodeSeq(vs[..0]) == [];
        assert EncodeSeq(vs[1..][..0]) == [];
      }
    }
  }

  lemma FirstFrame(vs: seq<Value>, m: nat)
    requires Writable(vs) && 1 <= m <= |vs|
    ensures vs[1..][..m - 1] == vs[..m][1..]
    ensures EncodeSeq(vs[..m]) == Frame(vs[0]) + EncodeSeq(vs[1..][..m - 1])
    ensures ReturnedSeq(vs[..m]) == [Returned(vs[0])] + ReturnedSeq(vs[1..][..m - 1])
  {
    hide Frame;
    assert vs[..m][1..] == vs[1..][..m - 1];
    assert vs[..m][0] == vs[0];
  }

  /** Of a stream of frames cut off after any number of bytes, a pass reads exactly the frames that are
      complete, and leaves the rest without an error. */
  lemma {:induction false} CutReads(vs: seq<Value>, n: nat)
    requires Writable(vs) && n <= |EncodeSeq(vs)|
    ensures var m := Complete(vs, n);
      ParseAll(EncodeSeq(vs)[..n]) == Batch(ReturnedSeq(vs[..m]), |EncodeSeq(vs[..m])|, Clean)
    decreases |vs|
  {
    hide Parse, ParseAll, Frame, Returned, EncodeSeq, ReturnedSeq, Complete, Sized;
    if vs == [] {
      NoFrames(n);
    } else {
      var frame, data := Frame(vs[0]), EncodeSeq(vs)[..n];
      FirstFrame(vs, |vs|);
      FirstComplete(vs, n);
      assert vs[..|vs|] == vs && vs[1..][..|vs| - 1] == vs[1..];
      if |frame| > n {
        assert data == frame[..n];
        PrefixIncomplete(vs[0], n);
        StopsAt(data, vs);
      } else {
        var m, rest := Complete(vs[1..], n - |frame|), EncodeSeq(vs[1..])[..n - |frame|];
        assert data == frame + rest;
        FrameReads(vs[0], rest);
        assert data[|frame|..] == rest;
        CutReads(vs[1..], n - |frame|);
        FirstFrame(vs, m + 1);
        GoesOn(data);
      }
    }
  }

  lemma NoFrames(n: nat)
    requires n <= |EncodeSeq([])|
    ensures Complete([], n) == 0
    ensures ParseAll(EncodeSeq([])[..n]) == Batch(ReturnedSeq([]), |EncodeSeq([])|, Clean)
  {
    assert Parse([]) == Incomplete;
  }

  lemma FirstComplete(vs: seq<Value>, n: nat)
    requires Writable(vs) && vs != []
    ensures Writable(vs[1..]) && Sized(vs[0]) && |Frame(vs[0])| < TWO_63
    ensures Complete(vs, n) ==
      if |Frame(vs[0])| > n then 0 else 1 + Complete(vs[1..], n - |Frame(vs[0])|)
  {
    hide Frame;
  }

  lemma StopsAt(data: Text, vs: seq<Value>)
    requires Parse(data) == Incomplete && Writable(vs)
    ensures ParseAll(data) == Batch(ReturnedSeq(vs[..0]), |EncodeSeq(vs[..0])|, Clean)
  {
    hide Parse;
  }

  lemma GoesOn(data: Text)
    requires Parse(data).Ok?
    ensures var rest := ParseAll(data[Parse(data).n..]);
      ParseAll(data) == Batch([Parse(data).value] + rest.values, Parse(data).n + rest.n, rest.end)
  {
    hide Parse;
  }

  /** Uncut, it reads them all. */
  lemma FramesRead(vs: seq<Value>)
    requires Writable(vs)
    ensures ParseAll(EncodeSeq(vs)) == Batch(ReturnedSeq(vs), |EncodeSeq(vs)|, Clean)
  {
    hide Parse, Frame, ParseAll;
    var n := |EncodeSeq(vs)|;
    assert EncodeSeq(vs)[..n] == EncodeSeq(vs);
    CutReads(vs, n);
    CompleteExact(vs, n);
    AllComplete(vs);
    assert vs[..|vs|] == vs;
  }

  lemma {:induction false} AllComplete(vs: seq<Value>)
    requires Writable(vs)
    ensures Complete(vs, |EncodeSeq(vs)|) == |vs|
  {
    if vs != [] {
      hide Frame;
      AllComplete(vs[1..]);
    }
  }
}
