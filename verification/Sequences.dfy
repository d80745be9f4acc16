// Flattening of sequences of sequences: nodes of a chain, entries of a buffer, frames of a stream.
module Sequences {

  function Concat<T>(parts: seq<seq<T>>): seq<T> {
    if parts == [] then [] else parts[0] + Concat(parts[1..])
  }

  lemma {:induction false} ConcatAppend<T>(a: seq<seq<T>>, b: seq<seq<T>>)
    ensures Concat(a + b) == Concat(a) + Concat(b)
  {
    if a == [] {
      assert a + b == b;
    } else {
      ConcatAppend(a[1..], b);
      assert (a + b)[1..] == a[1..] + b;
      assert a[0] + (Concat(a[1..]) + Concat(b)) == (a[0] + Concat(a[1..])) + Concat(b);
    }
  }

  lemma ConcatSingle<T>(p: seq<T>)
    ensures Concat([p]) == p
  {
    assert [p][1..] == [];
    assert p + [] == p;
  }

  lemma ConcatCons<T>(p: seq<T>, a: seq<seq<T>>)
    ensures Concat([p] + a) == p + Concat(a)
  {
    assert ([p] + a)[1..] == a;
  }

  lemma ConcatSnoc<T>(a: seq<seq<T>>, p: seq<T>)
    ensures Concat(a + [p]) == Concat(a) + p
  {
    ConcatAppend(a, [p]);
    ConcatSingle(p);
  }

  lemma PrefixConcat<T>(ps: seq<seq<T>>, i: nat)
    requires i < |ps|
    ensures Concat(ps[..i + 1]) == Concat(ps[..i]) + ps[i]
  {
    hide Concat;
    assert ps[..i + 1] == ps[..i] + [ps[i]];
    ConcatSnoc(ps[..i], ps[i]);
  }

  lemma SplitConcat<T>(ps: seq<seq<T>>, i: nat)
    requires i <= |ps|
    ensures Concat(ps) == Concat(ps[..i]) + Concat(ps[i..])
  {
    hide Concat;
    assert ps == ps[..i] + ps[i..];
    ConcatAppend(ps[..i], ps[i..]);
  }

  /** The values at positions start..stop that exist; positions outside the list are ignored. */
  function Window<T>(es: seq<T>, start: int, stop: int): seq<T> {
    var lo := if start < 0 then 0 else if start > |es| then |es| else start;
    var hi := if stop + 1 < lo then lo else if stop + 1 > |es| then |es| else stop + 1;
    es[lo..hi]
  }

  lemma WindowAt<T>(es: seq<T>, start: int, stop: int)
    ensures var lo, r := if start < 0 then 0 else start, Window(es, start, stop);
      && |r| == (if stop < lo || lo >= |es| then 0 else (if stop < |es| then stop + 1 else |es|) - lo)
      && forall j {:trigger r[j]} :: 0 <= j < |r| ==> r[j] == es[lo + j]
  {
  }

  lemma WindowAppend<T>(a: seq<T>, b: seq<T>, start: int, stop: int)
    ensures Window(a + b, start, stop) == Window(a, start, stop) + Window(b, start - |a|, stop - |a|)
  {
  }

  lemma WindowStep<T>(es: seq<T>, i: nat, start: int, stop: int)
    requires i < |es|
    ensures Window(es[..i + 1], start, stop)
      == Window(es[..i], start, stop) + (if start <= i <= stop then [es[i]] else [])
  {
    assert es[..i + 1] == es[..i] + [es[i]];
    WindowAppend(es[..i], [es[i]], start, stop);
  }

  lemma WindowDone<T>(es: seq<T>, i: nat, start: int, stop: int)
    requires i <= |es| && i > stop
    ensures Window(es[..i], start, stop) == Window(es, start, stop)
  {
  }

  lemma EmptyWindow<T>(es: seq<T>, start: int, stop: int)
    requires es == [] || stop < 0
    ensures Window(es, start, stop) == []
  {
  }

  lemma Consecutive<T>(s: seq<T>, a: nat, b: nat)
    requires a + b <= |s|
    ensures s[..a + b] == s[..a] + s[a..][..b]
    ensures s[a + b..] == s[a..][b..]
  {
  }

  // ----- one element more, one element less -----

  function Inserted<T>(s: seq<T>, t: nat, x: T): (r: seq<T>)
    requires t <= |s|
    ensures |r| == |s| + 1
  {
    s[..t] + [x] + s[t..]
  }

  function Removed<T>(s: seq<T>, t: nat): (r: seq<T>)
    requires t < |s|
    ensures |r| == |s| - 1
  {
    s[..t] + s[t + 1..]
  }

  function Reversed<T>(s: seq<T>): (r: seq<T>)
    ensures |r| == |s|
    ensures forall i :: 0 <= i < |s| ==> r[i] == s[|s| - 1 - i]
  {
    seq(|s|, i requires 0 <= i < |s| => s[|s| - 1 - i])
  }
}
