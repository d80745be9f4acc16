// Which changes of the store its watchers hear of.
module SessionSignals {
  import opened Bytes
  import opened Options
  import opened Sessions

  /** What w' adds to the history of w. */
  function Since<C>(w: World<C>, w': World<C>): seq<Event<C>> {
    if |w.log| <= |w'.log| then w'.log[|w.log|..] else []
  }

  /** From w to w' the history gains nothing but modifications. */
  ghost predicate OnlySignals<C>(w: World<C>, w': World<C>) {
    w.log <= w'.log && forall n :: 0 <= n < |Since(w, w')| ==> Since(w, w')[n].Modified?
  }

  predicate Signalled<C(==)>(w: World<C>, w': World<C>, k: Key) {
    Modified(k) in Since(w, w')
  }

  lemma SignalsJoin<C>(a: World<C>, b: World<C>, c: World<C>)
    requires OnlySignals(a, b) && OnlySignals(b, c)
    ensures OnlySignals(a, c) && Since(a, c) == Since(a, b) + Since(b, c)
    ensures forall k: Key :: Signalled(a, c, k) <==> Signalled(a, b, k) || Signalled(b, c, k)
  {
    assert Since(a, c) == Since(a, b) + Since(b, c);
  }

  /** Effects on the store only add modifications to the history, and every key that comes or goes is
      among them. */
  lemma {:induction false} StoreSignals<C>(w: World<C>, ops: seq<StoreOp>)
    ensures var w' := DoAll(w, ops);
      && OnlySignals(w, w')
      && (forall k: Key :: (k in w.store) != (k in w'.store) ==> Signalled(w, w', k))
    decreases |ops|
  {
    if ops != [] {
      var v, w' := Do(w, ops[0]), DoAll(w, ops);
      OneSignals(w, ops[0]);
      hide Do, OnlySignals, Since, Signalled;
      StoreSignals(v, ops[1..]);
      SignalsJoin(w, v, w');
    }
  }

  /** So is every key put. */
  lemma {:induction false} PutSignals<C>(w: World<C>, ops: seq<StoreOp>, i: nat)
    requires i < |ops| && ops[i].Put?
    ensures Signalled(w, DoAll(w, ops), ops[i].key)
    decreases |ops|
  {
    var v, w' := Do(w, ops[0]), DoAll(w, ops);
    OneSignals(w, ops[0]);
    StoreSignals(v, ops[1..]);
    hide Do, OnlySignals, Since, Signalled;
    if i > 0 { PutSignals(v, ops[1..], i - 1); }
    SignalsJoin(w, v, w');
  }

  lemma OneSignals<C>(w: World<C>, op: StoreOp)
    ensures var w' := Do(w, op);
      && OnlySignals(w, w')
      && (forall k: Key :: (k in w.store) != (k in w'.store) ==> Signalled(w, w', k))
      && (op.Put? ==> Signalled(w, w', op.key))
  {
    match op
    case Put(k, obj, expiry, victims) =>
      DeletionsSignal(w, victims);
      var v, w' := DeleteAll(w, victims), Do(w, op);
      assert Since(v, w') == [Modified(k)];
      hide DeleteAll, Touch, Since, Signalled, OnlySignals;
      SignalsJoin(w, v, w');
    case _ =>
  }

  lemma {:induction false} DeletionsSignal<C>(w: World<C>, ks: seq<Key>)
    ensures var w' := DeleteAll(w, ks);
      && OnlySignals(w, w')
      && (forall k: Key :: (k in w.store) != (k in w'.store) ==> Signalled(w, w', k))
    decreases |ks|
  {
    if ks != [] {
      var v, w' := Delete(w, ks[0]), DeleteAll(w, ks);
      DeletionSignals(w, ks[0]);
      hide Delete, Since, Signalled, OnlySignals;
      DeletionsSignal(v, ks[1..]);
      SignalsJoin(w, v, w');
    }
  }

  lemma DeletionSignals<C>(w: World<C>, k: Key)
    ensures var w' := Delete(w, k);
      && OnlySignals(w, w')
      && (forall j: Key :: (j in w.store) != (j in w'.store) ==> Signalled(w, w', j))
  {
  }

  /** A value that stays under its key changes without a signal exactly when another one is written over
      it in place. */
  lemma SilentExact<C>(w: World<C>, op: StoreOp, k: Key)
    requires k in w.store && k in Do(w, op).store
    ensures var w' := Do(w, op);
      w'.store[k] != w.store[k] && !Signalled(w, w', k)
      <==> op.Rewrite? && op.key == k && w.store[k] != op.obj
  {
    OneSignals(w, op);
    match op
    case Put(j, obj, expiry, victims) =>
      if k != j { PutKeepsOthers(w, j, obj, expiry, victims, k); }
    case _ =>
  }

  lemma PutKeepsOthers<C>(w: World<C>, j: Key, obj: Obj, expiry: Option<nat>, victims: seq<Key>, k: Key)
    requires var w' := Do(w, Put(j, obj, expiry, victims)); k in w.store && k in w'.store && k != j
    ensures Do(w, Put(j, obj, expiry, victims)).store[k] == w.store[k]
  {
    assert k in DeleteAll(w, victims).store;
    DeletionsKeep(w, victims, k);
    hide DeleteAll;
  }

  lemma {:induction false} DeletionsKeep<C>(w: World<C>, ks: seq<Key>, k: Key)
    requires k in w.store && k in DeleteAll(w, ks).store
    ensures DeleteAll(w, ks).store[k] == w.store[k]
    decreases |ks|
  {
    if ks != [] {
      var v := Delete(w, ks[0]);
      if k in v.store {
        DeletionsKeep(v, ks[1..], k);
      } else {
        StaysDeleted(v, ks[1..], k);
      }
    }
  }

  lemma {:induction false} StaysDeleted<C>(w: World<C>, ks: seq<Key>, k: Key)
    requires k !in w.store
    ensures k !in DeleteAll(w, ks).store
    decreases |ks|
  {
    if ks != [] { StaysDeleted(Delete(w, ks[0]), ks[1..], k); }
  }

  /** The last value written over k in place. */
  function LastGiven(ops: seq<StoreOp>, k: Key): Option<Obj>
    decreases |ops|
  {
    if ops == [] then None
    else
      var op := ops[|ops| - 1];
      if op.Rewrite? && op.key == k then Some(op.obj) else LastGiven(ops[..|ops| - 1], k)
  }

  lemma {:induction false} DoAllSnoc<C>(w: World<C>, ops: seq<StoreOp>, op: StoreOp)
    ensures DoAll(w, ops + [op]) == Do(DoAll(w, ops), op)
    decreases |ops|
  {
    if ops == [] {
      assert ([] + [op])[1..] == [];
    } else {
      assert (ops + [op])[1..] == ops[1..] + [op];
      DoAllSnoc(Do(w, ops[0]), ops[1..], op);
    }
  }

  /** Over any effects, an unsignalled key keeps its value up to its last change in place; so it changes
      unnoticed exactly when that change gave it another value. */
  lemma {:induction false} SilentRunExact<C>(w: World<C>, ops: seq<StoreOp>, k: Key)
    requires k in w.store && !Signalled(w, DoAll(w, ops), k)
    ensures var w' := DoAll(w, ops);
      && k in w'.store
      && w'.store[k] == (if LastGiven(ops, k).Some? then LastGiven(ops, k).value else w.store[k])
      && (w'.store[k] != w.store[k] <==> LastGiven(ops, k).Some? && LastGiven(ops, k).value != w.store[k])
    decreases |ops|
  {
    if ops != [] {
      var before, op := ops[..|ops| - 1], ops[|ops| - 1];
      assert ops == before + [op];
      DoAllSnoc(w, before, op);
      StoreSignals(w, before);
      var v := DoAll(w, before);
      OneSignals(v, op);
      hide DoAll, Do, Signalled, OnlySignals, Since;
      SignalsJoin(w, v, Do(v, op));
      SilentRunExact(w, before, k);
      SilentExact(v, op, k);
      if op.Rewrite? && op.key == k { GivenLast(v, op, k); }
    }
  }

  lemma GivenLast<C>(w: World<C>, op: StoreOp, k: Key)
    requires k in w.store && op.Rewrite? && op.key == k
    ensures Do(w, op).store[k] == op.obj
  {
  }

  // ----- single commands -----

  /** RPUSH and LPUSH signal their key exactly when they have to create the list, because it is missing or
      expired. Otherwise a list grows unnoticed, and any other value stays. */
  lemma PushSignalsExact<C>(w: World<C>, k: Key, args: seq<Text>, front: bool, now: nat, victims: seq<Key>)
    ensures var w', found := DoAll(w, PushOps(w, k, args, front, now, victims)), Found(w, k, now);
      && (Signalled(w, w', k) <==> found.None?)
      && (found.Some? ==> w'.log == w.log && w'.clients == w.clients && w'.store == w.store[k :=
           if found.value.ListObj? then ListObj(Pushed(found.value.items, args, front)) else found.value])
  {
    var ops, found := PushOps(w, k, args, front, now, victims), Found(w, k, now);
    if found.None? {
      PutSignals(w, ops, 1);
      hide DoAll;
    } else if found.value.ListObj? {
      InPlace(w, k, now, ListObj(Pushed(found.value.items, args, front)),
              if found.value.items == [] then [MarkReady(k)] else []);
      hide *;
    } else {
      JustFound(w, k, now);
    }
  }

  /** INCR signals its key exactly when it has to create the counter; otherwise a counter changes
      unnoticed, and any other value stays. */
  lemma IncrSignalsExact<C>(w: World<C>, k: Key, now: nat, victims: seq<Key>)
    ensures var w', found := DoAll(w, IncrOps(w, k, now, victims)), Found(w, k, now);
      && (Signalled(w, w', k) <==> found.None?)
      && (found.Some? ==> w'.log == w.log && w'.clients == w.clients && w'.store == w.store[k :=
           if found.value.IntObj? then IntObj(Wrap64(found.value.v + 1)) else found.value])
  {
    var ops, found := IncrOps(w, k, now, victims), Found(w, k, now);
    if found.None? {
      PutSignals(w, ops, 1);
      hide DoAll;
    } else if found.value.IntObj? {
      var obj := IntObj(Wrap64(found.value.v + 1));
      InPlace(w, k, now, obj, []);
      assert ops == [Get(k, now)] + ([Rewrite(k, obj)] + []);
      hide *;
    } else {
      JustFound(w, k, now);
    }
  }

  /** A lookup that succeeds, then a change in place, then perhaps a ready mark. */
  lemma InPlace<C>(w: World<C>, k: Key, now: nat, obj: Obj, tail: seq<StoreOp>)
    requires Found(w, k, now).Some? && (tail == [MarkReady(k)] || tail == [])
    ensures var w' := DoAll(w, [Get(k, now)] + ([Rewrite(k, obj)] + tail));
      w' == w.(store := w.store[k := obj], ready := w'.ready)
  {
    var v := w.(store := w.store[k := obj]);
    assert Do(w, Get(k, now)) == w && Do(w, Rewrite(k, obj)) == v;
    hide *;
    DoTwo(w, Get(k, now), Rewrite(k, obj), tail);
    Marked(v, k, tail);
  }

  lemma JustFound<C>(w: World<C>, k: Key, now: nat)
    requires Found(w, k, now).Some?
    ensures DoAll(w, [Get(k, now)] + []) == w && w.store[k := Found(w, k, now).value] == w.store
  {
    DoCons(w, Get(k, now), []);
  }

  lemma DoTwo<C>(w: World<C>, a: StoreOp, b: StoreOp, rest: seq<StoreOp>)
    ensures DoAll(w, [a] + ([b] + rest)) == DoAll(Do(Do(w, a), b), rest)
  {
    hide Do;
    DoCons(w, a, [b] + rest);
    DoCons(Do(w, a), b, rest);
  }

  lemma Marked<C>(w: World<C>, k: Key, tail: seq<StoreOp>)
    requires tail == [MarkReady(k)] || tail == []
    ensures DoAll(w, tail) == w.(ready := DoAll(w, tail).ready)
  {
    if tail != [] {
      assert tail == [MarkReady(k)] + [];
      DoCons(w, MarkReady(k), []);
    }
  }
}
