// What the commands on the store do and answer, in numbers and positions.
module SessionStore {
  import opened Bytes
  import opened Options
  import opened Sessions
  import opened SessionSignals
  import opened SessionWaiting

  // ----- deadlines -----

  /** A key with a deadline is found strictly before it; the first lookup from then on deletes it and signals
      its watchers. */
  lemma ExpiryExact<C>(w: World<C>, k: Key, at: nat, now: nat)
    requires k in w.store
    ensures var v := Do(w, Expire(k, at));
      var u := Do(v, Get(k, now));
      && (Found(v, k, now).Some? <==> now < at)
      && (now < at ==> u == v)
      && (now >= at ==> k !in u.store && k !in u.expires && Signalled(v, u, k))
  {
    var v := Do(w, Expire(k, at));
    if now >= at { assert Since(v, Do(v, Get(k, now))) == [Modified(k)]; }
  }

  /** EXPIRE at time o.now with so many seconds: the key is gone from exactly that moment on. */
  lemma ExpireAnswers<C>(w: World<C>, cmd: Command, o: Oracle, now: nat)
    requires cmd.verb == ExpireIn && |cmd.args| >= 2 && o.timeout.Some?
    requires 0 <= o.now + 1000 * o.timeout.value < 0x1_0000_0000_0000_0000
    ensures var k, w' := cmd.args[0], DoAll(w, OpsOf(w, cmd, o));
      && (Found(w, k, o.now).Some? ==>
            && ReplyOf(w, cmd, o) == Count(1) && w'.store == w.store && w'.log == w.log
            && (Found(w', k, now).Some? <==> now < o.now + 1000 * o.timeout.value))
      && (Found(w, k, o.now).None? ==>
            && ReplyOf(w, cmd, o) == Count(0) && k !in w'.store
            && (k in w.store ==> Signalled(w, w', k)))
  {
    var k, at := cmd.args[0], o.now + 1000 * o.timeout.value;
    assert at % TWO_64 == at;
    if Found(w, k, o.now).Some? {
      assert OpsOf(w, cmd, o) == [Get(k, o.now)] + ([Expire(k, at)] + []);
      assert Do(w, Get(k, o.now)) == w;
      hide OpsOf;
      DoTwo(w, Get(k, o.now), Expire(k, at), []);
      assert DoAll(Do(w, Expire(k, at)), []) == Do(w, Expire(k, at));
    } else {
      assert OpsOf(w, cmd, o) == [Get(k, o.now)] + [];
      DoCons(w, Get(k, o.now), []);
      if k in w.store { assert Since(w, Do(w, Get(k, o.now))) == [Modified(k)]; }
    }
  }

  /** A new value keeps the deadline of the old one unless it brings its own; a deletion forgets it. */
  lemma PutDeadline<C>(w: World<C>, k: Key, obj: Obj, expiry: Option<nat>, victims: seq<Key>)
    ensures var w' := Do(w, Put(k, obj, expiry, victims));
      && k in w'.store && w'.store[k] == obj
      && (expiry.Some? ==> k in w'.expires && w'.expires[k] == expiry.value)
      && (expiry.None? && victims == [] ==> w'.expires == w.expires)
    ensures k in w.store ==> k !in Do(w, Del(k)).store && k !in Do(w, Del(k)).expires
  {
    hide DeleteAll;
    if victims == [] { NoVictims(w); }
  }

  lemma NoVictims<C>(w: World<C>)
    ensures DeleteAll(w, []) == w
  {
  }

  // ----- RPUSH and LPUSH -----

  /** The items of the list before: none if it is missing or expired. */
  function ItemsOf<C>(w: World<C>, k: Key, now: nat): seq<Item> {
    var found := Found(w, k, now);
    if found.Some? && found.value.ListObj? then found.value.items else []
  }

  /** The list after: RPUSH leaves the old items in front and the arguments behind them in order; LPUSH puts
      the arguments in front, the last one first. The answer is the new length. A list that was empty becomes
      ready if somebody waits for it. A value of another type is an error and stays. */
  lemma PushAnswers<C>(w: World<C>, cmd: Command, o: Oracle)
    requires cmd.verb.Push? && |cmd.args| >= 2
    ensures var k, args, front, was := cmd.args[0], cmd.args[1..], cmd.verb.front, ItemsOf(w, cmd.args[0], o.now);
      var w', found := DoAll(w, OpsOf(w, cmd, o)), Found(w, k, o.now);
      if found.Some? && !found.value.ListObj? then
        ReplyOf(w, cmd, o) == Error && w' == w
      else
        && k in w'.store && w'.store[k].ListObj?
        && (var items := w'.store[k].items;
            && |items| == |was| + |args| && ReplyOf(w, cmd, o) == Count(|items|)
            && (!front ==>
                  && (forall i :: 0 <= i < |was| ==> items[i] == was[i])
                  && (forall i :: 0 <= i < |args| ==> items[|was| + i] == ListValues.ToEntry(args[i])))
            && (front ==>
                  && (forall i :: 0 <= i < |was| ==> items[|args| + i] == was[i])
                  && (forall i :: 0 <= i < |args| ==> items[|args| - 1 - i] == ListValues.ToEntry(args[i]))))
        && (was == [] && At(w.waiting, k) != [] ==> k in w'.ready)
  {
    hide *;
    var k, args, front := cmd.args[0], cmd.args[1..], cmd.verb.front;
    PushIs(w, cmd, o);
    PushEffect(w, k, args, front, o.now, o.keys);
    PushedAt(ItemsOf(w, k, o.now), args, front);
  }

  lemma PushIs<C>(w: World<C>, cmd: Command, o: Oracle)
    requires cmd.verb.Push? && |cmd.args| >= 2
    ensures var k, args, found := cmd.args[0], cmd.args[1..], Found(w, cmd.args[0], o.now);
      && OpsOf(w, cmd, o) == PushOps(w, k, args, cmd.verb.front, o.now, o.keys)
      && ReplyOf(w, cmd, o) ==
           if found.Some? && !found.value.ListObj? then Error else Count(|ItemsOf(w, k, o.now)| + |args|)
  {
  }

  lemma PushEffect<C>(w: World<C>, k: Key, args: seq<Text>, front: bool, now: nat, victims: seq<Key>)
    ensures var w', found := DoAll(w, PushOps(w, k, args, front, now, victims)), Found(w, k, now);
      var was := ItemsOf(w, k, now);
      if found.Some? && !found.value.ListObj? then w' == w
      else
        && k in w'.store && w'.store[k] == ListObj(Pushed(was, args, front))
        && (was == [] && At(w.waiting, k) != [] ==> k in w'.ready)
  {
    var found, was := Found(w, k, now), ItemsOf(w, k, now);
    var obj := ListObj(Pushed(was, args, front));
    var ops := PushOps(w, k, args, front, now, victims);
    hide DoAll, Pushed;
    if found.None? {
      assert ops == [Get(k, now)] + ([Put(k, ListObj([]), None, victims)] + ([Rewrite(k, obj)] + [MarkReady(k)]));
      CreatedList(w, k, now, victims, obj);
    } else if found.value.ListObj? {
      var tail := if was == [] then [MarkReady(k)] else [];
      assert ops == [Get(k, now)] + ([Rewrite(k, obj)] + tail);
      InPlace(w, k, now, obj, tail);
      GrownList(w, k, now, obj, tail);
    } else {
      assert ops == [Get(k, now)] + [];
      JustFound(w, k, now);
    }
  }

  lemma PushedAt(was: seq<Item>, args: seq<Text>, front: bool)
    ensures var items := Pushed(was, args, front);
      && |items| == |was| + |args|
      && (!front ==>
            && (forall i :: 0 <= i < |was| ==> items[i] == was[i])
            && (forall i :: 0 <= i < |args| ==> items[|was| + i] == ListValues.ToEntry(args[i])))
      && (front ==>
            && (forall i :: 0 <= i < |was| ==> items[|args| + i] == was[i])
            && (forall i :: 0 <= i < |args| ==> items[|args| - 1 - i] == ListValues.ToEntry(args[i])))
  {
    hide ListValues.ToEntry;
  }

  lemma CreatedList<C>(w: World<C>, k: Key, now: nat, victims: seq<Key>, obj: Obj)
    ensures var put := Put(k, ListObj([]), None, victims);
      var w' := DoAll(w, [Get(k, now)] + ([put] + ([Rewrite(k, obj)] + [MarkReady(k)])));
      && k in w'.store && w'.store[k] == obj
      && (At(w.waiting, k) != [] ==> k in w'.ready)
  {
    var get, put, write := Get(k, now), Put(k, ListObj([]), None, victims), Rewrite(k, obj);
    DoTwo(w, get, put, [write] + [MarkReady(k)]);
    var v := Do(Do(w, get), put);
    PutDeadline(Do(w, get), k, ListObj([]), None, victims);
    assert [MarkReady(k)] + [] == [MarkReady(k)];
    DoCons(v, write, [MarkReady(k)]);
    DoCons(Do(v, write), MarkReady(k), []);
    DoSilentQueues(w, get);
    DoSilentQueues(Do(w, get), put);
  }

  lemma DoSilentQueues<C>(w: World<C>, op: StoreOp)
    ensures Do(w, op).waiting == w.waiting
  {
    if op.Put? { EvictionsStay(w, op.victims); }
  }

  lemma {:induction false} EvictionsStay<C>(w: World<C>, ks: seq<Key>)
    ensures DeleteAll(w, ks).waiting == w.waiting
    decreases |ks|
  {
    if ks != [] { EvictionsStay(Delete(w, ks[0]), ks[1..]); }
  }

  lemma GrownList<C>(w: World<C>, k: Key, now: nat, obj: Obj, tail: seq<StoreOp>)
    requires Found(w, k, now).Some? && (tail == [MarkReady(k)] || tail == [])
    ensures var w' := DoAll(w, [Get(k, now)] + ([Rewrite(k, obj)] + tail));
      tail != [] && At(w.waiting, k) != [] ==> k in w'.ready
  {
    DoTwo(w, Get(k, now), Rewrite(k, obj), tail);
    if tail != [] {
      assert tail == [MarkReady(k)] + [];
      DoCons(Do(Do(w, Get(k, now)), Rewrite(k, obj)), MarkReady(k), []);
    }
  }

  // ----- INCR -----

  /** INCR adds one, with the overflow of a 64-bit integer, and answers what it stored. */
  lemma IncrAnswers<C>(w: World<C>, cmd: Command, o: Oracle)
    requires cmd.verb == Incr && |cmd.args| == 1
    ensures var k, w', found := cmd.args[0], DoAll(w, OpsOf(w, cmd, o)), Found(w, cmd.args[0], o.now);
      if found.Some? && !found.value.IntObj? then
        ReplyOf(w, cmd, o) == Error && w' == w
      else
        var v: int := if found.Some? then found.value.v else 0;
        var v' := if v == 0x7FFF_FFFF_FFFF_FFFF then -0x8000_0000_0000_0000 else v + 1;
        ReplyOf(w, cmd, o) == Count(v') && k in w'.store && w'.store[k] == IntObj(v')
  {
    var k, found, ops := cmd.args[0], Found(w, cmd.args[0], o.now), OpsOf(w, cmd, o);
    if found.None? {
      var put, write := Put(k, IntObj(0), None, o.keys), Rewrite(k, IntObj(1));
      assert ops == [Get(k, o.now)] + ([put] + ([write] + []));
      DoTwo(w, Get(k, o.now), put, [write] + []);
      PutDeadline(Do(w, Get(k, o.now)), k, IntObj(0), None, o.keys);
      DoCons(Do(Do(w, Get(k, o.now)), put), write, []);
    } else if found.value.IntObj? {
      AddOne(found.value.v);
      var obj := IntObj(Wrap64(found.value.v + 1));
      assert ops == [Get(k, o.now)] + ([Rewrite(k, obj)] + []);
      InPlace(w, k, o.now, obj, []);
    } else {
      assert ops == [Get(k, o.now)] + [];
      JustFound(w, k, o.now);
    }
  }

  lemma AddOne(v: int64)
    ensures Wrap64(v + 1) == if v == 0x7FFF_FFFF_FFFF_FFFF then -0x8000_0000_0000_0000 else v + 1
  {
  }

  // ----- BLPOP -----

  /** BLPOP of a client that is free: a missing key or a list without items blocks it behind the others that
      wait; the first item of any other list is answered at once and leaves the list; a list past its deadline
      answers null and does not block. */
  lemma BlpopOutcome<C>(w: World<C>, c: C, cmd: Command, o: Oracle)
    requires cmd.verb == Blpop && |cmd.args| == 2 && o.timeout.Some?
    requires !St(w, c).blocked && (cmd.args[0] in w.store ==> w.store[cmd.args[0]].ListObj?)
    ensures var k, w', s, s' := cmd.args[0], Execute(w, c, cmd, o), St(w, c), St(Execute(w, c, cmd, o), c);
      if k !in w.store || |w.store[k].items| == 0 then
        s'.blocked && At(w'.waiting, k) == At(w.waiting, k) + [c] && s'.replies == s.replies && w'.store == w.store
      else if k in w.expires && w.expires[k] <= o.now then
        !s'.blocked && w'.waiting == w.waiting && s'.replies == s.replies + [Null] && k !in w'.store
      else
        && !s'.blocked && w'.waiting == w.waiting && s'.replies == s.replies + [Popped(w.store[k].items[0])]
        && w'.store == w.store[k := ListObj(w.store[k].items[1..])]
  {
    var k := cmd.args[0];
    if k in w.store && |w.store[k].items| > 0 {
      PopForSilent(w, c, k, o.now, c);
      PopTakesFirst(w, c, k, o.now);
      ExpiredGone(w, c, k, o.now);
      hide PopFor;
    }
  }

  lemma ExpiredGone<C>(w: World<C>, c: C, k: Key, now: nat)
    ensures k in w.expires && w.expires[k] <= now ==> k !in PopFor(w, c, k, now).store
  {
    if Found(w, k, now).None? {
      assert PopOps(w, k, now) == [Get(k, now)] + [];
      DoCons(w, Get(k, now), []);
    }
  }

  // ----- a waiter is served -----

  /** Somebody waits for a missing or empty list, and a push arrives: the key is ready, and when it is visited
      the oldest waiter gets the item that came to stand first. */
  lemma PushServesWaiter<C>(w: World<C>, cmd: Command, o: Oracle, now: nat)
    requires cmd.verb.Push? && |cmd.args| >= 2
    requires var k, found := cmd.args[0], Found(w, cmd.args[0], o.now);
      At(w.waiting, k) != [] && (found.None? || found.value == ListObj([]))
    requires var k, v := cmd.args[0], DoAll(w, OpsOf(w, cmd, o)); !(k in v.expires && v.expires[k] <= now)
    ensures var k, c, v := cmd.args[0], At(w.waiting, cmd.args[0])[0], DoAll(w, OpsOf(w, cmd, o));
      var first := if cmd.verb.front then cmd.args[|cmd.args| - 1] else cmd.args[1];
      var w' := ServeReady(v, k, now);
      && k in v.ready && At(v.waiting, k) == At(w.waiting, k)
      && St(w', c).replies == St(w, c).replies + [Popped(ListValues.ToEntry(first))] && !St(w', c).blocked
      && At(w'.waiting, k) == At(w.waiting, k)[1..]
  {
    var k, c, ops := cmd.args[0], At(w.waiting, cmd.args[0])[0], OpsOf(w, cmd, o);
    var v, args := DoAll(w, ops), cmd.args[1..];
    PushAnswers(w, cmd, o);
    DoAllSilent(w, ops, c);
    hide OpsOf, DoAll, ServeReady;
    assert Found(v, k, now) == Some(v.store[k]);
    ServiceAnswersOldest(v, k, now, c);
    var items := v.store[k].items;
    assert items[0] == ListValues.ToEntry(if cmd.verb.front then args[|args| - 1] else args[0]);
  }
}
