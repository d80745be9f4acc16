// Every action of the server keeps the agreement between the state and each client's history, so it
// holds in every reachable world.
module SessionInvariant {
  import opened Options
  import opened Sessions
  import opened SessionHistory

  // ----- changes that leave a component alone -----

  ghost predicate Grown<C>(w: World<C>, w': World<C>) {
    w.clients.Keys <= w'.clients.Keys
  }

  /** The same work from blocks. */
  predicate SameWork(v: View, u: View) {
    v.ran == u.ran && v.due == u.due && v.crowded == u.crowded
  }

  /** The same session fields for client c. */
  predicate SameFlags(s: ClientState, t: ClientState) {
    && s.multi == t.multi && s.blocked == t.blocked && s.sub == t.sub && s.cas == t.cas
    && s.queue == t.queue && s.aborted == t.aborted && s.subs == t.subs && s.alive == t.alive
    && s.when == t.when
  }

  lemma SubFrame<C>(w: World<C>, w': World<C>, c: C)
    requires SubAll(w, c) && w'.subscribers == w.subscribers
    requires St(w', c).subs == St(w, c).subs && St(w', c).sub == St(w, c).sub
    requires St(w', c).alive ==> St(w, c).alive
    ensures SubAll(w', c)
  {
    forall k: Key ensures SubOk(w', c, k) {
      assert SubOk(w, c, k);
    }
  }

  lemma BlockFrame<C>(w: World<C>, w': World<C>, c: C)
    requires BlockAll(w, c)
    requires forall k: Key :: At(w'.waiting, k) == At(w.waiting, k)
    requires ViewOf(w'.log, c).waits == ViewOf(w.log, c).waits
    requires ViewOf(w'.log, c).overlapped == ViewOf(w.log, c).overlapped
    requires ViewOf(w.log, c).crowded ==> ViewOf(w'.log, c).crowded
    requires ViewOf(w'.log, c).until == ViewOf(w.log, c).until && St(w', c).when == St(w, c).when
    requires St(w', c).blocked == St(w, c).blocked
    ensures BlockAll(w', c)
  {
    if !ViewOf(w'.log, c).overlapped {
      forall k: Key ensures BlockOk(w', c, k) {
        assert BlockOk(w, c, k);
      }
    }
  }

  /** An event that is not about waiting. */
  lemma QueueFrame<C>(w: World<C>, w': World<C>, e: Event<C>)
    requires QueueAll(w) && w'.log == w.log + [e]
    requires !e.Blocked? && !e.Served? && !e.TimedOut?
    requires forall k: Key :: At(w'.waiting, k) == At(w.waiting, k)
    ensures QueueAll(w')
  {
    FifoSnoc(w.log, e);
    forall k: Key ensures At(w'.waiting, k) == WaitQueue(w'.log, k) {
      QueueSnoc(w.log, e, k);
      assert At(w.waiting, k) == WaitQueue(w.log, k);
    }
  }

  lemma QueueSame<C>(w: World<C>, w': World<C>)
    requires QueueAll(w) && w'.log == w.log && w'.waiting == w.waiting
    ensures QueueAll(w')
  {
    forall k: Key ensures At(w'.waiting, k) == WaitQueue(w'.log, k) {
      assert At(w.waiting, k) == WaitQueue(w.log, k);
    }
  }

  /** Nothing the invariant speaks of has changed. */
  lemma Frame<C>(w: World<C>, w': World<C>, c: C)
    requires Inv(w, c) && Grown(w, w')
    requires w'.log == w.log && w'.watched == w.watched && w'.subscribers == w.subscribers
    requires forall k: Key :: At(w'.waiting, k) == At(w.waiting, k)
    requires SameFlags(St(w', c), St(w, c))
    ensures Inv(w', c)
  {
    SubFrame(w, w', c);
    BlockFrame(w, w', c);
  }

  /** No command of client c was run from a block meanwhile, and it was not blocked. */
  ghost predicate SameRuns<C>(w: World<C>, w': World<C>, c: C) {
    && Grown(w, w')
    && SameWork(ViewOf(w'.log, c), ViewOf(w.log, c))
    && (St(w', c).blocked ==> St(w, c).blocked)
  }

  lemma AnswerKeeps<C>(w: World<C>, d: C, r: Reply, c: C)
    requires Inv(w, c)
    ensures Inv(Answer(w, d, r), c) && SameRuns(w, Answer(w, d, r), c)
  {
    Frame(w, Answer(w, d, r), c);
  }

  // ----- the store -----

  lemma TouchKeeps<C>(w: World<C>, k: Key, c: C)
    requires Inv(w, c)
    ensures Inv(Touch(w, k), c) && Quiet(w, Touch(w, k), c)
  {
    var w' := Touch(w, k);
    ViewSnoc(w.log, Modified(k), c);
    FaithfulSnoc(w.log, Modified(k), c);
    QueueFrame(w, w', Modified(k));
    hide ViewOf, Faithful, QueueAll, SubAll, BlockAll, Queueable;
    SubFrame(w, w', c);
    BlockFrame(w, w', c);
  }

  /** The parts of client c that store effects leave alone. */
  ghost predicate Quiet<C>(w: World<C>, w': World<C>, c: C) {
    && Grown(w, w') && w'.waiting == w.waiting
    && SameWork(ViewOf(w'.log, c), ViewOf(w.log, c))
    && SameFlags(St(w', c).(cas := false), St(w, c).(cas := false))
  }

  lemma DeleteKeeps<C>(w: World<C>, k: Key, c: C)
    requires Inv(w, c)
    ensures Inv(Delete(w, k), c) && Quiet(w, Delete(w, k), c)
  {
    if k in w.store {
      hide Inv, ViewOf, Quiet, SameFlags, Touch;
      var v := w.(store := w.store - {k}, expires := w.expires - {k});
      Unseen(w, v, c);
      TouchKeeps(v, k, c);
      QuietTransitive(w, v, Touch(v, k), c);
    } else {
      QuietSelf(w, c);
    }
  }

  lemma {:induction false} DeleteAllKeeps<C>(w: World<C>, ks: seq<Key>, c: C)
    requires Inv(w, c)
    ensures Inv(DeleteAll(w, ks), c) && Quiet(w, DeleteAll(w, ks), c)
    decreases |ks|
  {
    if ks != [] {
      hide Inv, SameFlags;
      DeleteKeeps(w, ks[0], c);
      DeleteAllKeeps(Delete(w, ks[0]), ks[1..], c);
      QuietTransitive(w, Delete(w, ks[0]), DeleteAll(w, ks), c);
    }
  }

  lemma QuietTransitive<C>(a: World<C>, b: World<C>, d: World<C>, c: C)
    requires Quiet(a, b, c) && Quiet(b, d, c)
    ensures Quiet(a, d, c)
  {
  }

  lemma PutKeeps<C>(w: World<C>, k: Key, obj: Obj, expiry: Option<nat>, victims: seq<Key>, c: C)
    requires Inv(w, c)
    ensures var w' := Do(w, Put(k, obj, expiry, victims));
      Inv(w', c) && Quiet(w, w', c)
  {
    hide Touch, Delete, DeleteAll, Inv, ViewOf, SameFlags, Quiet;
    DeleteAllKeeps(w, victims, c);
    var v := DeleteAll(w, victims);
    var u := v.(store := v.store[k := obj],
                expires := if expiry.Some? then v.expires[k := expiry.value] else v.expires);
    Unseen(v, u, c);
    TouchKeeps(u, k, c);
    QuietTransitive(v, u, Touch(u, k), c);
    QuietTransitive(w, v, Touch(u, k), c);
  }

  lemma Unseen<C>(w: World<C>, w': World<C>, c: C)
    requires Inv(w, c)
    requires w'.log == w.log && w'.clients == w.clients && w'.watched == w.watched
    requires w'.subscribers == w.subscribers && w'.waiting == w.waiting
    ensures Inv(w', c) && Quiet(w, w', c)
  {
    hide ViewOf;
    Frame(w, w', c);
  }

  lemma QuietSelf<C>(w: World<C>, c: C)
    ensures Quiet(w, w, c)
  {
  }

  lemma DoKeeps<C>(w: World<C>, op: StoreOp, c: C)
    requires Inv(w, c)
    ensures Inv(Do(w, op), c) && Quiet(w, Do(w, op), c)
  {
    hide Touch, Delete, DeleteAll, ViewOf, Inv, Quiet, SameFlags;
    match op
    case Get(k, _) =>
      DeleteKeeps(w, k, c);
      QuietSelf(w, c);
    case Put(k, obj, expiry, victims) => PutKeeps(w, k, obj, expiry, victims, c);
    case Del(k) => DeleteKeeps(w, k, c);
    case Rewrite(_, _) => Unseen(w, Do(w, op), c);
    case Expire(_, _) => Unseen(w, Do(w, op), c);
    case MarkReady(_) => Unseen(w, Do(w, op), c);
  }

  lemma {:induction false} DoAllKeeps<C>(w: World<C>, ops: seq<StoreOp>, c: C)
    requires Inv(w, c)
    ensures Inv(DoAll(w, ops), c) && Quiet(w, DoAll(w, ops), c)
    decreases |ops|
  {
    if ops != [] {
      hide Inv, SameFlags, Do;
      DoKeeps(w, ops[0], c);
      DoAllKeeps(Do(w, ops[0]), ops[1..], c);
      QuietTransitive(w, Do(w, ops[0]), DoAll(w, ops), c);
    }
  }

  // ----- watching -----

  lemma {:induction false} WithoutCount<C>(s: seq<C>, d: C, c: C)
    ensures Times(Without(s, d), c) == (if c == d then 0 else Times(s, c))
  {
    if s != [] {
      WithoutCount(s[1..], d, c);
      assert s == [s[0]] + s[1..];
    }
  }

  lemma WithoutMember<C>(s: seq<C>, d: C, c: C)
    ensures c in Without(s, d) <==> c != d && c in s
  {
    WithoutCount(s, d, c);
    assert c in s <==> Times(s, c) > 0;
    assert c in Without(s, d) <==> Times(Without(s, d), c) > 0;
  }

  lemma WatchOneKeeps<C>(w: World<C>, d: C, k: Key, c: C)
    requires Inv(w, c) && d in w.clients
    ensures var w' := Note(w.(watched := w.watched[k := At(w.watched, k) + [d]]), Watched(d, k));
      Inv(w', c) && SameRuns(w, w', c)
  {
    var w' := Note(w.(watched := w.watched[k := At(w.watched, k) + [d]]), Watched(d, k));
    ViewSnoc(w.log, Watched(d, k), c);
    FaithfulSnoc(w.log, Watched(d, k), c);
    QueueFrame(w, w', Watched(d, k));
    SubFrame(w, w', c);
    BlockFrame(w, w', c);
  }

  lemma {:induction false} WatchKeysKeeps<C>(w: World<C>, d: C, keys: seq<Key>, c: C)
    requires Inv(w, c) && d in w.clients
    ensures Inv(WatchKeys(w, d, keys), c) && SameRuns(w, WatchKeys(w, d, keys), c)
    decreases |keys|
  {
    if keys != [] {
      hide Inv;
      WatchOneKeeps(w, d, keys[0], c);
      var v := Note(w.(watched := w.watched[keys[0] := At(w.watched, keys[0]) + [d]]), Watched(d, keys[0]));
      WatchKeysKeeps(v, d, keys[1..], c);
    }
  }

  lemma UnwatchAllKeeps<C>(w: World<C>, d: C, c: C)
    requires Inv(w, c)
    ensures Inv(UnwatchAll(w, d), c) && SameRuns(w, UnwatchAll(w, d), c)
    ensures St(UnwatchAll(w, d), c) == St(w, c)
    ensures ViewOf(UnwatchAll(w, d).log, c) == See(ViewOf(w.log, c), c, Unwatched(d))
  {
    var w' := UnwatchAll(w, d);
    ViewSnoc(w.log, Unwatched(d), c);
    FaithfulSnoc(w.log, Unwatched(d), c);
    QueueFrame(w, w', Unwatched(d));
    SubFrame(w, w', c);
    BlockFrame(w, w', c);
    forall k: Key ensures c in At(w'.watched, k) <==> c != d && c in At(w.watched, k) {
      WithoutMember(At(w.watched, k), d, c);
    }
  }

  // ----- subscriptions -----

  /** Client d gets the state t, which differs in the subscription to k only, and the list of k
      gains or loses d accordingly. */
  lemma SubChange<C>(w: World<C>, subscribers: map<Key, seq<C>>, d: C, t: ClientState, k: Key, c: C)
    requires Inv(w, c)
    requires forall j: Key :: j != k ==> At(subscribers, j) == At(w.subscribers, j)
    requires forall j: Key :: j != k ==> (j in subscribers <==> j in w.subscribers)
    requires k in subscribers ==> subscribers[k] != []
    requires Times(At(subscribers, k), c) ==
      if c == d then (if k in t.subs then 1 else 0) else Times(At(w.subscribers, k), c)
    requires forall j: Key :: j != k ==> (j in t.subs <==> j in St(w, d).subs)
    requires SameFlags(t.(subs := {}, sub := false), St(w, d).(subs := {}, sub := false))
    requires t.alive ==> (t.sub <==> t.subs != {})
    ensures var w' := Set(w.(subscribers := subscribers), d, t);
      Inv(w', c) && SameRuns(w, w', c)
  {
    var w' := Set(w.(subscribers := subscribers), d, t);
    QueueSame(w, w');
    hide ViewOf, Faithful, QueueAll, BlockAll, Queueable, Times;
    BlockFrame(w, w', c);
    forall j: Key ensures SubOk(w', c, j) {
      assert SubOk(w, c, j);
      if j != k && j in subscribers {
        assert At(subscribers, j) == At(w.subscribers, j);
      }
    }
  }

  lemma SubFacts<C>(w: World<C>, c: C, k: Key)
    requires Inv(w, c)
    ensures SubOk(w, c, k)
    ensures St(w, c).alive ==> (St(w, c).sub <==> St(w, c).subs != {})
  {
  }

  lemma PutNonEmptyFacts<C>(m: map<Key, seq<C>>, k: Key, s: seq<C>)
    ensures var m' := PutNonEmpty(m, k, s);
      && At(m', k) == s
      && (k in m' ==> m'[k] != [])
      && (forall j: Key :: j != k ==> At(m', j) == At(m, j))
      && (forall j: Key :: j != k ==> (j in m' <==> j in m))
  {
  }

  lemma SubscribeToKeeps<C>(w: World<C>, d: C, k: Key, c: C)
    requires Inv(w, c) && Inv(w, d)
    ensures Inv(SubscribeTo(w, d, k), c) && SameRuns(w, SubscribeTo(w, d, k), c)
  {
    if k !in St(w, d).subs {
      hide Inv, ViewOf;
      var m := w.subscribers[k := At(w.subscribers, k) + [d]];
      SubFacts(w, d, k);
      SubChange(w, m, d, Joined(St(w, d), k), k, c);
      AnswerKeeps(Set(w.(subscribers := m), d, Joined(St(w, d), k)), d, Subscribed(k, |Joined(St(w, d), k).subs|), c);
    }
  }

  lemma UnsubscribeFromKeeps<C>(w: World<C>, d: C, k: Key, c: C)
    requires Inv(w, c) && Inv(w, d)
    ensures Inv(UnsubscribeFrom(w, d, k), c) && SameRuns(w, UnsubscribeFrom(w, d, k), c)
  {
    if k in St(w, d).subs {
      hide Inv, ViewOf, Without, PutNonEmpty;
      PutNonEmptyFacts(w.subscribers, k, Without(At(w.subscribers, k), d));
      var m := PutNonEmpty(w.subscribers, k, Without(At(w.subscribers, k), d));
      SubFacts(w, d, k);
      WithoutCount(At(w.subscribers, k), d, c);
      SubChange(w, m, d, Left(St(w, d), k), k, c);
      AnswerKeeps(Set(w.(subscribers := m), d, Left(St(w, d), k)), d, Unsubscribed(k, |Left(St(w, d), k).subs|), c);
    }
  }

  lemma {:induction false} SubscribeAllKeeps<C>(w: World<C>, d: C, keys: seq<Key>, c: C)
    requires Inv(w, c) && Inv(w, d)
    ensures Inv(SubscribeAll(w, d, keys), c) && SameRuns(w, SubscribeAll(w, d, keys), c)
    decreases |keys|
  {
    if keys != [] {
      hide Inv, SubscribeTo;
      SubscribeToKeeps(w, d, keys[0], c);
      SubscribeToKeeps(w, d, keys[0], d);
      SubscribeAllKeeps(SubscribeTo(w, d, keys[0]), d, keys[1..], c);
    }
  }

  lemma {:induction false} UnsubscribeAllKeeps<C>(w: World<C>, d: C, keys: seq<Key>, c: C)
    requires Inv(w, c) && Inv(w, d)
    ensures Inv(UnsubscribeAll(w, d, keys), c) && SameRuns(w, UnsubscribeAll(w, d, keys), c)
    decreases |keys|
  {
    if keys != [] {
      hide Inv, UnsubscribeFrom;
      UnsubscribeFromKeeps(w, d, keys[0], c);
      UnsubscribeFromKeeps(w, d, keys[0], d);
      UnsubscribeAllKeeps(UnsubscribeFrom(w, d, keys[0]), d, keys[1..], c);
    }
  }

  lemma {:induction false} BroadcastKeeps<C>(w: World<C>, to: seq<C>, r: Reply, c: C)
    requires Inv(w, c)
    ensures Inv(Broadcast(w, to, r), c) && SameRuns(w, Broadcast(w, to, r), c)
    decreases |to|
  {
    if to != [] {
      hide Inv;
      AnswerKeeps(w, to[0], r, c);
      BroadcastKeeps(Answer(w, to[0], r), to[1..], r, c);
    }
  }

  // ----- blocking -----

  lemma BlockOnKeeps<C>(w: World<C>, d: C, k: Key, timeout: int, now: nat, c: C)
    requires Inv(w, c)
    requires c == d ==> !St(w, c).blocked || ViewOf(w.log, c).crowded
    ensures var w' := BlockOn(w, d, k, timeout, now);
      && Inv(w', c) && Grown(w, w')
      && SameWork(ViewOf(w'.log, c), ViewOf(w.log, c))
      && (c != d ==> St(w', c).blocked == St(w, c).blocked)
  {
    var w' := BlockOn(w, d, k, timeout, now);
    var e := Blocked(d, k, timeout, now);
    BlockHistory(w, w', e, c);
    hide TxOk, WatchOk, ViewOf, WaitQueue, Fifo, QueueAll, SubAll, BlockAll, See;
    QueueBlock(w, w', e);
    SubFrame(w, w', c);
    BlockBlock(w, w', e, c);
  }

  lemma BlockHistory<C>(w: World<C>, w': World<C>, e: Event<C>, c: C)
    requires TxOk(w, c) && WatchOk(w, c) && e.Blocked?
    requires w'.log == w.log + [e] && w'.watched == w.watched && w.clients.Keys <= w'.clients.Keys
    requires St(w', c) == St(w, c).(blocked := St(w', c).blocked, when := St(w', c).when)
    ensures TxOk(w', c) && WatchOk(w', c)
    ensures ViewOf(w'.log, c) == See(ViewOf(w.log, c), c, e)
    ensures SameWork(ViewOf(w'.log, c), ViewOf(w.log, c))
  {
    ViewSnoc(w.log, e, c);
    FaithfulSnoc(w.log, e, c);
    SeeBlock(ViewOf(w.log, c), c, e);
    SeeWatch(ViewOf(w.log, c), c, e);
    SeeWork(ViewOf(w.log, c), c, e);
    hide Faithful, ViewOf, See, Queueable, Blpops, At;
  }

  lemma BlockBlock<C>(w: World<C>, w': World<C>, e: Event<C>, c: C)
    requires BlockAll(w, c) && e.Blocked?
    requires c == e.c ==> !St(w, c).blocked || ViewOf(w.log, c).crowded
    requires ViewOf(w'.log, c) == See(ViewOf(w.log, c), c, e)
    requires w'.waiting == w.waiting[e.key := At(w.waiting, e.key) + [e.c]]
    requires St(w', c).blocked == (c == e.c || St(w, c).blocked)
    requires St(w', c).when == if c == e.c then Deadline(e.timeout, e.at) else St(w, c).when
    ensures BlockAll(w', c)
  {
    hide ViewOf;
    if !ViewOf(w'.log, c).overlapped {
      forall j: Key ensures BlockOk(w', c, j) {
        assert BlockOk(w, c, j);
      }
    }
  }

  lemma QueueBlock<C>(w: World<C>, w': World<C>, e: Event<C>)
    requires QueueAll(w) && e.Blocked? && w'.log == w.log + [e]
    requires w'.waiting == w.waiting[e.key := At(w.waiting, e.key) + [e.c]]
    ensures QueueAll(w')
  {
    FifoSnoc(w.log, e);
    forall j: Key ensures At(w'.waiting, j) == WaitQueue(w'.log, j) {
      QueueSnoc(w.log, e, j);
      assert At(w.waiting, j) == WaitQueue(w.log, j);
    }
  }

  /** A client leaves the queue of k: to the front waiter's service or to its timeout. */
  lemma ReleaseKeeps<C>(w: World<C>, w': World<C>, d: C, k: Key, e: Event<C>, c: C)
    requires Inv(w, c) && Grown(w, w')
    requires e == Served(d, k) || e == TimedOut(d, k)
    requires w'.log == w.log + [e] && w'.watched == w.watched && w'.subscribers == w.subscribers
    requires SameFlags(St(w', c).(blocked := false, when := None), St(w, c).(blocked := false, when := None))
    requires St(w', c).blocked == (if c == d then false else St(w, c).blocked)
    requires St(w', c).when == (if c == d then None else St(w, c).when)
    requires forall j: Key :: j != k ==> At(w'.waiting, j) == At(w.waiting, j)
    requires d in At(w.waiting, k) && At(w'.waiting, k) == RemoveFirst(At(w.waiting, k), d)
    requires e.Served? ==> At(w.waiting, k)[0] == d
    ensures Inv(w', c) && SameRuns(w, w', c)
  {
    hide Fifo, RemoveFirst, QueueAll, BlockAll, SubAll, Faithful, ViewOf, Queueable, Allowed;
    ViewSnoc(w.log, e, c);
    QueueRelease(w, w', d, k, e);
    BlockRelease(w, w', d, k, e, c);
    FaithfulSnoc(w.log, e, c);
    SubFrame(w, w', c);
  }

  lemma BlockRelease<C>(w: World<C>, w': World<C>, d: C, k: Key, e: Event<C>, c: C)
    requires BlockAll(w, c)
    requires e == Served(d, k) || e == TimedOut(d, k)
    requires ViewOf(w'.log, c) == See(ViewOf(w.log, c), c, e)
    requires St(w', c).blocked == (if c == d then false else St(w, c).blocked)
    requires St(w', c).when == (if c == d then None else St(w, c).when)
    requires forall j: Key :: j != k ==> At(w'.waiting, j) == At(w.waiting, j)
    requires d in At(w.waiting, k) && At(w'.waiting, k) == RemoveFirst(At(w.waiting, k), d)
    ensures BlockAll(w', c) && Allowed(ViewOf(w.log, c), c, e)
  {
    hide ViewOf, RemoveFirst;
    RemoveFirstCount(At(w.waiting, k), d, c);
    if !ViewOf(w.log, c).overlapped {
      assert BlockOk(w, c, k);
      assert Times(At(w.waiting, k), d) >= 1;
      forall j: Key ensures BlockOk(w', c, j) {
        assert BlockOk(w, c, j);
      }
    }
  }

  lemma QueueRelease<C>(w: World<C>, w': World<C>, d: C, k: Key, e: Event<C>)
    requires QueueAll(w) && w'.log == w.log + [e]
    requires e == Served(d, k) || e == TimedOut(d, k)
    requires forall j: Key :: j != k ==> At(w'.waiting, j) == At(w.waiting, j)
    requires d in At(w.waiting, k) && At(w'.waiting, k) == RemoveFirst(At(w.waiting, k), d)
    requires e.Served? ==> At(w.waiting, k)[0] == d
    ensures QueueAll(w')
  {
    assert At(w.waiting, k) == WaitQueue(w.log, k);
    FifoSnoc(w.log, e);
    forall j: Key ensures At(w'.waiting, j) == WaitQueue(w'.log, j) {
      QueueSnoc(w.log, e, j);
      assert At(w.waiting, j) == WaitQueue(w.log, j);
    }
  }

  lemma PopForKeeps<C>(w: World<C>, d: C, k: Key, now: nat, c: C)
    requires Inv(w, c)
    ensures var w' := PopFor(w, d, k, now);
      Inv(w', c) && SameRuns(w, w', c) && w'.waiting == w.waiting
  {
    hide Inv, ViewOf, DoAll, PopOps, PopReply;
    DoAllKeeps(w, PopOps(w, k, now), c);
    AnswerKeeps(DoAll(w, PopOps(w, k, now)), d, PopReply(w, k, now), c);
  }

  lemma ServeReadyKeeps<C>(w: World<C>, k: Key, now: nat, c: C)
    requires Inv(w, c)
    ensures Inv(ServeReady(w, k, now), c) && SameRuns(w, ServeReady(w, k, now), c)
  {
    hide Inv, ViewOf, PopFor;
    var q := At(w.waiting, k);
    if q == [] {
      Frame(w, ServeReady(w, k, now), c);
    } else {
      PopForKeeps(w, q[0], k, now, c);
      ReleaseKeeps(PopFor(w, q[0], k, now), ServeReady(w, k, now), q[0], k, Served(q[0], k), c);
    }
  }

  lemma {:induction false} ServeAllReadyKeeps<C>(w: World<C>, visits: seq<(Key, nat)>, c: C)
    requires Inv(w, c)
    ensures Inv(ServeAllReady(w, visits), c) && SameRuns(w, ServeAllReady(w, visits), c)
    decreases |visits|
  {
    if visits != [] {
      hide Inv, ViewOf, ServeReady;
      var (k, now) := visits[0];
      ServeReadyKeeps(w, k, now, c);
      ServeAllReadyKeeps(ServeReady(w, k, now), visits[1..], c);
    }
  }

  lemma RequeuedSame<C>(w: World<C>, k: Key, q: seq<C>, c: C)
    ensures SameRuns(w, Requeued(w, k, q), c)
  {
    hide ViewOf;
  }

  /** One step of the scan. */
  lemma ExpireStep<C>(w: World<C>, k: Key, now: nat, todo: seq<C>, kept: seq<C>)
    ensures ExpireQueue(w, k, now, todo, kept) ==
      if todo == [] then Requeued(w, k, kept)
      else if Expired(St(w, todo[0]), now) then ExpireQueue(TimeOut(w, todo[0], k), k, now, todo[1..], kept)
      else ExpireQueue(w, k, now, todo[1..], kept + [todo[0]])
  {
  }

  lemma SameJoin<C>(a: World<C>, b: World<C>, d: World<C>, c: C)
    requires SameRuns(a, b, c) && SameRuns(b, d, c)
    ensures SameRuns(a, d, c)
  {
  }

  /** The world in which the queue of k is q. */
  function Requeued<C(==)>(w: World<C>, k: Key, q: seq<C>): World<C> {
    w.(waiting := PutNonEmpty(w.waiting, k, q))
  }

  /** A client whose time is over leaves the queue and is told so. */
  function TimeOut<C(==)>(w: World<C>, d: C, k: Key): World<C> {
    Note(Answer(Set(w, d, St(w, d).(blocked := false, when := None)), d, Null), TimedOut(d, k))
  }

  lemma TimeOutKeeps<C>(w: World<C>, k: Key, kept: seq<C>, todo: seq<C>, c: C)
    requires todo != [] && todo[0] !in kept && Inv(Requeued(w, k, kept + todo), c)
    ensures var v := TimeOut(w, todo[0], k);
      Inv(Requeued(v, k, kept + todo[1..]), c) && SameRuns(w, v, c)
  {
    hide Inv, ViewOf, RemoveFirst;
    var d := todo[0];
    RemoveFirstAfter(kept, d, todo[1..]);
    var a, b := Requeued(w, k, kept + todo), Requeued(TimeOut(w, d, k), k, kept + todo[1..]);
    assert At(a.waiting, k) == kept + todo && At(b.waiting, k) == kept + todo[1..];
    assert todo == [d] + todo[1..];
    ReleaseKeeps(a, b, d, k, TimedOut(d, k), c);
  }

  lemma {:induction false} ExpireQueueKeeps<C>(w: World<C>, k: Key, now: nat, todo: seq<C>, kept: seq<C>, c: C)
    requires Inv(Requeued(w, k, kept + todo), c)
    requires forall x :: x in kept ==> !Expired(St(w, x), now)
    ensures var w' := ExpireQueue(w, k, now, todo, kept); Inv(w', c) && SameRuns(w, w', c)
    decreases |todo|
  {
    hide Inv, ViewOf, ExpireQueue, SameRuns;
    ExpireStep(w, k, now, todo, kept);
    if todo == [] {
      assert kept + todo == kept;
      RequeuedSame(w, k, kept, c);
    } else {
      hide Requeued;
      if Expired(St(w, todo[0]), now) {
        var v := TimeOut(w, todo[0], k);
        TimeOutKeeps(w, k, kept, todo, c);
        assert forall x :: x in kept ==> St(v, x) == St(w, x);
        hide TimeOut, Expired;
        ExpireQueueKeeps(v, k, now, todo[1..], kept, c);
        SameJoin(w, v, ExpireQueue(v, k, now, todo[1..], kept), c);
      } else {
        assert kept + todo == kept + [todo[0]] + todo[1..];
        ExpireQueueKeeps(w, k, now, todo[1..], kept + [todo[0]], c);
      }
    }
  }

  lemma {:induction false} ExpireKeysKeeps<C>(w: World<C>, keys: seq<Key>, now: nat, c: C)
    requires Inv(w, c)
    ensures Inv(ExpireKeys(w, keys, now), c) && SameRuns(w, ExpireKeys(w, keys, now), c)
    decreases |keys|
  {
    if keys != [] {
      hide Inv, ViewOf, ExpireQueue;
      if keys[0] in w.waiting {
        var q := w.waiting[keys[0]];
        Frame(w, Requeued(w, keys[0], [] + q), c);
        ExpireQueueKeeps(w, keys[0], now, q, [], c);
        ExpireKeysKeeps(ExpireQueue(w, keys[0], now, q, []), keys[1..], now, c);
      } else {
        ExpireKeysKeeps(w, keys[1..], now, c);
      }
    }
  }

  // ----- transactions -----

  /** Only the transaction of client c changed. */
  lemma TxFrame<C>(w: World<C>, w': World<C>, c: C)
    requires Inv(w, c) && TxOk(w', c) && Grown(w, w')
    requires w'.watched == w.watched && w'.subscribers == w.subscribers && w'.waiting == w.waiting
    requires QueueAll(w')
    requires var v, v' := ViewOf(w.log, c), ViewOf(w'.log, c);
      && v'.watch == v.watch && v'.waits == v.waits && v'.until == v.until && v'.overlapped == v.overlapped
      && (v.crowded ==> v'.crowded)
    requires var s, s' := St(w, c), St(w', c);
      && s'.blocked == s.blocked && s'.when == s.when
      && s'.sub == s.sub && s'.subs == s.subs && s'.alive == s.alive
    ensures Inv(w', c)
  {
    hide ViewOf, TxOk;
    SubFrame(w, w', c);
    BlockFrame(w, w', c);
  }

  /** One event about a transaction of d, with its new state t. */
  lemma TxStep<C>(w: World<C>, d: C, t: ClientState, e: Event<C>, c: C)
    requires Inv(w, c)
    requires e in {Opened(d), Closed(d), Refused(d)} || (e.Queued? && e.c == d)
          || (e.Executed? && e.c == d) || (e.Committed? && e.c == d)
    requires c == d ==>
      && (e.Committed? ==> !St(w, d).cas && !St(w, d).aborted && St(w, d).multi && St(w, d).queue == e.cmds)
      && (e == Refused(d) ==> St(w, d).multi)
      && SameFlags(t, match e
         case Opened(_) => St(w, d).(multi := true, queue := [], aborted := false)
         case Closed(_) => St(w, d).(multi := false, queue := [], aborted := false)
         case Refused(_) => St(w, d).(aborted := true)
         case Queued(_, cmd) => if St(w, d).multi then St(w, d).(queue := St(w, d).queue + [cmd]) else St(w, d)
         case _ => St(w, d))
      && Queueable(t.queue)
    ensures Inv(Note(Set(w, d, t), e), c)
    ensures ViewOf(Note(Set(w, d, t), e).log, c) == See(ViewOf(w.log, c), c, e)
  {
    var w' := Note(Set(w, d, t), e);
    ViewSnoc(w.log, e, c);
    QueueFrame(w, w', e);
    hide ViewOf, See, QueueAll, WatchOk, SubAll, BlockAll;
    TxOkStep(w, w', e, c);
    TxFrame(w, w', c);
  }

  lemma TxOkStep<C>(w: World<C>, w': World<C>, e: Event<C>, c: C)
    requires TxOk(w, c) && w'.log == w.log + [e] && ViewOf(w'.log, c) == See(ViewOf(w.log, c), c, e)
    requires e.Opened? || e.Closed? || e.Refused? || e.Queued? || e.Executed? || e.Committed?
    requires var s := St(w, c);
      if e.c != c then SameFlags(St(w', c), s)
      else
        && (e.Committed? ==> Commits(s) && s.queue == e.cmds)
        && (e.Refused? ==> s.multi)
        && SameFlags(St(w', c), match e
           case Opened(_) => s.(multi := true, queue := [], aborted := false)
           case Closed(_) => s.(multi := false, queue := [], aborted := false)
           case Refused(_) => s.(aborted := true)
           case Queued(_, cmd) => if s.multi then s.(queue := s.queue + [cmd]) else s
           case _ => s)
        && Queueable(St(w', c).queue)
    ensures TxOk(w', c)
    ensures var v, v' := ViewOf(w.log, c), ViewOf(w'.log, c);
      && v'.watch == v.watch && v'.waits == v.waits && v'.until == v.until && v'.overlapped == v.overlapped
      && (v.crowded ==> v'.crowded)
  {
    var v := ViewOf(w.log, c);
    FaithfulSnoc(w.log, e, c);
    SeeBlock(v, c, e);
    SeeWatch(v, c, e);
    SeeWaits(v, c, e);
    SeeWork(v, c, e);
    hide ViewOf, See, Faithful, Queueable, Blpops;
  }

  lemma TxFacts<C>(w: World<C>, c: C)
    requires Inv(w, c)
    ensures Queueable(St(w, c).queue)
    ensures !St(w, c).multi ==> St(w, c).queue == [] && !St(w, c).aborted
  {
  }

  lemma BeginMultiKeeps<C>(w: World<C>, d: C, c: C)
    requires Inv(w, c)
    ensures Inv(BeginMulti(w, d), c) && SameRuns(w, BeginMulti(w, d), c)
  {
    hide Inv, ViewOf;
    var t := Reset(St(w, d)).(multi := true);
    TxStep(w, d, t, Opened(d), c);
    AnswerKeeps(Note(Set(w, d, t), Opened(d)), d, Ok, c);
  }

  lemma DiscardMultiKeeps<C>(w: World<C>, d: C, c: C)
    requires Inv(w, c)
    ensures Inv(DiscardMulti(w, d), c) && SameRuns(w, DiscardMulti(w, d), c)
  {
    hide Inv, ViewOf, UnwatchAll, Answer;
    if !St(w, d).multi {
      AnswerKeeps(w, d, Error, c);
    } else {
      EndKeeps(w, d, c);
      AnswerKeeps(UnwatchAll(Note(Set(w, d, Reset(St(w, d)).(multi := false)), Closed(d)), d), d, Ok, c);
    }
  }

  // ----- executing commands -----

  /** Client d may run the given commands from a block without being blocked twice, unless its
      history already admits that. */
  predicate Roomy<C(==)>(w: World<C>, d: C, cmds: seq<Command>) {
    ViewOf(w.log, d).crowded || Blpops(cmds) + (if St(w, d).blocked then 1 else 0) <= 1
  }

  lemma ExecuteKeeps<C>(w: World<C>, d: C, cmd: Command, o: Oracle, c: C)
    requires Inv(w, c) && Inv(w, d) && d in w.clients
    requires cmd.verb == Blpop ==> !St(w, d).blocked || ViewOf(w.log, d).crowded
    ensures var w' := Execute(w, d, cmd, o);
      && Inv(w', c) && Grown(w, w')
      && SameWork(ViewOf(w'.log, c), ViewOf(w.log, c))
      && (St(w', c).blocked ==> St(w, c).blocked || (c == d && cmd.verb == Blpop))
  {
    hide Inv, ViewOf, BeginMulti, WatchKeys, SubscribeAll, UnsubscribeAll, Broadcast, BlockOn, DoAll, Answer;
    hide PopFor, Visit, OpsOf, ReplyOf;
    match cmd.verb
    case Multi => BeginMultiKeeps(w, d, c);
    case Watch =>
      if St(w, d).multi { AnswerKeeps(w, d, Error, c); }
      else { WatchKeysKeeps(w, d, cmd.args, c); AnswerKeeps(WatchKeys(w, d, cmd.args), d, Ok, c); }
    case Subscribe => SubscribeAllKeeps(w, d, cmd.args, c);
    case Unsubscribe => UnsubscribeAllKeeps(w, d, if cmd.args == [] then Visit(St(w, d).subs, o.keys) else cmd.args, c);
    case Publish =>
      if |cmd.args| != 2 { AnswerKeeps(w, d, Error, c); }
      else {
        var to, r := At(w.subscribers, cmd.args[0]), Message(cmd.args[0], cmd.args[1]);
        BroadcastKeeps(w, to, r, c);
        AnswerKeeps(Broadcast(w, to, r), d, Count(|to|), c);
      }
    case Blpop =>
      if |cmd.args| != 2 || o.timeout.None? { AnswerKeeps(w, d, Error, c); }
      else if IsEmptyKey(w, cmd.args[0]) { BlockOnKeeps(w, d, cmd.args[0], o.timeout.value, o.now, c); }
      else { PopForKeeps(w, d, cmd.args[0], o.now, c); }
    case Ping => AnswerKeeps(w, d, Ok, c);
    case _ =>
      var ops := OpsOf(w, cmd, o);
      DoAllKeeps(w, ops, c);
      AnswerKeeps(DoAll(w, ops), d, ReplyOf(w, cmd, o), c);
  }

  lemma NoteKeeps<C>(w: World<C>, d: C, e: Event<C>, c: C)
    requires Inv(w, c) && d in w.clients
    requires (e.Executed? && e.c == d)
          || (e.Committed? && e.c == d && Commits(St(w, d)) && e.cmds == St(w, d).queue)
    requires c == d ==> Queueable(St(w, d).queue)
    ensures Inv(Note(w, e), c)
    ensures ViewOf(Note(w, e).log, c) == See(ViewOf(w.log, c), c, e)
  {
    hide Inv, ViewOf;
    assert Set(w, d, St(w, d)) == w;
    TxStep(w, d, St(w, d), e, c);
  }

  /** The given commands were run meanwhile, and none taken. */
  predicate Worked(v: View, v': View, cmds: seq<Command>) {
    v'.ran == v.ran + cmds && v'.due == v.due
  }

  lemma WorkJoins(u: View, v: View, w: View, a: seq<Command>, b: seq<Command>)
    requires Worked(u, v, a) && Worked(v, w, b)
    ensures Worked(u, w, a + b)
  {
    assert u.ran + a + b == u.ran + (a + b);
  }

  /** One queued command: it is noted, then executed. */
  lemma ExecStepKeeps<C>(w: World<C>, d: C, cmd: Command, rest: seq<Command>, o: Oracle, c: C)
    requires Inv(w, c) && Inv(w, d) && d in w.clients
    requires Roomy(w, d, [cmd] + rest)
    ensures var w' := Execute(Note(w, Executed(d, cmd)), d, cmd, o);
      && Inv(w', c) && Grown(w, w')
      && Worked(ViewOf(w.log, c), ViewOf(w'.log, c), if c == d then [cmd] else [])
      && (c == d ==> Roomy(w', d, rest))
  {
    hide Inv, ViewOf, Execute, Queueable;
    var u := Note(w, Executed(d, cmd));
    TxFacts(w, d);
    NoteKeeps(w, d, Executed(d, cmd), c);
    NoteKeeps(w, d, Executed(d, cmd), d);
    assert Blpops([cmd] + rest) == (if cmd.verb == Blpop then 1 else 0) + Blpops(rest) by {
      assert ([cmd] + rest)[1..] == rest;
    }
    ExecuteKeeps(u, d, cmd, o, c);
  }

  lemma {:induction false} ExecLoopKeeps<C>(w: World<C>, d: C, cmds: seq<Command>, os: seq<Oracle>, c: C)
    requires Inv(w, c) && Inv(w, d) && d in w.clients
    requires Roomy(w, d, cmds)
    ensures var w' := ExecLoop(w, d, cmds, os);
      && Inv(w', c) && Grown(w, w')
      && Worked(ViewOf(w.log, c), ViewOf(w'.log, c), if c == d then cmds else [])
    decreases |cmds|
  {
    if cmds != [] {
      var o, rest := if os == [] then Oracle([], 0, None, []) else os[0], if os == [] then [] else os[1..];
      var v := Execute(Note(w, Executed(d, cmds[0])), d, cmds[0], o);
      assert ExecLoop(w, d, cmds, os) == ExecLoop(v, d, cmds[1..], rest);
      hide Inv, ViewOf, Execute, ExecLoop, Roomy, Note, Worked;
      assert cmds == [cmds[0]] + cmds[1..];
      ExecStepKeeps(w, d, cmds[0], cmds[1..], o, c);
      ExecStepKeeps(w, d, cmds[0], cmds[1..], o, d);
      ExecLoopKeeps(v, d, cmds[1..], rest, c);
      WorkJoins(ViewOf(w.log, c), ViewOf(v.log, c), ViewOf(ExecLoop(v, d, cmds[1..], rest).log, c),
                if c == d then [cmds[0]] else [], if c == d then cmds[1..] else []);
    }
  }

  /** An EXEC that goes through. */
  predicate Commits(s: ClientState) {
    s.multi && !s.cas && !s.aborted
  }

  lemma AbortKeeps<C>(w: World<C>, d: C, c: C)
    requires Inv(w, c)
    ensures var v := UnwatchAll(w, d);
      var w' := Note(Note(Set(v, d, Reset(St(v, d)).(multi := false, cas := false)), Aborted(d)), Closed(d));
      Inv(w', c) && SameRuns(w, w', c)
  {
    hide SameFlags, SubAll, BlockAll, WatchOk, UnwatchAll, See;
    var v := UnwatchAll(w, d);
    var u := Set(v, d, Reset(St(v, d)).(multi := false, cas := false));
    var w' := Note(Note(u, Aborted(d)), Closed(d));
    UnwatchAllKeeps(w, d, c);
    AbortedQueue(v, u, d);
    AbortedView(v.log, d, c);
    AbortedFaithful(v.log, d, c);
    hide ViewOf, Faithful, QueueAll;
    TxFrame(v, w', c);
  }

  lemma AbortedQueue<C>(v: World<C>, u: World<C>, d: C)
    requires QueueAll(v) && u.log == v.log && u.waiting == v.waiting
    ensures QueueAll(Note(Note(u, Aborted(d)), Closed(d)))
  {
    QueueFrame(v, Note(u, Aborted(d)), Aborted(d));
    QueueFrame(Note(u, Aborted(d)), Note(Note(u, Aborted(d)), Closed(d)), Closed(d));
  }

  lemma AbortedView<C>(log: seq<Event<C>>, d: C, c: C)
    ensures var v, v' := ViewOf(log, c), ViewOf(log + [Aborted(d)] + [Closed(d)], c);
      v' == if c == d then v.(doomed := false, open := None, refused := false) else v
  {
    ViewSnoc(log, Aborted(d), c);
    ViewSnoc(log + [Aborted(d)], Closed(d), c);
    hide ViewOf;
  }

  lemma AbortedFaithful<C>(log: seq<Event<C>>, d: C, c: C)
    requires Faithful(log, c)
    ensures Faithful(log + [Aborted(d)] + [Closed(d)], c)
  {
    hide Faithful, ViewOf;
    FaithfulSnoc(log, Aborted(d), c);
    FaithfulSnoc(log + [Aborted(d)], Closed(d), c);
  }

  /** EXEC runs its whole queue, in order and once each, or nothing. */
  lemma ExecRunsQueue<C>(w: World<C>, d: C, os: seq<Oracle>, c: C)
    requires Inv(w, c) && Inv(w, d) && d in w.clients && !St(w, d).blocked
    ensures var w' := ExecMulti(w, d, os);
      && Inv(w', c) && Grown(w, w')
      && (var v, v' := ViewOf(w.log, c), ViewOf(w'.log, c);
          var q := if c == d && Commits(St(w, d)) then St(w, d).queue else [];
          v'.ran == v.ran + q && v'.due == v.due + q)
  {
    hide Inv, ViewOf, UnwatchAll, ExecLoop, Answer;
    var s := St(w, d);
    TxFacts(w, d);
    if !s.multi {
      AnswerKeeps(w, d, Error, c);
    } else if !Commits(s) {
      AbortKeeps(w, d, c);
      var v := UnwatchAll(w, d);
      var t := Reset(St(v, d)).(multi := false, cas := false);
      AnswerKeeps(Note(Note(Set(v, d, t), Aborted(d)), Closed(d)), d, Null, c);
    } else if s.queue == [] {
      EmptyCommitKeeps(w, d, os, c);
    } else {
      CommitKeeps(w, d, c);
      CommitKeeps(w, d, d);
      var u := Answer(Note(w, Committed(d, s.queue)), d, Count(|s.queue|));
      ExecLoopKeeps(u, d, s.queue, os, c);
      EndKeeps(ExecLoop(u, d, s.queue, os), d, c);
    }
  }

  lemma EmptyCommitKeeps<C>(w: World<C>, d: C, os: seq<Oracle>, c: C)
    requires Inv(w, c) && Inv(w, d) && d in w.clients && !St(w, d).blocked
    requires Commits(St(w, d)) && St(w, d).queue == []
    ensures var w' := ExecMulti(w, d, os);
      var v, v' := ViewOf(w.log, c), ViewOf(w'.log, c);
      Inv(w', c) && Grown(w, w') && v'.ran == v.ran && v'.due == v.due
  {
    hide Inv, ViewOf, ExecLoop;
    TxFacts(w, d);
    CommitKeeps(w, d, c);
    var t := St(w, d).(multi := false);
    TxStep(Note(w, Committed(d, [])), d, t, Closed(d), c);
    AnswerKeeps(Note(Note(Set(w, d, t), Committed(d, [])), Closed(d)), d, EmptyArray, c);
  }

  lemma EndKeeps<C>(w: World<C>, d: C, c: C)
    requires Inv(w, c)
    ensures var w' := UnwatchAll(Note(Set(w, d, Reset(St(w, d)).(multi := false)), Closed(d)), d);
      Inv(w', c) && SameRuns(w, w', c)
  {
    hide Inv, ViewOf, UnwatchAll;
    TxStep(w, d, Reset(St(w, d)).(multi := false), Closed(d), c);
    UnwatchAllKeeps(Note(Set(w, d, Reset(St(w, d)).(multi := false)), Closed(d)), d, c);
  }

  lemma CommitKeeps<C>(w: World<C>, d: C, c: C)
    requires Inv(w, c) && Inv(w, d) && d in w.clients && Commits(St(w, d)) && !St(w, d).blocked
    ensures var q := St(w, d).queue;
      var u := Note(w, Committed(d, q));
      var u' := Answer(u, d, Count(|q|));
      && Inv(u, c) && Inv(u', c) && u'.log == u.log
      && ViewOf(u.log, c) == See(ViewOf(w.log, c), c, Committed(d, q))
      && Grown(w, u') && (c == d ==> Roomy(u', d, q))
  {
    hide Inv, ViewOf;
    TxFacts(w, d);
    NoteKeeps(w, d, Committed(d, St(w, d).queue), c);
    AnswerKeeps(Note(w, Committed(d, St(w, d).queue)), d, Count(|St(w, d).queue|), c);
  }

  // ----- steps -----

  /** All commands taken by EXECs have been run, in order. */
  predicate Settled<C(==)>(w: World<C>, c: C) {
    ViewOf(w.log, c).ran == ViewOf(w.log, c).due
  }

  lemma QueueKeeps<C>(w: World<C>, d: C, cmd: Command, c: C)
    requires Inv(w, c) && Inv(w, d)
    requires St(w, d).multi && cmd.verb != Exec && cmd.verb != Discard
    ensures var w' := Respond(w, d, cmd, []); Inv(w', c) && SameRuns(w, w', c)
  {
    var s := St(w, d);
    var v := if Registered(cmd.verb) then Note(Set(w, d, s.(queue := s.queue + [cmd])), Queued(d, cmd))
             else Note(Set(w, d, s.(aborted := true)), Refused(d));
    var r := if Registered(cmd.verb) then QueuedReply else Error;
    assert Respond(w, d, cmd, []) == Answer(v, d, r);
    hide Inv, ViewOf, Answer, Respond;
    TxFacts(w, d);
    if Registered(cmd.verb) {
      TxStep(w, d, s.(queue := s.queue + [cmd]), Queued(d, cmd), c);
    } else {
      TxStep(w, d, s.(aborted := true), Refused(d), c);
    }
    AnswerKeeps(v, d, r, c);
  }

  lemma RespondKeeps<C>(w: World<C>, d: C, cmd: Command, os: seq<Oracle>, c: C)
    requires Inv(w, c) && Inv(w, d) && d in w.clients
    ensures Inv(Respond(w, d, cmd, os), c) && Grown(w, Respond(w, d, cmd, os))
    ensures Settled(w, c) ==> Settled(Respond(w, d, cmd, os), c)
  {
    hide Inv, ViewOf, Execute, ExecMulti, DiscardMulti, Answer;
    var s, o := St(w, d), if os == [] then Oracle([], 0, None, []) else os[0];
    if s.multi && cmd.verb != Exec && cmd.verb != Discard {
      QueueKeeps(w, d, cmd, c);
    } else if s.blocked {
    } else if s.sub && !AllowedInSub(cmd.verb) {
      AnswerKeeps(w, d, Error, c);
    } else if cmd.verb.Replica? {
      AnswerKeeps(w, d, if cmd.verb.accepted then Ok else Error, c);
    } else if cmd.verb.Unknown? {
      AnswerKeeps(w, d, Error, c);
    } else if cmd.verb == Exec {
      ExecRunsQueue(w, d, os, c);
    } else if cmd.verb == Discard {
      DiscardMultiKeeps(w, d, c);
    } else {
      ExecuteKeeps(w, d, cmd, o, c);
    }
  }

  lemma {:induction false} RespondAllKeeps<C>(w: World<C>, d: C, cmds: seq<Command>, os: seq<seq<Oracle>>, c: C)
    requires Inv(w, c) && Inv(w, d) && d in w.clients
    ensures Inv(RespondAll(w, d, cmds, os), c) && Grown(w, RespondAll(w, d, cmds, os))
    ensures Settled(w, c) ==> Settled(RespondAll(w, d, cmds, os), c)
    decreases |cmds|
  {
    if cmds != [] {
      hide Inv, Respond, Settled;
      var o, rest := if os == [] then [] else os[0], if os == [] then [] else os[1..];
      RespondKeeps(w, d, cmds[0], o, c);
      RespondKeeps(w, d, cmds[0], o, d);
      RespondAllKeeps(Respond(w, d, cmds[0], o), d, cmds[1..], rest, c);
    }
  }

  /** The world in which client d is dead and its remaining subscriptions are keys. */
  function Dying<C(==)>(w: World<C>, d: C, keys: seq<Key>): World<C> {
    Set(w, d, St(w, d).(subs := (set k | k in keys), alive := false))
  }

  lemma {:induction false} CleanupFromKeeps<C>(w: World<C>, d: C, keys: seq<Key>, c: C)
    requires d in w.clients && Inv(Dying(w, d, keys), c) && Inv(Dying(w, d, keys), d)
    requires forall i, j :: 0 <= i < j < |keys| ==> keys[i] != keys[j]
    ensures Inv(CleanupFrom(w, d, keys), c) && CleanupFrom(w, d, keys).log == w.log
    decreases |keys|
  {
    hide Inv, ViewOf, Without;
    if keys == [] {
      Frame(Dying(w, d, keys), CleanupFrom(w, d, keys), c);
    } else {
      var k := keys[0];
      var m := PutNonEmpty(w.subscribers, k, Without(At(w.subscribers, k), d));
      forall x | x == c || x == d
        ensures Inv(Dying(w.(subscribers := m), d, keys[1..]), x)
      {
        CleanupStep(w, d, keys, x);
      }
      CleanupFromKeeps(w.(subscribers := m), d, keys[1..], c);
    }
  }

  lemma CleanupStep<C>(w: World<C>, d: C, keys: seq<Key>, c: C)
    requires d in w.clients && keys != [] && Inv(Dying(w, d, keys), c)
    requires forall i, j :: 0 <= i < j < |keys| ==> keys[i] != keys[j]
    ensures var m := PutNonEmpty(w.subscribers, keys[0], Without(At(w.subscribers, keys[0]), d));
      Inv(Dying(w.(subscribers := m), d, keys[1..]), c)
  {
    hide Inv, ViewOf, Without, PutNonEmpty, Times, At;
    var k, t := keys[0], St(w, d).(subs := (set j | j in keys[1..]), alive := false);
    PutNonEmptyFacts(w.subscribers, k, Without(At(w.subscribers, k), d));
    var m := PutNonEmpty(w.subscribers, k, Without(At(w.subscribers, k), d));
    WithoutCount(At(w.subscribers, k), d, c);
    DyingStep(w, m, d, keys);
    assert St(Dying(w, d, keys), d) == St(w, d).(subs := (set j | j in keys), alive := false);
    hide Dying, SameRuns, Grown, SameFlags;
    assert SameFlags(t.(subs := {}, sub := false), St(Dying(w, d, keys), d).(subs := {}, sub := false)) by {
      FlagsOf(St(w, d), t.subs, St(Dying(w, d, keys), d).subs);
    }
    SubChange(Dying(w, d, keys), m, d, t, k, c);
  }

  lemma FlagsOf(s: ClientState, a: set<Key>, b: set<Key>)
    ensures SameFlags(s.(subs := a, alive := false).(subs := {}, sub := false),
                      s.(subs := b, alive := false).(subs := {}, sub := false))
  {
  }

  lemma DyingStep<C>(w: World<C>, m: map<Key, seq<C>>, d: C, keys: seq<Key>)
    requires keys != []
    requires forall i, j :: 0 <= i < j < |keys| ==> keys[i] != keys[j]
    ensures var t := St(w, d).(subs := (set j | j in keys[1..]), alive := false);
      Set(Dying(w, d, keys).(subscribers := m), d, t) == Dying(w.(subscribers := m), d, keys[1..])
    ensures forall j :: j in keys <==> j == keys[0] || j in keys[1..]
    ensures keys[0] !in keys[1..]
  {
    assert keys == [keys[0]] + keys[1..];
  }

  lemma DyingStarts<C>(w: World<C>, d: C, keys: seq<Key>, c: C)
    requires Inv(w, c) && d in w.clients && Enumerates(keys, w.clients[d].subs)
    ensures Inv(Dying(w, d, keys), c)
  {
    hide ViewOf, Faithful;
    var w' := Dying(w, d, keys);
    assert (set k | k in keys) == w.clients[d].subs;
    SubFrame(w, w', c);
    BlockFrame(w, w', c);
  }

  lemma ApplyKeeps<C>(w: World<C>, step: Step<C>, c: C)
    requires Enabled(w, step) && Inv(w, c)
    requires step.Receive? || step.Cleanup? ==> Inv(w, step.c)
    ensures Inv(Apply(w, step), c)
    ensures Settled(w, c) ==> Settled(Apply(w, step), c)
  {
    hide Inv, ViewOf, RespondAll, CleanupFrom, ServeAllReady, ExpireKeys, DoAll;
    match step
    case Accept(d) => Frame(w, Apply(w, step), c);
    case Receive(d, cmds, os) => RespondAllKeeps(w, d, cmds, os, c);
    case Disconnect(d) => DisconnectKeeps(w, d, c);
    case Cleanup(d, keys) =>
      DyingStarts(w, d, keys, c);
      DyingStarts(w, d, keys, d);
      CleanupFromKeeps(w, d, keys, c);
    case BeforeSleep(visits) => ServeAllReadyKeeps(w, visits, c);
    case Timer(keys, now) => ExpireKeysKeeps(w, keys, now, c);
    case Cron(sweep) => DoAllKeeps(w, sweep, c);
  }

  lemma DisconnectKeeps<C>(w: World<C>, d: C, c: C)
    requires Inv(w, c) && d in w.clients
    ensures Inv(Set(w, d, St(w, d).(alive := false)), c)
  {
    var w' := Set(w, d, St(w, d).(alive := false));
    SubFrame(w, w', c);
    BlockFrame(w, w', c);
  }

  /** Every reachable world agrees with every client's history. */
  lemma {:induction false} RunKeeps<C>(steps: seq<Step<C>>, c: C)
    requires Legal(steps)
    ensures Inv(Run(steps), c) && Settled(Run(steps), c)
    decreases |steps|
  {
    if steps != [] {
      hide Inv, Apply, Settled;
      var before, step := steps[..|steps| - 1], steps[|steps| - 1];
      RunKeeps(before, c);
      if step.Receive? || step.Cleanup? { RunKeeps(before, step.c); }
      ApplyKeeps(Run(before), step, c);
    } else {
      var w: World<C> := Start();
      forall k: Key ensures SubOk(w, c, k) && BlockOk(w, c, k) {
      }
    }
  }
}
