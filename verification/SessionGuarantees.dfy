// What holds over every interleaving of client steps: optimistic locking, blocks that run whole or
// not at all, two-way subscriptions, and waiting in order.
module SessionGuarantees {
  import opened Options
  import opened Sessions
  import opened SessionHistory
  import opened SessionInvariant
  import opened SessionSignals

  // ----- from prefixes of the log to its events -----

  lemma ViewStep<C>(log: seq<Event<C>>, n: nat, c: C)
    requires n < |log|
    ensures ViewOf(log[..n + 1], c) == See(ViewOf(log[..n], c), c, log[n])
  {
    assert log[..n + 1][..n] == log[..n];
  }

  lemma WatchStep<C>(log: seq<Event<C>>, n: nat, c: C)
    requires n < |log|
    ensures var v, v', e := ViewOf(log[..n], c), ViewOf(log[..n + 1], c), log[n];
      && v'.watch == (if e == Unwatched(c) then {} else if e.Watched? && e.c == c then v.watch + {e.key} else v.watch)
      && v'.doomed == ((v.doomed && e != Aborted(c)) || (e.Modified? && e.key in v.watch))
  {
    hide ViewOf, See;
    ViewStep(log, n, c);
    SeeWatch(ViewOf(log[..n], c), c, log[n]);
  }

  lemma BlockStep<C>(log: seq<Event<C>>, n: nat, c: C)
    requires n < |log|
    ensures var v, v', e := ViewOf(log[..n], c), ViewOf(log[..n + 1], c), log[n];
      && v'.open == (
           if e == Opened(c) then Some([]) else if e == Closed(c) then None
           else if e.Queued? && e.c == c && v.open.Some? then Some(v.open.value + [e.cmd]) else v.open)
      && v'.refused == if e == Opened(c) || e == Closed(c) then false else v.refused || e == Refused(c)
  {
    hide ViewOf, See;
    ViewStep(log, n, c);
    SeeBlock(ViewOf(log[..n], c), c, log[n]);
  }

  lemma WaitStep<C>(log: seq<Event<C>>, n: nat, c: C)
    requires n < |log|
    ensures var v, v', e := ViewOf(log[..n], c), ViewOf(log[..n + 1], c), log[n];
      && v'.waits == (if BlockOf(e, c) then Some(e.key) else if AnswerTo(e, c) then None else v.waits)
      && v'.overlapped == (v.overlapped || (BlockOf(e, c) && v.waits.Some?))
      && v'.until == if BlockOf(e, c) then Deadline(e.timeout, e.at) else if AnswerTo(e, c) then None else v.until
  {
    hide ViewOf, See;
    ViewStep(log, n, c);
    SeeWaits(ViewOf(log[..n], c), c, log[n]);
  }

  lemma QueueStep<C>(log: seq<Event<C>>, n: nat, k: Key)
    requires n < |log|
    ensures WaitQueue(log[..n + 1], k) == QueueSee(WaitQueue(log[..n], k), k, log[n])
  {
    assert log[..n + 1][..n] == log[..n];
  }

  lemma {:induction false} FaithfulAt<C>(log: seq<Event<C>>, m: nat, c: C)
    requires Faithful(log, c) && m < |log|
    ensures Allowed(ViewOf(log[..m], c), c, log[m])
    decreases |log|
  {
    var last := |log| - 1;
    if m < last {
      FaithfulAt(log[..last], m, c);
      assert log[..last][..m] == log[..m];
    }
  }

  lemma {:induction false} FifoAt<C>(log: seq<Event<C>>, m: nat)
    requires Fifo(log) && m < |log| && log[m].Served?
    ensures var q := WaitQueue(log[..m], log[m].key); q != [] && q[0] == log[m].c
    decreases |log|
  {
    var last := |log| - 1;
    if m < last {
      FifoAt(log[..last], m);
      assert log[..last][..m] == log[..m];
    }
  }

  // ----- optimistic locking -----

  lemma {:induction false} WatchedUntil<C>(log: seq<Event<C>>, c: C, k: Key, i: nat, j: nat)
    requires i < j <= |log| && log[i] == Watched(c, k)
    requires forall n :: i < n < j ==> log[n] != Unwatched(c)
    ensures k in ViewOf(log[..j], c).watch
    decreases j
  {
    hide ViewOf;
    WatchStep(log, j - 1, c);
    if j > i + 1 { WatchedUntil(log, c, k, i, j - 1); }
  }

  lemma {:induction false} DoomedUntil<C>(log: seq<Event<C>>, c: C, k: Key, i: nat, j: nat, m: nat)
    requires i < j < m <= |log| && log[i] == Watched(c, k) && log[j] == Modified(k)
    requires forall n :: i < n < j ==> log[n] != Unwatched(c)
    requires forall n :: j < n < m ==> log[n] != Aborted(c)
    ensures ViewOf(log[..m], c).doomed
    decreases m
  {
    hide ViewOf;
    WatchStep(log, m - 1, c);
    if m > j + 1 { DoomedUntil(log, c, k, i, j, m - 1); } else { WatchedUntil(log, c, k, i, j); }
  }

  /** If a key is modified by anybody while c watches it, c commits no transaction before one of its
      EXECs has aborted. */
  lemma OptimisticLocking<C>(steps: seq<Step<C>>, c: C, k: Key, i: nat, j: nat, m: nat)
    requires Legal(steps)
    requires var log := Run(steps).log;
      && i < j < m < |log|
      && log[i] == Watched(c, k) && log[j] == Modified(k) && log[m].Committed? && log[m].c == c
      && (forall n :: i < n < j ==> log[n] != Unwatched(c))
    ensures exists a :: j < a < m && Run(steps).log[a] == Aborted(c)
  {
    hide Inv;
    var log := Run(steps).log;
    RunKeeps(steps, c);
    FaithfulOf(Run(steps), c);
    FaithfulAt(log, m, c);
    if forall n :: j < n < m ==> log[n] != Aborted(c) {
      DoomedUntil(log, c, k, i, j, m);
      assert false;
    }
  }

  lemma FaithfulOf<C>(w: World<C>, c: C)
    requires Inv(w, c)
    ensures Faithful(w.log, c) && Fifo(w.log)
  {
  }

  /** In that situation the next EXEC runs nothing, and if it is reached in a block it drops the
      queue, ends the block, and stops watching. */
  lemma DoomedExecRunsNothing<C>(steps: seq<Step<C>>, c: C, k: Key, i: nat, j: nat, cmd: Command, os: seq<Oracle>)
    requires Legal(steps) && c in Run(steps).clients && cmd.verb == Exec
    requires var log := Run(steps).log;
      && i < j < |log| && log[i] == Watched(c, k) && log[j] == Modified(k)
      && (forall n :: i < n < j ==> log[n] != Unwatched(c))
      && (forall n :: j < n < |log| ==> log[n] != Aborted(c))
    ensures var w, w' := Run(steps), Respond(Run(steps), c, cmd, os);
      && ViewOf(w'.log, c).ran == ViewOf(w.log, c).ran
      && w'.store == w.store
      && (St(w, c).multi && !St(w, c).blocked && !St(w, c).sub ==>
            && St(w', c).queue == [] && !St(w', c).multi && !St(w', c).cas
            && St(w', c).replies == St(w, c).replies + [Null]
            && ViewOf(w'.log, c).watch == {})
  {
    var w, log := Run(steps), Run(steps).log;
    RunKeeps(steps, c);
    DoomedUntil(log, c, k, i, j, |log|);
    assert log[..|log|] == log;
    assert St(w, c).cas;
    var s := St(w, c);
    hide Inv, ViewOf;
    if s.multi && !s.blocked && !s.sub {
      AbortEffects(w, c, os);
    } else if !s.blocked && !s.sub {
      assert Respond(w, c, cmd, os) == Answer(w, c, Error);
    }
  }

  /** A key was modified while c watched it, since its last aborted EXEC. */
  ghost predicate ModifiedWhileWatched<C>(log: seq<Event<C>>, c: C) {
    exists i: nat, j: nat, k :: WatchHit(log, c, i, j, k) && forall n :: j < n < |log| ==> log[n] != Aborted(c)
  }

  predicate WatchHit<C(==)>(log: seq<Event<C>>, c: C, i: nat, j: nat, k: Key) {
    && i < j < |log| && log[i] == Watched(c, k) && log[j] == Modified(k)
    && (forall n :: i < n < j ==> log[n] != Unwatched(c))
  }

  /** An unknown command was refused in the block that is open. */
  ghost predicate RefusedInBlock<C>(log: seq<Event<C>>, c: C) {
    exists r {:trigger log[r]} :: 0 <= r < |log| && log[r] == Refused(c)
      && forall n :: r < n < |log| ==> log[n] != Opened(c) && log[n] != Closed(c)
  }

  lemma {:induction false} WatchedSince<C>(log: seq<Event<C>>, c: C, k: Key, m: nat) returns (i: nat)
    requires m <= |log| && k in ViewOf(log[..m], c).watch
    ensures i < m && log[i] == Watched(c, k) && forall n :: i < n < m ==> log[n] != Unwatched(c)
    decreases m
  {
    assert m > 0;
    hide ViewOf;
    WatchStep(log, m - 1, c);
    if log[m - 1] == Watched(c, k) { i := m - 1; } else { i := WatchedSince(log, c, k, m - 1); }
  }

  lemma {:induction false} DoomedSince<C>(log: seq<Event<C>>, c: C, m: nat) returns (i: nat, j: nat, k: Key)
    requires m <= |log| && ViewOf(log[..m], c).doomed
    ensures j < m && WatchHit(log, c, i, j, k) && forall n :: j < n < m ==> log[n] != Aborted(c)
    decreases m
  {
    assert m > 0;
    hide ViewOf;
    WatchStep(log, m - 1, c);
    if ViewOf(log[..m - 1], c).doomed {
      i, j, k := DoomedSince(log, c, m - 1);
    } else {
      j, k := m - 1, log[m - 1].key;
      i := WatchedSince(log, c, k, j);
    }
  }

  lemma {:induction false} RefusedSince<C>(log: seq<Event<C>>, c: C, m: nat) returns (r: nat)
    requires m <= |log| && ViewOf(log[..m], c).refused
    ensures r < m && log[r] == Refused(c) && forall n :: r < n < m ==> log[n] != Opened(c) && log[n] != Closed(c)
    decreases m
  {
    assert m > 0;
    hide ViewOf;
    BlockStep(log, m - 1, c);
    if log[m - 1] == Refused(c) { r := m - 1; } else { r := RefusedSince(log, c, m - 1); }
  }

  lemma {:induction false} RefusedUntil<C>(log: seq<Event<C>>, c: C, r: nat, m: nat)
    requires r < m <= |log| && log[r] == Refused(c)
    requires forall n :: r < n < m ==> log[n] != Opened(c) && log[n] != Closed(c)
    ensures ViewOf(log[..m], c).refused
    decreases m
  {
    hide ViewOf;
    BlockStep(log, m - 1, c);
    if m > r + 1 { RefusedUntil(log, c, r, m - 1); }
  }

  /** What spoils a transaction, read off the history both ways. */
  lemma SpoiltExact<C>(log: seq<Event<C>>, c: C)
    ensures ViewOf(log, c).doomed <==> ModifiedWhileWatched(log, c)
    ensures ViewOf(log, c).refused <==> RefusedInBlock(log, c)
  {
    hide ViewOf;
    assert log[..|log|] == log;
    if ViewOf(log, c).doomed { var i, j, k := DoomedSince(log, c, |log|); }
    if ModifiedWhileWatched(log, c) {
      var i: nat, j: nat, k :| WatchHit(log, c, i, j, k) && forall n :: j < n < |log| ==> log[n] != Aborted(c);
      DoomedUntil(log, c, k, i, j, |log|);
    }
    if ViewOf(log, c).refused { var r := RefusedSince(log, c, |log|); }
    if RefusedInBlock(log, c) {
      var r :| 0 <= r < |log| && log[r] == Refused(c)
        && forall n :: r < n < |log| ==> log[n] != Opened(c) && log[n] != Closed(c);
      RefusedUntil(log, c, r, |log|);
    }
  }

  /** An EXEC reached in a block aborts exactly when a key was modified while its client watched it since
      the client's last aborted EXEC, or an unknown command was refused in the block. Otherwise it
      commits what is queued. */
  lemma ExecAbortsExactly<C>(steps: seq<Step<C>>, c: C, cmd: Command, os: seq<Oracle>)
    requires Legal(steps) && cmd.verb == Exec
    requires var s := St(Run(steps), c); s.multi && !s.blocked && !s.sub
    ensures var w, w' := Run(steps), Respond(Run(steps), c, cmd, os);
      var spoilt := ModifiedWhileWatched(w.log, c) || RefusedInBlock(w.log, c);
      && (w'.log == w.log + [Unwatched(c), Aborted(c), Closed(c)] <==> spoilt)
      && (w.log + [Committed(c, St(w, c).queue)] <= w'.log <==> !spoilt)
  {
    var w := Run(steps);
    RunKeeps(steps, c);
    SpoiltExact(w.log, c);
    MarkExact(w, c);
    hide Inv, ViewOf, Legal, Run, ModifiedWhileWatched, RefusedInBlock, ExecMulti;
    var w' := Respond(w, c, cmd, os);
    assert w' == ExecMulti(w, c, os);
    var commit, abort := w.log + [Committed(c, St(w, c).queue)], w.log + [Unwatched(c), Aborted(c), Closed(c)];
    assert commit[|w.log|] != abort[|w.log|];
    if Commits(St(w, c)) {
      CommitNotes(w, c, os);
      assert w'.log[|w.log|] == commit[|w.log|];
    } else {
      AbortEffects(w, c, os);
    }
  }

  lemma MarkExact<C>(w: World<C>, c: C)
    requires Inv(w, c)
    ensures St(w, c).cas == ViewOf(w.log, c).doomed && St(w, c).aborted == ViewOf(w.log, c).refused
  {
  }

  lemma CommitNotes<C>(w: World<C>, c: C, os: seq<Oracle>)
    requires Commits(St(w, c))
    ensures w.log + [Committed(c, St(w, c).queue)] <= ExecMulti(w, c, os).log
  {
    var q := St(w, c).queue;
    if q != [] {
      var u := Answer(Note(w, Committed(c, q)), c, Count(|q|));
      LoopNotes(u, c, q, os);
      hide ExecLoop;
    }
  }

  // Commands only add to the history.

  lemma {:induction false} LoopNotes<C>(w: World<C>, c: C, cmds: seq<Command>, os: seq<Oracle>)
    ensures w.log <= ExecLoop(w, c, cmds, os).log
    decreases |cmds|
  {
    if cmds != [] {
      hide Execute;
      var o, rest := if os == [] then Oracle([], 0, None, []) else os[0], if os == [] then [] else os[1..];
      var u := Note(w, Executed(c, cmds[0]));
      ExecuteNotes(u, c, cmds[0], o);
      LoopNotes(Execute(u, c, cmds[0], o), c, cmds[1..], rest);
    }
  }

  lemma ExecuteNotes<C>(w: World<C>, c: C, cmd: Command, o: Oracle)
    ensures w.log <= Execute(w, c, cmd, o).log
  {
    hide DoAll, Broadcast, SubscribeAll, UnsubscribeAll, Sessions.WatchKeys, Visit, Do, PopFor, Answer, BlockOn;
    hide OpsOf, ReplyOf;
    match cmd.verb
    case Multi => AnswerNotes(Note(Set(w, c, Reset(St(w, c)).(multi := true)), Opened(c)), c, Ok);
    case Watch =>
      AnswerNotes(w, c, Error);
      WatchNotes(w, c, cmd.args);
      AnswerNotes(WatchKeys(w, c, cmd.args), c, Ok);
    case Subscribe => SubscribeNotes(w, c, cmd.args);
    case Unsubscribe => UnsubscribeNotes(w, c, if cmd.args == [] then Visit(St(w, c).subs, o.keys) else cmd.args);
    case Publish =>
      AnswerNotes(w, c, Error);
      if |cmd.args| == 2 {
        var to, r := At(w.subscribers, cmd.args[0]), Message(cmd.args[0], cmd.args[1]);
        BroadcastNotes(w, to, r);
        AnswerNotes(Broadcast(w, to, r), c, Count(|to|));
      }
    case Blpop =>
      AnswerNotes(w, c, Error);
      if |cmd.args| == 2 && o.timeout.Some? {
        PopNotes(w, c, cmd.args[0], o.now);
        BlockNotes(w, c, cmd.args[0], o.timeout.value, o.now);
      }
    case Ping => AnswerNotes(w, c, Ok);
    case _ =>
      var ops := OpsOf(w, cmd, o);
      StoreSignals(w, ops);
      AnswerNotes(DoAll(w, ops), c, ReplyOf(w, cmd, o));
  }

  lemma AnswerNotes<C>(w: World<C>, c: C, r: Reply)
    ensures Answer(w, c, r).log == w.log
  {
  }

  lemma BlockNotes<C>(w: World<C>, c: C, k: Key, timeout: int, now: nat)
    ensures w.log <= BlockOn(w, c, k, timeout, now).log
  {
  }

  lemma PopNotes<C>(w: World<C>, c: C, k: Key, now: nat)
    ensures w.log <= PopFor(w, c, k, now).log
  {
    hide DoAll, PopOps, PopReply;
    StoreSignals(w, PopOps(w, k, now));
  }

  lemma {:induction false} WatchNotes<C>(w: World<C>, c: C, keys: seq<Key>)
    ensures w.log <= WatchKeys(w, c, keys).log
    decreases |keys|
  {
    if keys != [] {
      WatchNotes(Note(w.(watched := w.watched[keys[0] := At(w.watched, keys[0]) + [c]]), Watched(c, keys[0])),
                 c, keys[1..]);
    }
  }

  lemma {:induction false} SubscribeNotes<C>(w: World<C>, c: C, keys: seq<Key>)
    ensures SubscribeAll(w, c, keys).log == w.log
    decreases |keys|
  {
    if keys != [] { SubscribeNotes(SubscribeTo(w, c, keys[0]), c, keys[1..]); }
  }

  lemma {:induction false} UnsubscribeNotes<C>(w: World<C>, c: C, keys: seq<Key>)
    ensures UnsubscribeAll(w, c, keys).log == w.log
    decreases |keys|
  {
    if keys != [] { UnsubscribeNotes(UnsubscribeFrom(w, c, keys[0]), c, keys[1..]); }
  }

  lemma {:induction false} BroadcastNotes<C>(w: World<C>, to: seq<C>, r: Reply)
    ensures Broadcast(w, to, r).log == w.log
    decreases |to|
  {
    if to != [] { BroadcastNotes(Answer(w, to[0], r), to[1..], r); }
  }

  lemma AbortEffects<C>(w: World<C>, c: C, os: seq<Oracle>)
    requires St(w, c).multi && (St(w, c).cas || St(w, c).aborted)
    ensures var w' := ExecMulti(w, c, os);
      && w'.log == w.log + [Unwatched(c), Aborted(c), Closed(c)]
      && w'.store == w.store
      && St(w', c) == St(w, c).(queue := [], aborted := false, multi := false, cas := false,
                                replies := St(w, c).replies + [Null])
      && ViewOf(w'.log, c).watch == {} && ViewOf(w'.log, c).ran == ViewOf(w.log, c).ran
  {
    AbortView(w.log, c);
    hide ViewOf, ExecLoop;
    var a := w.log + [Unwatched(c)];
    assert a + [Aborted(c)] + [Closed(c)] == w.log + [Unwatched(c), Aborted(c), Closed(c)];
  }

  lemma AbortView<C>(log: seq<Event<C>>, c: C)
    ensures var v, v' := ViewOf(log, c), ViewOf(log + [Unwatched(c), Aborted(c), Closed(c)], c);
      v'.watch == {} && v'.ran == v.ran
  {
    hide ViewOf;
    var a := log + [Unwatched(c)];
    var b := a + [Aborted(c)];
    ViewSnoc(log, Unwatched(c), c);
    ViewSnoc(a, Aborted(c), c);
    ViewSnoc(b, Closed(c), c);
    assert b + [Closed(c)] == log + [Unwatched(c), Aborted(c), Closed(c)];
  }

  // ----- blocks -----

  /** The commands of client c answered QUEUED in a stretch of the log. */
  function QueuedIn<C(==)>(log: seq<Event<C>>, c: C): seq<Command>
    decreases |log|
  {
    if log == [] then []
    else
      var e := log[|log| - 1];
      QueuedIn(log[..|log| - 1], c) + (if e.Queued? && e.c == c then [e.cmd] else [])
  }

  /** An unbroken block of c starts at o: since then c has neither opened nor closed one, and had no
      unknown command refused. */
  predicate BlockFrom<C(==)>(log: seq<Event<C>>, c: C, o: nat, m: nat) {
    && o < m <= |log| && log[o] == Opened(c)
    && (forall n :: o < n < m ==> log[n] != Opened(c) && log[n] != Closed(c) && log[n] != Refused(c))
  }

  lemma {:induction false} OpenSince<C>(log: seq<Event<C>>, c: C, m: nat) returns (o: nat)
    requires m <= |log| && ViewOf(log[..m], c).open.Some? && !ViewOf(log[..m], c).refused
    ensures BlockFrom(log, c, o, m)
    ensures ViewOf(log[..m], c).open == Some(QueuedIn(log[o + 1..m], c))
    decreases m
  {
    assert m > 0;
    BlockStep(log, m - 1, c);
    hide ViewOf, QueuedIn;
    if log[m - 1] == Opened(c) {
      o := m - 1;
      assert log[o + 1..m] == [];
      NothingQueued(c);
    } else {
      o := OpenSince(log, c, m - 1);
      OpenStep(log, c, o, m - 1);
    }
  }

  lemma OpenStep<C>(log: seq<Event<C>>, c: C, o: nat, m: nat)
    requires m < |log| && BlockFrom(log, c, o, m) && log[m] != Opened(c)
    requires ViewOf(log[..m], c).open == Some(QueuedIn(log[o + 1..m], c))
    requires ViewOf(log[..m + 1], c).open.Some? && !ViewOf(log[..m + 1], c).refused
    ensures BlockFrom(log, c, o, m + 1)
    ensures ViewOf(log[..m + 1], c).open == Some(QueuedIn(log[o + 1..m + 1], c))
  {
    hide ViewOf, QueuedIn;
    BlockStep(log, m, c);
    QueuedSnoc(log, c, o + 1, m);
  }

  lemma NothingQueued<C>(c: C)
    ensures QueuedIn([], c) == []
  {
  }

  lemma QueuedSnoc<C>(log: seq<Event<C>>, c: C, i: nat, m: nat)
    requires i <= m < |log|
    ensures var q, e := QueuedIn(log[i..m], c), log[m];
      QueuedIn(log[i..m + 1], c) == if e.Queued? && e.c == c then q + [e.cmd] else q
  {
    var block := log[i..m + 1];
    assert block[..|block| - 1] == log[i..m] && block[|block| - 1] == log[m];
  }

  /** A committed EXEC takes exactly the commands answered QUEUED since the MULTI that opened its
      block, in order; no command of that block was unknown. */
  lemma CommitTakesBlock<C>(steps: seq<Step<C>>, c: C, m: nat) returns (o: nat)
    requires Legal(steps)
    requires m < |Run(steps).log| && Run(steps).log[m].Committed? && Run(steps).log[m].c == c
    ensures BlockFrom(Run(steps).log, c, o, m)
    ensures Run(steps).log[m].cmds == QueuedIn(Run(steps).log[o + 1..m], c)
  {
    hide Inv;
    RunKeeps(steps, c);
    FaithfulOf(Run(steps), c);
    FaithfulAt(Run(steps).log, m, c);
    o := OpenSince(Run(steps).log, c, m);
  }

  /** The commands of client c run from blocks, and those taken by its commits. */
  function RunIn<C(==)>(log: seq<Event<C>>, c: C): seq<Command>
    decreases |log|
  {
    if log == [] then []
    else
      var e := log[|log| - 1];
      RunIn(log[..|log| - 1], c) + (if e.Executed? && e.c == c then [e.cmd] else [])
  }

  function TakenIn<C(==)>(log: seq<Event<C>>, c: C): seq<Command>
    decreases |log|
  {
    if log == [] then []
    else
      var e := log[|log| - 1];
      TakenIn(log[..|log| - 1], c) + (if e.Committed? && e.c == c then e.cmds else [])
  }

  lemma WorkSnoc<C>(log: seq<Event<C>>, e: Event<C>, c: C)
    ensures var q := RunIn(log, c); RunIn(log + [e], c) == if e.Executed? && e.c == c then q + [e.cmd] else q
    ensures var q := TakenIn(log, c); TakenIn(log + [e], c) == if e.Committed? && e.c == c then q + e.cmds else q
  {
    assert (log + [e])[..|log|] == log;
  }

  lemma {:induction false} ViewWork<C>(log: seq<Event<C>>, c: C)
    ensures ViewOf(log, c).ran == RunIn(log, c) && ViewOf(log, c).due == TakenIn(log, c)
    decreases |log|
  {
    if log != [] {
      hide ViewOf, See, RunIn, TakenIn;
      var before, e := log[..|log| - 1], log[|log| - 1];
      ViewWork(before, c);
      assert log == before + [e];
      ViewSnoc(before, e, c);
      SeeWork(ViewOf(before, c), c, e);
      WorkSnoc(before, e, c);
    }
  }

  /** Over any run, the commands run from blocks are exactly those its commits took: in order, once
      each, none left out. */
  lemma BlocksRunWhole<C>(steps: seq<Step<C>>, c: C)
    requires Legal(steps)
    ensures RunIn(Run(steps).log, c) == TakenIn(Run(steps).log, c)
  {
    hide Inv;
    RunKeeps(steps, c);
    ViewWork(Run(steps).log, c);
  }

  /** Between blocks nothing is queued and nothing is marked as failed; and a client carries the mark
      that makes EXEC abort exactly while a key modified under its watch has not aborted one. */
  lemma SessionState<C>(steps: seq<Step<C>>, c: C)
    requires Legal(steps)
    ensures var w := Run(steps); var v, s := ViewOf(w.log, c), St(w, c);
      && (!s.multi ==> s.queue == [] && !s.aborted)
      && (s.multi <==> v.open.Some?) && (s.aborted <==> v.refused) && (s.cas <==> v.doomed)
      && (forall k: Key :: k in v.watch <==> c in At(w.watched, k))
  {
    RunKeeps(steps, c);
    hide ViewOf;
  }

  lemma DiscardKeepsMark<C>(w: World<C>, c: C)
    requires St(w, c).multi && !St(w, c).blocked && !St(w, c).sub
    ensures var w1 := Respond(w, c, Command(Discard, []), []);
      && St(w1, c) == Reset(St(w, c)).(multi := false, replies := St(w, c).replies + [Ok])
      && ViewOf(w1.log, c).watch == {} && ViewOf(w1.log, c).ran == ViewOf(w.log, c).ran
  {
    hide ViewOf;
    var u := Note(Set(w, c, Reset(St(w, c)).(multi := false)), Closed(c));
    ViewSnoc(w.log, Closed(c), c);
    ViewSnoc(u.log, Unwatched(c), c);
    assert Respond(w, c, Command(Discard, []), []) == Answer(UnwatchAll(u, c), c, Ok);
  }

  lemma OneBlock<C>(w: World<C>, c: C, cmd: Command)
    requires !St(w, c).multi && St(w, c).cas && !St(w, c).blocked && !St(w, c).sub
    requires cmd.verb != Exec && cmd.verb != Discard && Registered(cmd.verb)
    ensures var v := Respond(Respond(w, c, Command(Multi, []), []), c, cmd, []);
      && St(v, c).multi && St(v, c).cas && !St(v, c).blocked && !St(v, c).sub
      && St(v, c).replies == St(w, c).replies + [Ok, QueuedReply]
      && ViewOf(v.log, c).ran == ViewOf(w.log, c).ran
  {
    hide ViewOf;
    var u := Respond(w, c, Command(Multi, []), []);
    assert u == BeginMulti(w, c);
    ViewSnoc(w.log, Opened(c), c);
    ViewSnoc(u.log, Queued(c, cmd), c);
  }

  lemma MarkedExec<C>(w: World<C>, c: C)
    requires St(w, c).multi && St(w, c).cas && !St(w, c).blocked && !St(w, c).sub
    ensures var w' := Respond(w, c, Command(Exec, []), []);
      && St(w', c).replies == St(w, c).replies + [Null]
      && ViewOf(w'.log, c).ran == ViewOf(w.log, c).ran
  {
    hide ViewOf, ExecMulti;
    AbortEffects(w, c, []);
    assert Respond(w, c, Command(Exec, []), []) == ExecMulti(w, c, []);
  }

  /** The converse fails: the mark outlives its cause. DISCARD ends the watching and keeps the mark,
      so the client's next transaction aborts although nothing it watches was modified. */
  lemma StaleMark<C>(w: World<C>, c: C, cmd: Command)
    requires St(w, c).multi && St(w, c).cas && !St(w, c).blocked && !St(w, c).sub
    requires cmd.verb != Exec && cmd.verb != Discard && Registered(cmd.verb)
    ensures var w1 := Respond(w, c, Command(Discard, []), []);
      var w3 := Respond(Respond(w1, c, Command(Multi, []), []), c, cmd, []);
      var w4 := Respond(w3, c, Command(Exec, []), []);
      && ViewOf(w1.log, c).watch == {}
      && St(w4, c).replies == St(w, c).replies + [Ok, Ok, QueuedReply, Null]
      && ViewOf(w4.log, c).ran == ViewOf(w.log, c).ran
  {
    hide Respond, ViewOf, RunIn;
    DiscardKeepsMark(w, c);
    var w1 := Respond(w, c, Command(Discard, []), []);
    OneBlock(w1, c, cmd);
    MarkedExec(Respond(Respond(w1, c, Command(Multi, []), []), c, cmd, []), c);
  }
}
