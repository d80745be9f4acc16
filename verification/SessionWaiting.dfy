// What waiting clients can rely on over every interleaving of client steps: one queue at a time, in
// order, answered once.
module SessionWaiting {
  import opened Options
  import opened Sessions
  import opened SessionHistory
  import opened SessionInvariant
  import opened SessionGuarantees
  import opened SessionSignals

  // ----- waiting -----

  /** Client c was never blocked while it was waiting: between two of its blocks lies an answer. */
  ghost predicate NeverTwice<C>(log: seq<Event<C>>, c: C) {
    forall i, j {:trigger log[i], log[j]} :: 0 <= i < j < |log| && BlockOf(log[i], c) && BlockOf(log[j], c) ==>
      exists n :: i < n < j && AnswerTo(log[n], c)
  }

  lemma {:induction false} WaitsSince<C>(log: seq<Event<C>>, c: C, m: nat) returns (i: nat)
    requires m <= |log| && ViewOf(log[..m], c).waits.Some?
    ensures i < m && BlockOf(log[i], c) && forall n :: i < n < m ==> !AnswerTo(log[n], c)
    decreases m
  {
    assert m > 0;
    hide ViewOf, AnswerTo, BlockOf;
    WaitStep(log, m - 1, c);
    if BlockOf(log[m - 1], c) { i := m - 1; } else { i := WaitsSince(log, c, m - 1); }
  }

  lemma {:induction false} WaitsUntil<C>(log: seq<Event<C>>, c: C, i: nat, m: nat)
    requires i < m <= |log| && BlockOf(log[i], c)
    requires forall n :: i < n < m ==> !AnswerTo(log[n], c)
    ensures ViewOf(log[..m], c).waits.Some?
    decreases m
  {
    hide ViewOf, AnswerTo, BlockOf;
    WaitStep(log, m - 1, c);
    if m > i + 1 { WaitsUntil(log, c, i, m - 1); }
  }

  lemma {:induction false} OverlapStays<C>(log: seq<Event<C>>, c: C, m: nat)
    requires m <= |log| && !ViewOf(log, c).overlapped
    ensures !ViewOf(log[..m], c).overlapped
    decreases |log|
  {
    var last := |log| - 1;
    if m <= last {
      OverlapStays(log[..last], c, m);
      assert log[..last][..m] == log[..m];
    } else {
      assert log[..m] == log;
    }
  }

  lemma {:induction false} OverlapAt<C>(log: seq<Event<C>>, c: C, m: nat)
    requires m <= |log| && NeverTwice(log, c)
    ensures !ViewOf(log[..m], c).overlapped
    decreases m
  {
    if m > 0 {
      OverlapAt(log, c, m - 1);
      hide ViewOf, AnswerTo, BlockOf;
      WaitStep(log, m - 1, c);
      if BlockOf(log[m - 1], c) && ViewOf(log[..m - 1], c).waits.Some? {
        var i := WaitsSince(log, c, m - 1);
        assert false;
      }
    }
  }

  lemma BlockedTwice<C>(log: seq<Event<C>>, c: C, i: nat, j: nat)
    requires i < j < |log| && BlockOf(log[i], c) && BlockOf(log[j], c)
    requires forall n :: i < n < j ==> !AnswerTo(log[n], c)
    ensures ViewOf(log, c).overlapped
  {
    hide ViewOf, AnswerTo, BlockOf;
    WaitsUntil(log, c, i, j);
    WaitStep(log, j, c);
    if !ViewOf(log, c).overlapped { OverlapStays(log, c, j + 1); }
  }

  /** The history of c shows no overlap exactly when it was never blocked while waiting. */
  lemma NeverTwiceExact<C>(log: seq<Event<C>>, c: C)
    ensures NeverTwice(log, c) <==> !ViewOf(log, c).overlapped
  {
    assert log[..|log|] == log;
    if NeverTwice(log, c) {
      OverlapAt(log, c, |log|);
    } else {
      hide ViewOf, AnswerTo, BlockOf;
      var i, j :| 0 <= i < j < |log| && BlockOf(log[i], c) && BlockOf(log[j], c)
        && forall n :: i < n < j ==> !AnswerTo(log[n], c);
      BlockedTwice(log, c, i, j);
    }
  }

  /** No block of c that was committed held two BLPOPs. */
  predicate OneBlpopABlock<C(==)>(log: seq<Event<C>>, c: C) {
    forall n {:trigger log[n]} :: 0 <= n < |log| && log[n].Committed? && log[n].c == c ==> Blpops(log[n].cmds) <= 1
  }

  lemma {:induction false} NotCrowded<C>(log: seq<Event<C>>, c: C)
    requires OneBlpopABlock(log, c)
    ensures !ViewOf(log, c).crowded
    decreases |log|
  {
    if log != [] {
      var init, e := log[..|log| - 1], log[|log| - 1];
      assert log == init + [e];
      ViewSnoc(init, e, c);
      SeeWork(ViewOf(init, c), c, e);
      hide ViewOf, See, Blpops;
      NotCrowded(init, c);
    } else {
      NoHistory(c);
    }
  }

  lemma NoHistory<C>(c: C)
    ensures ViewOf([], c) == BLANK
  {
  }

  /** That is enough: outside a block the server itself never blocks a waiting client. */
  lemma OneBlpopIsEnough<C>(steps: seq<Step<C>>, c: C)
    requires Legal(steps) && OneBlpopABlock(Run(steps).log, c)
    ensures NeverTwice(Run(steps).log, c)
  {
    RunKeeps(steps, c);
    NotCrowded(Run(steps).log, c);
    assert BlockAll(Run(steps), c);
    hide Inv;
    NeverTwiceExact(Run(steps).log, c);
  }

  /** Client c is in at most one waiting queue, and at most once. */
  ghost predicate InOneQueue<C>(w: World<C>, c: C) {
    && (forall k: Key {:trigger At(w.waiting, k)} :: Times(At(w.waiting, k), c) <= 1)
    && (forall j: Key, k: Key {:trigger At(w.waiting, j), At(w.waiting, k)} ::
          c in At(w.waiting, j) && c in At(w.waiting, k) ==> j == k)
  }

  ghost predicate Waits<C>(w: World<C>, c: C) {
    exists k: Key :: c in At(w.waiting, k)
  }

  /** And it is flagged as blocked exactly while it is in one. */
  ghost predicate Placed<C>(w: World<C>, c: C) {
    InOneQueue(w, c) && (St(w, c).blocked <==> Waits(w, c))
  }

  /** That holds between and inside commands, unless the client was blocked while already waiting. */
  lemma PlacedUnlessOverlapped<C>(w: World<C>, c: C)
    requires Inv(w, c) && !ViewOf(w.log, c).overlapped
    ensures Placed(w, c)
  {
    var waits := ViewOf(w.log, c).waits;
    assert BlockAll(w, c);
    hide Inv, ViewOf;
    forall k: Key ensures Times(At(w.waiting, k), c) == (if waits == Some(k) then 1 else 0) {
      assert BlockOk(w, c, k);
    }
    forall k: Key ensures c in At(w.waiting, k) <==> waits == Some(k) {
      assert c in At(w.waiting, k) <==> Times(At(w.waiting, k), c) > 0;
    }
    if waits.Some? { assert c in At(w.waiting, waits.value); }
  }

  /** Over runs: c is in at most one queue, at most once, and flagged exactly while it is, if it was
      never blocked while waiting. */
  lemma WaitsInOneQueue<C>(steps: seq<Step<C>>, c: C)
    requires Legal(steps) && NeverTwice(Run(steps).log, c)
    ensures Placed(Run(steps), c)
  {
    hide Inv;
    RunKeeps(steps, c);
    NeverTwiceExact(Run(steps).log, c);
    PlacedUnlessOverlapped(Run(steps), c);
  }

  /** Blocking a client leaves it in one queue exactly when it was not blocked already. */
  lemma BlockOnExact<C>(w: World<C>, c: C, k: Key, timeout: int, now: nat)
    requires Placed(w, c)
    ensures var w' := BlockOn(w, c, k, timeout, now);
      && (InOneQueue(w', c) <==> !St(w, c).blocked)
      && (!St(w, c).blocked ==> Placed(w', c))
  {
    var w' := BlockOn(w, c, k, timeout, now);
    assert St(w', c).blocked && w'.waiting == w.waiting[k := At(w.waiting, k) + [c]];
    hide BlockOn;
    assert At(w'.waiting, k) == At(w.waiting, k) + [c];
    if St(w, c).blocked {
      var j: Key :| c in At(w.waiting, j);
      if j == k {
        assert Times(At(w.waiting, k), c) > 0;
        assert Times(At(w'.waiting, k), c) > 1;
      } else {
        assert c in At(w'.waiting, j) && c in At(w'.waiting, k);
      }
    } else {
      forall j: Key ensures Times(At(w'.waiting, j), c) == (if j == k then 1 else 0) {
        assert c !in At(w.waiting, j);
      }
      forall j: Key ensures c in At(w'.waiting, j) <==> j == k {
        assert c in At(w'.waiting, j) <==> Times(At(w'.waiting, j), c) > 0;
      }
    }
  }

  // ----- waiting out of a block -----

  /** The command is a BLPOP that finds its key empty. */
  predicate Blocks<C>(w: World<C>, cmd: Command, o: Oracle) {
    cmd.verb == Blpop && |cmd.args| == 2 && o.timeout.Some? && IsEmptyKey(w, cmd.args[0])
  }

  /** Anything else leaves the queues and the client's flag alone. */
  lemma ExecuteWaits<C>(w: World<C>, c: C, cmd: Command, o: Oracle)
    ensures var w' := Execute(w, c, cmd, o);
      if Blocks(w, cmd, o) then w' == BlockOn(w, c, cmd.args[0], o.timeout.value, o.now)
      else w'.waiting == w.waiting && St(w', c).blocked == St(w, c).blocked
  {
    hide DoAll, Broadcast, SubscribeAll, UnsubscribeAll, Sessions.WatchKeys, PopFor, Visit, BlockOn, Answer;
    hide OpsOf, ReplyOf;
    match cmd.verb
    case Multi =>
      AnswerWaits(Note(Set(w, c, Reset(St(w, c)).(multi := true)), Opened(c)), c, Ok);
    case Watch =>
      WatchingWaits(w, c, cmd.args);
      AnswerWaits(w, c, Error);
      AnswerWaits(WatchKeys(w, c, cmd.args), c, Ok);
    case Subscribe => SubscribingWaits(w, c, cmd.args);
    case Unsubscribe => UnsubscribingWaits(w, c, if cmd.args == [] then Visit(St(w, c).subs, o.keys) else cmd.args);
    case Publish =>
      AnswerWaits(w, c, Error);
      if |cmd.args| == 2 {
        var to, r := At(w.subscribers, cmd.args[0]), Message(cmd.args[0], cmd.args[1]);
        BroadcastingWaits(w, to, r, c);
        AnswerWaits(Broadcast(w, to, r), c, Count(|to|));
      }
    case Blpop =>
      AnswerWaits(w, c, Error);
      if |cmd.args| == 2 { PopForSilent(w, c, cmd.args[0], o.now, c); }
    case Ping => AnswerWaits(w, c, Ok);
    case _ =>
      var ops := OpsOf(w, cmd, o);
      DoAllSilent(w, ops, c);
      AnswerWaits(DoAll(w, ops), c, ReplyOf(w, cmd, o));
  }

  lemma AnswerWaits<C>(w: World<C>, c: C, r: Reply)
    ensures var w' := Answer(w, c, r); w'.waiting == w.waiting && St(w', c).blocked == St(w, c).blocked
  {
  }

  lemma {:induction false} WatchingWaits<C>(w: World<C>, c: C, keys: seq<Key>)
    ensures var w' := WatchKeys(w, c, keys); w'.waiting == w.waiting && w'.clients == w.clients
    decreases |keys|
  {
    if keys != [] {
      WatchingWaits(Note(w.(watched := w.watched[keys[0] := At(w.watched, keys[0]) + [c]]), Watched(c, keys[0])),
                    c, keys[1..]);
    }
  }

  lemma {:induction false} SubscribingWaits<C>(w: World<C>, c: C, keys: seq<Key>)
    ensures var w' := SubscribeAll(w, c, keys); w'.waiting == w.waiting && St(w', c).blocked == St(w, c).blocked
    decreases |keys|
  {
    if keys != [] { SubscribingWaits(SubscribeTo(w, c, keys[0]), c, keys[1..]); }
  }

  lemma {:induction false} UnsubscribingWaits<C>(w: World<C>, c: C, keys: seq<Key>)
    ensures var w' := UnsubscribeAll(w, c, keys); w'.waiting == w.waiting && St(w', c).blocked == St(w, c).blocked
    decreases |keys|
  {
    if keys != [] { UnsubscribingWaits(UnsubscribeFrom(w, c, keys[0]), c, keys[1..]); }
  }

  lemma {:induction false} BroadcastingWaits<C>(w: World<C>, to: seq<C>, r: Reply, c: C)
    ensures var w' := Broadcast(w, to, r); w'.waiting == w.waiting && St(w', c).blocked == St(w, c).blocked
    decreases |to|
  {
    if to != [] { BroadcastingWaits(Answer(w, to[0], r), to[1..], r, c); }
  }

  /** How many commands of a block find themselves blocking, each in the world its predecessors left. */
  function Blockings<C(==)>(w: World<C>, c: C, cmds: seq<Command>, os: seq<Oracle>): nat
    decreases |cmds|
  {
    if cmds == [] then 0
    else
      var o := if os == [] then Oracle([], 0, None, []) else os[0];
      var u := Note(w, Executed(c, cmds[0]));
      (if Blocks(u, cmds[0], o) then 1 else 0)
      + Blockings(Execute(u, c, cmds[0], o), c, cmds[1..], if os == [] then [] else os[1..])
  }

  /** Queues only grow during a block. */
  lemma DoublyQueuedStays<C>(w: World<C>, w': World<C>, c: C)
    requires !InOneQueue(w, c)
    requires forall k: Key :: At(w.waiting, k) <= At(w'.waiting, k)
    ensures !InOneQueue(w', c)
  {
    if k: Key :| Times(At(w.waiting, k), c) > 1 {
      var p, q := At(w.waiting, k), At(w'.waiting, k);
      assert q == p + q[|p|..];
      assert Times(q, c) > 1;
    } else {
      var j: Key, k: Key :| c in At(w.waiting, j) && c in At(w.waiting, k) && j != k;
      assert c in At(w'.waiting, j) && c in At(w'.waiting, k);
    }
  }

  lemma {:induction false} LoopWaits<C>(w: World<C>, c: C, cmds: seq<Command>, os: seq<Oracle>)
    requires Placed(w, c) || !InOneQueue(w, c)
    ensures var w' := ExecLoop(w, c, cmds, os);
      if !InOneQueue(w, c) then !InOneQueue(w', c)
      else InOneQueue(w', c) <==> Blockings(w, c, cmds, os) + (if St(w, c).blocked then 1 else 0) <= 1
    decreases |cmds|
  {
    if cmds != [] {
      hide InOneQueue, Waits, Execute, Blocks;
      var o, rest := if os == [] then Oracle([], 0, None, []) else os[0], if os == [] then [] else os[1..];
      var u := Note(w, Executed(c, cmds[0]));
      var v := Execute(u, c, cmds[0], o);
      StepWaits(w, c, cmds[0], o);
      LoopWaits(v, c, cmds[1..], rest);
    }
  }

  lemma StepWaits<C>(w: World<C>, c: C, cmd: Command, o: Oracle)
    requires Placed(w, c) || !InOneQueue(w, c)
    ensures var u := Note(w, Executed(c, cmd));
      var v := Execute(u, c, cmd, o);
      if !InOneQueue(w, c) then !InOneQueue(v, c)
      else if !Blocks(u, cmd, o) then Placed(v, c) && St(v, c).blocked == St(w, c).blocked
      else if St(w, c).blocked then !InOneQueue(v, c)
      else Placed(v, c) && St(v, c).blocked
  {
    var u := Note(w, Executed(c, cmd));
    ExecuteWaits(u, c, cmd, o);
    hide Execute;
    if !InOneQueue(w, c) {
      DoublyQueuedStays(w, Execute(u, c, cmd, o), c);
    } else if Blocks(u, cmd, o) {
      BlockOnExact(u, c, cmd.args[0], o.timeout.value, o.now);
    }
  }

  /** A committed block leaves its client in one queue exactly when at most one of its BLPOPs found its
      key empty. */
  lemma BlockWaitsExact<C>(steps: seq<Step<C>>, c: C, os: seq<Oracle>)
    requires Legal(steps) && NeverTwice(Run(steps).log, c)
    requires var s := St(Run(steps), c); Commits(s) && !s.blocked
    ensures var w := Run(steps); var s := St(w, c);
      var u := Answer(Note(w, Committed(c, s.queue)), c, Count(|s.queue|));
      InOneQueue(ExecMulti(w, c, os), c) <==> Blockings(u, c, s.queue, os) <= 1
  {
    hide Legal, Run, Inv;
    WaitsInOneQueue(steps, c);
    var w := Run(steps);
    var s := St(w, c);
    var u := Answer(Note(w, Committed(c, s.queue)), c, Count(|s.queue|));
    assert Placed(u, c);
    LoopWaits(u, c, s.queue, os);
    assert ExecMulti(w, c, os).waiting == ExecLoop(u, c, s.queue, os).waiting;
  }

  // ----- the rest of a batch -----

  /** The command leaves its client blocked: a BLPOP outside a block, or the EXEC of a block with one. */
  predicate Stops<C(==)>(w: World<C>, c: C, cmd: Command, os: seq<Oracle>) {
    var s, o := St(w, c), if os == [] then Oracle([], 0, None, []) else os[0];
    if s.multi then
      && cmd.verb == Exec && !s.sub && Commits(s)
      && Blockings(Answer(Note(w, Committed(c, s.queue)), c, Count(|s.queue|)), c, s.queue, os) > 0
    else !s.sub && Blocks(w, cmd, o)
  }

  lemma {:induction false} LoopBlocks<C>(w: World<C>, c: C, cmds: seq<Command>, os: seq<Oracle>)
    ensures St(ExecLoop(w, c, cmds, os), c).blocked <==> St(w, c).blocked || Blockings(w, c, cmds, os) > 0
    decreases |cmds|
  {
    if cmds != [] {
      hide Execute, Blocks;
      var o, rest := if os == [] then Oracle([], 0, None, []) else os[0], if os == [] then [] else os[1..];
      var u := Note(w, Executed(c, cmds[0]));
      ExecuteBlocks(u, c, cmds[0], o);
      LoopBlocks(Execute(u, c, cmds[0], o), c, cmds[1..], rest);
    }
  }

  lemma ExecuteBlocks<C>(w: World<C>, c: C, cmd: Command, o: Oracle)
    ensures var s := St(Execute(w, c, cmd, o), c);
      && (s.blocked <==> St(w, c).blocked || Blocks(w, cmd, o))
      && (Blocks(w, cmd, o) ==> s.multi == St(w, c).multi)
  {
    ExecuteWaits(w, c, cmd, o);
    hide Execute, Blocks;
  }

  lemma StopsExact<C>(w: World<C>, c: C, cmd: Command, os: seq<Oracle>)
    requires !St(w, c).blocked
    ensures var s := St(Respond(w, c, cmd, os), c);
      (s.blocked <==> Stops(w, c, cmd, os)) && (s.blocked ==> !s.multi)
  {
    hide Respond, ExecMulti, Execute, Blockings;
    RespondCases(w, c, cmd, os);
    ExecBlocks(w, c, os);
    ExecuteBlocks(w, c, cmd, if os == [] then Oracle([], 0, None, []) else os[0]);
  }

  lemma RespondCases<C>(w: World<C>, c: C, cmd: Command, os: seq<Oracle>)
    requires !St(w, c).blocked
    ensures var s, w' := St(w, c), Respond(w, c, cmd, os);
      if cmd.verb == Exec then
        if s.sub then !St(w', c).blocked else w' == ExecMulti(w, c, os)
      else if cmd.verb == Discard || s.multi || (s.sub && !AllowedInSub(cmd.verb)) || !Registered(cmd.verb) then
        !St(w', c).blocked
      else w' == Execute(w, c, cmd, if os == [] then Oracle([], 0, None, []) else os[0])
  {
    hide Execute, ExecMulti, DiscardMulti, Answer;
    var s := St(w, c);
    AnswerWaits(w, c, Error);
    AnswerWaits(w, c, Ok);
    AnswerWaits(Note(Set(w, c, s.(aborted := true)), Refused(c)), c, Error);
    AnswerWaits(Note(Set(w, c, s.(queue := s.queue + [cmd])), Queued(c, cmd)), c, QueuedReply);
    DiscardWaits(w, c);
  }

  lemma DiscardWaits<C>(w: World<C>, c: C)
    ensures St(DiscardMulti(w, c), c).blocked == St(w, c).blocked
  {
  }

  lemma ExecBlocks<C>(w: World<C>, c: C, os: seq<Oracle>)
    requires !St(w, c).blocked
    ensures var s, s' := St(w, c), St(ExecMulti(w, c, os), c);
      && (s'.blocked <==>
            && Commits(s)
            && Blockings(Answer(Note(w, Committed(c, s.queue)), c, Count(|s.queue|)), c, s.queue, os) > 0)
      && (s'.blocked ==> !s'.multi)
  {
    var s := St(w, c);
    LoopBlocks(Answer(Note(w, Committed(c, s.queue)), c, Count(|s.queue|)), c, s.queue, os);
    hide ExecLoop;
  }

  function OraclesOf(os: seq<seq<Oracle>>, i: nat): seq<Oracle> {
    if i < |os| then os[i] else []
  }

  /** The world after the first i commands of a batch. */
  function After<C(==)>(w: World<C>, c: C, cmds: seq<Command>, os: seq<seq<Oracle>>, i: nat): World<C>
    requires i <= |cmds|
  {
    RespondAll(w, c, cmds[..i], os)
  }

  ghost predicate StopsAt<C>(w: World<C>, c: C, cmds: seq<Command>, os: seq<seq<Oracle>>, i: nat)
    requires i < |cmds|
  {
    Stops(After(w, c, cmds, os, i), c, cmds[i], OraclesOf(os, i))
  }

  /** Command i gets its response. */
  ghost predicate Answered<C>(w: World<C>, c: C, cmds: seq<Command>, os: seq<seq<Oracle>>, i: nat)
    requires i < |cmds|
  {
    After(w, c, cmds, os, i + 1) == Respond(After(w, c, cmds, os, i), c, cmds[i], OraclesOf(os, i))
  }

  /** A batch is processed, command by command, up to and including the first one that leaves its client
      blocked; what follows it is dropped without an effect or a reply. */
  lemma {:induction false} BatchExact<C>(w: World<C>, c: C, cmds: seq<Command>, os: seq<seq<Oracle>>) returns (n: nat)
    requires !St(w, c).blocked
    ensures n <= |cmds| && RespondAll(w, c, cmds, os) == After(w, c, cmds, os, n)
    ensures forall i :: 0 <= i < n ==> Answered(w, c, cmds, os, i)
    ensures forall i :: 0 <= i < n - 1 ==> !StopsAt(w, c, cmds, os, i)
    ensures n < |cmds| ==> n > 0 && StopsAt(w, c, cmds, os, n - 1)
    decreases |cmds|
  {
    hide *;
    if cmds == [] {
      n := 0;
      NoBatch(w, c, os);
    } else {
      var o, rest := OraclesOf(os, 0), if os == [] then [] else os[1..];
      var v := Respond(w, c, cmds[0], o);
      StopsExact(w, c, cmds[0], o);
      BatchStep(w, c, cmds, os, 0);
      BatchEnds(w, c, cmds, os);
      if Stops(w, c, cmds[0], o) {
        n := 1;
        BlockedDrops(v, c, cmds[1..], rest);
      } else {
        var m := BatchExact(v, c, cmds[1..], rest);
        n := m + 1;
        BatchStep(w, c, cmds, os, m);
        forall i | 0 <= i < n
          ensures Answered(w, c, cmds, os, i)
          ensures i < n - 1 ==> !StopsAt(w, c, cmds, os, i)
        {
          if i > 0 {
            BatchShift(w, c, cmds, os, i);
          }
        }
        if n < |cmds| { BatchShift(w, c, cmds, os, m); }
      }
    }
  }

  lemma NoBatch<C>(w: World<C>, c: C, os: seq<seq<Oracle>>)
    ensures RespondAll(w, c, [], os) == After(w, c, [], os, 0)
  {
  }

  lemma BatchEnds<C>(w: World<C>, c: C, cmds: seq<Command>, os: seq<seq<Oracle>>)
    requires cmds != [] && !St(w, c).blocked
    ensures var v := Respond(w, c, cmds[0], OraclesOf(os, 0));
      var rest := if os == [] then [] else os[1..];
      && After(v, c, cmds[1..], rest, 0) == v
      && StopsAt(w, c, cmds, os, 0) == Stops(w, c, cmds[0], OraclesOf(os, 0))
      && Answered(w, c, cmds, os, 0)
      && RespondAll(w, c, cmds, os) == RespondAll(v, c, cmds[1..], rest)
  {
    hide Respond, Stops;
    BatchStep(w, c, cmds, os, 0);
  }

  lemma BatchShift<C>(w: World<C>, c: C, cmds: seq<Command>, os: seq<seq<Oracle>>, i: nat)
    requires 1 <= i < |cmds| && !St(w, c).blocked
    ensures var v := Respond(w, c, cmds[0], OraclesOf(os, 0));
      var rest := if os == [] then [] else os[1..];
      && After(w, c, cmds, os, i) == After(v, c, cmds[1..], rest, i - 1)
      && After(w, c, cmds, os, i + 1) == After(v, c, cmds[1..], rest, i)
      && Answered(w, c, cmds, os, i) == Answered(v, c, cmds[1..], rest, i - 1)
      && StopsAt(w, c, cmds, os, i) == StopsAt(v, c, cmds[1..], rest, i - 1)
  {
    BatchStep(w, c, cmds, os, i - 1);
    BatchStep(w, c, cmds, os, i);
    hide Respond, Stops, After;
  }

  lemma BatchStep<C>(w: World<C>, c: C, cmds: seq<Command>, os: seq<seq<Oracle>>, i: nat)
    requires i < |cmds| && !St(w, c).blocked
    ensures After(w, c, cmds, os, 0) == w
    ensures After(w, c, cmds, os, i + 1)
         == After(Respond(w, c, cmds[0], OraclesOf(os, 0)), c, cmds[1..], if os == [] then [] else os[1..], i)
  {
    hide Respond;
    assert cmds[..i + 1][0] == cmds[0] && cmds[..i + 1][1..] == cmds[1..][..i];
  }

  lemma BlockedDrops<C>(w: World<C>, c: C, cmds: seq<Command>, os: seq<seq<Oracle>>)
    requires St(w, c).blocked && !St(w, c).multi
    ensures RespondAll(w, c, cmds, os) == w
  {
  }

  // ----- in order, and once -----

  /** Event e blocks client c on key k. */
  predicate BlockedOn<C(==)>(e: Event<C>, c: C, k: Key) {
    e.Blocked? && e.c == c && e.key == k
  }

  /** d is in the queue and c is not before it. */
  ghost predicate Ahead<C>(q: seq<C>, d: C, c: C) {
    exists p :: 0 <= p < |q| && q[p] == d && c !in q[..p]
  }

  lemma {:induction false} RemoveFirstSplit<C>(q: seq<C>, x: C) returns (i: nat)
    requires x in q
    ensures i < |q| && q[i] == x && RemoveFirst(q, x) == q[..i] + q[i + 1..]
  {
    if q[0] == x {
      i := 0;
    } else {
      var j := RemoveFirstSplit(q[1..], x);
      i := j + 1;
    }
  }

  lemma {:induction false} RemoveFirstMissing<C>(q: seq<C>, x: C)
    requires x !in q
    ensures RemoveFirst(q, x) == q
  {
    if q != [] { RemoveFirstMissing(q[1..], x); }
  }

  lemma AheadStays<C>(q: seq<C>, k: Key, e: Event<C>, d: C, c: C)
    requires Ahead(q, d, c) && e != Served(d, k) && e != TimedOut(d, k)
    ensures Ahead(QueueSee(q, k, e), d, c)
  {
    hide RemoveFirst;
    if e.Blocked? && e.key == k {
      var p :| 0 <= p < |q| && q[p] == d && c !in q[..p];
      assert (q + [e.c])[p] == d && (q + [e.c])[..p] == q[..p];
    } else if (e.Served? || e.TimedOut?) && e.key == k {
      AheadWithout(q, e.c, d, c);
    }
  }

  lemma AheadWithout<C>(q: seq<C>, x: C, d: C, c: C)
    requires Ahead(q, d, c) && x != d
    ensures Ahead(RemoveFirst(q, x), d, c)
  {
    hide RemoveFirst;
    var q' := RemoveFirst(q, x);
    var p :| 0 <= p < |q| && q[p] == d && c !in q[..p];
    if x !in q {
      RemoveFirstMissing(q, x);
    } else {
      var i := RemoveFirstSplit(q, x);
      if i < p {
        assert q'[p - 1] == d;
        assert q'[..p - 1] == q[..i] + q[i + 1..p];
      } else {
        assert q'[p] == d && q'[..p] == q[..p];
      }
    }
  }

  lemma {:induction false} AheadUntil<C>(log: seq<Event<C>>, k: Key, d: C, c: C, a: nat, b: nat, m: nat)
    requires c != d && a < b < m <= |log|
    requires BlockedOn(log[a], d, k) && BlockedOn(log[b], c, k) && c !in WaitQueue(log[..b], k)
    requires forall n :: a < n < m ==> log[n] != Served(d, k) && log[n] != TimedOut(d, k)
    ensures Ahead(WaitQueue(log[..m], k), d, c)
    decreases m
  {
    QueueStep(log, m - 1, k);
    if m == b + 1 {
      InQueueUntil(log, k, d, a, b);
      var q := WaitQueue(log[..b], k);
      var p :| 0 <= p < |q| && q[p] == d;
      assert (q + [c])[p] == d && (q + [c])[..p] == q[..p];
    } else {
      AheadUntil(log, k, d, c, a, b, m - 1);
      AheadStays(WaitQueue(log[..m - 1], k), k, log[m - 1], d, c);
    }
  }

  lemma {:induction false} InQueueUntil<C>(log: seq<Event<C>>, k: Key, d: C, a: nat, m: nat)
    requires a < m <= |log| && BlockedOn(log[a], d, k)
    requires forall n :: a < n < m ==> log[n] != Served(d, k) && log[n] != TimedOut(d, k)
    ensures d in WaitQueue(log[..m], k)
    decreases m
  {
    QueueStep(log, m - 1, k);
    if m > a + 1 {
      InQueueUntil(log, k, d, a, m - 1);
      var q, e := WaitQueue(log[..m - 1], k), log[m - 1];
      if (e.Served? || e.TimedOut?) && e.key == k {
        if e.c in q {
          RemoveFirstCount(q, e.c, d);
          assert Times(q, d) > 0;
        } else {
          RemoveFirstMissing(q, e.c);
        }
      }
    }
  }

  /** Whoever waits on a key is served only after everybody who blocked on it earlier was served or
      timed out. */
  lemma ServedInOrder<C>(steps: seq<Step<C>>, k: Key, d: C, c: C, a: nat, b: nat, m: nat)
    requires Legal(steps) && c != d
    requires var log := Run(steps).log;
      && a < b < m < |log|
      && BlockedOn(log[a], d, k) && BlockedOn(log[b], c, k) && log[m] == Served(c, k)
      && c !in WaitQueue(log[..b], k)
    ensures exists n :: a < n < m && (Run(steps).log[n] == Served(d, k) || Run(steps).log[n] == TimedOut(d, k))
  {
    hide Inv;
    var log := Run(steps).log;
    RunKeeps(steps, c);
    FaithfulOf(Run(steps), c);
    FifoAt(log, m);
    if forall n :: a < n < m ==> log[n] != Served(d, k) && log[n] != TimedOut(d, k) {
      AheadUntil(log, k, d, c, a, b, m);
      assert false;
    }
  }

  /** Event e answers a block of client c on key k. */
  predicate Answers<C(==)>(e: Event<C>, c: C, k: Key) {
    e == Served(c, k) || e == TimedOut(c, k)
  }

  lemma {:induction false} IdleUntil<C>(log: seq<Event<C>>, c: C, k: Key, i: nat, m: nat)
    requires i < m <= |log| && (log[i].Served? || log[i].TimedOut?) && log[i].c == c
    requires forall n :: i < n < m ==> !BlockedOn(log[n], c, k)
    ensures ViewOf(log[..m], c).waits != Some(k)
    decreases m
  {
    hide ViewOf;
    WaitStep(log, m - 1, c);
    if m > i + 1 { IdleUntil(log, c, k, i, m - 1); }
  }

  /** Between two answers to the same client, whether by service or by timeout, it blocked again, on the
      key of the second answer: no block is answered twice. */
  lemma AnsweredOnce<C>(steps: seq<Step<C>>, c: C, j: Key, k: Key, i: nat, m: nat)
    requires Legal(steps) && NeverTwice(Run(steps).log, c)
    requires var log := Run(steps).log; i < m < |log| && Answers(log[i], c, j) && Answers(log[m], c, k)
    ensures exists b :: i < b < m && BlockedOn(Run(steps).log[b], c, k)
  {
    var log := Run(steps).log;
    hide Inv, ViewOf;
    RunKeeps(steps, c);
    OverlapAt(log, c, m);
    FaithfulOf(Run(steps), c);
    FaithfulAt(log, m, c);
    if forall b :: i < b < m ==> !BlockedOn(log[b], c, k) {
      IdleUntil(log, c, k, i, m);
      assert false;
    }
  }

  // ----- what is answered -----

  /** Store effects touch nothing of a client but its mark, and no queue. */
  ghost predicate Silent<C>(w: World<C>, w': World<C>, c: C) {
    && w'.waiting == w.waiting && w'.ready >= w.ready
    && St(w', c) == St(w, c).(cas := St(w', c).cas)
  }

  lemma {:induction false} DeleteAllSilent<C>(w: World<C>, ks: seq<Key>, c: C)
    ensures Silent(w, DeleteAll(w, ks), c)
    decreases |ks|
  {
    if ks != [] {
      hide Delete;
      DeleteSilent(w, ks[0], c);
      DeleteAllSilent(Delete(w, ks[0]), ks[1..], c);
    }
  }

  lemma DoSilent<C>(w: World<C>, op: StoreOp, c: C)
    ensures Silent(w, Do(w, op), c)
  {
    hide DeleteAll, Touch, Delete, Silent;
    match op
    case Get(k, _) =>
      DeleteSilent(w, k, c);
      SilentSelf(w, w, c);
    case Put(k, obj, expiry, victims) =>
      DeleteAllSilent(w, victims, c);
      var v := DeleteAll(w, victims);
      var u := v.(store := v.store[k := obj],
                  expires := if expiry.Some? then v.expires[k := expiry.value] else v.expires);
      SilentSelf(v, u, c);
      TouchSilent(u, k, c);
      SilentJoin(v, u, Touch(u, k), c);
      SilentJoin(w, v, Touch(u, k), c);
    case Del(k) => DeleteSilent(w, k, c);
    case _ => SilentSelf(w, Do(w, op), c);
  }

  lemma SilentSelf<C>(w: World<C>, w': World<C>, c: C)
    requires w'.clients == w.clients && w'.waiting == w.waiting && w'.ready >= w.ready
    ensures Silent(w, w', c)
  {
  }

  lemma SilentJoin<C>(a: World<C>, b: World<C>, d: World<C>, c: C)
    requires Silent(a, b, c) && Silent(b, d, c)
    ensures Silent(a, d, c)
  {
  }

  lemma TouchSilent<C>(w: World<C>, k: Key, c: C)
    ensures Silent(w, Touch(w, k), c)
  {
  }

  lemma DeleteSilent<C>(w: World<C>, k: Key, c: C)
    ensures Silent(w, Delete(w, k), c)
  {
  }

  lemma {:induction false} DoAllSilent<C>(w: World<C>, ops: seq<StoreOp>, c: C)
    ensures Silent(w, DoAll(w, ops), c)
    decreases |ops|
  {
    if ops != [] {
      DoSilent(w, ops[0], c);
      hide Do;
      DoAllSilent(Do(w, ops[0]), ops[1..], c);
    }
  }

  lemma PopForSilent<C>(w: World<C>, d: C, k: Key, now: nat, c: C)
    ensures var w' := PopFor(w, d, k, now);
      && w'.waiting == w.waiting
      && St(w', c).(cas := false) == (
           var s := St(w, c).(cas := false);
           if c == d then s.(replies := s.replies + [PopReply(w, k, now)]) else s)
  {
    hide DoAll, PopOps, PopReply, Answer;
    DoAllSilent(w, PopOps(w, k, now), c);
    AnswerState(DoAll(w, PopOps(w, k, now)), d, PopReply(w, k, now), c);
  }

  lemma AnswerState<C>(w: World<C>, d: C, r: Reply, c: C)
    ensures var w' := Answer(w, d, r);
      && w'.waiting == w.waiting
      && St(w', c) == if c == d then St(w, c).(replies := St(w, c).replies + [r]) else St(w, c)
  {
  }

  /** A pop takes the first item of a list that is there, and nothing else. */
  lemma PopTakesFirst<C>(w: World<C>, d: C, k: Key, now: nat)
    ensures var w', found := PopFor(w, d, k, now), Found(w, k, now);
      found.Some? ==>
        w'.store == if found.value.ListObj? && found.value.items != []
                    then w.store[k := ListObj(found.value.items[1..])] else w.store
  {
    var found := Found(w, k, now);
    if found.Some? {
      if found.value.ListObj? && found.value.items != [] {
        InPlace(w, k, now, ListObj(found.value.items[1..]), []);
        assert PopOps(w, k, now) == [Get(k, now)] + ([Rewrite(k, ListObj(found.value.items[1..]))] + []);
      } else {
        JustFound(w, k, now);
      }
      hide DoAll, PopOps, PopReply;
    }
  }

  /** Serving a ready key answers its oldest waiter, once, with the first item, which leaves the list, and
      unblocks it; nobody else is answered or unblocked, only that waiter leaves the queue, and the other
      queues stay. */
  lemma ServiceAnswersOldest<C>(w: World<C>, k: Key, now: nat, c: C)
    ensures var q, w' := At(w.waiting, k), ServeReady(w, k, now);
      && St(w', c).(cas := false) == (
           var s := St(w, c).(cas := false);
           if q != [] && c == q[0]
           then s.(blocked := false, when := None, replies := s.replies + [PopReply(w, k, now)])
           else s)
      && At(w'.waiting, k) == (if q == [] then [] else q[1..])
      && (forall j: Key :: j != k ==> At(w'.waiting, j) == At(w.waiting, j))
      && k !in w'.ready
      && (var found := Found(w, k, now);
          q != [] && found.Some? && found.value.ListObj? && found.value.items != [] ==>
            && PopReply(w, k, now) == Popped(found.value.items[0])
            && w'.store == w.store[k := ListObj(found.value.items[1..])])
  {
    if At(w.waiting, k) != [] {
      PopForSilent(w, At(w.waiting, k)[0], k, now, c);
      PopTakesFirst(w, At(w.waiting, k)[0], k, now);
    }
    hide PopFor;
  }

  /** Those of q whose time is not over, in order. */
  function StillWaiting<C(==)>(w: World<C>, q: seq<C>, now: nat): seq<C> {
    if q == [] then []
    else (if Expired(St(w, q[0]), now) then [] else [q[0]]) + StillWaiting(w, q[1..], now)
  }

  lemma {:induction false} StillWaitingFrame<C>(w: World<C>, w': World<C>, q: seq<C>, now: nat)
    requires forall c :: c in q ==> St(w', c) == St(w, c)
    ensures StillWaiting(w', q, now) == StillWaiting(w, q, now)
  {
    if q != [] {
      assert q[0] in q;
      StillWaitingFrame(w, w', q[1..], now);
    }
  }

  /** A scan of a queue in which nobody stands twice tells exactly the expired clients, once each, and
      keeps the others in order. */
  lemma {:induction false} ScanTellsExpired<C>(w: World<C>, k: Key, now: nat, todo: seq<C>, kept: seq<C>, c: C)
    requires forall i, j :: 0 <= i < j < |todo| ==> todo[i] != todo[j]
    ensures var w' := ExpireQueue(w, k, now, todo, kept);
      && w'.waiting == PutNonEmpty(w.waiting, k, kept + StillWaiting(w, todo, now))
      && St(w', c) ==
           if c in todo && Expired(St(w, c), now)
           then St(w, c).(blocked := false, when := None, replies := St(w, c).replies + [Null])
           else St(w, c)
    decreases |todo|
  {
    if todo == [] {
      assert kept + [] == kept;
    } else {
      hide PutNonEmpty;
      var d, rest := todo[0], todo[1..];
      assert todo == [d] + rest && d !in rest;
      if Expired(St(w, d), now) {
        var v := TimeOut(w, d, k);
        ScanTellsExpired(v, k, now, rest, kept, c);
        StillWaitingFrame(w, v, rest, now);
        assert StillWaiting(w, todo, now) == StillWaiting(w, rest, now);
      } else {
        ScanTellsExpired(w, k, now, rest, kept + [d], c);
        assert kept + ([d] + StillWaiting(w, rest, now)) == kept + [d] + StillWaiting(w, rest, now);
      }
    }
  }

  lemma TwiceCounts<C>(q: seq<C>, i: nat, j: nat)
    requires i < j < |q| && q[i] == q[j]
    ensures Times(q, q[i]) >= 2
  {
    assert q == q[..j] + [q[j]] + q[j + 1..];
    assert q[i] == q[..j][i];
  }

  // ----- the whole timer pass -----

  ghost predicate NoRepeats<C>(q: seq<C>) {
    forall i, j :: 0 <= i < j < |q| ==> q[i] != q[j]
  }

  /** Nobody stands twice in the queues of the keys. */
  ghost predicate Apart<C>(w: World<C>, keys: seq<Key>) {
    && (forall j :: j in keys ==> NoRepeats(At(w.waiting, j)))
    && (forall j, k, c {:trigger c in At(w.waiting, j), c in At(w.waiting, k)} ::
          j in keys && k in keys && c in At(w.waiting, j) && c in At(w.waiting, k) ==> j == k)
  }

  /** Client c stands in the queue of one of the keys. */
  ghost predicate Among<C>(w: World<C>, keys: seq<Key>, c: C) {
    exists k :: k in keys && c in At(w.waiting, k)
  }

  function Told(s: ClientState): ClientState {
    s.(blocked := false, when := None, replies := s.replies + [Null])
  }

  function Scanned<C(==)>(w: World<C>, k: Key, now: nat): World<C> {
    if k in w.waiting then ExpireQueue(w, k, now, w.waiting[k], []) else w
  }

  /** The scan of one queue. */
  lemma ScanExact<C>(w: World<C>, k: Key, now: nat, c: C)
    requires NoRepeats(At(w.waiting, k))
    ensures var q, v := At(w.waiting, k), Scanned(w, k, now);
      && At(v.waiting, k) == StillWaiting(w, q, now)
      && (forall j: Key :: j != k ==> At(v.waiting, j) == At(w.waiting, j))
      && St(v, c) == if c in q && Expired(St(w, c), now) then Told(St(w, c)) else St(w, c)
  {
    hide ExpireQueue, PutNonEmpty;
    var q := At(w.waiting, k);
    if k in w.waiting {
      ScanTellsExpired(w, k, now, q, [], c);
      assert [] + StillWaiting(w, q, now) == StillWaiting(w, q, now);
      PutNonEmptyFacts(w.waiting, k, StillWaiting(w, q, now));
    }
  }

  /** One pass over such queues tells exactly the expired clients in them, once each, and each queue
      keeps the others in order. */
  lemma {:induction false} PassTellsExpired<C>(w: World<C>, keys: seq<Key>, now: nat, c: C, k: Key)
    requires Apart(w, keys) && forall i, j :: 0 <= i < j < |keys| ==> keys[i] != keys[j]
    ensures var w' := ExpireKeys(w, keys, now);
      && St(w', c) == (if Among(w, keys, c) && Expired(St(w, c), now) then Told(St(w, c)) else St(w, c))
      && At(w'.waiting, k) == (if k in keys then StillWaiting(w, At(w.waiting, k), now) else At(w.waiting, k))
    decreases |keys|
  {
    if keys != [] {
      hide ExpireQueue, Told, Expired, NoRepeats;
      var j, rest, v := keys[0], keys[1..], Scanned(w, keys[0], now);
      assert keys == [j] + rest && j !in rest;
      ScanExact(w, j, now, c);
      assert Apart(v, rest);
      PassTellsExpired(v, rest, now, c, k);
      assert Among(w, keys, c) <==> c in At(w.waiting, j) || Among(v, rest, c);
      if k in rest {
        forall x | x in At(w.waiting, k) ensures St(v, x) == St(w, x) {
          ScanExact(w, j, now, x);
        }
        StillWaitingFrame(w, v, At(w.waiting, k), now);
      }
    }
  }

  /** Over runs: if nobody who waits was ever blocked while waiting, the timer tells exactly the expired
      waiters, once each, whatever queue they are in and in whatever order the queues are visited. */
  lemma TimerExact<C>(steps: seq<Step<C>>, keys: seq<Key>, now: nat, c: C, k: Key)
    requires Legal(steps) && Enumerates(keys, Run(steps).waiting.Keys)
    requires forall j, x :: j in keys && x in At(Run(steps).waiting, j) ==> NeverTwice(Run(steps).log, x)
    ensures var w, w' := Run(steps), Apply(Run(steps), Timer(keys, now));
      && St(w', c) == (if Waits(w, c) && Expired(St(w, c), now) then Told(St(w, c)) else St(w, c))
      && At(w'.waiting, k) == StillWaiting(w, At(w.waiting, k), now)
  {
    hide Legal, Run, ExpireKeys, NeverTwice, Told;
    var w := Run(steps);
    forall j | j in keys ensures NoRepeats(At(w.waiting, j)) {
      QueueDistinct(steps, j);
    }
    forall i, j, x | i in keys && j in keys && x in At(w.waiting, i) && x in At(w.waiting, j) ensures i == j {
      WaitsInOneQueue(steps, x);
    }
    PassTellsExpired(w, keys, now, c, k);
    assert Waits(w, c) <==> Among(w, keys, c) by {
      if j: Key :| c in At(w.waiting, j) { assert j in w.waiting; }
    }
  }

  lemma QueueDistinct<C>(steps: seq<Step<C>>, k: Key)
    requires Legal(steps)
    requires forall x :: x in At(Run(steps).waiting, k) ==> NeverTwice(Run(steps).log, x)
    ensures NoRepeats(At(Run(steps).waiting, k))
  {
    hide Legal, Run, NeverTwice;
    var w := Run(steps);
    var q := At(w.waiting, k);
    forall i, j | 0 <= i < j < |q| ensures q[i] != q[j] {
      assert q[i] in q;
      WaitsInOneQueue(steps, q[i]);
      assert Times(At(w.waiting, k), q[i]) <= 1;
      if q[i] == q[j] { TwiceCounts(q, i, j); }
    }
  }
}
