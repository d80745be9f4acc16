// Legal runs in which the server does what its commands seem to exclude.
module SessionExamples {
  import opened Bytes
  import opened Options
  import opened Sessions
  import opened SessionSignals
  import opened SessionGuarantees
  import opened SessionInvariant
  import opened SessionWaiting

  const READ := Command(Data, [])
  const NO_CHANGE := Oracle([], 0, None, [])

  function Send<C>(c: C, cmd: Command, os: seq<Oracle>): Step<C> {
    Receive(c, [cmd], [os])
  }

  function Changing(ops: seq<StoreOp>): Oracle {
    Oracle(ops, 0, None, [])
  }

  /** The client can send and its commands are executed. */
  predicate Free<C(==)>(w: World<C>, c: C) {
    c in w.clients && w.clients[c].alive && !w.clients[c].blocked && !w.clients[c].sub
  }

  // ----- single commands -----

  lemma SendOne<C>(steps: seq<Step<C>>, c: C, cmd: Command, os: seq<Oracle>)
    requires Legal(steps) && Free(Run(steps), c)
    ensures var steps' := steps + [Send(c, cmd, os)];
      Legal(steps') && Run(steps') == Respond(Run(steps), c, cmd, os)
  {
    RunSnoc(steps, Send(c, cmd, os));
    hide Respond, Legal, Run;
    var w := Run(steps);
    assert [cmd][1..] == [] && [os][1..] == [];
    assert RespondAll(Respond(w, c, cmd, os), c, [], []) == Respond(w, c, cmd, os);
  }

  function Changed<C>(w: World<C>, c: C, s: ClientState, r: Reply, e: Event<C>): World<C> {
    w.(clients := w.clients[c := s.(replies := s.replies + [r])], log := w.log + [e])
  }

  lemma OpenEffect<C>(w: World<C>, c: C, os: seq<Oracle>)
    requires Free(w, c) && !w.clients[c].multi
    ensures Respond(w, c, Command(Multi, []), os)
         == Changed(w, c, Reset(w.clients[c]).(multi := true), Ok, Opened(c))
  {
  }

  lemma QueueEffect<C>(w: World<C>, c: C, cmd: Command, os: seq<Oracle>)
    requires c in w.clients && w.clients[c].multi
    requires Registered(cmd.verb) && cmd.verb != Exec && cmd.verb != Discard
    ensures var s := w.clients[c];
      Respond(w, c, cmd, os) == Changed(w, c, s.(queue := s.queue + [cmd]), QueuedReply, Queued(c, cmd))
  {
  }

  lemma WatchEffect<C>(w: World<C>, c: C, k: Key, os: seq<Oracle>)
    requires Free(w, c) && !w.clients[c].multi
    ensures Respond(w, c, Command(Watch, [k]), os)
         == Changed(w, c, w.clients[c], Ok, Watched(c, k)).(watched := w.watched[k := At(w.watched, k) + [c]])
  {
    var v := Note(w.(watched := w.watched[k := At(w.watched, k) + [c]]), Watched(c, k));
    assert [k][1..] == [];
    assert WatchKeys(w, c, [k]) == WatchKeys(v, c, []) == v;
  }

  lemma DataEffect<C>(w: World<C>, c: C, ops: seq<StoreOp>)
    requires Free(w, c) && !w.clients[c].multi
    ensures Respond(w, c, READ, [Changing(ops)]) == Answer(DoAll(w, ops), c, DataReply)
  {
    FreeExecutes(w, c, READ, Changing(ops));
    hide DoAll, Respond, Answer;
  }

  lemma PutEffect<C>(w: World<C>, k: Key, obj: Obj, c: C)
    requires c in w.clients
    ensures var w' := DoAll(w, [Put(k, obj, None, [])]);
      && w'.log == w.log + [Modified(k)] && w'.store == w.store[k := obj] && w'.watched == w.watched
      && w'.expires == w.expires && w'.waiting == w.waiting && w'.clients.Keys == w.clients.Keys
      && w'.clients[c] == if c in At(w.watched, k) then w.clients[c].(cas := true) else w.clients[c]
  {
    var op := Put(k, obj, None, []);
    assert [op] == [op] + [];
    DoCons(w, op, []);
    assert DeleteAll(w, []) == w;
    assert Do(w, op) == Touch(w.(store := w.store[k := obj]), k);
  }

  /** EXEC of a block that only reads. */
  lemma ReadBlockEffect<C>(w: World<C>, c: C)
    requires Free(w, c) && Commits(w.clients[c]) && w.clients[c].queue == [READ]
    ensures var w' := Respond(w, c, Command(Exec, []), []);
      && w'.log == w.log + [Committed(c, [READ]), Executed(c, READ), Closed(c), Unwatched(c)]
      && w'.store == w.store
      && St(w', c).replies == w.clients[c].replies + [Count(1), DataReply]
  {
    var u := Answer(Note(w, Committed(c, [READ])), c, Count(1));
    var x := Note(u, Executed(c, READ));
    assert [READ][1..] == [];
    assert Execute(x, c, READ, NO_CHANGE) == Answer(x, c, DataReply);
    assert ExecLoop(u, c, [READ], []) == ExecLoop(Answer(x, c, DataReply), c, [], []) == Answer(x, c, DataReply);
    assert Respond(w, c, Command(Exec, []), []) == ExecMulti(w, c, []);
    var v := Answer(x, c, DataReply);
    assert v.log == w.log + [Committed(c, [READ])] + [Executed(c, READ)];
  }

  lemma TwoConnected<C>(c: C, d: C)
    requires c != d
    ensures var steps := [Accept(c), Accept(d)];
      Legal(steps) && Run(steps) == Start().(clients := map[c := NEW_CLIENT, d := NEW_CLIENT])
  {
    var none: seq<Step<C>> := [];
    RunSnoc(none, Accept(c));
    RunSnoc([Accept(c)], Accept(d));
    assert none + [Accept(c)] == [Accept(c)] && [Accept(c)] + [Accept(d)] == [Accept(c), Accept(d)];
  }

  // ----- changes that go unnoticed -----

  const AT_ZERO := Changing([])

  /** Executed twice, the command leaves first a and then b under k. */
  predicate Doubles(cmd: Command, k: Key, a: Obj, b: Obj) {
    || (|cmd.args| == 2 && cmd == Command(Push(false), [k, cmd.args[1]])
        && a == ListObj(Pushed([], cmd.args[1..], false)) && b == ListObj(Pushed(a.items, cmd.args[1..], false)))
    || (cmd == Command(Incr, [k]) && a == IntObj(1) && b == IntObj(2))
  }

  lemma StoreEffect<C>(w: World<C>, c: C, cmd: Command)
    requires Free(w, c) && !w.clients[c].multi && (cmd.verb.Push? || cmd.verb == Incr)
    ensures Respond(w, c, cmd, [AT_ZERO])
         == Answer(DoAll(w, OpsOf(w, cmd, AT_ZERO)), c, ReplyOf(w, cmd, AT_ZERO))
  {
    FreeExecutes(w, c, cmd, AT_ZERO);
    hide DoAll, OpsOf, ReplyOf, Respond, Answer;
  }

  lemma FreeExecutes<C>(w: World<C>, c: C, cmd: Command, o: Oracle)
    requires Free(w, c) && !w.clients[c].multi
    requires Registered(cmd.verb) && cmd.verb != Exec && cmd.verb != Discard
    ensures Respond(w, c, cmd, [o]) == Execute(w, c, cmd, o)
  {
    hide Execute;
  }

  /** The first time, when nobody watches the key. */
  lemma CreateEffect<C>(w: World<C>, cmd: Command, k: Key, a: Obj, b: Obj)
    requires Doubles(cmd, k, a, b)
    requires k !in w.store && k !in w.expires && At(w.watched, k) == [] && At(w.waiting, k) == []
    ensures var w' := DoAll(w, OpsOf(w, cmd, AT_ZERO));
      w' == w.(store := w.store[k := a], log := w.log + [Modified(k)])
  {
    if cmd.verb == Incr {
      assert OpsOf(w, cmd, AT_ZERO)
          == [Get(k, 0)] + ([Put(k, IntObj(0), None, [])] + ([Rewrite(k, a)] + []));
      hide OpsOf;
      PutThenWrite(w, k, IntObj(0), a, []);
    } else {
      assert OpsOf(w, cmd, AT_ZERO)
          == [Get(k, 0)] + ([Put(k, ListObj([]), None, [])] + ([Rewrite(k, a)] + [MarkReady(k)]));
      hide OpsOf;
      PutThenWrite(w, k, ListObj([]), a, [MarkReady(k)]);
    }
  }

  lemma PutThenWrite<C>(w: World<C>, k: Key, zero: Obj, a: Obj, tail: seq<StoreOp>)
    requires k !in w.store && k !in w.expires && At(w.watched, k) == [] && At(w.waiting, k) == []
    requires tail == [] || tail == [MarkReady(k)]
    ensures DoAll(w, [Get(k, 0)] + ([Put(k, zero, None, [])] + ([Rewrite(k, a)] + tail)))
         == w.(store := w.store[k := a], log := w.log + [Modified(k)])
  {
    var put := Put(k, zero, None, []);
    DoCons(w, Get(k, 0), [put] + ([Rewrite(k, a)] + tail));
    var v := Touch(w.(store := w.store[k := zero]), k);
    assert DeleteAll(w, []) == w;
    assert Do(w, put) == v;
    assert v.clients == w.clients;
    var x := v.(store := v.store[k := a]);
    assert Do(v, Rewrite(k, a)) == x && Do(x, MarkReady(k)) == x;
    assert x == w.(store := w.store[k := a], log := w.log + [Modified(k)]);
    hide Do, DoAll;
    DoTwo(w, put, Rewrite(k, a), tail);
    MarkNothing(x, k, tail);
  }

  lemma MarkNothing<C>(w: World<C>, k: Key, tail: seq<StoreOp>)
    requires tail == [] || tail == [MarkReady(k)]
    requires Do(w, MarkReady(k)) == w
    ensures DoAll(w, tail) == w
  {
    if tail != [] { assert DoAll(w, tail) == DoAll(Do(w, MarkReady(k)), []); }
  }

  /** The second time. */
  lemma ChangeEffect<C>(w: World<C>, cmd: Command, k: Key, a: Obj, b: Obj)
    requires Doubles(cmd, k, a, b) && k in w.store && w.store[k] == a && k !in w.expires
    ensures var w' := DoAll(w, OpsOf(w, cmd, AT_ZERO));
      w'.log == w.log && w'.clients == w.clients && w'.store == w.store[k := b] && a != b
  {
    hide DoAll;
    if cmd.verb == Incr {
      IncrSignalsExact(w, k, 0, []);
    } else {
      PushSignalsExact(w, k, cmd.args[1..], false, 0, []);
      assert Pushed(a.items, cmd.args[1..], false) != a.items;
    }
  }

  /** d executes the command on a missing key; c watches the key and queues a read. */
  function ChangeRun<C(==)>(c: C, d: C, k: Key, cmd: Command): seq<Step<C>> {
    [Accept(c), Accept(d)]
    + [Send(d, cmd, [AT_ZERO])]
    + [Send(c, Command(Watch, [k]), [])]
    + [Send(c, Command(Multi, []), [])]
    + [Send(c, READ, [])]
  }

  lemma ChangeRunEffect<C>(c: C, d: C, k: Key, cmd: Command, a: Obj, b: Obj)
    requires c != d && Doubles(cmd, k, a, b)
    ensures var steps := ChangeRun(c, d, k, cmd);
      var w := Run(steps);
      && Legal(steps) && Free(w, c) && Free(w, d) && !w.clients[d].multi
      && Commits(w.clients[c]) && w.clients[c].queue == [READ]
      && w.log == [Modified(k), Watched(c, k), Opened(c), Queued(c, READ)]
      && w.store == map[k := a] && w.expires == map[]
  {
    hide Legal, Run, Respond, DoAll, OpsOf, ReplyOf;
    TwoConnected(c, d);
    var s2: seq<Step<C>> := [Accept(c), Accept(d)];
    var w2 := Run(s2);
    SendOne(s2, d, cmd, [AT_ZERO]);
    StoreEffect(w2, d, cmd);
    CreateEffect(w2, cmd, k, a, b);
    var s3 := s2 + [Send(d, cmd, [AT_ZERO])];
    SendOne(s3, c, Command(Watch, [k]), []);
    WatchEffect(Run(s3), c, k, []);
    var s4 := s3 + [Send(c, Command(Watch, [k]), [])];
    SendOne(s4, c, Command(Multi, []), []);
    OpenEffect(Run(s4), c, []);
    var s5 := s4 + [Send(c, Command(Multi, []), [])];
    SendOne(s5, c, READ, []);
    QueueEffect(Run(s5), c, READ, []);
  }

  /** A legal run: c watches k, d then changes the value under k, and the EXEC of c commits all the same. */
  lemma UnnoticedChange<C>(c: C, d: C, k: Key, cmd: Command, a: Obj, b: Obj)
    requires c != d && Doubles(cmd, k, a, b)
    ensures var before := ChangeRun(c, d, k, cmd);
      var steps := before + [Send(d, cmd, [AT_ZERO])] + [Send(c, Command(Exec, []), [])];
      && Legal(steps)
      && Run(before).store == map[k := a] && Run(steps).store == map[k := b] && a != b
      && Run(steps).log == [Modified(k), Watched(c, k), Opened(c), Queued(c, READ),
                            Committed(c, [READ]), Executed(c, READ), Closed(c), Unwatched(c)]
  {
    hide Legal, Run, Respond, ChangeRun, DoAll, OpsOf, ReplyOf, Doubles;
    ChangeRunEffect(c, d, k, cmd, a, b);
    var before := ChangeRun(c, d, k, cmd);
    var w := Run(before);
    SendOne(before, d, cmd, [AT_ZERO]);
    StoreEffectOf(w, d, cmd, k, a, b);
    ChangeEffect(w, cmd, k, a, b);
    var between := before + [Send(d, cmd, [AT_ZERO])];
    SendOne(between, c, Command(Exec, []), []);
    ReadBlockEffect(Run(between), c);
  }

  lemma StoreEffectOf<C>(w: World<C>, c: C, cmd: Command, k: Key, a: Obj, b: Obj)
    requires Free(w, c) && !w.clients[c].multi && Doubles(cmd, k, a, b)
    ensures Respond(w, c, cmd, [AT_ZERO])
         == Answer(DoAll(w, OpsOf(w, cmd, AT_ZERO)), c, ReplyOf(w, cmd, AT_ZERO))
  {
    hide DoAll, OpsOf, ReplyOf, Respond;
    StoreEffect(w, c, cmd);
  }

  /** So for RPUSH of any text. */
  lemma UnnoticedPush<C>(c: C, d: C, k: Key, t: Text)
    requires c != d
    ensures var push, e := Command(Push(false), [k, t]), ListValues.ToEntry(t);
      var before := ChangeRun(c, d, k, push);
      var steps := before + [Send(d, push, [AT_ZERO])] + [Send(c, Command(Exec, []), [])];
      && Legal(steps)
      && Run(before).store == map[k := ListObj([e])] && Run(steps).store == map[k := ListObj([e, e])]
      && Run(steps).log == [Modified(k), Watched(c, k), Opened(c), Queued(c, READ),
                            Committed(c, [READ]), Executed(c, READ), Closed(c), Unwatched(c)]
  {
    hide Legal, Run, ChangeRun, Send;
    var e := ListValues.ToEntry(t);
    assert [k, t][1..] == [t] && ListValues.ToEntries([t]) == [e];
    assert Pushed([], [t], false) == [e] && Pushed([e], [t], false) == [e, e];
    UnnoticedChange(c, d, k, Command(Push(false), [k, t]), ListObj([e]), ListObj([e, e]));
  }

  /** And for INCR. */
  lemma UnnoticedIncr<C>(c: C, d: C, k: Key)
    requires c != d
    ensures var incr := Command(Incr, [k]);
      var before := ChangeRun(c, d, k, incr);
      var steps := before + [Send(d, incr, [AT_ZERO])] + [Send(c, Command(Exec, []), [])];
      && Legal(steps)
      && Run(before).store == map[k := IntObj(1)] && Run(steps).store == map[k := IntObj(2)]
      && Run(steps).log == [Modified(k), Watched(c, k), Opened(c), Queued(c, READ),
                            Committed(c, [READ]), Executed(c, READ), Closed(c), Unwatched(c)]
  {
    hide Legal, Run, ChangeRun, Send;
    UnnoticedChange(c, d, k, Command(Incr, [k]), IntObj(1), IntObj(2));
  }

  // ----- a transaction aborted for nothing -----

  /** d changes a key c watches; c discards a block, which ends its watching, and opens another. */
  function StaleRun<C(==)>(c: C, d: C, k: Key): seq<Step<C>> {
    [Accept(c), Accept(d)]
    + [Send(c, Command(Watch, [k]), [])]
    + [Send(d, READ, [Changing([Put(k, IntObj(1), None, [])])])]
    + [Send(c, Command(Multi, []), [])]
    + [Send(c, Command(Discard, []), [])]
    + [Send(c, Command(Multi, []), [])]
    + [Send(c, READ, [])]
    + [Send(c, Command(Exec, []), [])]
  }

  lemma MarkedRun<C>(c: C, d: C, k: Key)
    requires c != d
    ensures var steps := StaleRun(c, d, k)[..5];
      var w := Run(steps);
      && Legal(steps) && Free(w, c)
      && w.clients[c].multi && w.clients[c].cas && w.clients[c].replies == [Ok, Ok]
      && w.log == [Watched(c, k), Modified(k), Opened(c)]
  {
    var s4 := StaleRun(c, d, k)[..4];
    assert StaleRun(c, d, k)[..5] == s4 + [Send(c, Command(Multi, []), [])];
    hide Legal, Run, Respond, StaleRun;
    ModifiedRun(c, d, k);
    SendOne(s4, c, Command(Multi, []), []);
    OpenEffect(Run(s4), c, []);
  }

  lemma ModifiedRun<C>(c: C, d: C, k: Key)
    requires c != d
    ensures var steps := StaleRun(c, d, k)[..4];
      var w := Run(steps);
      && Legal(steps) && Free(w, c)
      && !w.clients[c].multi && w.clients[c].cas && w.clients[c].replies == [Ok]
      && w.log == [Watched(c, k), Modified(k)]
  {
    TwoConnected(c, d);
    var s2: seq<Step<C>> := [Accept(c), Accept(d)];
    var s3 := s2 + [Send(c, Command(Watch, [k]), [])];
    assert StaleRun(c, d, k)[..4] == s3 + [Send(d, READ, [Changing([Put(k, IntObj(1), None, [])])])];
    hide Legal, Run, Respond, DoAll, StaleRun;
    SendOne(s2, c, Command(Watch, [k]), []);
    WatchEffect(Run(s2), c, k, []);
    var w3 := Run(s3);
    SendOne(s3, d, READ, [Changing([Put(k, IntObj(1), None, [])])]);
    DataEffect(w3, d, [Put(k, IntObj(1), None, [])]);
    PutEffect(w3, k, IntObj(1), c);
    PutEffect(w3, k, IntObj(1), d);
  }

  lemma DiscardedRun<C>(c: C, d: C, k: Key)
    requires c != d
    ensures var steps := StaleRun(c, d, k)[..6];
      var w := Run(steps);
      && Legal(steps) && Free(w, c)
      && !w.clients[c].multi && w.clients[c].cas && w.clients[c].queue == []
      && w.clients[c].replies == [Ok, Ok, Ok]
      && w.log == [Watched(c, k), Modified(k), Opened(c), Closed(c), Unwatched(c)]
  {
    MarkedRun(c, d, k);
    var s5 := StaleRun(c, d, k)[..5];
    assert StaleRun(c, d, k)[..6] == s5 + [Send(c, Command(Discard, []), [])];
    hide Legal, Run, Respond, StaleRun;
    SendOne(s5, c, Command(Discard, []), []);
    DiscardEffect(Run(s5), c);
  }

  lemma SecondBlock<C>(c: C, d: C, k: Key)
    requires c != d
    ensures var steps := StaleRun(c, d, k)[..8];
      var w := Run(steps);
      && Legal(steps) && Free(w, c)
      && w.clients[c].multi && w.clients[c].cas
      && w.clients[c].replies == [Ok, Ok, Ok, Ok, QueuedReply]
      && w.log == [Watched(c, k), Modified(k), Opened(c), Closed(c), Unwatched(c), Opened(c), Queued(c, READ)]
  {
    DiscardedRun(c, d, k);
    var s6 := StaleRun(c, d, k)[..6];
    var s7 := s6 + [Send(c, Command(Multi, []), [])];
    assert StaleRun(c, d, k)[..8] == s7 + [Send(c, READ, [])];
    hide Legal, Run, Respond, StaleRun, Free;
    OpenAndRead(Run(s6), c);
    SendOne(s6, c, Command(Multi, []), []);
    SendOne(s7, c, READ, []);
  }

  lemma OpenAndRead<C>(w: World<C>, c: C)
    requires Free(w, c) && !w.clients[c].multi
    ensures var u := Respond(w, c, Command(Multi, []), []);
      var v := Respond(u, c, READ, []);
      && Free(u, c) && Free(v, c)
      && v.log == w.log + [Opened(c), Queued(c, READ)]
      && v.clients[c].multi && v.clients[c].cas == w.clients[c].cas
      && v.clients[c].replies == w.clients[c].replies + [Ok, QueuedReply]
  {
    hide Respond;
    OpenEffect(w, c, []);
    QueueEffect(Respond(w, c, Command(Multi, []), []), c, READ, []);
  }

  /** A legal run: the second transaction of c watches nothing and aborts all the same. */
  lemma StaleAbort<C>(c: C, d: C, k: Key)
    requires c != d
    ensures var steps := StaleRun(c, d, k);
      && Legal(steps)
      && Run(steps).log == [Watched(c, k), Modified(k), Opened(c), Closed(c), Unwatched(c),
                            Opened(c), Queued(c, READ), Unwatched(c), Aborted(c), Closed(c)]
      && St(Run(steps), c).replies == [Ok, Ok, Ok, Ok, QueuedReply, Null]
  {
    SecondBlock(c, d, k);
    var s8 := StaleRun(c, d, k)[..8];
    assert StaleRun(c, d, k) == s8 + [Send(c, Command(Exec, []), [])];
    hide Legal, Run, Respond, StaleRun;
    SendOne(s8, c, Command(Exec, []), []);
    AbortOne(Run(s8), c);
  }

  lemma DiscardEffect<C>(w: World<C>, c: C)
    requires Free(w, c) && w.clients[c].multi
    ensures var w' := Respond(w, c, Command(Discard, []), []);
      && w'.log == w.log + [Closed(c), Unwatched(c)]
      && w'.clients == w.clients[c := Reset(w.clients[c]).(multi := false, replies := w.clients[c].replies + [Ok])]
  {
    var u := Note(Set(w, c, Reset(w.clients[c]).(multi := false)), Closed(c));
    assert Respond(w, c, Command(Discard, []), []) == Answer(UnwatchAll(u, c), c, Ok);
    assert u.log + [Unwatched(c)] == w.log + [Closed(c), Unwatched(c)];
  }

  lemma AbortOne<C>(w: World<C>, c: C)
    requires Free(w, c) && w.clients[c].multi && w.clients[c].cas
    ensures var w' := Respond(w, c, Command(Exec, []), []);
      && w'.log == w.log + [Unwatched(c), Aborted(c), Closed(c)]
      && St(w', c).replies == w.clients[c].replies + [Null]
  {
    hide ExecMulti;
    AbortEffects(w, c, []);
    assert Respond(w, c, Command(Exec, []), []) == ExecMulti(w, c, []);
  }

  // ----- a client in two queues -----

  function Blocking(k: Key): Command {
    Command(Blpop, [k, []])
  }

  const WAIT := Oracle([], 0, Some(0), [])

  /** A block of two BLPOPs on empty keys puts its client into two queues at once. */
  lemma TwoBlpopsTwoQueues<C>(w: World<C>, c: C, a: Key, b: Key, t: Text, o: Oracle)
    requires a != b && IsEmptyKey(w, a) && IsEmptyKey(w, b) && o.timeout.Some?
    requires Commits(St(w, c)) && St(w, c).queue == [Command(Blpop, [a, t]), Command(Blpop, [b, t])]
    ensures var w' := ExecMulti(w, c, [o, o]);
      c in At(w'.waiting, a) && c in At(w'.waiting, b) && !InOneQueue(w', c)
  {
    var q := St(w, c).queue;
    var u := Answer(Note(w, Committed(c, q)), c, Count(|q|));
    var v := BlockOn(Note(u, Executed(c, q[0])), c, a, o.timeout.value, o.now);
    var x := BlockOn(Note(v, Executed(c, q[1])), c, b, o.timeout.value, o.now);
    assert q[1..] == [q[1]] && q[1..][1..] == [] && [o, o][1..] == [o];
    assert ExecLoop(u, c, q, [o, o]) == ExecLoop(v, c, q[1..], [o]);
    assert ExecLoop(v, c, q[1..], [o]) == x;
    var w' := ExecMulti(w, c, [o, o]);
    assert w'.waiting == x.waiting;
    assert At(w'.waiting, b) == At(v.waiting, b) + [c];
    assert At(w'.waiting, a) == At(v.waiting, a) == At(w.waiting, a) + [c];
  }

  function TwoBlpopsRun<C(==)>(c: C, a: Key, b: Key): seq<Step<C>> {
    [Accept(c)]
    + [Send(c, Command(Multi, []), [])]
    + [Send(c, Blocking(a), [])]
    + [Send(c, Blocking(b), [])]
    + [Send(c, Command(Exec, []), [WAIT, WAIT])]
  }

  /** A legal run: one block of two BLPOPs on missing keys puts its client into both queues. */
  lemma TwoBlpopsOneClient<C>(c: C, a: Key, b: Key)
    requires a != b
    ensures var steps := TwoBlpopsRun(c, a, b);
      && Legal(steps)
      && c in At(Run(steps).waiting, a) && c in At(Run(steps).waiting, b)
      && !InOneQueue(Run(steps), c)
  {
    BlpopsQueued(c, a, b);
    var s4 := TwoBlpopsRun(c, a, b)[..4];
    var w := Run(s4);
    assert TwoBlpopsRun(c, a, b) == s4 + [Send(c, Command(Exec, []), [WAIT, WAIT])];
    hide Legal, Run, Respond, TwoBlpopsRun;
    SendOne(s4, c, Command(Exec, []), [WAIT, WAIT]);
    ExecReached(w, c);
    TwoBlpopsTwoQueues(w, c, a, b, [], WAIT);
  }

  lemma BlpopsQueued<C>(c: C, a: Key, b: Key)
    ensures var steps := TwoBlpopsRun(c, a, b)[..4];
      var w := Run(steps);
      && Legal(steps) && Free(w, c) && Commits(w.clients[c]) && w.clients[c].queue == [Blocking(a), Blocking(b)]
      && w.store == map[]
  {
    var s0: seq<Step<C>> := [];
    RunSnoc(s0, Accept(c));
    var s1 := s0 + [Accept(c)];
    var s2 := s1 + [Send(c, Command(Multi, []), [])];
    var s3 := s2 + [Send(c, Blocking(a), [])];
    assert TwoBlpopsRun(c, a, b)[..4] == s3 + [Send(c, Blocking(b), [])];
    hide Legal, Run, Respond, TwoBlpopsRun;
    SendOne(s1, c, Command(Multi, []), []);
    OpenEffect(Run(s1), c, []);
    SendOne(s2, c, Blocking(a), []);
    QueueEffect(Run(s2), c, Blocking(a), []);
    SendOne(s3, c, Blocking(b), []);
    QueueEffect(Run(s3), c, Blocking(b), []);
  }

  lemma ExecReached<C>(w: World<C>, c: C)
    requires Free(w, c)
    ensures Respond(w, c, Command(Exec, []), [WAIT, WAIT]) == ExecMulti(w, c, [WAIT, WAIT])
  {
  }
}
