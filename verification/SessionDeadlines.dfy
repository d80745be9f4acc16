// How long a BLPOP waits, on the clock: from the command to the timer pass that ends it.
module SessionDeadlines {
  import opened Options
  import opened Sessions
  import opened SessionHistory
  import opened SessionInvariant
  import opened SessionGuarantees
  import opened SessionSignals
  import opened SessionWaiting

  // ----- the history only grows -----

  lemma RespondNotes<C>(w: World<C>, c: C, cmd: Command, os: seq<Oracle>)
    ensures w.log <= Respond(w, c, cmd, os).log
  {
    var s, o := St(w, c), if os == [] then Oracle([], 0, None, []) else os[0];
    hide Execute, ExecLoop, Answer, UnwatchAll, DiscardMulti;
    AnswerNotes(w, c, Error);
    AnswerNotes(w, c, Ok);
    AnswerNotes(Note(Set(w, c, s.(aborted := true)), Refused(c)), c, Error);
    AnswerNotes(Note(Set(w, c, s.(queue := s.queue + [cmd])), Queued(c, cmd)), c, QueuedReply);
    ExecNotes(w, c, os);
    DiscardNotes(w, c);
    ExecuteNotes(w, c, cmd, o);
    hide ExecMulti;
  }

  lemma DiscardNotes<C>(w: World<C>, c: C)
    ensures w.log <= DiscardMulti(w, c).log
  {
    hide Answer;
    AnswerNotes(w, c, Error);
    var u := Note(Set(w, c, Reset(St(w, c)).(multi := false)), Closed(c));
    AnswerNotes(UnwatchAll(u, c), c, Ok);
    assert UnwatchAll(u, c).log == u.log + [Unwatched(c)];
    hide UnwatchAll;
  }

  lemma ExecNotes<C>(w: World<C>, c: C, os: seq<Oracle>)
    ensures w.log <= ExecMulti(w, c, os).log
  {
    hide ExecMulti;
    var s := St(w, c);
    if !s.multi {
      assert ExecMulti(w, c, os) == Answer(w, c, Error) by { NoBlock(w, c, os); }
    } else if Commits(s) {
      CommitNotes(w, c, os);
    } else {
      AbortEffects(w, c, os);
    }
  }

  lemma NoBlock<C>(w: World<C>, c: C, os: seq<Oracle>)
    requires !St(w, c).multi
    ensures ExecMulti(w, c, os) == Answer(w, c, Error)
  {
  }

  lemma {:induction false} RespondAllNotes<C>(w: World<C>, c: C, cmds: seq<Command>, os: seq<seq<Oracle>>)
    ensures w.log <= RespondAll(w, c, cmds, os).log
    decreases |cmds|
  {
    if cmds != [] {
      hide Respond;
      var o, rest := if os == [] then [] else os[0], if os == [] then [] else os[1..];
      RespondNotes(w, c, cmds[0], o);
      RespondAllNotes(Respond(w, c, cmds[0], o), c, cmds[1..], rest);
    }
  }

  lemma {:induction false} ServeNotes<C>(w: World<C>, visits: seq<(Key, nat)>)
    ensures w.log <= ServeAllReady(w, visits).log
    decreases |visits|
  {
    if visits != [] {
      var (k, now) := visits[0];
      if At(w.waiting, k) != [] { PopNotes(w, At(w.waiting, k)[0], k, now); }
      hide PopFor;
      ServeNotes(ServeReady(w, k, now), visits[1..]);
    }
  }

  lemma {:induction false} ScanNotes<C>(w: World<C>, k: Key, now: nat, todo: seq<C>, kept: seq<C>)
    ensures w.log <= ExpireQueue(w, k, now, todo, kept).log
    decreases |todo|
  {
    hide ExpireQueue;
    ExpireStep(w, k, now, todo, kept);
    if todo != [] {
      if Expired(St(w, todo[0]), now) {
        ScanNotes(TimeOut(w, todo[0], k), k, now, todo[1..], kept);
      } else {
        ScanNotes(w, k, now, todo[1..], kept + [todo[0]]);
      }
    }
  }

  lemma {:induction false} TimerNotes<C>(w: World<C>, keys: seq<Key>, now: nat)
    ensures w.log <= ExpireKeys(w, keys, now).log
    decreases |keys|
  {
    if keys != [] {
      var v := Scanned(w, keys[0], now);
      if keys[0] in w.waiting { ScanNotes(w, keys[0], now, w.waiting[keys[0]], []); }
      hide ExpireQueue;
      TimerNotes(v, keys[1..], now);
    }
  }

  lemma {:induction false} DropNotes<C>(w: World<C>, c: C, keys: seq<Key>)
    ensures DropAll(w, c, keys).log == w.log
    decreases |keys|
  {
    if keys != [] {
      hide PutNonEmpty, Without;
      DropNotes(w.(subscribers := PutNonEmpty(w.subscribers, keys[0], Without(At(w.subscribers, keys[0]), c))),
                c, keys[1..]);
    }
  }

  lemma ApplyNotes<C>(w: World<C>, step: Step<C>)
    ensures w.log <= Apply(w, step).log
  {
    match step
    case Receive(c, cmds, os) => hide RespondAll; RespondAllNotes(w, c, cmds, os);
    case Cleanup(c, keys) => hide DropAll; DropNotes(w, c, keys);
    case BeforeSleep(visits) => hide ServeAllReady; ServeNotes(w, visits);
    case Timer(keys, now) => hide ExpireKeys; TimerNotes(w, keys, now);
    case Cron(sweep) => StoreSignals(w, sweep); hide DoAll;
    case _ =>
  }

  lemma {:induction false} RunNotes<C>(before: seq<Step<C>>, rest: seq<Step<C>>)
    ensures Run(before).log <= Run(before + rest).log
    decreases |rest|
  {
    if rest == [] {
      assert before + rest == before;
    } else {
      var init := rest[..|rest| - 1];
      assert before + rest == before + init + [rest[|rest| - 1]];
      RunSnoc(before + init, rest[|rest| - 1]);
      hide Run;
      RunNotes(before, init);
      ApplyNotes(Run(before + init), rest[|rest| - 1]);
    }
  }

  // ----- the deadline of a waiting client -----

  lemma {:induction false} UntilSince<C>(log: seq<Event<C>>, c: C, i: nat, m: nat)
    requires i < m <= |log| && BlockOf(log[i], c)
    requires forall n :: i < n < m ==> !AnswerTo(log[n], c) && !BlockOf(log[n], c)
    ensures var v := ViewOf(log[..m], c);
      v.waits == Some(log[i].key) && v.until == Deadline(log[i].timeout, log[i].at)
    decreases m
  {
    hide ViewOf, AnswerTo, BlockOf, Deadline;
    WaitStep(log, m - 1, c);
    if m > i + 1 { UntilSince(log, c, i, m - 1); }
  }

  lemma TimesCons<C>(d: C, rest: seq<C>, c: C)
    ensures Times([d] + rest, c) == (if c == d then 1 else 0) + Times(rest, c)
    ensures c in rest <==> Times(rest, c) > 0
  {
  }

  lemma TimeOutState<C>(w: World<C>, d: C, k: Key, c: C)
    ensures var v := TimeOut(w, d, k);
      v.waiting == w.waiting && St(v, c) == if c == d then Told(St(w, c)) else St(w, c)
  {
  }

  /** A scan tells a client that stands at most once in the queue, whoever else stands in it how often. */
  lemma {:induction false} ScanTellsOne<C>(w: World<C>, k: Key, now: nat, todo: seq<C>, kept: seq<C>, c: C)
    requires Times(todo, c) <= 1
    ensures var w' := ExpireQueue(w, k, now, todo, kept);
      && St(w', c) == (if c in todo && Expired(St(w, c), now) then Told(St(w, c)) else St(w, c))
      && forall j: Key :: j != k ==> At(w'.waiting, j) == At(w.waiting, j)
    decreases |todo|
  {
    hide ExpireQueue;
    ExpireStep(w, k, now, todo, kept);
    if todo != [] {
      hide Expired, TimeOut, Told, Times;
      var d, rest := todo[0], todo[1..];
      assert todo == [d] + rest;
      TimesCons(d, rest, c);
      TimeOutState(w, d, k, c);
      if Expired(St(w, d), now) {
        ScanTellsOne(TimeOut(w, d, k), k, now, rest, kept, c);
      } else {
        ScanTellsOne(w, k, now, rest, kept + [d], c);
      }
    }
  }

  /** Client c stands in at most one of the queues, once. */
  ghost predicate Once<C>(w: World<C>, keys: seq<Key>, c: C) {
    && (forall j :: j in keys ==> Times(At(w.waiting, j), c) <= 1)
    && (forall j, k {:trigger At(w.waiting, j), At(w.waiting, k)} ::
          j in keys && k in keys && c in At(w.waiting, j) && c in At(w.waiting, k) ==> j == k)
  }

  lemma {:induction false} PassTellsOne<C>(w: World<C>, keys: seq<Key>, now: nat, c: C)
    requires Once(w, keys, c) && forall i, j :: 0 <= i < j < |keys| ==> keys[i] != keys[j]
    ensures St(ExpireKeys(w, keys, now), c)
         == if Among(w, keys, c) && Expired(St(w, c), now) then Told(St(w, c)) else St(w, c)
    decreases |keys|
  {
    if keys != [] {
      hide ExpireQueue, Told, Expired, Times;
      var j, rest, v := keys[0], keys[1..], Scanned(w, keys[0], now);
      assert keys == [j] + rest && j !in rest;
      if j in w.waiting { ScanTellsOne(w, j, now, w.waiting[j], [], c); }
      assert forall k :: k in rest ==> At(v.waiting, k) == At(w.waiting, k);
      assert Among(w, keys, c) <==> c in At(w.waiting, j) || Among(w, rest, c);
      assert Among(v, rest, c) <==> Among(w, rest, c);
      PassTellsOne(v, rest, now, c);
    }
  }

  /** Over runs: a client that blocked at time at with the given timeout, and has not been answered since, is
      told by a timer pass exactly when the timeout is positive and the clock is past its end. Nothing else
      happens to it. */
  lemma DeadlineExact<C>(steps: seq<Step<C>>, keys: seq<Key>, now: nat, c: C, i: nat)
    requires Legal(steps) && Enumerates(keys, Run(steps).waiting.Keys) && NeverTwice(Run(steps).log, c)
    requires var log := Run(steps).log;
      && i < |log| && log[i].Blocked? && log[i].c == c
      && (forall n :: i < n < |log| ==> !AnswerTo(log[n], c))
    ensures var w, w' := Run(steps), Apply(Run(steps), Timer(keys, now));
      var timeout, at := w.log[i].timeout, w.log[i].at;
      && St(w, c).blocked
      && St(w', c) ==
           if timeout > 0 && now > at + timeout
           then St(w, c).(blocked := false, when := None, replies := St(w, c).replies + [Null])
           else St(w, c)
  {
    hide Legal, Run, ExpireKeys, NeverTwice, Times;
    var w := Run(steps);
    var log := w.log;
    assert forall n :: i < n < |log| ==> !BlockOf(log[n], c) by {
      forall n | i < n < |log| ensures !BlockOf(log[n], c) {
        if BlockOf(log[n], c) { BlockedAgain(log, c, i, n); }
      }
    }
    UntilSince(log, c, i, |log|);
    assert log[..|log|] == log;
    WaitingState(steps, c);
    PassTellsOne(w, keys, now, c);
    var k := log[i].key;
    assert c in At(w.waiting, k);
    assert k in keys;
  }

  lemma BlockedAgain<C>(log: seq<Event<C>>, c: C, i: nat, n: nat)
    requires i < n < |log| && BlockOf(log[i], c) && BlockOf(log[n], c) && NeverTwice(log, c)
    ensures exists m :: i < m < n && AnswerTo(log[m], c)
  {
  }

  /** What the invariant says of a client that was never blocked while waiting. */
  lemma WaitingState<C>(steps: seq<Step<C>>, c: C)
    requires Legal(steps) && NeverTwice(Run(steps).log, c)
    ensures var w := Run(steps);
      var v := ViewOf(w.log, c);
      && Placed(w, c) && St(w, c).when == v.until
      && (forall k: Key :: c in At(w.waiting, k) <==> v.waits == Some(k))
      && (St(w, c).blocked <==> v.waits.Some?)
  {
    var w := Run(steps);
    WaitsInOneQueue(steps, c);
    RunKeeps(steps, c);
    NeverTwiceExact(w.log, c);
    assert BlockAll(w, c);
    hide Inv, ViewOf;
    forall k: Key ensures c in At(w.waiting, k) <==> ViewOf(w.log, c).waits == Some(k) {
      assert BlockOk(w, c, k);
      assert c in At(w.waiting, k) <==> Times(At(w.waiting, k), c) > 0;
    }
  }

  // ----- from the command -----

  /** A BLPOP of a free client on an empty key notes when it was given and for how long. */
  lemma BlpopNotes<C>(w: World<C>, c: C, cmd: Command, o: Oracle)
    requires !St(w, c).multi && !St(w, c).blocked && !St(w, c).sub && Blocks(w, cmd, o)
    ensures Respond(w, c, cmd, [o]).log == w.log + [Blocked(c, cmd.args[0], o.timeout.value, o.now)]
  {
  }

  /** A client gives BLPOP at time o.now on an empty key; whatever happens afterwards, a timer pass finds it
      unanswered. The pass answers null exactly when the timeout is positive and over. */
  lemma BlpopDeadline<C>(before: seq<Step<C>>, c: C, cmd: Command, o: Oracle, rest: seq<Step<C>>,
                         keys: seq<Key>, now: nat)
    requires var w := Run(before);
      !St(w, c).multi && !St(w, c).blocked && !St(w, c).sub && Blocks(w, cmd, o)
    requires var steps := before + [Receive(c, [cmd], [[o]])] + rest;
      && Legal(steps) && Enumerates(keys, Run(steps).waiting.Keys) && NeverTwice(Run(steps).log, c)
      && forall n :: |Run(before).log| < n < |Run(steps).log| ==> !AnswerTo(Run(steps).log[n], c)
    ensures var w := Run(before + [Receive(c, [cmd], [[o]])] + rest);
      var w', d := Apply(w, Timer(keys, now)), o.timeout.value;
      && (d > 0 && now > o.now + d ==>
            St(w', c) == St(w, c).(blocked := false, when := None, replies := St(w, c).replies + [Null]))
      && (!(d > 0 && now > o.now + d) ==> St(w', c) == St(w, c) && St(w', c).blocked)
  {
    hide Legal, Run, Apply, NeverTwice, Blocks, Respond;
    var step := Receive(c, [cmd], [[o]]);
    var w, i := Run(before), |Run(before).log|;
    BlpopNotes(w, c, cmd, o);
    OneReceived(before, c, cmd, o);
    RunNotes(before + [step], rest);
    var log := Run(before + [step] + rest).log;
    assert log[i] == Run(before + [step]).log[i];
    DeadlineExact(before + [step] + rest, keys, now, c, i);
  }

  lemma OneReceived<C>(before: seq<Step<C>>, c: C, cmd: Command, o: Oracle)
    requires !St(Run(before), c).blocked
    ensures Run(before + [Receive(c, [cmd], [[o]])]) == Respond(Run(before), c, cmd, [o])
  {
    RunSnoc(before, Receive(c, [cmd], [[o]]));
    hide Respond, Run;
    var v := Respond(Run(before), c, cmd, [o]);
    assert [cmd][1..] == [] && [[o]][1..] == [];
    assert RespondAll(v, c, [], []) == v;
  }
}
