// What the dispatch loop does with each command in each mode of its client, and what it answers.
module SessionDispatch {
  import opened Options
  import opened Sessions
  import opened SessionInvariant
  import opened SessionWaiting

  // ----- the mode decides -----

  /** In a block every registered command but EXEC and DISCARD is queued, and every other one is refused;
      nothing is executed. */
  lemma InBlock<C>(w: World<C>, c: C, cmd: Command, os: seq<Oracle>)
    requires St(w, c).multi
    ensures var s, w' := St(w, c), Respond(w, c, cmd, os);
      match cmd.verb
      case Exec => true
      case Discard => true
      case Replica(_) => OnlyOwn(w, w', c, s.(aborted := true, replies := s.replies + [Error]))
      case Unknown(_) => OnlyOwn(w, w', c, s.(aborted := true, replies := s.replies + [Error]))
      case _ => OnlyOwn(w, w', c, s.(queue := s.queue + [cmd], replies := s.replies + [QueuedReply]))
  {
    var s := St(w, c);
    hide Execute, ExecMulti, DiscardMulti, OnlyOwn, Answer;
    OwnAnswer(w, c, s.(aborted := true), Refused(c), Error);
    OwnAnswer(w, c, s.(queue := s.queue + [cmd]), Queued(c, cmd), QueuedReply);
  }

  /** From w to w' only client c and the history have changed. */
  ghost predicate OnlyOwn<C>(w: World<C>, w': World<C>, c: C, s: ClientState) {
    w' == Set(w, c, s).(log := w'.log)
  }

  lemma OwnAnswer<C>(w: World<C>, c: C, s: ClientState, e: Event<C>, r: Reply)
    ensures OnlyOwn(w, Answer(Note(Set(w, c, s), e), c, r), c, s.(replies := s.replies + [r]))
  {
  }

  /** A blocked client outside a block is not heard. */
  lemma WhileBlocked<C>(w: World<C>, c: C, cmd: Command, os: seq<Oracle>)
    requires St(w, c).blocked && (!St(w, c).multi || cmd.verb == Exec || cmd.verb == Discard)
    ensures Respond(w, c, cmd, os) == w
  {
  }

  /** In subscriber mode SUBSCRIBE, UNSUBSCRIBE and PING are executed, PSUBSCRIBE, PUNSUBSCRIBE and QUIT get
      through to be unknown, and everything else is an error. */
  lemma WhileSubscribed<C>(w: World<C>, c: C, cmd: Command, os: seq<Oracle>)
    requires var s := St(w, c); s.sub && !s.blocked && (!s.multi || cmd.verb == Exec || cmd.verb == Discard)
    ensures var w', error := Respond(w, c, cmd, os), Answer(w, c, Error);
      match cmd.verb
      case Subscribe => w' == SubscribeAll(w, c, cmd.args)
      case Unsubscribe =>
        var order := if os == [] then [] else os[0].keys;
        w' == UnsubscribeAll(w, c, if cmd.args == [] then Visit(St(w, c).subs, order) else cmd.args)
      case Ping => w' == Answer(w, c, Ok)
      case Multi => w' == error
      case Exec => w' == error
      case Discard => w' == error
      case Watch => w' == error
      case Publish => w' == error
      case Blpop => w' == error
      case Push(_) => w' == error
      case Incr => w' == error
      case ExpireIn => w' == error
      case Data => w' == error
      case Replica(_) => w' == error
      case Unknown(_) => w' == error
  {
    hide SubscribeAll, UnsubscribeAll, Visit, Answer, ExecMulti, DiscardMulti, DoAll, BeginMulti;
    hide Sessions.WatchKeys, PublishTo, PopFor, BlockOn;
  }

  /** Otherwise a registered command is executed, REPLICA and REPLICAOF are answered, and an unknown command
      is an error. */
  lemma WhileFree<C>(w: World<C>, c: C, cmd: Command, o: Oracle)
    requires var s := St(w, c); !s.sub && !s.blocked && !s.multi
    ensures var w' := Respond(w, c, cmd, [o]);
      match cmd.verb
      case Replica(accepted) => w' == Answer(w, c, if accepted then Ok else Error)
      case Unknown(_) => w' == Answer(w, c, Error)
      case Exec => w' == Answer(w, c, Error)
      case Discard => w' == Answer(w, c, Error)
      case _ => w' == Execute(w, c, cmd, o)
  {
    hide Execute, Answer;
  }

  // ----- errors of the arguments -----

  /** The wrong number of arguments, or a number that is none, is an error that changes nothing. */
  lemma ArgumentErrors<C>(w: World<C>, c: C, cmd: Command, o: Oracle)
    requires match cmd.verb
      case Publish => |cmd.args| != 2
      case Blpop => |cmd.args| != 2 || o.timeout.None?
      case Push(_) => |cmd.args| < 2
      case Incr => |cmd.args| != 1
      case ExpireIn => |cmd.args| < 2 || o.timeout.None?
      case Watch => St(w, c).multi
      case _ => false
    ensures Execute(w, c, cmd, o) == Answer(w, c, Error)
  {
    hide Answer;
    NoEffect(w);
  }

  lemma NoEffect<C>(w: World<C>)
    ensures DoAll(w, []) == w
  {
  }

  // ----- subscriptions -----

  /** A new subscription is confirmed with the number of subscriptions the client then holds, and so is the
      end of one. */
  lemma SubscriptionTotals<C>(w: World<C>, c: C, k: Key)
    ensures var s, t, u := St(w, c), St(SubscribeTo(w, c, k), c), St(UnsubscribeFrom(w, c, k), c);
      && t.subs == s.subs + {k}
      && (k !in s.subs ==> t.sub && t.replies == s.replies + [Subscribed(k, |s.subs| + 1)])
      && (k in s.subs ==> t == s)
      && u.subs == s.subs - {k}
      && (k in s.subs ==> u.replies == s.replies + [Unsubscribed(k, |s.subs| - 1)])
      && (k !in s.subs ==> u == s)
  {
  }

  /** UNSUBSCRIBE without keys ends every subscription and leaves subscriber mode. */
  lemma UnsubscribeEndsMode<C>(w: World<C>, c: C, order: seq<Key>)
    requires St(w, c).subs != {}
    ensures var s' := St(UnsubscribeAll(w, c, Visit(St(w, c).subs, order)), c);
      s'.subs == {} && !s'.sub && |s'.replies| == |St(w, c).replies| + |St(w, c).subs|
  {
    hide Visit;
    var ks := Visit(St(w, c).subs, order);
    EnumeratedSize(ks, St(w, c).subs);
    UnsubscribeEach(w, c, ks);
  }

  lemma {:induction false} EnumeratedSize(ks: seq<Key>, s: set<Key>)
    requires Enumerates(ks, s)
    ensures |ks| == |s|
    decreases |ks|
  {
    if ks != [] {
      assert ks == [ks[0]] + ks[1..];
      EnumeratedSize(ks[1..], s - {ks[0]});
    }
  }

  lemma {:induction false} UnsubscribeEach<C>(w: World<C>, c: C, ks: seq<Key>)
    requires Enumerates(ks, St(w, c).subs)
    ensures var s, s' := St(w, c), St(UnsubscribeAll(w, c, ks), c);
      && s'.subs == {} && |s'.replies| == |s.replies| + |ks| && (ks != [] ==> !s'.sub)
    decreases |ks|
  {
    if ks != [] {
      assert ks == [ks[0]] + ks[1..];
      hide PutNonEmpty, Without;
      UnsubscribeEach(UnsubscribeFrom(w, c, ks[0]), c, ks[1..]);
      if ks[1..] == [] {
        assert St(w, c).subs - {ks[0]} == {};
      }
    }
  }

  // ----- EXEC -----

  /** The answer of EXEC: null when it aborts, an empty array for an empty block, else the number of queued
      commands ahead of their own answers. */
  lemma ExecAnswers<C>(w: World<C>, c: C, os: seq<Oracle>)
    ensures var s, s' := St(w, c), St(ExecMulti(w, c, os), c);
      && (!s.multi ==> s'.replies == s.replies + [Error])
      && (s.multi && (s.cas || s.aborted) ==> s'.replies == s.replies + [Null])
      && (Commits(s) && s.queue == [] ==> s'.replies == s.replies + [EmptyArray])
      && (Commits(s) && s.queue != [] ==> s.replies + [Count(|s.queue|)] <= s'.replies)
      && !s'.multi && (s.multi && (s.cas || s.aborted || s.queue != []) ==> s'.queue == [] && !s'.aborted)
  {
    var s := St(w, c);
    if Commits(s) && s.queue != [] {
      LoopReplies(Answer(Note(w, Committed(c, s.queue)), c, Count(|s.queue|)), c, s.queue, os);
    }
    hide ExecLoop;
  }

  lemma {:induction false} LoopReplies<C>(w: World<C>, c: C, cmds: seq<Command>, os: seq<Oracle>)
    ensures St(w, c).replies <= St(ExecLoop(w, c, cmds, os), c).replies
    decreases |cmds|
  {
    if cmds != [] {
      hide Execute;
      var o, rest := if os == [] then Oracle([], 0, None, []) else os[0], if os == [] then [] else os[1..];
      var u := Note(w, Executed(c, cmds[0]));
      ExecuteReplies(u, c, cmds[0], o);
      LoopReplies(Execute(u, c, cmds[0], o), c, cmds[1..], rest);
    }
  }

  lemma ExecuteReplies<C>(w: World<C>, c: C, cmd: Command, o: Oracle)
    ensures St(w, c).replies <= St(Execute(w, c, cmd, o), c).replies
  {
    hide DoAll, Broadcast, SubscribeAll, UnsubscribeAll, Sessions.WatchKeys, PopFor, Visit, OpsOf, ReplyOf;
    hide Answer, BlockOn;
    match cmd.verb
    case Multi => OneReply(Note(Set(w, c, Reset(St(w, c)).(multi := true)), Opened(c)), c, Ok);
    case Watch =>
      WatchingWaits(w, c, cmd.args);
      OneReply(w, c, Error);
      OneReply(WatchKeys(w, c, cmd.args), c, Ok);
    case Subscribe => SubscribingReplies(w, c, cmd.args);
    case Unsubscribe =>
      UnsubscribingReplies(w, c, if cmd.args == [] then Visit(St(w, c).subs, o.keys) else cmd.args);
    case Publish =>
      OneReply(w, c, Error);
      if |cmd.args| == 2 {
        var to, r := At(w.subscribers, cmd.args[0]), Message(cmd.args[0], cmd.args[1]);
        BroadcastingReplies(w, to, r, c);
        OneReply(Broadcast(w, to, r), c, Count(|to|));
      }
    case Blpop =>
      OneReply(w, c, Error);
      if |cmd.args| == 2 && o.timeout.Some? {
        PopReplies(w, c, cmd.args[0], o.now);
        BlockingReplies(w, c, cmd.args[0], o.timeout.value, o.now);
      }
    case Ping => OneReply(w, c, Ok);
    case _ =>
      var ops := OpsOf(w, cmd, o);
      DoAllSilent(w, ops, c);
      OneReply(DoAll(w, ops), c, ReplyOf(w, cmd, o));
  }

  lemma OneReply<C>(w: World<C>, c: C, r: Reply)
    ensures St(Answer(w, c, r), c).replies == St(w, c).replies + [r]
  {
  }

  lemma PopReplies<C>(w: World<C>, c: C, k: Key, now: nat)
    ensures St(w, c).replies <= St(PopFor(w, c, k, now), c).replies
  {
    PopForSilent(w, c, k, now, c);
    hide PopFor, PopReply;
  }

  lemma BlockingReplies<C>(w: World<C>, c: C, k: Key, timeout: int, now: nat)
    ensures St(BlockOn(w, c, k, timeout, now), c).replies == St(w, c).replies
  {
  }

  lemma {:induction false} SubscribingReplies<C>(w: World<C>, c: C, keys: seq<Key>)
    ensures St(w, c).replies <= St(SubscribeAll(w, c, keys), c).replies
    decreases |keys|
  {
    if keys != [] { SubscribingReplies(SubscribeTo(w, c, keys[0]), c, keys[1..]); }
  }

  lemma {:induction false} UnsubscribingReplies<C>(w: World<C>, c: C, keys: seq<Key>)
    ensures St(w, c).replies <= St(UnsubscribeAll(w, c, keys), c).replies
    decreases |keys|
  {
    if keys != [] { UnsubscribingReplies(UnsubscribeFrom(w, c, keys[0]), c, keys[1..]); }
  }

  lemma {:induction false} BroadcastingReplies<C>(w: World<C>, to: seq<C>, r: Reply, c: C)
    ensures St(w, c).replies <= St(Broadcast(w, to, r), c).replies
    decreases |to|
  {
    if to != [] { BroadcastingReplies(Answer(w, to[0], r), to[1..], r, c); }
  }
}
