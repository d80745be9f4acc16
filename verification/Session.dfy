// Clients, watched keys, subscriptions and waiting queues as one state, with a history of what
// happened. Every function is one action of the single-threaded server.
module Sessions {
  import opened Bytes
  import opened Options
  import opened Sequences
  import ListpackFormat
  import ListValues

  type Key = Text

  /** The commands whose execution touches sessions, and those whose effect on the store is spelled out:
      RPUSH and LPUSH, INCR, and EXPIRE. Every other registered command is Data. Replica
      stands for REPLICAOF and REPLICA, which are answered without being registered, and Unknown for
      all other unregistered ones (some of those are let through in subscriber mode). */
  datatype Verb = Multi | Exec | Discard | Watch | Subscribe | Unsubscribe | Publish | Blpop | Ping
                | Push(front: bool) | Incr | ExpireIn | Data
                | Replica(accepted: bool) | Unknown(pubsub: bool)

  predicate Registered(v: Verb) {
    !v.Replica? && !v.Unknown?
  }

  datatype Command = Command(verb: Verb, args: seq<Text>)

  datatype Reply = Ok | Null | Error | QueuedReply | Count(n: int) | EmptyArray
                 | Subscribed(key: Key, total: nat) | Unsubscribed(key: Key, total: nat)
                 | Message(key: Key, text: Text) | Popped(item: Item) | DataReply

  type Item = ListpackFormat.Entry

  /** A value of the store: a list, a string encoded as an integer, or anything else by its content. */
  datatype Obj = ListObj(items: seq<Item>) | IntObj(v: int64) | OtherObj(content: Text)

  /** The primitive effects of commands on the store. Any command, any eviction policy and any
      expiry is a sequence of these. */
  datatype StoreOp =
    | Get(key: Key, now: nat)
    | Put(key: Key, obj: Obj, expiry: Option<nat>, victims: seq<Key>)
    | Del(key: Key)
    | Rewrite(key: Key, obj: Obj)  // an in-place change, which signals nobody
    | Expire(key: Key, at: nat)
    | MarkReady(key: Key)

  /** What the model leaves open about one execution: the store effects of a Data command, the clock, the
      parsed timeout, and the order in which a set of subscriptions is visited or the keys evicted. */
  datatype Oracle = Oracle(ops: seq<StoreOp>, now: nat, timeout: Option<int>, keys: seq<Key>)

  datatype ClientState = ClientState(
    multi: bool, blocked: bool, sub: bool, cas: bool,
    queue: seq<Command>, aborted: bool,
    subs: set<Key>, when: Option<nat>, replies: seq<Reply>, alive: bool)

  const NEW_CLIENT := ClientState(false, false, false, false, [], false, {}, None, [], true)

  datatype Event<C> =
    | Watched(c: C, key: Key) | Unwatched(c: C) | Modified(key: Key)
    | Opened(c: C) | Queued(c: C, cmd: Command) | Refused(c: C)
    | Committed(c: C, cmds: seq<Command>) | Executed(c: C, cmd: Command) | Aborted(c: C) | Closed(c: C)
    | Blocked(c: C, key: Key, timeout: int, at: nat) | Served(c: C, key: Key) | TimedOut(c: C, key: Key)

  datatype World<C> = World(
    clients: map<C, ClientState>,
    watched: map<Key, seq<C>>,
    subscribers: map<Key, seq<C>>,
    waiting: map<Key, seq<C>>,
    ready: set<Key>,
    store: map<Key, Obj>,
    expires: map<Key, nat>,
    log: seq<Event<C>>)

  function St<C>(w: World<C>, c: C): ClientState {
    if c in w.clients then w.clients[c] else NEW_CLIENT
  }

  function At<C>(m: map<Key, seq<C>>, k: Key): seq<C> {
    if k in m then m[k] else []
  }

  function Set<C>(w: World<C>, c: C, s: ClientState): World<C> {
    w.(clients := w.clients[c := s])
  }

  function Note<C>(w: World<C>, e: Event<C>): World<C> {
    w.(log := w.log + [e])
  }

  function Answer<C>(w: World<C>, c: C, r: Reply): World<C> {
    Set(w, c, St(w, c).(replies := St(w, c).replies + [r]))
  }

  function Without<C(==)>(s: seq<C>, c: C): (r: seq<C>) {
    if s == [] then [] else (if s[0] == c then [] else [s[0]]) + Without(s[1..], c)
  }

  /** A map entry, dropped when it would be empty. */
  function PutNonEmpty<C(==)>(m: map<Key, seq<C>>, k: Key, s: seq<C>): map<Key, seq<C>> {
    if s == [] then m - {k} else m[k := s]
  }

  // ----- the store and its signals -----

  /** Every client watching k loses its transaction. */
  function Touch<C(==)>(w: World<C>, k: Key): World<C> {
    Note(w.(clients := map c | c in w.clients ::
              if c in At(w.watched, k) then w.clients[c].(cas := true) else w.clients[c]), Modified(k))
  }

  function Delete<C(==)>(w: World<C>, k: Key): World<C> {
    if k in w.store then Touch(w.(store := w.store - {k}, expires := w.expires - {k}), k) else w
  }

  function DeleteAll<C(==)>(w: World<C>, ks: seq<Key>): World<C>
    decreases |ks|
  {
    if ks == [] then w else DeleteAll(Delete(w, ks[0]), ks[1..])
  }

  function Do<C(==)>(w: World<C>, op: StoreOp): World<C> {
    match op
    case Get(k, now) =>
      if k in w.store && k in w.expires && w.expires[k] <= now then Delete(w, k) else w
    case Put(k, obj, expiry, victims) =>
      var v := DeleteAll(w, victims);
      Touch(v.(store := v.store[k := obj],
               expires := if expiry.Some? then v.expires[k := expiry.value] else v.expires), k)
    case Del(k) => Delete(w, k)
    case Rewrite(k, obj) => if k in w.store then w.(store := w.store[k := obj]) else w
    case Expire(k, at) => if k in w.store then w.(expires := w.expires[k := at]) else w
    case MarkReady(k) => if At(w.waiting, k) != [] then w.(ready := w.ready + {k}) else w
  }

  function DoAll<C(==)>(w: World<C>, ops: seq<StoreOp>): World<C>
    decreases |ops|
  {
    if ops == [] then w else DoAll(Do(w, ops[0]), ops[1..])
  }

  predicate IsEmptyKey<C>(w: World<C>, k: Key) {
    k !in w.store || w.store[k] == ListObj([])
  }

  /** What a lookup at the given time answers. */
  function Found<C>(w: World<C>, k: Key, now: nat): Option<Obj> {
    if k in w.store && !(k in w.expires && w.expires[k] <= now) then Some(w.store[k]) else None
  }

  /** The list after the typed arguments went in one by one. */
  function Pushed(items: seq<Item>, args: seq<Text>, front: bool): seq<Item> {
    var es := ListValues.ToEntries(args);
    if front then Reversed(es) + items else items + es
  }

  /** RPUSH or LPUSH: a missing or expired list is put, an existing one grows in place, one that was
      empty is marked ready, and any other value stays. */
  function PushOps<C>(w: World<C>, k: Key, args: seq<Text>, front: bool, now: nat, victims: seq<Key>): seq<StoreOp> {
    [Get(k, now)] +
    match Found(w, k, now)
    case None => [Put(k, ListObj([]), None, victims), Rewrite(k, ListObj(Pushed([], args, front))), MarkReady(k)]
    case Some(ListObj(items)) =>
      [Rewrite(k, ListObj(Pushed(items, args, front)))] + (if items == [] then [MarkReady(k)] else [])
    case Some(_) => []
  }

  function PushReply<C>(w: World<C>, k: Key, n: nat, now: nat): Reply {
    match Found(w, k, now)
    case None => Count(n)
    case Some(ListObj(items)) => Count(|items| + n)
    case Some(_) => Error
  }

  /** INCR: a missing counter is put as zero, and an existing one changes in place. */
  function IncrOps<C>(w: World<C>, k: Key, now: nat, victims: seq<Key>): seq<StoreOp> {
    [Get(k, now)] +
    match Found(w, k, now)
    case None => [Put(k, IntObj(0), None, victims), Rewrite(k, IntObj(1))]
    case Some(IntObj(v)) => [Rewrite(k, IntObj(Wrap64(v + 1)))]
    case Some(_) => []
  }

  function IncrReply<C>(w: World<C>, k: Key, now: nat): Reply {
    match Found(w, k, now)
    case None => Count(1)
    case Some(IntObj(v)) => Count(Wrap64(v + 1))
    case Some(_) => Error
  }

  /** EXPIRE: the deadline is a 64-bit sum. */
  function ExpireOps<C>(w: World<C>, k: Key, seconds: int, now: nat): seq<StoreOp> {
    [Get(k, now)] + if Found(w, k, now).Some? then [Expire(k, (now + 1000 * seconds) % TWO_64)] else []
  }

  /** What a command that is about the store alone does to it. */
  function OpsOf<C>(w: World<C>, cmd: Command, o: Oracle): seq<StoreOp> {
    match cmd.verb
    case Push(front) =>
      if |cmd.args| < 2 then [] else PushOps(w, cmd.args[0], cmd.args[1..], front, o.now, o.keys)
    case Incr => if |cmd.args| != 1 then [] else IncrOps(w, cmd.args[0], o.now, o.keys)
    case ExpireIn =>
      if |cmd.args| < 2 || o.timeout.None? then [] else ExpireOps(w, cmd.args[0], o.timeout.value, o.now)
    case _ => o.ops
  }

  function ReplyOf<C>(w: World<C>, cmd: Command, o: Oracle): Reply {
    match cmd.verb
    case Push(_) => if |cmd.args| < 2 then Error else PushReply(w, cmd.args[0], |cmd.args| - 1, o.now)
    case Incr => if |cmd.args| != 1 then Error else IncrReply(w, cmd.args[0], o.now)
    case ExpireIn =>
      if |cmd.args| < 2 || o.timeout.None? then Error
      else Count(if Found(w, cmd.args[0], o.now).Some? then 1 else 0)
    case _ => DataReply
  }

  /** LPOP of one value: a list loses its first item, and an emptied list stays. */
  function PopOps<C>(w: World<C>, k: Key, now: nat): seq<StoreOp> {
    [Get(k, now)] +
    match Found(w, k, now)
    case Some(ListObj(items)) => if items == [] then [] else [Rewrite(k, ListObj(items[1..]))]
    case _ => []
  }

  /** The item, or null if the list is missing, expired or empty. */
  function PopReply<C>(w: World<C>, k: Key, now: nat): Reply {
    match Found(w, k, now)
    case None => Null
    case Some(ListObj(items)) => if items == [] then Null else Popped(items[0])
    case Some(_) => Error
  }

  function PopFor<C(==)>(w: World<C>, c: C, k: Key, now: nat): World<C> {
    Answer(DoAll(w, PopOps(w, k, now)), c, PopReply(w, k, now))
  }

  lemma DoCons<C>(w: World<C>, op: StoreOp, rest: seq<StoreOp>)
    ensures DoAll(w, [op] + rest) == DoAll(Do(w, op), rest)
  {
    assert ([op] + rest)[1..] == rest;
  }

  lemma GetFinds<C>(w: World<C>, k: Key, now: nat)
    ensures var v := Do(w, Get(k, now));
      Found(w, k, now) == if k in v.store then Some(v.store[k]) else None
  {
  }

  // ----- transactions -----

  function WatchKeys<C(==)>(w: World<C>, c: C, keys: seq<Key>): World<C>
    decreases |keys|
  {
    if keys == [] then w
    else
      var k := keys[0];
      WatchKeys(Note(w.(watched := w.watched[k := At(w.watched, k) + [c]]), Watched(c, k)), c, keys[1..])
  }

  function UnwatchAll<C(==)>(w: World<C>, c: C): World<C> {
    Note(w.(watched := map k | k in w.watched && Without(w.watched[k], c) != [] :: Without(w.watched[k], c)),
         Unwatched(c))
  }

  function Reset(s: ClientState): ClientState {
    s.(queue := [], aborted := false)
  }

  function BeginMulti<C>(w: World<C>, c: C): World<C> {
    Answer(Note(Set(w, c, Reset(St(w, c)).(multi := true)), Opened(c)), c, Ok)
  }

  function DiscardMulti<C(==)>(w: World<C>, c: C): World<C> {
    if !St(w, c).multi then Answer(w, c, Error)
    else
      Answer(UnwatchAll(Note(Set(w, c, Reset(St(w, c)).(multi := false)), Closed(c)), c), c, Ok)
  }

  // ----- subscriptions -----

  function Joined(s: ClientState, k: Key): ClientState {
    s.(subs := s.subs + {k}, sub := true)
  }

  function Left(s: ClientState, k: Key): ClientState {
    s.(subs := s.subs - {k}, sub := if s.subs - {k} == {} then false else s.sub)
  }

  function SubscribeTo<C(==)>(w: World<C>, c: C, k: Key): World<C> {
    var s := Joined(St(w, c), k);
    if k in St(w, c).subs then w
    else
      Answer(Set(w.(subscribers := w.subscribers[k := At(w.subscribers, k) + [c]]), c, s), c,
             Subscribed(k, |s.subs|))
  }

  function UnsubscribeFrom<C(==)>(w: World<C>, c: C, k: Key): World<C> {
    var s := Left(St(w, c), k);
    if k !in St(w, c).subs then w
    else
      Answer(Set(w.(subscribers := PutNonEmpty(w.subscribers, k, Without(At(w.subscribers, k), c))), c, s), c,
             Unsubscribed(k, |s.subs|))
  }

  // ----- visiting a set of keys in some order -----

  predicate IsLeast(s: set<Key>, k: Key) {
    k in s && forall j :: j in s ==> j == k || Less(k, j)
  }

  lemma {:induction false} LeastExists(s: set<Key>)
    requires s != {}
    ensures exists k :: IsLeast(s, k)
    decreases |s|
  {
    var k :| k in s;
    var rest := s - {k};
    if rest == {} {
      assert forall j :: j in s ==> j == k || j in rest;
      assert IsLeast(s, k);
    } else {
      LeastExists(rest);
      var l :| IsLeast(rest, l);
      LessTotal(k, l);
      if Less(l, k) {
        assert IsLeast(s, l);
      } else {
        forall j | j in s ensures j == k || Less(k, j) {
          if j != k && j != l { LessTransitive(k, l, j); }
        }
        assert IsLeast(s, k);
      }
    }
  }

  lemma LeastUnique(s: set<Key>, k: Key, l: Key)
    requires IsLeast(s, k) && IsLeast(s, l)
    ensures k == l
  {
    LessTotal(k, l);
  }

  function Least(s: set<Key>): (k: Key)
    requires s != {}
    ensures k in s
  {
    LeastExists(s);
    assert forall k, l | IsLeast(s, k) && IsLeast(s, l) :: k == l by {
      forall k, l | IsLeast(s, k) && IsLeast(s, l) ensures k == l { LeastUnique(s, k, l); }
    }
    var k :| k in s && IsLeast(s, k);
    k
  }

  /** The keys of the set, each once. */
  ghost predicate Enumerates(keys: seq<Key>, s: set<Key>) {
    && (forall k :: k in keys <==> k in s)
    && (forall i, j :: 0 <= i < j < |keys| ==> keys[i] != keys[j])
  }

  /** The keys of s, each once: those listed in the given order first. */
  function Visit(s: set<Key>, order: seq<Key>): (ks: seq<Key>)
    ensures Enumerates(ks, s)
    decreases |s|, |order|
  {
    if s == {} then []
    else if order == [] then var k := Least(s); [k] + Visit(s - {k}, [])
    else if order[0] in s then [order[0]] + Visit(s - {order[0]}, order[1..])
    else Visit(s, order[1..])
  }

  /** Every enumeration of s is a possible visit. */
  lemma {:induction false} AnyVisit(s: set<Key>, order: seq<Key>)
    requires Enumerates(order, s)
    ensures Visit(s, order) == order
    decreases |order|
  {
    if order != [] {
      assert order == [order[0]] + order[1..];
      AnyVisit(s - {order[0]}, order[1..]);
    }
  }

  function SubscribeAll<C(==)>(w: World<C>, c: C, keys: seq<Key>): World<C>
    decreases |keys|
  {
    if keys == [] then w else SubscribeAll(SubscribeTo(w, c, keys[0]), c, keys[1..])
  }

  function UnsubscribeAll<C(==)>(w: World<C>, c: C, keys: seq<Key>): World<C>
    decreases |keys|
  {
    if keys == [] then w else UnsubscribeAll(UnsubscribeFrom(w, c, keys[0]), c, keys[1..])
  }

  /** The message is appended to each subscriber in turn. */
  function Broadcast<C>(w: World<C>, to: seq<C>, r: Reply): World<C>
    decreases |to|
  {
    if to == [] then w else Broadcast(Answer(w, to[0], r), to[1..], r)
  }

  /** The reply to the publisher is the number of deliveries. */
  function PublishTo<C>(w: World<C>, c: C, k: Key, text: Text): World<C> {
    Answer(Broadcast(w, At(w.subscribers, k), Message(k, text)), c, Count(|At(w.subscribers, k)|))
  }

  // ----- blocking -----

  function BlockOn<C(==)>(w: World<C>, c: C, k: Key, timeout: int, now: nat): World<C> {
    Note(Set(w, c, St(w, c).(blocked := true, when := if timeout > 0 then Some(now + timeout) else None))
         .(waiting := w.waiting[k := At(w.waiting, k) + [c]]), Blocked(c, k, timeout, now))
  }

  /** A ready key serves its oldest waiter. */
  function ServeReady<C(==)>(w: World<C>, k: Key, now: nat): World<C> {
    var q := At(w.waiting, k);
    if q == [] then w.(ready := w.ready - {k})
    else
      var c, v := q[0], PopFor(w, q[0], k, now);
      Note(Set(v, c, St(v, c).(blocked := false, when := None))
           .(waiting := v.waiting[k := q[1..]], ready := v.ready - {k}), Served(c, k))
  }

  /** The ready keys in the order they are visited, each with the clock at its visit. */
  function ServeAllReady<C(==)>(w: World<C>, visits: seq<(Key, nat)>): World<C>
    decreases |visits|
  {
    if visits == [] then w else ServeAllReady(ServeReady(w, visits[0].0, visits[0].1), visits[1..])
  }

  function Expired(s: ClientState, now: nat): bool {
    s.when.Some? && s.when.value < now
  }

  /** Scans one waiting queue; those still waiting are collected in order. */
  function ExpireQueue<C(==)>(w: World<C>, k: Key, now: nat, todo: seq<C>, kept: seq<C>): World<C>
    decreases |todo|
  {
    if todo == [] then w.(waiting := PutNonEmpty(w.waiting, k, kept))
    else
      var c := todo[0];
      if Expired(St(w, c), now) then
        ExpireQueue(Note(Answer(Set(w, c, St(w, c).(blocked := false, when := None)), c, Null), TimedOut(c, k)),
                    k, now, todo[1..], kept)
      else ExpireQueue(w, k, now, todo[1..], kept + [c])
  }

  function ExpireKeys<C(==)>(w: World<C>, keys: seq<Key>, now: nat): World<C>
    decreases |keys|
  {
    if keys == [] then w
    else ExpireKeys(if keys[0] in w.waiting then ExpireQueue(w, keys[0], now, w.waiting[keys[0]], []) else w,
                    keys[1..], now)
  }

  // ----- executing commands -----

  /** Any registered command except EXEC and DISCARD. */
  function Execute<C(==)>(w: World<C>, c: C, cmd: Command, o: Oracle): World<C> {
    match cmd.verb
    case Multi => BeginMulti(w, c)
    case Watch => if St(w, c).multi then Answer(w, c, Error) else Answer(WatchKeys(w, c, cmd.args), c, Ok)
    case Subscribe => SubscribeAll(w, c, cmd.args)
    case Unsubscribe => UnsubscribeAll(w, c, if cmd.args == [] then Visit(St(w, c).subs, o.keys) else cmd.args)
    case Publish =>
      if |cmd.args| != 2 then Answer(w, c, Error) else PublishTo(w, c, cmd.args[0], cmd.args[1])
    case Blpop =>
      if |cmd.args| != 2 || o.timeout.None? then Answer(w, c, Error)
      else if IsEmptyKey(w, cmd.args[0]) then BlockOn(w, c, cmd.args[0], o.timeout.value, o.now)
      else PopFor(w, c, cmd.args[0], o.now)
    case Ping => Answer(w, c, Ok)
    case _ => Answer(DoAll(w, OpsOf(w, cmd, o)), c, ReplyOf(w, cmd, o))
  }

  function ExecLoop<C(==)>(w: World<C>, c: C, cmds: seq<Command>, os: seq<Oracle>): World<C>
    decreases |cmds|
  {
    if cmds == [] then w
    else
      var o := if os == [] then Oracle([], 0, None, []) else os[0];
      ExecLoop(Execute(Note(w, Executed(c, cmds[0])), c, cmds[0], o), c, cmds[1..], if os == [] then [] else os[1..])
  }

  function ExecMulti<C(==)>(w: World<C>, c: C, os: seq<Oracle>): World<C> {
    var s := St(w, c);
    if !s.multi then Answer(w, c, Error)
    else if s.cas || s.aborted then
      var v := UnwatchAll(w, c);
      Answer(Note(Note(Set(v, c, Reset(St(v, c)).(multi := false, cas := false)), Aborted(c)), Closed(c)), c, Null)
    else if s.queue == [] then
      Answer(Note(Note(Set(w, c, s.(multi := false)), Committed(c, [])), Closed(c)), c, EmptyArray)
    else
      var v := ExecLoop(Answer(Note(w, Committed(c, s.queue)), c, Count(|s.queue|)), c, s.queue, os);
      UnwatchAll(Note(Set(v, c, Reset(St(v, c)).(multi := false)), Closed(c)), c)
  }

  function AllowedInSub(v: Verb): bool {
    v in {Subscribe, Unsubscribe, Ping, Unknown(true)}
  }

  /** One command from a client's connection. */
  function Respond<C(==)>(w: World<C>, c: C, cmd: Command, os: seq<Oracle>): World<C> {
    var s, o := St(w, c), if os == [] then Oracle([], 0, None, []) else os[0];
    if s.multi && cmd.verb != Exec && cmd.verb != Discard then
      if !Registered(cmd.verb) then Answer(Note(Set(w, c, s.(aborted := true)), Refused(c)), c, Error)
      else Answer(Note(Set(w, c, s.(queue := s.queue + [cmd])), Queued(c, cmd)), c, QueuedReply)
    else if s.blocked then w
    else if s.sub && !AllowedInSub(cmd.verb) then Answer(w, c, Error)
    else if cmd.verb.Replica? then Answer(w, c, if cmd.verb.accepted then Ok else Error)
    else if cmd.verb.Unknown? then Answer(w, c, Error)
    else if cmd.verb == Exec then ExecMulti(w, c, os)
    else if cmd.verb == Discard then DiscardMulti(w, c)
    else Execute(w, c, cmd, o)
  }

  /** A blocked client outside a transaction drops the rest of its batch. */
  function RespondAll<C(==)>(w: World<C>, c: C, cmds: seq<Command>, os: seq<seq<Oracle>>): World<C>
    decreases |cmds|
  {
    if cmds == [] then w
    else
      var s := St(w, c);
      if s.blocked && !(s.multi && cmds[0].verb != Exec && cmds[0].verb != Discard) then w
      else RespondAll(Respond(w, c, cmds[0], if os == [] then [] else os[0]), c, cmds[1..],
                      if os == [] then [] else os[1..])
  }

  /** Client c leaves the lists of the given keys. */
  function DropAll<C(==)>(w: World<C>, c: C, keys: seq<Key>): World<C>
    decreases |keys|
  {
    if keys == [] then w
    else
      DropAll(w.(subscribers := PutNonEmpty(w.subscribers, keys[0], Without(At(w.subscribers, keys[0]), c))),
              c, keys[1..])
  }

  /** A slow client is cut off: its subscriptions end, its flags stay. */
  function CleanupFrom<C(==)>(w: World<C>, c: C, keys: seq<Key>): World<C> {
    var v := DropAll(w, c, keys);
    Set(v, c, St(v, c).(subs := {}, replies := [], alive := false))
  }

  // ----- steps of the server -----

  datatype Step<C> =
    | Accept(c: C)
    | Receive(c: C, cmds: seq<Command>, os: seq<seq<Oracle>>)
    | Disconnect(c: C)
    | Cleanup(c: C, keys: seq<Key>)
    | BeforeSleep(visits: seq<(Key, nat)>)
    | Timer(keys: seq<Key>, now: nat)
    | Cron(sweep: seq<StoreOp>)

  /** Connections are accepted once; only live ones send; a cleanup visits the client's
      subscriptions, each once. */
  ghost predicate Enabled<C>(w: World<C>, step: Step<C>) {
    match step
    case Accept(c) => c !in w.clients
    case Receive(c, _, _) => c in w.clients && w.clients[c].alive
    case Disconnect(c) => c in w.clients
    case Cleanup(c, keys) => c in w.clients && Enumerates(keys, w.clients[c].subs)
    case BeforeSleep(visits) => forall i :: 0 <= i < |visits| ==> visits[i].0 in w.ready
    case Timer(keys, _) => forall k :: k in keys ==> k in w.waiting
    case Cron(_) => true
  }

  function Apply<C(==)>(w: World<C>, step: Step<C>): World<C> {
    match step
    case Accept(c) => Set(w, c, NEW_CLIENT)
    case Receive(c, cmds, os) => RespondAll(w, c, cmds, os)
    case Disconnect(c) => Set(w, c, St(w, c).(alive := false))
    case Cleanup(c, keys) => CleanupFrom(w, c, keys)
    case BeforeSleep(visits) => ServeAllReady(w, visits)
    case Timer(keys, now) => ExpireKeys(w, keys, now)
    case Cron(sweep) => DoAll(w, sweep)
  }

  function Start<C>(): World<C> {
    World(map[], map[], map[], map[], {}, map[], map[], [])
  }

  /** Any interleaving of steps. */
  function Run<C(==)>(steps: seq<Step<C>>): World<C>
    decreases |steps|
  {
    if steps == [] then Start() else Apply(Run(steps[..|steps| - 1]), steps[|steps| - 1])
  }

  ghost predicate Legal<C>(steps: seq<Step<C>>)
    decreases |steps|
  {
    steps == [] || (Legal(steps[..|steps| - 1]) && Enabled(Run(steps[..|steps| - 1]), steps[|steps| - 1]))
  }

  lemma RunSnoc<C>(steps: seq<Step<C>>, step: Step<C>)
    ensures Run(steps + [step]) == Apply(Run(steps), step)
    ensures Legal(steps + [step]) <==> Legal(steps) && Enabled(Run(steps), step)
  {
    assert (steps + [step])[..|steps|] == steps;
  }
}
