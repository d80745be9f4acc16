// The clients and the shared tables as the server updates them in place. Each method is proved to
// take the abstract world exactly where the action of module Sessions takes it.
module SessionServer {
  import opened Bytes
  import opened Options
  import opened Sessions

  const MULTI_MODE: bv8 := 1
  const CLIENT_BLOCKED: bv8 := 2
  const CLIENT_SUB: bv8 := 4
  const CLIENT_CAS: bv8 := 8

  predicate Flag(f: bv8) {
    f == MULTI_MODE || f == CLIENT_BLOCKED || f == CLIENT_SUB || f == CLIENT_CAS
  }

  predicate Has(flag: bv8, f: bv8) {
    flag & f != 0
  }

  /** Setting or clearing one flag leaves the others alone. */
  lemma FlagsAreSeparate(flag: bv8, f: bv8, g: bv8)
    requires Flag(f) && Flag(g)
    ensures Has(flag | f, g) == (f == g || Has(flag, g))
    ensures Has(flag & !f, g) == (f != g && Has(flag, g))
  {
  }

  lemma FlagChange(flag: bv8, f: bv8)
    requires Flag(f)
    ensures forall g {:trigger Has(flag | f, g)} :: Flag(g) ==> Has(flag | f, g) == (f == g || Has(flag, g))
    ensures forall g {:trigger Has(flag & !f, g)} :: Flag(g) ==> Has(flag & !f, g) == (f != g && Has(flag, g))
  {
    forall g | Flag(g)
      ensures Has(flag | f, g) == (f == g || Has(flag, g)) && Has(flag & !f, g) == (f != g && Has(flag, g))
    {
      FlagsAreSeparate(flag, f, g);
    }
  }

  /** The state with one flag changed. */
  function Flagged(s: ClientState, f: bv8, b: bool): ClientState {
    if f == MULTI_MODE then s.(multi := b)
    else if f == CLIENT_BLOCKED then s.(blocked := b)
    else if f == CLIENT_SUB then s.(sub := b)
    else if f == CLIENT_CAS then s.(cas := b)
    else s
  }

  class Client {
    var flag: bv8
    var cmds: seq<Command>
    var aborted: bool
    var when: Option<nat>
    var subscriptions: set<Key>
    var replies: seq<Reply>
    ghost var alive: bool

    ghost function State(): ClientState
      reads this
    {
      ClientState(Has(flag, MULTI_MODE), Has(flag, CLIENT_BLOCKED), Has(flag, CLIENT_SUB), Has(flag, CLIENT_CAS),
                  cmds, aborted, subscriptions, when, replies, alive)
    }

    constructor ()
      ensures State() == NEW_CLIENT
    {
      flag, cmds, aborted, when, subscriptions, replies, alive := 0, [], false, None, {}, [], true;
    }

    function HasFlag(f: bv8): bool
      reads this
    {
      Has(flag, f)
    }

    method SetFlag(f: bv8)
      requires Flag(f)
      modifies this`flag
      ensures State() == Flagged(old(State()), f, true)
    {
      FlagChange(flag, f);
      flag := flag | f;
    }

    method ClearFlag(f: bv8)
      requires Flag(f)
      modifies this`flag
      ensures State() == Flagged(old(State()), f, false)
    {
      FlagChange(flag, f);
      flag := flag & !f;
    }

    method ResetMultiState()
      modifies this`cmds, this`aborted
      ensures State() == Reset(old(State()))
    {
      cmds := [];
      aborted := false;
    }

    method AbortBlock()
      modifies this`cmds, this`aborted, this`flag
      ensures State() == Reset(old(State())).(multi := false, cas := false)
    {
      ResetMultiState();
      ClearFlag(MULTI_MODE);
      ClearFlag(CLIENT_CAS);
    }
  }

  /** The slice without the target, in order. */
  method RemoveClient(slice: seq<Client>, target: Client) returns (newSlice: seq<Client>)
    ensures newSlice == Without(slice, target)
  {
    newSlice := [];
    for i := 0 to |slice|
      invariant newSlice + Without(slice[i..], target) == Without(slice, target)
    {
      WithoutAt(slice, i, target, newSlice);
      hide Without;
      if slice[i] != target {
        newSlice := newSlice + [slice[i]];
      }
    }
  }

  lemma WithoutAt(slice: seq<Client>, i: nat, target: Client, done: seq<Client>)
    requires i < |slice|
    ensures done + Without(slice[i..], target)
         == (if slice[i] == target then done else done + [slice[i]]) + Without(slice[i + 1..], target)
  {
    assert slice[i..][1..] == slice[i + 1..];
  }

  /** Every listed client is a known one. */
  ghost predicate Known(m: map<Key, seq<Client>>, clients: set<Client>) {
    forall k, i {:trigger m[k][i]} :: k in m && 0 <= i < |m[k]| ==> m[k][i] in clients
  }

  class Server {
    var subscribers: map<Key, seq<Client>>
    var watchedKeys: map<Key, seq<Client>>
    var waitingKeys: map<Key, seq<Client>>
    var readyKeys: set<Key>
    var store: map<Key, Obj>
    var expires: map<Key, nat>
    ghost var clients: set<Client>
    ghost var log: seq<Event<Client>>
    ghost var steps: seq<Step<Client>>  // taken by the event loop so far

    ghost predicate Valid()
      reads this
    {
      Known(subscribers, clients) && Known(watchedKeys, clients) && Known(waitingKeys, clients)
    }

    ghost function States(): map<Client, ClientState>
      reads this`clients, clients
    {
      map c | c in clients :: c.State()
    }

    ghost function Abs(): World<Client>
      reads this, clients
    {
      World(States(), watchedKeys, subscribers, waitingKeys, readyKeys, store, expires, log)
    }

    constructor ()
      ensures Valid() && Reached() && steps == []
    {
      subscribers, watchedKeys, waitingKeys, readyKeys, store, expires := map[], map[], map[], {}, map[], map[];
      clients, log, steps := {}, [], [];
    }

    method Reply(c: Client, r: Reply)
      requires Valid() && c in clients
      modifies c`replies
      ensures Valid() && Abs() == Answer(old(Abs()), c, r)
    {
      c.replies := c.replies + [r];
      assert States() == old(States())[c := c.State()];
    }

    // ----- the store and its signals -----

    method MarkReady(key: Key)
      modifies this`readyKeys
      ensures Abs() == Do(old(Abs()), StoreOp.MarkReady(key))
    {
      if key in waitingKeys && |waitingKeys[key]| > 0 {
        readyKeys := readyKeys + {key};
      }
    }

    method TouchWatchedKeys(key: Key)
      requires Valid()
      modifies this`log, clients
      ensures Valid() && Abs() == Touch(old(Abs()), key)
    {
      var list := if key in watchedKeys then watchedKeys[key] else [];
      assert forall i :: 0 <= i < |list| ==> list[i] == watchedKeys[key][i];
      MarkAll(list);
      log := log + [Modified(key)];
      assert States() == Touch(old(Abs()), key).clients;
    }

    method MarkAll(list: seq<Client>)
      requires forall i :: 0 <= i < |list| ==> list[i] in clients
      modifies clients
      ensures forall c :: c in clients ==>
        c.State() == if c in list then old(c.State()).(cas := true) else old(c.State())
    {
      for i := 0 to |list|
        invariant forall c :: c in clients ==>
          c.State() == if c in list[..i] then old(c.State()).(cas := true) else old(c.State())
      {
        list[i].SetFlag(CLIENT_CAS);
        assert list[..i + 1] == list[..i] + [list[i]];
      }
      assert list[..|list|] == list;
    }

    method Del(k: Key) returns (found: bool)
      requires Valid()
      modifies this`store, this`expires, this`log, clients
      ensures Valid() && Abs() == Delete(old(Abs()), k) && found == (k in old(store))
    {
      found := k in store;
      if found {
        store := store - {k};
        expires := expires - {k};
        TouchWatchedKeys(k);
      }
    }

    method Evict(victims: seq<Key>)
      requires Valid()
      modifies this`store, this`expires, this`log, clients
      ensures Valid() && Abs() == DeleteAll(old(Abs()), victims)
    {
      for i := 0 to |victims|
        invariant Valid()
        invariant DeleteAll(Abs(), victims[i..]) == DeleteAll(old(Abs()), victims)
      {
        assert victims[i..][0] == victims[i] && victims[i..][1..] == victims[i + 1..];
        var _ := Del(victims[i]);
      }
    }

    method Put(k: Key, obj: Obj, expiry: Option<nat>, victims: seq<Key>)
      requires Valid()
      modifies this`store, this`expires, this`log, clients
      ensures Valid() && Abs() == Do(old(Abs()), StoreOp.Put(k, obj, expiry, victims))
    {
      hide Valid, DeleteAll, Touch;
      Evict(victims);
      Place(k, obj, expiry);
      TouchWatchedKeys(k);
    }

    method Place(k: Key, obj: Obj, expiry: Option<nat>)
      requires Valid()
      modifies this`store, this`expires
      ensures Valid()
      ensures var w := old(Abs());
        Abs() == w.(store := w.store[k := obj],
                    expires := if expiry.Some? then w.expires[k := expiry.value] else w.expires)
    {
      store := store[k := obj];
      if expiry.Some? {
        expires := expires[k := expiry.value];
      }
    }

    method Get(k: Key, now: nat) returns (r: Option<Obj>)
      requires Valid()
      modifies this`store, this`expires, this`log, clients
      ensures Valid() && Abs() == Do(old(Abs()), StoreOp.Get(k, now))
      ensures r == if k in store then Some(store[k]) else None
    {
      if k !in store {
        return None;
      }
      if k in expires && expires[k] <= now {
        var _ := Del(k);
        return None;
      }
      return Some(store[k]);
    }

    method SetExpiry(k: Key, at: nat)
      modifies this`expires
      ensures Abs() == Do(old(Abs()), StoreOp.Expire(k, at))
    {
      if k in store {
        expires := expires[k := at];
      }
    }

    /** The value under an existing key is changed in place. */
    method Write(k: Key, obj: Obj)
      modifies this`store
      ensures Abs() == Do(old(Abs()), Rewrite(k, obj))
    {
      if k in store {
        store := store[k := obj];
      }
    }

    /** RPUSH or LPUSH. */
    method PushExecute(c: Client, args: seq<Text>, front: bool, o: Oracle)
      requires Valid() && c in clients
      modifies this`store, this`expires, this`readyKeys, this`log, clients
      ensures Valid()
      ensures var w, cmd := old(Abs()), Command(Push(front), args);
        Abs() == Answer(DoAll(w, OpsOf(w, cmd, o)), c, ReplyOf(w, cmd, o))
    {
      hide Known, Do, DoAll, Answer;
      if |args| < 2 {
        NoOps(Abs());
        Reply(c, Error);
        return;
      }
      var k, vals := args[0], args[1..];
      ghost var w := Abs();
      var obj := Get(k, o.now);
      GetFinds(w, k, o.now);
      PushSteps(w, k, vals, front, o.now, o.keys);
      if obj.Some? && !obj.value.ListObj? {
        Reply(c, Error);
        return;
      }
      if obj.None? {
        Put(k, ListObj([]), None, o.keys);
      }
      var items := if obj.Some? then obj.value.items else [];
      Write(k, ListObj(Pushed(items, vals, front)));
      if |items| == 0 {
        MarkReady(k);
      }
      Reply(c, Count(|items| + |vals|));
    }

    /** INCR. */
    method IncrExecute(c: Client, args: seq<Text>, o: Oracle)
      requires Valid() && c in clients
      modifies this`store, this`expires, this`log, clients
      ensures Valid()
      ensures var w, cmd := old(Abs()), Command(Incr, args);
        Abs() == Answer(DoAll(w, OpsOf(w, cmd, o)), c, ReplyOf(w, cmd, o))
    {
      hide Known, Do, DoAll, Answer;
      if |args| != 1 {
        NoOps(Abs());
        Reply(c, Error);
        return;
      }
      var k := args[0];
      ghost var w := Abs();
      var obj := Get(k, o.now);
      GetFinds(w, k, o.now);
      IncrSteps(w, k, o.now, o.keys);
      if obj.None? {
        Put(k, IntObj(0), None, o.keys);
        obj := Some(IntObj(0));
      }
      if !obj.value.IntObj? {
        Reply(c, Error);
        return;
      }
      var i := Wrap64(obj.value.v + 1);
      Write(k, IntObj(i));
      Reply(c, Count(i));
    }

    /** EXPIRE: an expired key is deleted, with its signal, before the answer. */
    method ExpireExecute(c: Client, args: seq<Text>, o: Oracle)
      requires Valid() && c in clients
      modifies this`store, this`expires, this`log, clients
      ensures Valid()
      ensures var w, cmd := old(Abs()), Command(ExpireIn, args);
        Abs() == Answer(DoAll(w, OpsOf(w, cmd, o)), c, ReplyOf(w, cmd, o))
    {
      hide Known, Do, DoAll, Answer;
      if |args| <= 1 || o.timeout.None? {
        NoOps(Abs());
        Reply(c, Error);
        return;
      }
      var k := args[0];
      ghost var w := Abs();
      var obj := Get(k, o.now);
      GetFinds(w, k, o.now);
      ExpireSteps(w, k, o.timeout.value, o.now);
      if obj.None? {
        Reply(c, Count(0));
        return;
      }
      SetExpiry(k, (o.now + 1000 * o.timeout.value) % TWO_64);
      Reply(c, Count(1));
    }

    /** LPOP of one value; an emptied list stays in the store. */
    method Lpop(c: Client, k: Key, now: nat)
      requires Valid() && c in clients
      modifies this`store, this`expires, this`log, clients
      ensures Valid() && Abs() == PopFor(old(Abs()), c, k, now)
    {
      hide Known, Do, DoAll, Answer;
      ghost var w := Abs();
      var obj := Get(k, now);
      GetFinds(w, k, now);
      PopSteps(w, k, now);
      if obj.None? {
        Reply(c, Null);
      } else if !obj.value.ListObj? {
        Reply(c, Error);
      } else if |obj.value.items| == 0 {
        Reply(c, Null);
      } else {
        Write(k, ListObj(obj.value.items[1..]));
        Reply(c, Popped(obj.value.items[0]));
      }
    }

    /** The store effects of one command, in order. */
    method Perform(ops: seq<StoreOp>)
      requires Valid()
      modifies this`store, this`expires, this`readyKeys, this`log, clients
      ensures Valid() && Abs() == DoAll(old(Abs()), ops)
    {
      for i := 0 to |ops|
        invariant Valid()
        invariant DoAll(Abs(), ops[i..]) == DoAll(old(Abs()), ops)
      {
        assert ops[i..][0] == ops[i] && ops[i..][1..] == ops[i + 1..];
        ghost var before := Abs();
        match ops[i] {
          case Get(k, now) => var _ := Get(k, now);
          case Put(k, obj, expiry, victims) => Put(k, obj, expiry, victims);
          case Del(k) => var _ := Del(k);
          case Rewrite(k, obj) => Write(k, obj);
          case Expire(k, at) => SetExpiry(k, at);
          case MarkReady(k) => MarkReady(k);
        }
        assert Abs() == Do(before, ops[i]);
      }
    }

    // ----- watching -----

    method WatchKeys(c: Client, keys: seq<Key>)
      requires Valid() && c in clients
      modifies this`watchedKeys, this`log
      ensures Valid() && Abs() == Sessions.WatchKeys(old(Abs()), c, keys)
    {
      hide Known;
      for i := 0 to |keys|
        invariant Valid()
        invariant Sessions.WatchKeys(Abs(), c, keys[i..]) == Sessions.WatchKeys(old(Abs()), c, keys)
      {
        assert keys[i..][0] == keys[i] && keys[i..][1..] == keys[i + 1..];
        var list := if keys[i] in watchedKeys then watchedKeys[keys[i]] else [];
        ghost var w := Abs();
        AppendKnown(watchedKeys, keys[i], c, clients);
        watchedKeys := watchedKeys[keys[i] := list + [c]];
        log := log + [Watched(c, keys[i])];
        assert Abs() == Note(w.(watched := w.watched[keys[i] := At(w.watched, keys[i]) + [c]]), Watched(c, keys[i]));
      }
    }

    /** The keys are visited in any order. */
    method UnwatchAllKeys(c: Client)
      requires Valid()
      modifies this`watchedKeys, this`log
      ensures Valid() && Abs() == UnwatchAll(old(Abs()), c)
    {
      hide Known;
      LeaveWatchLists(c);
      log := log + [Unwatched(c)];
      UnwatchKnown(old(watchedKeys), watchedKeys, c, clients);
    }

    method LeaveWatchLists(c: Client)
      modifies this`watchedKeys
      ensures watchedKeys == UnwatchAll(old(Abs()), c).watched
    {
      hide Without;
      var todo := watchedKeys.Keys;
      while todo != {}
        invariant todo <= old(watchedKeys).Keys
        invariant forall k :: k in todo ==> k in watchedKeys && watchedKeys[k] == old(watchedKeys)[k]
        invariant forall k :: k in old(watchedKeys) && k !in todo ==>
          (k in watchedKeys <==> Without(old(watchedKeys)[k], c) != [])
        invariant watchedKeys.Keys <= old(watchedKeys).Keys
        invariant forall k :: k in watchedKeys && k !in todo ==> watchedKeys[k] == Without(old(watchedKeys)[k], c)
        decreases |todo|
      {
        var key :| key in todo;
        DropWatcher(key, c);
        todo := todo - {key};
      }
    }

    method DropWatcher(key: Key, c: Client)
      requires key in watchedKeys
      modifies this`watchedKeys
      ensures watchedKeys == PutNonEmpty(old(watchedKeys), key, Without(old(watchedKeys)[key], c))
    {
      var rest := RemoveClient(watchedKeys[key], c);
      watchedKeys := watchedKeys[key := rest];
      if |watchedKeys[key]| == 0 {
        watchedKeys := watchedKeys - {key};
      }
    }

    // ----- subscriptions -----

    /** The list of key without c; an empty list is not kept. */
    method DropSubscriber(key: Key, c: Client)
      requires Valid()
      modifies this`subscribers
      ensures Valid()
      ensures var w := old(Abs());
        Abs() == w.(subscribers := PutNonEmpty(w.subscribers, key, Without(At(w.subscribers, key), c)))
    {
      var list := if key in subscribers then subscribers[key] else [];
      var rest := RemoveClient(list, c);
      KeptKnown(list, c, clients);
      subscribers := subscribers[key := rest];
      if |subscribers[key]| == 0 {
        subscribers := subscribers - {key};
      }
    }

    method Subscribe(c: Client, key: Key)
      requires Valid() && c in clients
      modifies this`subscribers, c`subscriptions, c`flag, c`replies
      ensures Valid() && Abs() == SubscribeTo(old(Abs()), c, key)
    {
      if key !in c.subscriptions {
        hide Known;
        AppendKnown(subscribers, key, c, clients);
        subscribers := subscribers[key := (if key in subscribers then subscribers[key] else []) + [c]];
        Join(c, key);
        Reply(c, Subscribed(key, |c.subscriptions|));
      }
    }

    method Join(c: Client, key: Key)
      requires c in clients
      modifies c`subscriptions, c`flag
      ensures c.subscriptions == old(c.subscriptions) + {key}
      ensures var w := old(Abs()); Abs() == Set(w, c, Joined(St(w, c), key))
    {
      c.subscriptions := c.subscriptions + {key};
      c.SetFlag(CLIENT_SUB);
      assert States() == old(States())[c := c.State()];
    }

    method Unsubscribe(c: Client, key: Key)
      requires Valid() && c in clients
      modifies this`subscribers, c`subscriptions, c`flag, c`replies
      ensures Valid() && Abs() == UnsubscribeFrom(old(Abs()), c, key)
    {
      if key in c.subscriptions {
        hide PutNonEmpty, Without, Known, Left;
        Leave(c, key);
        DropSubscriber(key, c);
        Reply(c, Unsubscribed(key, |c.subscriptions|));
      }
    }

    /** The client's own side of it. */
    method Leave(c: Client, key: Key)
      requires c in clients
      modifies c`subscriptions, c`flag
      ensures var w := old(Abs()); Abs() == Set(w, c, Left(St(w, c), key))
    {
      c.subscriptions := c.subscriptions - {key};
      if |c.subscriptions| == 0 {
        c.ClearFlag(CLIENT_SUB);
      }
      assert c.State() == Left(old(c.State()), key);
      assert States() == old(States())[c := c.State()];
    }

    method Publish(c: Client, key: Key, message: Text)
      requires Valid() && c in clients
      modifies clients
      ensures Valid() && Abs() == PublishTo(old(Abs()), c, key, message)
    {
      var subs := if key in subscribers then subscribers[key] else [];
      var count := 0;
      for i := 0 to |subs|
        invariant Valid() && count == i
        invariant Broadcast(Abs(), subs[i..], Message(key, message))
               == Broadcast(old(Abs()), subs, Message(key, message))
      {
        assert subs[i..][0] == subs[i] && subs[i..][1..] == subs[i + 1..];
        assert subs[i] == subscribers[key][i];
        Reply(subs[i], Message(key, message));
        count := count + 1;
      }
      Reply(c, Count(count));
    }

    /** A slow client is cut off; its subscriptions are visited in some order. */
    method CleanupClient(c: Client) returns (keys: seq<Key>)
      requires Valid() && c in clients
      modifies this`subscribers, c`subscriptions, c`replies, c`alive
      ensures Valid() && Enumerates(keys, old(c.subscriptions))
      ensures Abs() == CleanupFrom(old(Abs()), c, keys)
    {
      hide Known, Enumerates, DropAll, Set;
      keys := KeysOf(c.subscriptions);
      DropFromAll(c, keys);
      Forget(c);
    }

    method Forget(c: Client)
      requires c in clients
      modifies c`subscriptions, c`replies, c`alive
      ensures var w := old(Abs()); Abs() == Set(w, c, St(w, c).(subs := {}, replies := [], alive := false))
    {
      c.replies, c.subscriptions, c.alive := [], {}, false;
      assert States() == old(States())[c := c.State()];
    }

    method DropFromAll(c: Client, keys: seq<Key>)
      requires Valid()
      modifies this`subscribers
      ensures Valid() && Abs() == DropAll(old(Abs()), c, keys)
    {
      hide PutNonEmpty, Without, Known;
      for i := 0 to |keys|
        invariant Valid()
        invariant DropAll(Abs(), c, keys[i..]) == DropAll(old(Abs()), c, keys)
      {
        assert keys[i..][0] == keys[i] && keys[i..][1..] == keys[i + 1..];
        ghost var w := Abs();
        DropSubscriber(keys[i], c);
        assert Abs() == w.(subscribers := PutNonEmpty(w.subscribers, keys[i], Without(At(w.subscribers, keys[i]), c)));
      }
      assert keys[|keys|..] == [];
    }

    // ----- blocking -----

    method BlockOn(c: Client, key: Key, timeoutMs: int, now: nat)
      requires Valid() && c in clients
      modifies this`waitingKeys, this`log, c`flag, c`when
      ensures Valid() && Abs() == Sessions.BlockOn(old(Abs()), c, key, timeoutMs, now)
    {
      hide Valid;
      Enqueue(c, key);
      Block(c, if timeoutMs > 0 then Some(now + timeoutMs) else None);
      NoteBlocked(c, key, timeoutMs, now);
    }

    method Enqueue(c: Client, key: Key)
      requires Valid() && c in clients
      modifies this`waitingKeys
      ensures Valid()
      ensures var w := old(Abs()); Abs() == w.(waiting := w.waiting[key := At(w.waiting, key) + [c]])
    {
      AppendKnown(waitingKeys, key, c, clients);
      waitingKeys := waitingKeys[key := (if key in waitingKeys then waitingKeys[key] else []) + [c]];
    }

    ghost method NoteBlocked(c: Client, key: Key, timeoutMs: int, now: nat)
      requires Valid()
      modifies this`log
      ensures Valid() && Abs() == Note(old(Abs()), Blocked(c, key, timeoutMs, now))
    {
      log := log + [Blocked(c, key, timeoutMs, now)];
    }

    method Block(c: Client, when: Option<nat>)
      requires Valid() && c in clients
      modifies c`flag, c`when
      ensures Valid()
      ensures var w := old(Abs()); Abs() == Set(w, c, St(w, c).(blocked := true, when := when))
    {
      c.SetFlag(CLIENT_BLOCKED);
      c.when := when;
      assert States() == old(States())[c := c.State()];
    }

    /** A ready key serves its oldest waiter with an LPOP. */
    method ServeKey(key: Key, now: nat)
      requires Valid()
      modifies this, clients
      ensures Valid() && clients == old(clients) && Abs() == ServeReady(old(Abs()), key, now)
    {
      hide PopFor, Known;
      var waiting := if key in waitingKeys then waitingKeys[key] else [];
      if |waiting| == 0 {
        readyKeys := readyKeys - {key};
        return;
      }
      var c := waiting[0];
      WaiterKnown(key);
      Lpop(c, key, now);
      PopKeepsQueues(old(Abs()), c, key, now);
      Release(c, key);
    }

    /** The oldest waiter leaves its queue. */
    method Release(c: Client, key: Key)
      requires Valid() && key in waitingKeys && waitingKeys[key] != [] && c in clients
      modifies this`waitingKeys, this`readyKeys, this`log, c`flag, c`when
      ensures Valid()
      ensures var w := old(Abs());
        Abs() == Note(Set(w, c, St(w, c).(blocked := false, when := None))
                      .(waiting := w.waiting[key := w.waiting[key][1..]], ready := w.ready - {key}), Served(c, key))
    {
      hide Known;
      TakeFront(key);
      Unblock(c);
      readyKeys := readyKeys - {key};
      log := log + [Served(c, key)];
    }

    lemma WaiterKnown(key: Key)
      requires Valid() && key in waitingKeys && waitingKeys[key] != []
      ensures waitingKeys[key][0] in clients
    {
    }

    method TakeFront(key: Key)
      requires Valid() && key in waitingKeys && waitingKeys[key] != []
      modifies this`waitingKeys
      ensures Valid() && waitingKeys == old(waitingKeys)[key := old(waitingKeys)[key][1..]]
    {
      waitingKeys := waitingKeys[key := waitingKeys[key][1..]];
    }

    method Unblock(c: Client)
      requires c in clients
      modifies c`flag, c`when
      ensures var w := old(Abs()); Abs() == Set(w, c, St(w, c).(blocked := false, when := None))
    {
      c.ClearFlag(CLIENT_BLOCKED);
      c.when := None;
      assert States() == old(States())[c := c.State()];
    }

    /** Every ready key is visited, with the clock read anew at each visit. */
    method ProcessKeys(clock: nat -> nat) returns (visits: seq<(Key, nat)>)
      requires Valid()
      modifies this, clients
      ensures Valid() && clients == old(clients) && Enumerates(Visited(visits), old(readyKeys))
      ensures Abs() == ServeAllReady(old(Abs()), visits)
    {
      hide Known, ServeReady, Enumerates;
      var keys := KeysOf(readyKeys);
      visits := seq(|keys|, i requires 0 <= i < |keys| => (keys[i], clock(i)));
      assert Visited(visits) == keys;
      for i := 0 to |visits|
        invariant Valid() && clients == old(clients)
        invariant ServeAllReady(Abs(), visits[i..]) == ServeAllReady(old(Abs()), visits)
      {
        assert visits[i..][0] == visits[i] && visits[i..][1..] == visits[i + 1..];
        ServeKey(visits[i].0, visits[i].1);
      }
      assert visits[|visits|..] == [];
    }

    /** Those whose time is over are told so; the others keep waiting, in order. */
    method ExpireWaiters(key: Key, now: nat)
      requires Valid() && key in waitingKeys
      modifies this, clients
      ensures Valid() && clients == old(clients)
      ensures Abs() == ExpireQueue(old(Abs()), key, now, old(waitingKeys)[key], [])
    {
      var list := waitingKeys[key];
      var active := [];
      for i := 0 to |list|
        invariant Valid() && clients == old(clients) && waitingKeys == old(waitingKeys)
        invariant forall x :: x in active ==> x in clients
        invariant ExpireQueue(Abs(), key, now, list[i..], active) == ExpireQueue(old(Abs()), key, now, list, [])
      {
        assert list[i..][0] == list[i] && list[i..][1..] == list[i + 1..];
        var c := list[i];
        assert c in clients;
        if c.when.Some? && c.when.value < now {
          TellTimeout(c, key);
        } else {
          active := active + [c];
        }
      }
      assert list[|list|..] == [];
      if |active| == 0 {
        waitingKeys := waitingKeys - {key};
      } else {
        waitingKeys := waitingKeys[key := active];
      }
    }

    method TellTimeout(c: Client, key: Key)
      requires Valid() && c in clients
      modifies this`log, c`flag, c`when, c`replies
      ensures Valid()
      ensures var w := old(Abs());
        Abs() == Note(Answer(Set(w, c, St(w, c).(blocked := false, when := None)), c, Null), TimedOut(c, key))
    {
      Unblock(c);
      Reply(c, Null);
      log := log + [TimedOut(c, key)];
    }

    method HandleBlockedClients(now: nat) returns (keys: seq<Key>)
      requires Valid()
      modifies this, clients
      ensures Valid() && clients == old(clients) && Enumerates(keys, old(waitingKeys).Keys)
      ensures Abs() == ExpireKeys(old(Abs()), keys, now)
    {
      hide Known, ExpireQueue;
      keys := KeysOf(waitingKeys.Keys);
      for i := 0 to |keys|
        invariant Valid() && clients == old(clients)
        invariant ExpireKeys(Abs(), keys[i..], now) == ExpireKeys(old(Abs()), keys, now)
      {
        assert keys[i..][0] == keys[i] && keys[i..][1..] == keys[i + 1..];
        if keys[i] in waitingKeys {
          ExpireWaiters(keys[i], now);
        }
      }
      assert keys[|keys|..] == [];
    }

    // ----- transactions -----

    method MultiExecute(c: Client)
      requires Valid() && c in clients
      modifies this`log, c
      ensures Valid() && Abs() == BeginMulti(old(Abs()), c)
    {
      c.SetFlag(MULTI_MODE);
      c.ResetMultiState();
      log := log + [Opened(c)];
      assert States() == old(States())[c := c.State()];
      Reply(c, Ok);
    }

    /** The block of c is over. */
    method CloseBlock(c: Client)
      requires Valid() && c in clients
      modifies this`log, c
      ensures Valid()
      ensures var w := old(Abs()); Abs() == Note(Set(w, c, Reset(St(w, c)).(multi := false)), Closed(c))
    {
      c.ResetMultiState();
      c.ClearFlag(MULTI_MODE);
      log := log + [Closed(c)];
      assert States() == old(States())[c := c.State()];
    }

    method DiscardExecute(c: Client)
      requires Valid() && c in clients
      modifies this`watchedKeys, this`log, c
      ensures Valid() && Abs() == DiscardMulti(old(Abs()), c)
    {
      hide UnwatchAll, Known;
      if !c.HasFlag(MULTI_MODE) {
        Reply(c, Error);
        return;
      }
      CloseBlock(c);
      UnwatchAllKeys(c);
      Reply(c, Ok);
    }

    method WatchExecute(c: Client, args: seq<Key>)
      requires Valid() && c in clients
      modifies this`watchedKeys, this`log, c
      ensures Valid()
      ensures var w := old(Abs());
        Abs() == if St(w, c).multi then Answer(w, c, Error) else Answer(Sessions.WatchKeys(w, c, args), c, Ok)
    {
      hide Sessions.WatchKeys, Known;
      if c.HasFlag(MULTI_MODE) {
        Reply(c, Error);
        return;
      }
      WatchKeys(c, args);
      Reply(c, Ok);
    }

    method AbortExecute(c: Client)
      requires Valid() && c in clients && (c.HasFlag(CLIENT_CAS) || c.aborted) && c.HasFlag(MULTI_MODE)
      modifies this`watchedKeys, this`log, c
      ensures Valid() && Abs() == ExecMulti(old(Abs()), c, [])
    {
      hide UnwatchAll, Known, ExecLoop, Answer;
      UnwatchAllKeys(c);
      label Unwatched:
      c.AbortBlock();
      log := log + [Aborted(c)] + [Closed(c)];
      assert States() == old@Unwatched(States())[c := c.State()];
      Reply(c, Null);
    }

    method ExecExecute(c: Client, os: seq<Oracle>)
      requires Valid() && c in clients
      modifies this, clients
      ensures Valid() && clients == old(clients) && Abs() == ExecMulti(old(Abs()), c, os)
    {
      hide UnwatchAll, Known, ExecLoop;
      if !c.HasFlag(MULTI_MODE) {
        Reply(c, Error);
        return;
      }
      if c.HasFlag(CLIENT_CAS) || c.aborted {
        AbortExecute(c);
        return;
      }
      var queued := c.cmds;
      if |queued| == 0 {
        c.ClearFlag(MULTI_MODE);
        log := log + [Committed(c, [])] + [Closed(c)];
        assert States() == old(States())[c := c.State()];
        Reply(c, EmptyArray);
        return;
      }
      log := log + [Committed(c, queued)];
      assert States() == old(States());
      Reply(c, Count(|queued|));
      ExecuteAll(c, queued, os);
      CloseBlock(c);
      UnwatchAllKeys(c);
    }

    method ExecuteAll(c: Client, queued: seq<Command>, os: seq<Oracle>)
      requires Valid() && c in clients
      modifies this, clients
      ensures Valid() && clients == old(clients) && Abs() == ExecLoop(old(Abs()), c, queued, os)
    {
      hide Known, Sessions.Execute;
      var rest := os;
      for i := 0 to |queued|
        invariant Valid() && clients == old(clients)
        invariant ExecLoop(Abs(), c, queued[i..], rest) == ExecLoop(old(Abs()), c, queued, os)
      {
        assert queued[i..][0] == queued[i] && queued[i..][1..] == queued[i + 1..];
        var o := if rest == [] then Oracle([], 0, None, []) else rest[0];
        rest := if rest == [] then [] else rest[1..];
        log := log + [Executed(c, queued[i])];
        Execute(c, queued[i], o);
      }
      assert queued[|queued|..] == [];
    }

    // ----- commands -----

    method SubscribeEach(c: Client, keys: seq<Key>)
      requires Valid() && c in clients
      modifies this`subscribers, c
      ensures Valid() && Abs() == SubscribeAll(old(Abs()), c, keys)
    {
      hide Known, SubscribeTo;
      for i := 0 to |keys|
        invariant Valid()
        invariant SubscribeAll(Abs(), c, keys[i..]) == SubscribeAll(old(Abs()), c, keys)
      {
        assert keys[i..][0] == keys[i] && keys[i..][1..] == keys[i + 1..];
        Subscribe(c, keys[i]);
      }
      assert keys[|keys|..] == [];
    }

    method UnsubscribeEach(c: Client, keys: seq<Key>)
      requires Valid() && c in clients
      modifies this`subscribers, c
      ensures Valid() && Abs() == UnsubscribeAll(old(Abs()), c, keys)
    {
      hide Known, UnsubscribeFrom;
      for i := 0 to |keys|
        invariant Valid()
        invariant UnsubscribeAll(Abs(), c, keys[i..]) == UnsubscribeAll(old(Abs()), c, keys)
      {
        assert keys[i..][0] == keys[i] && keys[i..][1..] == keys[i + 1..];
        Unsubscribe(c, keys[i]);
      }
      assert keys[|keys|..] == [];
    }

    method BlpopExecute(c: Client, args: seq<Text>, o: Oracle)
      requires Valid() && c in clients
      modifies this, clients
      ensures Valid() && clients == old(clients)
      ensures Abs() == Sessions.Execute(old(Abs()), c, Command(Blpop, args), o)
    {
      hide PopFor, Known;
      if |args| != 2 || o.timeout.None? {
        Reply(c, Error);
      } else if args[0] !in store || store[args[0]] == ListObj([]) {
        BlockOn(c, args[0], o.timeout.value, o.now);
      } else {
        Lpop(c, args[0], o.now);
      }
    }

    method Execute(c: Client, cmd: Command, o: Oracle)
      requires Valid() && c in clients
      modifies this, clients
      ensures Valid() && clients == old(clients) && Abs() == Sessions.Execute(old(Abs()), c, cmd, o)
    {
      hide Known, BeginMulti, Sessions.WatchKeys, SubscribeAll, UnsubscribeAll, PublishTo;
      hide Sessions.BlockOn, DoAll, Answer, PopFor, Visit, PushOps, IncrOps, ExpireOps;
      match cmd.verb {
        case Multi => MultiExecute(c);
        case Watch => WatchExecute(c, cmd.args);
        case Subscribe => SubscribeEach(c, cmd.args);
        case Unsubscribe => UnsubscribeEach(c, if cmd.args == [] then Visit(c.subscriptions, o.keys) else cmd.args);
        case Publish =>
          if |cmd.args| != 2 {
            Reply(c, Error);
          } else {
            Publish(c, cmd.args[0], cmd.args[1]);
          }
        case Blpop => BlpopExecute(c, cmd.args, o);
        case Ping => Reply(c, Ok);
        case Push(front) => PushExecute(c, cmd.args, front, o);
        case Incr => IncrExecute(c, cmd.args, o);
        case ExpireIn => ExpireExecute(c, cmd.args, o);
        case _ =>
          Perform(o.ops);
          Reply(c, DataReply);
      }
    }

    method AbortMulti(c: Client)
      requires Valid() && c in clients
      modifies this`log, c`aborted
      ensures Valid()
      ensures var w := old(Abs()); Abs() == Note(Set(w, c, St(w, c).(aborted := true)), Refused(c))
    {
      c.aborted := true;
      log := log + [Refused(c)];
      assert States() == old(States())[c := c.State()];
    }

    method QueueCommand(c: Client, cmd: Command)
      requires Valid() && c in clients
      modifies this`log, c`cmds
      ensures Valid()
      ensures var w := old(Abs());
        Abs() == Note(Set(w, c, St(w, c).(queue := St(w, c).queue + [cmd])), Queued(c, cmd))
    {
      c.cmds := c.cmds + [cmd];
      log := log + [Queued(c, cmd)];
      assert States() == old(States())[c := c.State()];
    }

    /** One command from the connection of c; stop tells that c is blocked. */
    method RespondOne(c: Client, cmd: Command, os: seq<Oracle>) returns (stop: bool)
      requires Valid() && c in clients
      modifies this, clients
      ensures Valid() && clients == old(clients) && Abs() == Sessions.Respond(old(Abs()), c, cmd, os)
      ensures var s := St(old(Abs()), c);
        stop == (s.blocked && !(s.multi && cmd.verb != Exec && cmd.verb != Discard))
      ensures stop ==> Abs() == old(Abs())
    {
      hide Known, Sessions.Execute, ExecMulti, DiscardMulti;
      stop := false;
      if c.HasFlag(MULTI_MODE) && cmd.verb != Exec && cmd.verb != Discard {
        if !Registered(cmd.verb) {
          AbortMulti(c);
          Reply(c, Error);
          return;
        }
        QueueCommand(c, cmd);
        Reply(c, QueuedReply);
        return;
      }
      if c.HasFlag(CLIENT_BLOCKED) {
        return true;
      }
      if c.HasFlag(CLIENT_SUB) && !AllowedInSub(cmd.verb) {
        Reply(c, Error);
        return;
      }
      if cmd.verb.Replica? {
        Reply(c, if cmd.verb.accepted then Ok else Error);
      } else if cmd.verb.Unknown? {
        Reply(c, Error);
      } else if cmd.verb == Exec {
        ExecExecute(c, os);
      } else if cmd.verb == Discard {
        DiscardExecute(c);
      } else {
        Execute(c, cmd, if os == [] then Oracle([], 0, None, []) else os[0]);
      }
    }

    method Respond(cmds: seq<Command>, c: Client, os: seq<seq<Oracle>>)
      requires Valid() && c in clients
      modifies this, clients
      ensures Valid() && clients == old(clients) && Abs() == RespondAll(old(Abs()), c, cmds, os)
    {
      hide Known, Sessions.Respond;
      var rest := os;
      for i := 0 to |cmds|
        invariant Valid() && clients == old(clients)
        invariant RespondAll(Abs(), c, cmds[i..], rest) == RespondAll(old(Abs()), c, cmds, os)
      {
        assert cmds[i..][0] == cmds[i] && cmds[i..][1..] == cmds[i + 1..];
        var stop := RespondOne(c, cmds[i], if rest == [] then [] else rest[0]);
        if stop {
          return;
        }
        rest := if rest == [] then [] else rest[1..];
      }
      assert cmds[|cmds|..] == [];
    }

    /** A connection is accepted. */
    method Accept() returns (c: Client)
      requires Valid()
      modifies this`clients
      ensures Valid() && fresh(c) && clients == old(clients) + {c}
      ensures Abs() == Set(old(Abs()), c, NEW_CLIENT)
    {
      c := new Client();
      clients := clients + {c};
      assert States() == old(States())[c := NEW_CLIENT];
    }

    // ----- the event loop -----

    /** The server is where a legal run has taken it, so everything proved of runs holds of it. */
    ghost predicate Reached()
      reads this, clients
    {
      Legal(steps) && Abs() == Run(steps)
    }

    method OnAccept() returns (c: Client)
      requires Valid() && Reached()
      modifies this
      ensures Valid() && Reached() && fresh(c) && clients == old(clients) + {c}
      ensures steps == old(steps) + [Step.Accept(c)]
    {
      hide Legal, Run, Known;
      c := Accept();
      RunSnoc(steps, Step.Accept(c));
      steps := steps + [Step.Accept(c)];
    }

    method OnReadable(c: Client, cmds: seq<Command>, os: seq<seq<Oracle>>)
      requires Valid() && Reached() && c in clients && c.alive
      modifies this, clients
      ensures Valid() && Reached() && clients == old(clients) && steps == old(steps) + [Receive(c, cmds, os)]
    {
      hide Known, RespondAll, Legal, Run;
      RunSnoc(steps, Receive(c, cmds, os));
      ghost var before := steps;
      Respond(cmds, c, os);
      steps := before + [Receive(c, cmds, os)];
    }

    method OnDisconnect(c: Client)
      requires Valid() && Reached() && c in clients
      modifies this, clients
      ensures Valid() && Reached() && clients == old(clients) && steps == old(steps) + [Disconnect(c)]
    {
      hide Known, Legal, Run;
      RunSnoc(steps, Disconnect(c));
      Die(c);
      steps := steps + [Disconnect(c)];
    }

    method Die(c: Client)
      requires c in clients
      modifies c`alive
      ensures var w := old(Abs()); Abs() == Set(w, c, St(w, c).(alive := false))
    {
      c.alive := false;
      assert States() == old(States())[c := c.State()];
    }

    method OnSlowClient(c: Client) returns (keys: seq<Key>)
      requires Valid() && Reached() && c in clients
      modifies this, clients
      ensures Valid() && Reached() && clients == old(clients)
      ensures Enumerates(keys, old(c.subscriptions)) && steps == old(steps) + [Cleanup(c, keys)]
    {
      hide Known, CleanupFrom, Legal, Run;
      ghost var before := steps;
      keys := CleanupClient(c);
      RunSnoc(before, Cleanup(c, keys));
      steps := before + [Cleanup(c, keys)];
    }

    method BeforeSleep(clock: nat -> nat) returns (visits: seq<(Key, nat)>)
      requires Valid() && Reached()
      modifies this, clients
      ensures Valid() && Reached() && clients == old(clients)
      ensures Enumerates(Visited(visits), old(readyKeys)) && steps == old(steps) + [Step.BeforeSleep(visits)]
    {
      hide Known, ServeAllReady, Legal, Run;
      ghost var before := steps;
      visits := ProcessKeys(clock);
      assert forall i :: 0 <= i < |visits| ==> visits[i].0 == Visited(visits)[i];
      RunSnoc(before, Step.BeforeSleep(visits));
      steps := before + [Step.BeforeSleep(visits)];
    }

    method OnTimer(now: nat) returns (keys: seq<Key>)
      requires Valid() && Reached()
      modifies this, clients
      ensures Valid() && Reached() && clients == old(clients)
      ensures Enumerates(keys, old(waitingKeys).Keys) && steps == old(steps) + [Timer(keys, now)]
    {
      hide Known, ExpireKeys, Legal, Run;
      ghost var before := steps;
      keys := HandleBlockedClients(now);
      RunSnoc(before, Timer(keys, now));
      steps := before + [Timer(keys, now)];
    }

    method OnCron(sweep: seq<StoreOp>)
      requires Valid() && Reached()
      modifies this, clients
      ensures Valid() && Reached() && clients == old(clients) && steps == old(steps) + [Cron(sweep)]
    {
      hide Known, DoAll, Legal, Run;
      RunSnoc(steps, Cron(sweep));
      ghost var before := steps;
      Perform(sweep);
      steps := before + [Cron(sweep)];
    }
  }

  function Visited(visits: seq<(Key, nat)>): (keys: seq<Key>)
    ensures |keys| == |visits|
  {
    seq(|visits|, i requires 0 <= i < |visits| => visits[i].0)
  }

  lemma NoOps(w: World<Client>)
    ensures DoAll(w, []) == w
  {
  }

  /** The effects of a push one by one. */
  lemma PushSteps(w: World<Client>, k: Key, args: seq<Text>, front: bool, now: nat, victims: seq<Key>)
    ensures var v, found := Do(w, StoreOp.Get(k, now)), Found(w, k, now);
      DoAll(w, PushOps(w, k, args, front, now, victims)) ==
        if found.Some? && !found.value.ListObj? then v
        else
          var items := if found.Some? then found.value.items else [];
          var u := if found.Some? then v else Do(v, StoreOp.Put(k, ListObj([]), None, victims));
          var x := Do(u, Rewrite(k, ListObj(Pushed(items, args, front))));
          if items == [] then Do(x, StoreOp.MarkReady(k)) else x
  {
    hide Do, Pushed;
    var found, get, ready := Found(w, k, now), StoreOp.Get(k, now), StoreOp.MarkReady(k);
    if found.Some? && !found.value.ListObj? {
      OneOp(w, get, []);
    } else {
      var items := if found.Some? then found.value.items else [];
      var put, grow := StoreOp.Put(k, ListObj([]), None, victims), Rewrite(k, ListObj(Pushed(items, args, front)));
      if found.None? {
        assert PushOps(w, k, args, front, now, victims) == [get] + ([put] + ([grow] + ([ready] + [])));
        DoCons(w, get, [put] + ([grow] + ([ready] + [])));
        DoCons(Do(w, get), put, [grow] + ([ready] + []));
        OneOp(Do(Do(w, get), put), grow, [ready] + []);
      } else {
        var tail := if items == [] then [ready] + [] else [];
        assert PushOps(w, k, args, front, now, victims) == [get] + ([grow] + tail);
        DoCons(w, get, [grow] + tail);
        OneOp(Do(w, get), grow, tail);
      }
    }
  }

  /** One effect, and perhaps a last one. */
  lemma OneOp(w: World<Client>, op: StoreOp, tail: seq<StoreOp>)
    requires |tail| <= 1
    ensures DoAll(w, [op] + tail) == if tail == [] then Do(w, op) else Do(Do(w, op), tail[0])
  {
    hide Do;
    DoCons(w, op, tail);
    if tail != [] { DoCons(Do(w, op), tail[0], []); }
    assert tail != [] ==> tail == [tail[0]] + [];
  }

  lemma IncrSteps(w: World<Client>, k: Key, now: nat, victims: seq<Key>)
    ensures var v, found := Do(w, StoreOp.Get(k, now)), Found(w, k, now);
      DoAll(w, IncrOps(w, k, now, victims)) ==
        if found.None? then Do(Do(v, StoreOp.Put(k, IntObj(0), None, victims)), Rewrite(k, IntObj(1)))
        else if found.value.IntObj? then Do(v, Rewrite(k, IntObj(Wrap64(found.value.v + 1))))
        else v
  {
    hide Do, Wrap64;
    var found, get := Found(w, k, now), StoreOp.Get(k, now);
    if found.None? {
      var put, set1 := StoreOp.Put(k, IntObj(0), None, victims), Rewrite(k, IntObj(1));
      assert IncrOps(w, k, now, victims) == [get] + ([put] + [set1]);
      DoCons(w, get, [put] + [set1]);
      OneOp(Do(w, get), put, [set1]);
    } else {
      var tail := if found.value.IntObj? then [Rewrite(k, IntObj(Wrap64(found.value.v + 1)))] else [];
      assert IncrOps(w, k, now, victims) == [get] + tail;
      OneOp(w, get, tail);
    }
  }

  lemma ExpireSteps(w: World<Client>, k: Key, seconds: int, now: nat)
    ensures var v, at := Do(w, StoreOp.Get(k, now)), (now + 1000 * seconds) % TWO_64;
      DoAll(w, ExpireOps(w, k, seconds, now)) ==
        if Found(w, k, now).Some? then Do(v, StoreOp.Expire(k, at)) else v
  {
    hide Do;
    var at := (now + 1000 * seconds) % TWO_64;
    OneOp(w, StoreOp.Get(k, now), if Found(w, k, now).Some? then [StoreOp.Expire(k, at)] else []);
  }

  lemma PopSteps(w: World<Client>, k: Key, now: nat)
    ensures var v, found := Do(w, StoreOp.Get(k, now)), Found(w, k, now);
      DoAll(w, PopOps(w, k, now)) ==
        if found.Some? && found.value.ListObj? && found.value.items != []
        then Do(v, Rewrite(k, ListObj(found.value.items[1..]))) else v
  {
    hide Do;
    var found := Found(w, k, now);
    if found.Some? && found.value.ListObj? && found.value.items != [] {
      OneOp(w, StoreOp.Get(k, now), [Rewrite(k, ListObj(found.value.items[1..]))]);
    } else {
      OneOp(w, StoreOp.Get(k, now), []);
    }
  }

  lemma PopKeepsQueues(w: World<Client>, c: Client, k: Key, now: nat)
    ensures PopFor(w, c, k, now).waiting == w.waiting
  {
    hide DoAll, PopOps, PopReply;
    QueuesStay(w, PopOps(w, k, now));
  }

  lemma {:induction false} QueuesStay(w: World<Client>, ops: seq<StoreOp>)
    ensures DoAll(w, ops).waiting == w.waiting
    decreases |ops|
  {
    if ops != [] {
      if ops[0].Put? { EvictionsStay(w, ops[0].victims); }
      QueuesStay(Do(w, ops[0]), ops[1..]);
    }
  }

  lemma {:induction false} EvictionsStay(w: World<Client>, ks: seq<Key>)
    ensures DeleteAll(w, ks).waiting == w.waiting
    decreases |ks|
  {
    if ks != [] { EvictionsStay(Delete(w, ks[0]), ks[1..]); }
  }

  method KeysOf(s: set<Key>) returns (keys: seq<Key>)
    ensures Enumerates(keys, s)
  {
    keys := [];
    var todo := s;
    while todo != {}
      invariant todo <= s && Enumerates(keys, s - todo)
      decreases |todo|
    {
      var k :| k in todo;
      keys := keys + [k];
      todo := todo - {k};
    }
  }

  lemma AppendKnown(m: map<Key, seq<Client>>, k: Key, c: Client, clients: set<Client>)
    requires Known(m, clients) && c in clients
    ensures Known(m[k := At(m, k) + [c]], clients)
  {
  }

  lemma UnwatchKnown(m: map<Key, seq<Client>>, m': map<Key, seq<Client>>, c: Client, clients: set<Client>)
    requires Known(m, clients)
    requires forall k :: k in m' ==> k in m && m'[k] == Without(m[k], c)
    ensures Known(m', clients)
  {
    forall k | k in m'
      ensures forall i :: 0 <= i < |m'[k]| ==> m'[k][i] in clients
    {
      KeptKnown(m[k], c, clients);
    }
  }

  lemma {:induction false} KeptKnown(s: seq<Client>, c: Client, clients: set<Client>)
    requires forall i :: 0 <= i < |s| ==> s[i] in clients
    ensures forall i :: 0 <= i < |Without(s, c)| ==> Without(s, c)[i] in clients
  {
    if s != [] { KeptKnown(s[1..], c, clients); }
  }
}
