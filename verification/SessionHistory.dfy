// What one client's history says, read off the log alone, and the invariants that tie it to the
// state in every reachable world.
module SessionHistory {
  import opened Options
  import opened Sessions

  /** The history of client c: the keys it watches, whether a key was modified while it watched it
      since its last aborted EXEC, the commands queued in its open block, whether that block holds an unknown
      command, the commands its EXECs have run and those they have taken from its queue, the key it
      waits on and until when, whether it was ever blocked while already waiting, and whether one of its blocks had
      two BLPOPs. */
  datatype View = View(
    watch: set<Key>, doomed: bool,
    open: Option<seq<Command>>, refused: bool,
    ran: seq<Command>, due: seq<Command>,
    waits: Option<Key>, until: Option<nat>, overlapped: bool, crowded: bool)

  const BLANK := View({}, false, None, false, [], [], None, None, false, false)

  function Blpops(cmds: seq<Command>): nat {
    if cmds == [] then 0 else (if cmds[0].verb == Blpop then 1 else 0) + Blpops(cmds[1..])
  }

  /** The end of a wait; without a positive timeout there is none. */
  function Deadline(timeout: int, at: nat): Option<nat> {
    if timeout > 0 then Some(at + timeout) else None
  }

  function See<C(==)>(v: View, c: C, e: Event<C>): View {
    match e
    case Watched(d, k) => if d == c then v.(watch := v.watch + {k}) else v
    case Unwatched(d) => if d == c then v.(watch := {}) else v
    case Modified(k) => if k in v.watch then v.(doomed := true) else v
    case Opened(d) => if d == c then v.(open := Some([]), refused := false) else v
    case Queued(d, cmd) =>
      if d == c then v.(open := if v.open.Some? then Some(v.open.value + [cmd]) else None) else v
    case Refused(d) => if d == c then v.(refused := true) else v
    case Committed(d, cmds) =>
      if d == c then v.(due := v.due + cmds, crowded := v.crowded || Blpops(cmds) >= 2) else v
    case Executed(d, cmd) => if d == c then v.(ran := v.ran + [cmd]) else v
    case Aborted(d) => if d == c then v.(doomed := false) else v
    case Closed(d) => if d == c then v.(open := None, refused := false) else v
    case Blocked(d, k, timeout, at) =>
      if d == c then
        v.(waits := Some(k), until := Deadline(timeout, at), overlapped := v.overlapped || v.waits.Some?)
      else v
    case Served(d, _) => if d == c then v.(waits := None, until := None) else v
    case TimedOut(d, _) => if d == c then v.(waits := None, until := None) else v
  }

  /** The log answers a block of client c, by service or by timeout. */
  predicate AnswerTo<C(==)>(e: Event<C>, c: C) {
    (e.Served? || e.TimedOut?) && e.c == c
  }

  predicate BlockOf<C(==)>(e: Event<C>, c: C) {
    e.Blocked? && e.c == c
  }

  /** What an event does to each part of a view. */
  lemma SeeWaits<C>(v: View, c: C, e: Event<C>)
    ensures See(v, c, e).waits == if BlockOf(e, c) then Some(e.key) else if AnswerTo(e, c) then None else v.waits
    ensures See(v, c, e).overlapped == (v.overlapped || (BlockOf(e, c) && v.waits.Some?))
    ensures See(v, c, e).until ==
      if BlockOf(e, c) then Deadline(e.timeout, e.at) else if AnswerTo(e, c) then None else v.until
  {
  }

  lemma SeeWatch<C>(v: View, c: C, e: Event<C>)
    ensures See(v, c, e).watch ==
      if e == Unwatched(c) then {} else if e.Watched? && e.c == c then v.watch + {e.key} else v.watch
    ensures See(v, c, e).doomed == ((v.doomed && e != Aborted(c)) || (e.Modified? && e.key in v.watch))
  {
  }

  lemma SeeBlock<C>(v: View, c: C, e: Event<C>)
    ensures See(v, c, e).open ==
      if e == Opened(c) then Some([]) else if e == Closed(c) then None
      else if e.Queued? && e.c == c && v.open.Some? then Some(v.open.value + [e.cmd]) else v.open
    ensures See(v, c, e).refused == if e == Opened(c) || e == Closed(c) then false else v.refused || e == Refused(c)
  {
  }

  lemma SeeWork<C>(v: View, c: C, e: Event<C>)
    ensures See(v, c, e).ran == if e.Executed? && e.c == c then v.ran + [e.cmd] else v.ran
    ensures See(v, c, e).due == if e.Committed? && e.c == c then v.due + e.cmds else v.due
    ensures See(v, c, e).crowded == (v.crowded || (e.Committed? && e.c == c && Blpops(e.cmds) >= 2))
  {
  }

  function ViewOf<C(==)>(log: seq<Event<C>>, c: C): View
    decreases |log|
  {
    if log == [] then BLANK else See(ViewOf(log[..|log| - 1], c), c, log[|log| - 1])
  }

  lemma ViewSnoc<C>(log: seq<Event<C>>, e: Event<C>, c: C)
    ensures ViewOf(log + [e], c) == See(ViewOf(log, c), c, e)
  {
    assert (log + [e])[..|log|] == log;
  }

  /** What client c with the history v may see next. A commit finds a block that no modification of
      a watched key and no unknown command has spoilt, and takes exactly the commands queued in it;
      an answer to a block finds the client waiting on that key. */
  predicate Allowed<C(==)>(v: View, c: C, e: Event<C>) {
    match e
    case Committed(d, cmds) => d == c ==> !v.doomed && !v.refused && v.open == Some(cmds)
    case Served(d, k) => d == c && !v.overlapped ==> v.waits == Some(k)
    case TimedOut(d, k) => d == c && !v.overlapped ==> v.waits == Some(k)
    case _ => true
  }

  predicate Faithful<C(==)>(log: seq<Event<C>>, c: C)
    decreases |log|
  {
    log == [] ||
    (Faithful(log[..|log| - 1], c) && Allowed(ViewOf(log[..|log| - 1], c), c, log[|log| - 1]))
  }

  lemma FaithfulSnoc<C>(log: seq<Event<C>>, e: Event<C>, c: C)
    requires Faithful(log, c) && Allowed(ViewOf(log, c), c, e)
    ensures Faithful(log + [e], c)
  {
    assert (log + [e])[..|log|] == log;
  }

  // ----- waiting queues, read off the log -----

  function RemoveFirst<C(==)>(s: seq<C>, c: C): seq<C> {
    if s == [] then [] else if s[0] == c then s[1..] else [s[0]] + RemoveFirst(s[1..], c)
  }

  function QueueSee<C(==)>(q: seq<C>, k: Key, e: Event<C>): seq<C> {
    match e
    case Blocked(c, j, _, _) => if j == k then q + [c] else q
    case Served(c, j) => if j == k then RemoveFirst(q, c) else q
    case TimedOut(c, j) => if j == k then RemoveFirst(q, c) else q
    case _ => q
  }

  /** The clients waiting on k, the longest waiting first. */
  function WaitQueue<C(==)>(log: seq<Event<C>>, k: Key): seq<C>
    decreases |log|
  {
    if log == [] then [] else QueueSee(WaitQueue(log[..|log| - 1], k), k, log[|log| - 1])
  }

  lemma QueueSnoc<C>(log: seq<Event<C>>, e: Event<C>, k: Key)
    ensures WaitQueue(log + [e], k) == QueueSee(WaitQueue(log, k), k, e)
  {
    assert (log + [e])[..|log|] == log;
  }

  lemma {:induction false} RemoveFirstCount<C>(s: seq<C>, d: C, c: C)
    requires d in s
    ensures Times(RemoveFirst(s, d), c) == Times(s, c) - (if c == d then 1 else 0)
  {
    assert s == [s[0]] + s[1..];
    if s[0] != d { RemoveFirstCount(s[1..], d, c); }
  }

  lemma {:induction false} RemoveFirstAfter<C>(kept: seq<C>, d: C, rest: seq<C>)
    requires d !in kept
    ensures RemoveFirst(kept + ([d] + rest), d) == kept + rest
  {
    var s := kept + ([d] + rest);
    if kept == [] {
      assert s[1..] == rest && kept + rest == rest;
    } else {
      assert s[1..] == kept[1..] + ([d] + rest);
      RemoveFirstAfter(kept[1..], d, rest);
    }
  }

  /** Whoever is served was at the head of its queue. */
  predicate Fifo<C(==)>(log: seq<Event<C>>)
    decreases |log|
  {
    log == [] ||
    (Fifo(log[..|log| - 1]) &&
     match log[|log| - 1]
     case Served(c, k) => var q := WaitQueue(log[..|log| - 1], k); q != [] && q[0] == c
     case _ => true)
  }

  lemma FifoSnoc<C>(log: seq<Event<C>>, e: Event<C>)
    requires Fifo(log)
    requires e.Served? ==> WaitQueue(log, e.key) != [] && WaitQueue(log, e.key)[0] == e.c
    ensures Fifo(log + [e])
  {
    assert (log + [e])[..|log|] == log;
  }

  function Times<C(==)>(s: seq<C>, c: C): nat {
    multiset(s)[c]
  }

  /** Queued commands are registered ones that can be executed from a block. */
  predicate Queueable(q: seq<Command>) {
    forall i :: 0 <= i < |q| ==> Registered(q[i].verb) && q[i].verb != Exec && q[i].verb != Discard
  }

  /** The state of client c agrees with its history. */
  predicate TxOk<C(==)>(w: World<C>, c: C) {
    var v, s := ViewOf(w.log, c), St(w, c);
    && Faithful(w.log, c)
    && s.multi == v.open.Some?
    && s.queue == (if v.open.Some? then v.open.value else [])
    && s.aborted == v.refused
    && (v.refused ==> v.open.Some?)
    && s.cas == v.doomed
    && Queueable(s.queue)
  }

  /** Client c is on the watch lists of exactly the keys it watches. */
  ghost predicate WatchOk<C>(w: World<C>, c: C) {
    var watch := ViewOf(w.log, c).watch;
    && (forall k: Key {:trigger k in watch} {:trigger At(w.watched, k)} :: k in watch <==> c in At(w.watched, k))
    && (watch != {} ==> c in w.clients)
  }

  /** Client c is among the subscribers of k exactly once when subscribed, else not at all, and no
      empty list is kept. */
  predicate SubOk<C(==)>(w: World<C>, c: C, k: Key) {
    && Times(At(w.subscribers, k), c) == (if k in St(w, c).subs then 1 else 0)
    && (k in w.subscribers ==> w.subscribers[k] != [])
  }

  /** A live client is in subscriber mode exactly while it has subscriptions. */
  ghost predicate SubAll<C>(w: World<C>, c: C) {
    && (forall k: Key {:trigger SubOk(w, c, k)} :: SubOk(w, c, k))
    && (St(w, c).alive ==> (St(w, c).sub <==> St(w, c).subs != {}))
  }

  /** Client c waits on k exactly once when its history says so, else not at all. */
  predicate BlockOk<C(==)>(w: World<C>, c: C, k: Key) {
    Times(At(w.waiting, k), c) == (if ViewOf(w.log, c).waits == Some(k) then 1 else 0)
  }

  /** Unless it was blocked twice over, which takes a transaction with two BLPOPs, client c is where
      its history says, flagged exactly while it waits. */
  ghost predicate BlockAll<C>(w: World<C>, c: C) {
    && St(w, c).when == ViewOf(w.log, c).until
    && (ViewOf(w.log, c).overlapped ==> ViewOf(w.log, c).crowded)
    && (!ViewOf(w.log, c).overlapped ==>
      && (forall k: Key {:trigger BlockOk(w, c, k)} :: BlockOk(w, c, k))
      && (St(w, c).blocked <==> ViewOf(w.log, c).waits.Some?))
  }

  /** The waiting queues are what the history says, in that order. */
  ghost predicate QueueAll<C>(w: World<C>) {
    && (forall k: Key {:trigger At(w.waiting, k)} {:trigger WaitQueue(w.log, k)} ::
          At(w.waiting, k) == WaitQueue(w.log, k))
    && Fifo(w.log)
  }

  ghost predicate Inv<C>(w: World<C>, c: C) {
    TxOk(w, c) && WatchOk(w, c) && SubAll(w, c) && BlockAll(w, c) && QueueAll(w)
  }
}
