// What subscribers can rely on over every interleaving of client steps.
module SessionDelivery {
  import opened Bytes
  import opened Sessions
  import opened SessionHistory
  import opened SessionInvariant

  // ----- subscriptions -----

  /** Client c is among the subscribers of k exactly once if it holds the subscription and never
      otherwise; no empty list is kept; a live client is in subscriber mode exactly while it holds
      a subscription. */
  lemma SubscriptionsTwoWay<C>(steps: seq<Step<C>>, c: C, k: Key)
    requires Legal(steps)
    ensures var w := Run(steps); var s := St(w, c);
      && Times(At(w.subscribers, k), c) == (if k in s.subs then 1 else 0)
      && (k in w.subscribers ==> w.subscribers[k] != [])
      && (s.alive ==> (s.sub <==> s.subs != {}))
  {
    RunKeeps(steps, c);
    SubFacts(Run(steps), c, k);
  }

  lemma {:induction false} BroadcastReplies<C>(w: World<C>, to: seq<C>, r: Reply, c: C)
    requires Times(to, c) <= 1
    ensures St(Broadcast(w, to, r), c)
         == St(w, c).(replies := St(w, c).replies + (if c in to then [r] else []))
    decreases |to|
  {
    if to == [] {
      assert St(w, c).replies + [] == St(w, c).replies;
    } else {
      assert to == [to[0]] + to[1..];
      BroadcastReplies(Answer(w, to[0], r), to[1..], r, c);
      assert c in to[1..] <==> Times(to[1..], c) > 0;
    }
  }

  lemma {:induction false} DistinctSize<C>(s: seq<C>)
    requires forall c :: c in s ==> Times(s, c) == 1
    ensures |set c | c in s| == |s|
  {
    if s != [] {
      var rest := s[1..];
      assert s == [s[0]] + rest;
      forall c | c in rest ensures Times(rest, c) == 1 && c != s[0] {
        assert c in s && Times(rest, c) > 0;
        assert Times(s, c) == (if c == s[0] then 1 else 0) + Times(rest, c);
      }
      DistinctSize(rest);
      assert (set c | c in s) == {s[0]} + (set c | c in rest);
    }
  }

  /** The clients that hold a subscription to k. */
  function Holders<C(==)>(w: World<C>, k: Key): set<C> {
    set c | c in w.clients && k in w.clients[c].subs
  }

  lemma SubscribersAreHolders<C>(steps: seq<Step<C>>, k: Key)
    requires Legal(steps)
    ensures var w := Run(steps); var to := At(w.subscribers, k);
      && (forall x: C :: Times(to, x) == (if x in Holders(w, k) then 1 else 0))
      && (forall x: C :: x in to <==> x in Holders(w, k))
      && |to| == |Holders(w, k)|
  {
    hide Legal, Run;
    var w := Run(steps);
    var to := At(w.subscribers, k);
    forall x: C ensures Times(to, x) == (if x in Holders(w, k) then 1 else 0) {
      SubscriptionsTwoWay(steps, x, k);
    }
    forall x: C ensures x in to <==> x in Holders(w, k) {
      assert x in to <==> Times(to, x) > 0;
    }
    DistinctSize(to);
    assert (set x | x in to) == Holders(w, k);
  }

  /** PUBLISH appends the message once to every holder of the subscription and to nobody else,
      answers the publisher with their number, and changes nothing else of any client. */
  lemma PublishDelivers<C>(steps: seq<Step<C>>, d: C, k: Key, text: Text, c: C)
    requires Legal(steps)
    ensures var w, w' := Run(steps), PublishTo(Run(steps), d, k, text);
      St(w', c) == St(w, c).(replies := St(w, c).replies
        + (if c in Holders(w, k) then [Message(k, text)] else [])
        + (if c == d then [Count(|Holders(w, k)|)] else []))
  {
    hide Legal, Run, Holders, Times;
    SubscribersAreHolders(steps, k);
    BroadcastReplies(Run(steps), At(Run(steps).subscribers, k), Message(k, text), c);
  }
}
