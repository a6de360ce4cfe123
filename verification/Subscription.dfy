/**
 * The counter of live block subscriptions. It tells the core thread only about changes, and the last
 * thing it said is always the current level.
 */
module Subscription {

  import opened Committees

  /** A subscription stream is created for, or dropped by, a peer. */
  datatype Event = Opened(peer: nat) | Closed(peer: nat)

  /** How many streams of `peer` are live after `events`. */
  ghost function Live(events: seq<Event>, peer: nat): int {
    if events == [] then 0
    else
      Live(events[..|events| - 1], peer) + match events[|events| - 1] {
        case Opened(p) => if p == peer then 1 else 0
        case Closed(p) => if p == peer then -1 else 0
      }
  }

  /** Only committee members subscribe, and only a stream that was created is dropped. */
  ghost predicate Matched(size: nat, events: seq<Event>) {
    events != [] ==>
      && Matched(size, events[..|events| - 1])
      && var last := events[|events| - 1];
         last.peer < size && (last.Closed? ==> Live(events[..|events| - 1], last.peer) > 0)
  }

  /** This node and the peers that still hold a stream after `events`. */
  ghost function Connected(c: Committee, own: nat, events: seq<Event>): set<nat> {
    set p | 0 <= p < c.Size() && (p == own || Live(events, p) > 0)
  }

  /** The authorities whose stake counts: this node and every peer with a live subscription. */
  function Subscribers(own: nat, subscriptions: seq<nat>): set<nat> {
    set p | 0 <= p < |subscriptions| && (subscriptions[p] >= 1 || p == own)
  }

  lemma {:induction false} SumUpdate(s: seq<nat>, i: nat, v: nat, n: nat)
    requires i < |s| && n <= |s|
    ensures SumTo(s[i := v], n) == SumTo(s, n) + if i < n then v - s[i] else 0
  {
    if n == 0 {
    } else {
      SumUpdate(s, i, v, n - 1);
    }
  }

  lemma {:induction false} SumAtLeast(s: seq<nat>, i: nat, n: nat)
    requires i < n <= |s|
    ensures s[i] <= SumTo(s, n)
  {
    if i < n - 1 {
      SumAtLeast(s, i, n - 1);
    }
  }

  lemma {:induction false} ZeroSum(s: seq<nat>, n: nat)
    requires n <= |s| && forall p :: 0 <= p < |s| ==> s[p] == 0
    ensures SumTo(s, n) == 0
  {
    if n == 0 {
    } else {
      ZeroSum(s, n - 1);
    }
  }

  lemma {:induction false} MatchedPrefix(size: nat, events: seq<Event>, k: nat)
    requires Matched(size, events) && k <= |events|
    ensures Matched(size, events[..k])
  {
    if k < |events| {
      MatchedPrefix(size, events[..|events| - 1], k);
      assert events[..|events| - 1][..k] == events[..k];
    } else {
      assert events[..k] == events;
    }
  }

  /** This node is always among the subscribers. */
  lemma OwnIsEnough(c: Committee, own: nat, subscriptions: seq<nat>)
    requires own < c.Size() == |subscriptions|
    ensures c.Stake(own) <= c.StakeOf(Subscribers(own, subscriptions))
  {
    StakeSingleton(c.stakes, own, |c.stakes|);
    StakeMonotone(c.stakes, {own}, Subscribers(own, subscriptions), |c.stakes|);
  }

  class SubscriptionCounter {
    const committee: Committee
    const own: nat
    var count: nat
    var subscriptions: seq<nat>
    /** The last value that reached the core thread, which starts from false. */
    var sent: bool

    predicate Valid()
      reads this
    {
      && committee.Valid()
      && own < committee.Size() == |subscriptions|
      && count == SumTo(subscriptions, |subscriptions|)
    }

    /** Whether the subscribers form a quorum right now. */
    predicate Level()
      reads this
    {
      committee.IsQuorum(Subscribers(own, subscriptions))
    }

    constructor (c: Committee, self: nat)
      requires c.Valid() && self < c.Size()
      ensures Valid() && committee == c && own == self && !sent
      ensures forall p :: 0 <= p < c.Size() ==> subscriptions[p] == 0
      ensures Level() == c.ReachedQuorum(c.Stake(self))
    {
      committee, own, count, sent := c, self, 0, false;
      subscriptions := seq(|c.stakes|, _ => 0);
      new;
      assert Subscribers(own, subscriptions) == {own};
      StakeSingleton(c.stakes, self, |c.stakes|);
      ZeroSum(subscriptions, |subscriptions|);
    }

    method SubscribedStake() returns (total: nat)
      requires |subscriptions| == committee.Size()
      ensures total == committee.StakeOf(Subscribers(own, subscriptions))
    {
      total := 0;
      for authority := 0 to committee.Size()
        invariant total == StakeBelow(committee.stakes, Subscribers(own, subscriptions), authority)
      {
        if subscriptions[authority] >= 1 || own == authority {
          total := total + committee.Stake(authority);
        }
      }
    }

    /**
     * A new stream for `peer`. `up` says whether the core thread still takes messages; a lost message
     * (the node is shutting down) is the only way its value can drift from the level.
     */
    method Increment(peer: nat, up: bool) returns (ok: bool)
      requires Valid() && peer < committee.Size()
      modifies this
      ensures Valid() && subscriptions == old(subscriptions)[peer := old(subscriptions[peer]) + 1]
      ensures count == old(count) + 1
      ensures ok ==> (old(sent == Level()) ==> sent == Level())
      ensures !ok ==> !up && sent == old(sent)
      ensures peer != own && old(Level()) ==> ok && sent == old(sent)
      ensures peer == own && committee.ReachedQuorum(committee.Stake(own)) && ok ==>
        sent == (old(sent) || old(subscriptions[own]) == 0)
    {
      ghost var before := Subscribers(own, subscriptions);
      count := count + 1;
      var original := subscriptions[peer];
      SumUpdate(subscriptions, peer, original + 1, |subscriptions|);
      subscriptions := subscriptions[peer := original + 1];
      var total := SubscribedStake();
      assert Subscribers(own, subscriptions) == before + {peer};
      StakeInsert(committee, before, peer);
      StakeInsert(committee, {}, peer);
      StakeMonotone(committee.stakes, {peer}, before + {peer}, |committee.stakes|);
      assert {} + {peer} == {peer};
      StakeMonotone(committee.stakes, before + {peer}, before + {peer}, |committee.stakes|);
      var previous := if original == 0 then total - committee.Stake(peer) else total;
      ok := true;
      if !committee.ReachedQuorum(previous) && committee.ReachedQuorum(total) {
        if up {
          sent := true;
        } else {
          ok := false;
        }
      }
    }

    /** A stream of `peer` is dropped. */
    method Decrement(peer: nat, up: bool) returns (ok: bool)
      requires Valid() && peer < committee.Size() && subscriptions[peer] > 0
      modifies this
      ensures Valid() && subscriptions == old(subscriptions)[peer := old(subscriptions[peer]) - 1]
      ensures count == old(count) - 1
      ensures ok ==> (old(sent == Level()) ==> sent == Level())
      ensures !ok ==> !up && sent == old(sent)
      ensures Level() ==> ok && sent == old(sent)
    {
      ghost var before := Subscribers(own, subscriptions);
      var original := subscriptions[peer];
      SumUpdate(subscriptions, peer, original - 1, |subscriptions|);
      SumAtLeast(subscriptions, peer, |subscriptions|);
      count := count - 1;
      subscriptions := subscriptions[peer := original - 1];
      var total := SubscribedStake();
      assert before == Subscribers(own, subscriptions) + {peer};
      StakeInsert(committee, Subscribers(own, subscriptions), peer);
      var previous := if original == 1 then total + committee.Stake(peer) else total;
      ok := true;
      if committee.ReachedQuorum(previous) && !committee.ReachedQuorum(total) {
        if up {
          sent := false;
        } else {
          ok := false;
        }
      }
    }
  }

  /** A live stream was opened. */
  lemma {:induction false} LiveWasOpened(events: seq<Event>, peer: nat)
    requires Live(events, peer) > 0
    ensures Opened(peer) in events
  {
    var n := |events| - 1;
    assert events == events[..n] + [events[n]];
    if events[n] != Opened(peer) {
      LiveWasOpened(events[..n], peer);
    }
  }

  /**
   * Over any run of subscriptions and matched drops that the core thread hears, the last value it
   * heard is whether the live subscribers and this node form a quorum, provided this node alone does
   * not. A node that is a quorum by itself is announced exactly when it has ever subscribed to itself.
   */
  method Run(c: Committee, own: nat, events: seq<Event>) returns (counter: SubscriptionCounter)
    requires c.Valid() && own < c.Size() && Matched(c.Size(), events)
    ensures counter.Valid() && counter.committee == c && counter.own == own
    ensures forall p :: 0 <= p < c.Size() ==> counter.subscriptions[p] == Live(events, p)
    ensures !c.ReachedQuorum(c.Stake(own)) ==>
              counter.sent == c.IsQuorum(Connected(c, own, events))
    ensures c.ReachedQuorum(c.Stake(own)) ==> counter.Level() && (counter.sent <==> Opened(own) in events)
  {
    hide StakeBelow, SumTo;
    counter := new SubscriptionCounter(c, own);
    var i := 0;
    while i < |events|
      invariant 0 <= i <= |events| && fresh(counter)
      invariant counter.Valid() && counter.committee == c && counter.own == own
      invariant Matched(c.Size(), events[..i])
      invariant forall p :: 0 <= p < c.Size() ==> counter.subscriptions[p] == Live(events[..i], p)
      invariant !c.ReachedQuorum(c.Stake(own)) ==> counter.sent == counter.Level()
      invariant c.ReachedQuorum(c.Stake(own)) ==> counter.Level()
      invariant c.ReachedQuorum(c.Stake(own)) ==> (counter.sent <==> Opened(own) in events[..i])
    {
      MatchedPrefix(c.Size(), events, i + 1);
      assert events[..i + 1] == events[..i] + [events[i]] && events[..i + 1][..i] == events[..i];
      if Live(events[..i], own) > 0 {
        LiveWasOpened(events[..i], own);
      }
      var sent;
      match events[i] {
        case Opened(peer) => sent := counter.Increment(peer, true);
        case Closed(peer) => sent := counter.Decrement(peer, true);
      }
      OwnIsEnough(counter.committee, own, counter.subscriptions);
      i := i + 1;
    }
    assert events[..|events|] == events;
    assert Subscribers(own, counter.subscriptions) == Connected(c, own, events);
  }
}
