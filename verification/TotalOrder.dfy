/** The committed sequence over whole runs: decided call by call, linearized commit by commit. */
module TotalOrder {
  import opened Sequences
  import opened Committees
  import opened Blocks
  import opened BlockVerifier
  import opened Dags
  import opened CommitRule
  import opened Agreement
  import opened BaseCommitter
  import opened UniversalCommitter
  import opened SubDags
  import opened Linearizers
  import opened CommitRuns

  lemma {:induction false} CommittedLeadersConcat(s: seq<LeaderStatus>, t: seq<LeaderStatus>)
    ensures CommittedLeaders(s + t) == CommittedLeaders(s) + CommittedLeaders(t)
  {
    if s == [] {
      assert s + t == t;
    } else {
      var head := if s[0].Commit? then [s[0].block] else [];
      assert (s + t)[0] == s[0] && (s + t)[1..] == s[1..] + t;
      CommittedLeadersConcat(s[1..], t);
      var a, b := CommittedLeaders(s[1..]), CommittedLeaders(t);
      assert CommittedLeaders(s) == head + a && CommittedLeaders(s + t) == head + (a + b);
      assert head + (a + b) == (head + a) + b;
    }
  }

  lemma CommitAllStep(d: Dag, depth: nat, st: CommitState, a: seq<BlockRef>, b: seq<BlockRef>)
    requires Closed(d) && a != [] && (forall l :: l in a ==> l in d) && (forall l :: l in b ==> l in d)
    ensures var next, head := After(d, depth, st, a[0]), [SubDag(d, depth, st, a[0])];
      && CommitAll(d, depth, st, a) == head + CommitAll(d, depth, next, a[1..])
      && CommitAll(d, depth, st, a + b) == head + CommitAll(d, depth, next, a[1..] + b)
      && AfterAll(d, depth, st, a) == AfterAll(d, depth, next, a[1..])
  {
    hide SubDag, After, Closed;
    assert (a + b)[1..] == a[1..] + b && (a + b)[0] == a[0];
  }

  lemma {:induction false} CommitAllConcat(d: Dag, depth: nat, st: CommitState, a: seq<BlockRef>, b: seq<BlockRef>)
    requires Closed(d) && forall l :: l in a + b ==> l in d
    ensures (forall l :: l in a ==> l in d) && (forall l :: l in b ==> l in d)
    ensures CommitAll(d, depth, st, a + b) == CommitAll(d, depth, st, a) + CommitAll(d, depth, AfterAll(d, depth, st, a), b)
    decreases |a|
  {
    hide CommitAll, AfterAll, SubDag, After, Closed;
    assert forall l :: l in a + b <==> l in a || l in b;
    if a == [] {
      assert a + b == b;
      CommitAllNone(d, depth, st);
    } else {
      CommitAllStep(d, depth, st, a, b);
      var next := After(d, depth, st, a[0]);
      CommitAllConcat(d, depth, next, a[1..], b);
      var head, x, y := [SubDag(d, depth, st, a[0])], CommitAll(d, depth, next, a[1..]), CommitAll(d, depth, AfterAll(d, depth, st, a), b);
      assert head + (x + y) == (head + x) + y;
    }
  }

  lemma CommitAllNone(d: Dag, depth: nat, st: CommitState)
    requires Closed(d)
    ensures CommitAll(d, depth, st, []) == [] && AfterAll(d, depth, st, []) == st
  {
  }

  lemma {:induction false} AfterAllLocal(v: Dag, u: Dag, depth: nat, st: CommitState, leaders: seq<BlockRef>)
    requires View(v, u) && Closed(u) && forall l :: l in leaders ==> l in v
    ensures forall l :: l in leaders ==> l in u
    ensures AfterAll(v, depth, st, leaders) == AfterAll(u, depth, st, leaders)
    decreases |leaders|
  {
    if leaders == [] {
    } else {
      WalkLocal(v, u, GcRound(depth, st.lastRound), st.committed + {leaders[0]}, [leaders[0]]);
      AfterAllLocal(v, u, depth, After(v, depth, st, leaders[0]), leaders[1..]);
    }
  }

  /** The leaders that one call takes are in its view, above the genesis. */
  lemma TakenInView(c: Committee, call: Call, committers: seq<Options>, schedule: Schedule, last: Slot)
    requires Closed(call.view)
    ensures forall l :: l in CommittedLeaders(Taken(c, call, committers, schedule, last)) ==>
              l in call.view && l.round > GENESIS_ROUND
  {
    hide Closed, DecidedLeaders;
    var all := DecidedLeaders(c, call.view, committers, schedule, last, call.highest);
    var taken := Truncated(all, call.limit);
    assert taken <= all;
    CommittedLeadersPrefix(taken, all);
    var leaders := LeadersOf(c, call.view, committers, schedule, last, call.highest);
    assert CommittedLeaders(taken) <= leaders;
  }

  /** Sub-DAGs committed over a run, each call linearizing what it takes from where the last one stopped. */
  ghost function Commits(
    c: Committee, calls: seq<Call>, committers: seq<Options>, schedule: Schedule, last: Slot, depth: nat, st: CommitState)
    : seq<seq<BlockRef>>
    requires forall i :: 0 <= i < |calls| ==> Closed(calls[i].view)
    decreases |calls|
  {
    if calls == [] then []
    else
      TakenInView(c, calls[0], committers, schedule, last);
      var p := Taken(c, calls[0], committers, schedule, last);
      var leaders := CommittedLeaders(p);
      CommitAll(calls[0].view, depth, st, leaders)
      + Commits(c, calls[1..], committers, schedule, LastOf(last, p), depth, AfterAll(calls[0].view, depth, st, leaders))
  }

  /** A run commits what its decisions commit in the universe. */
  lemma {:induction false} CommitsOfDecisions(
    c: Committee, u: Dag, calls: seq<Call>, committers: seq<Options>, schedule: Schedule, last: Slot, depth: nat, st: CommitState)
    requires Closed(u) && Growing(u, calls)
    ensures forall i :: 0 <= i < |calls| ==> Closed(calls[i].view)
    ensures var leaders := CommittedLeaders(Decisions(c, calls, committers, schedule, last));
      && (forall l :: l in leaders ==> l in u)
      && Commits(c, calls, committers, schedule, last, depth, st) == CommitAll(u, depth, st, leaders)
    decreases |calls|
  {
    GrowingClosed(u, calls);
    if calls == [] {
    } else {
      hide Closed, Taken, CommitAll, AfterAll;
      var v, p := calls[0].view, Taken(c, calls[0], committers, schedule, last);
      var leaders, rest := CommittedLeaders(p), Decisions(c, calls[1..], committers, schedule, LastOf(last, p));
      assert View(v, u);
      TakenInView(c, calls[0], committers, schedule, last);
      CommitAllLocal(v, u, depth, st, leaders);
      AfterAllLocal(v, u, depth, st, leaders);
      GrowingTail(u, calls);
      CommitsOfDecisions(c, u, calls[1..], committers, schedule, LastOf(last, p), depth, AfterAll(v, depth, st, leaders));
      CommittedLeadersConcat(p, rest);
      CommitAllConcat(u, depth, st, leaders, CommittedLeaders(rest));
    }
  }

  /**
   * Total order. With one leader per round, the sub-DAGs that any two authorities commit over whole runs,
   * blocks and order included, are prefixes of one another.
   */
  lemma RunsCommitAlike(
    ctx: Context, u: Dag, byzantine: set<nat>, p: seq<Call>, q: seq<Call>, committers: seq<Options>, schedule: Schedule,
    last: Slot, depth: nat, st: CommitState)
    requires Universe(ctx, u, byzantine) && Growing(u, p) && Growing(u, q) && OneLeader(committers, schedule)
    ensures (forall i :: 0 <= i < |p| ==> Closed(p[i].view)) && (forall i :: 0 <= i < |q| ==> Closed(q[i].view))
    ensures var s := Commits(ctx.committee, p, committers, schedule, last, depth, st);
      var t := Commits(ctx.committee, q, committers, schedule, last, depth, st);
      s <= t || t <= s
  {
    hide Bft, WellFormed, OneLeader, Closed, Decisions, CommitAll, Commits, Growing;
    var c := ctx.committee;
    RunsAgree(ctx, u, byzantine, p, q, committers, schedule, last);
    CommitsOfDecisions(c, u, p, committers, schedule, last, depth, st);
    CommitsOfDecisions(c, u, q, committers, schedule, last, depth, st);
    var s, t := Decisions(c, p, committers, schedule, last), Decisions(c, q, committers, schedule, last);
    if s <= t {
      CommittedLeadersPrefix(s, t);
      CommitAllPrefix(u, depth, st, CommittedLeaders(s), CommittedLeaders(t));
    } else {
      CommittedLeadersPrefix(t, s);
      CommitAllPrefix(u, depth, st, CommittedLeaders(t), CommittedLeaders(s));
    }
  }

  // ----- the run as it is executed

  /** Committed blocks and the last leader are not above `round`. */
  ghost predicate UpTo(st: CommitState, round: nat) {
    st.lastRound <= round && forall r :: r in st.committed ==> r.round <= round
  }

  lemma {:induction false} AfterAllUpTo(d: Dag, depth: nat, st: CommitState, leaders: seq<BlockRef>, round: nat)
    requires Ready(d, depth, st) && Upcoming(d, st, leaders) && UpTo(st, round)
    requires forall l :: l in leaders ==> l.round <= round
    ensures (forall l :: l in leaders ==> l in d) && UpTo(AfterAll(d, depth, st, leaders), round)
    decreases |leaders|
  {
    LeadersKnown(d, st, leaders);
    if leaders == [] {
    } else {
      hide Closed, DistinctAncestors, DownClosed, Upcoming, After, NoRepeats, Sorted, InPast;
      CommitStep(d, depth, st, leaders);
      SubDagExact(d, depth, st, leaders[0]);
      var s, next := SubDag(d, depth, st, leaders[0]), After(d, depth, st, leaders[0]);
      forall y | y in s
        ensures y.round <= round
      {
        BelowIsLower(d, leaders[0], y);
      }
      assert next.lastRound == leaders[0].round by { Linearizer.LastRoundAfter(d, depth, st, leaders[0]); }
      AfterAllUpTo(d, depth, next, leaders[1..], round);
    }
  }

  lemma BelowIsLower(d: Dag, x: BlockRef, y: BlockRef)
    requires Closed(d) && AtOrBelow(d, x, y)
    ensures y.round <= x.round
  {
    if x != y {
      PastLower(d, x, y);
    }
  }

  /** What a call takes comes in the order the linearizer needs, and ends at its last slot. */
  lemma TakenUpcoming(c: Committee, call: Call, committers: seq<Options>, schedule: Schedule, last: Slot, st: CommitState)
    requires Closed(call.view) && OneLeader(committers, schedule) && UpTo(st, last.round)
    ensures var p := Taken(c, call, committers, schedule, last);
      && Upcoming(call.view, st, CommittedLeaders(p))
      && last.round <= LastOf(last, p).round
      && forall l :: l in CommittedLeaders(p) ==> l.round <= LastOf(last, p).round
  {
    hide Closed, DecidedLeaders, OneLeader;
    var v := call.view;
    var all := DecidedLeaders(c, v, committers, schedule, last, call.highest);
    var p := Truncated(all, call.limit);
    OneLeaderDistinct(committers, schedule);
    LeadersUpcoming(c, v, committers, schedule, last, call.highest, st);
    assert p <= all;
    CommittedLeadersPrefix(p, all);
    UpcomingPrefix(v, st, CommittedLeaders(p), CommittedLeaders(all));
    TakenRounds(c, v, committers, schedule, last, call.highest, p);
  }

  lemma UpcomingPrefix(d: Dag, st: CommitState, p: seq<BlockRef>, q: seq<BlockRef>)
    requires Upcoming(d, st, q) && p <= q
    ensures Upcoming(d, st, p)
  {
  }

  /** Decided slots are above the last one before, and in ascending rounds. */
  lemma TakenRounds(
    c: Committee, v: Dag, committers: seq<Options>, schedule: Schedule, last: Slot, highest: nat, p: seq<LeaderStatus>)
    requires Closed(v) && DistinctLeaders(committers, schedule)
    requires p <= DecidedLeaders(c, v, committers, schedule, last, highest)
    ensures last.round <= LastOf(last, p).round
    ensures forall l :: l in CommittedLeaders(p) ==> l.round <= LastOf(last, p).round
  {
    hide Closed, Decide, Slots, DecidedPrefix, DistinctLeaders, CommittedLeaders;
    var slots := Slots(committers, schedule, last.round + 1, EndRound(highest));
    var statuses := Decide(c, v, slots);
    SlotsInOrder(committers, schedule, last.round + 1, EndRound(highest));
    DecideSound(c, v, slots);
    StatusesAscend(v, slots, statuses, last.round);
    PrefixAscends(statuses, last.round);
    assert p != [] ==> p[|p| - 1] in p;
    forall l | l in CommittedLeaders(p)
      ensures l.round <= LastOf(last, p).round
    {
      LeaderStatusOf(p, l);
      var i :| 0 <= i < |p| && p[i] == Commit(l);
      assert p[i].Round() <= p[|p| - 1].Round();
    }
  }

  /** Rounds ascend, from above `low` on. */
  ghost predicate RoundsAscend(statuses: seq<LeaderStatus>, low: nat) {
    && (forall i :: 0 <= i < |statuses| ==> low < statuses[i].Round())
    && (forall i, j :: 0 <= i < j < |statuses| ==> statuses[i].Round() <= statuses[j].Round())
  }

  lemma StatusesAscend(v: Dag, slots: seq<Slot>, statuses: seq<LeaderStatus>, low: nat)
    requires Sound(v, slots, statuses) && SlotsAscend(slots) && forall s :: s in slots ==> low < s.round
    ensures RoundsAscend(statuses, low)
  {
    forall i | 0 <= i < |statuses|
      ensures statuses[i].Round() == slots[i].round && low < slots[i].round
    {
      assert slots[i] in slots && statuses[i].ToSlot() == slots[i];
    }
  }

  lemma {:induction false} PrefixAscends(statuses: seq<LeaderStatus>, low: nat)
    requires RoundsAscend(statuses, low)
    ensures RoundsAscend(DecidedPrefix(statuses), low)
    ensures forall s :: s in DecidedPrefix(statuses) ==> s in statuses
  {
    if statuses == [] {
    } else {
      assert statuses == [statuses[0]] + statuses[1..];
      assert RoundsAscend(statuses[1..], low);
      PrefixAscends(statuses[1..], low);
      var rest := DecidedPrefix(statuses[1..]);
      forall i | 0 <= i < |rest|
        ensures statuses[0].Round() <= rest[i].Round()
      {
        assert rest[i] in rest;
        var k :| 0 <= k < |statuses[1..]| && statuses[1..][k] == rest[i];
        assert statuses[0].Round() <= statuses[k + 1].Round();
      }
    }
  }

  lemma {:induction false} LeaderStatusOf(p: seq<LeaderStatus>, l: BlockRef)
    requires l in CommittedLeaders(p)
    ensures Commit(l) in p
  {
    if p != [] && p[0] != Commit(l) {
      LeaderStatusOf(p[1..], l);
    }
  }

  lemma EmptyView(u: Dag)
    ensures View(map[], u) && DistinctAncestors(map[])
  {
  }

  /** One call: decide, take what may be taken, and linearize it. */
  method TryCommit(
    linearizer: Linearizer, ctx: Context, ghost u: Dag, ghost byzantine: set<nat>, call: Call,
    committers: seq<Options>, schedule: Schedule, last: Slot)
    returns (panicked: bool, subDags: seq<seq<BlockRef>>, next: Slot)
    requires Universe(ctx, u, byzantine) && View(call.view, u) && OneLeader(committers, schedule)
    requires Ready(linearizer.dag, linearizer.depth, linearizer.State()) && View(linearizer.dag, call.view)
    requires UpTo(linearizer.State(), last.round)
    modifies linearizer
    ensures !panicked && linearizer.dag == call.view && Closed(call.view)
    ensures Ready(linearizer.dag, linearizer.depth, linearizer.State()) && UpTo(linearizer.State(), next.round)
    ensures var p := Taken(ctx.committee, call, committers, schedule, last);
      && next == LastOf(last, p) && (forall l :: l in CommittedLeaders(p) ==> l in call.view)
      && subDags == CommitAll(call.view, linearizer.depth, old(linearizer.State()), CommittedLeaders(p))
      && linearizer.State() == AfterAll(call.view, linearizer.depth, old(linearizer.State()), CommittedLeaders(p))
  {
    hide Bft, WellFormed, Closed, OneLeader, DecidedLeaders, DistinctAncestors, CommitAll, AfterAll, DownClosed, Upcoming, UpTo;
    ghost var st := linearizer.State();
    ViewVerified(ctx, call.view, u);
    linearizer.Grow(call.view);
    var decided := TryDecide(ctx, u, byzantine, call.view, committers, schedule, last, call.highest);
    var taken := Truncated(decided, call.limit);
    next := LastOf(last, taken);
    TakenUpcoming(ctx.committee, call, committers, schedule, last, st);
    UpToLater(st, last.round, next.round);
    AfterAllUpTo(call.view, linearizer.depth, st, CommittedLeaders(taken), next.round);
    panicked, subDags := linearizer.HandleCommit(CommittedLeaders(taken));
  }

  lemma UpToLater(st: CommitState, low: nat, high: nat)
    requires UpTo(st, low) && low <= high
    ensures UpTo(st, high)
  {
  }

  /** The first call of a run, and the rest. */
  lemma CommitsStep(
    c: Committee, calls: seq<Call>, committers: seq<Options>, schedule: Schedule, last: Slot, depth: nat, st: CommitState)
    requires calls != [] && forall i :: 0 <= i < |calls| ==> Closed(calls[i].view)
    ensures var p := Taken(c, calls[0], committers, schedule, last);
      && (forall l :: l in CommittedLeaders(p) ==> l in calls[0].view)
      && Commits(c, calls, committers, schedule, last, depth, st)
         == CommitAll(calls[0].view, depth, st, CommittedLeaders(p))
            + Commits(c, calls[1..], committers, schedule, LastOf(last, p), depth,
                      AfterAll(calls[0].view, depth, st, CommittedLeaders(p)))
  {
    hide Closed, Taken, CommitAll, AfterAll;
    TakenInView(c, calls[0], committers, schedule, last);
  }

  /**
   * A run as it is executed, from the first commit on. No call panics, and what is committed is what the
   * run commits.
   */
  method Follow(
    ctx: Context, ghost u: Dag, ghost byzantine: set<nat>, calls: seq<Call>, committers: seq<Options>, schedule: Schedule,
    start: Slot, depth: nat)
    returns (panicked: bool, subDags: seq<seq<BlockRef>>)
    requires Universe(ctx, u, byzantine) && Growing(u, calls) && OneLeader(committers, schedule)
    ensures forall i :: 0 <= i < |calls| ==> Closed(calls[i].view)
    ensures !panicked && subDags == Commits(ctx.committee, calls, committers, schedule, start, depth, CommitState({}, 0))
  {
    hide Universe, Closed, OneLeader, Taken, CommitAll, AfterAll, Ready, Commits, CommittedLeaders, View;
    GrowingClosed(u, calls);
    EmptyView(u);
    EmptyCalls(u, calls);
    var linearizer := new Linearizer(depth, map[]);
    var last := start;
    panicked, subDags := false, [];
    ghost var whole := Commits(ctx.committee, calls, committers, schedule, start, depth, CommitState({}, 0));
    assert calls[0..] == calls && subDags + whole == whole;
    var i := 0;
    while i < |calls|
      invariant 0 <= i <= |calls| && !panicked && fresh(linearizer) && linearizer.depth == depth
      invariant Ready(linearizer.dag, depth, linearizer.State()) && UpTo(linearizer.State(), last.round)
      invariant forall k :: i <= k < |calls| ==> View(linearizer.dag, calls[k].view)
      invariant whole == subDags + Commits(ctx.committee, calls[i..], committers, schedule, last, depth, linearizer.State())
    {
      ghost var rest := calls[i..];
      assert rest[0] == calls[i] && rest[1..] == calls[i + 1..];
      CommitsStep(ctx.committee, rest, committers, schedule, last, depth, linearizer.State());
      var more;
      panicked, more, last := TryCommit(linearizer, ctx, u, byzantine, calls[i], committers, schedule, last);
      ghost var later := Commits(ctx.committee, rest[1..], committers, schedule, last, depth, linearizer.State());
      assert subDags + (more + later) == (subDags + more) + later;
      subDags := subDags + more;
      i := i + 1;
    }
    NoCommits(ctx.committee, committers, schedule, last, depth, linearizer.State());
    assert subDags + [] == subDags;
  }

  lemma EmptyCalls(u: Dag, calls: seq<Call>)
    requires Growing(u, calls)
    ensures forall k :: 0 <= k < |calls| ==> View(map[], calls[k].view)
  {
  }

  lemma NoCommits(c: Committee, committers: seq<Options>, schedule: Schedule, last: Slot, depth: nat, st: CommitState)
    ensures Commits(c, [], committers, schedule, last, depth, st) == []
  {
  }

  /** Over a whole run no block is committed twice. */
  lemma RunCommitsOnce(
    ctx: Context, u: Dag, byzantine: set<nat>, calls: seq<Call>, committers: seq<Options>, schedule: Schedule, start: Slot, depth: nat)
    requires Universe(ctx, u, byzantine) && Growing(u, calls) && OneLeader(committers, schedule)
    ensures forall i :: 0 <= i < |calls| ==> Closed(calls[i].view)
    ensures NoRepeats(Flatten(Commits(ctx.committee, calls, committers, schedule, start, depth, CommitState({}, 0))))
  {
    hide Universe, Closed, OneLeader, Commits, NoRepeats, Growing;
    GrowingClosed(u, calls);
    if calls == [] {
      NoCommits(ctx.committee, committers, schedule, start, depth, CommitState({}, 0));
      NothingTwice();
    } else {
      LeadersOnce(ctx, u, byzantine, calls, committers, schedule, start, depth);
    }
  }

  lemma NothingTwice()
    ensures NoRepeats(Flatten<BlockRef>([]))
  {
  }

  lemma LeadersOnce(
    ctx: Context, u: Dag, byzantine: set<nat>, calls: seq<Call>, committers: seq<Options>, schedule: Schedule, start: Slot, depth: nat)
    requires Universe(ctx, u, byzantine) && Growing(u, calls) && OneLeader(committers, schedule) && calls != []
    ensures forall i :: 0 <= i < |calls| ==> Closed(calls[i].view)
    ensures NoRepeats(Flatten(Commits(ctx.committee, calls, committers, schedule, start, depth, CommitState({}, 0))))
  {
    hide Bft, WellFormed, Closed, OneLeader, Decisions, Commits, CommitAll, Upcoming, NoRepeats, Growing, Flatten;
    RunLeadersUpcoming(ctx, u, byzantine, calls, committers, schedule, start);
    var st := CommitState({}, 0);
    CommitsOfDecisions(ctx.committee, u, calls, committers, schedule, start, depth, st);
    ViewOfItself(u);
    ViewVerified(ctx, u, u);
    CommittedOnce(u, depth, st, CommittedLeaders(Decisions(ctx.committee, calls, committers, schedule, start)));
  }

  /**
   * Over a whole run causal order is kept: when `x` is committed, everything in its causal history above
   * genesis is committed in an earlier commit or earlier in the same one; with garbage collection, as far
   * as it is less than `depth` rounds below the leader of the commit before.
   */
  lemma RunCausalOrder(
    ctx: Context, u: Dag, byzantine: set<nat>, calls: seq<Call>, committers: seq<Options>, schedule: Schedule, start: Slot,
    depth: nat, k: nat, x: BlockRef, y: BlockRef)
    requires Universe(ctx, u, byzantine) && Growing(u, calls) && OneLeader(committers, schedule)
    requires forall i :: 0 <= i < |calls| ==> Closed(calls[i].view)
    requires k < |CommittedLeaders(Decisions(ctx.committee, calls, committers, schedule, start))|
    requires k < |Commits(ctx.committee, calls, committers, schedule, start, depth, CommitState({}, 0))|
    requires x in Commits(ctx.committee, calls, committers, schedule, start, depth, CommitState({}, 0))[k] && InPast(u, x, y)
    requires var leaders := CommittedLeaders(Decisions(ctx.committee, calls, committers, schedule, start));
      y.round > 0 && (depth == 0 || y.round + depth > RoundBefore(CommitState({}, 0), leaders, k))
    ensures var all := Commits(ctx.committee, calls, committers, schedule, start, depth, CommitState({}, 0));
      (exists j :: 0 <= j < k && y in all[j]) || Earlier(all[k], y, x)
  {
    hide Bft, WellFormed, Closed, OneLeader, Decisions, Commits, CommitAll, Upcoming, Growing, InPast, Earlier;
    if calls == [] {
      NoCommits(ctx.committee, committers, schedule, start, depth, CommitState({}, 0));
    } else {
      RunLeadersUpcoming(ctx, u, byzantine, calls, committers, schedule, start);
      var st, leaders := CommitState({}, 0), CommittedLeaders(Decisions(ctx.committee, calls, committers, schedule, start));
      CommitsOfDecisions(ctx.committee, u, calls, committers, schedule, start, depth, st);
      ViewOfItself(u);
      ViewVerified(ctx, u, u);
      CausalOrder(u, depth, st, leaders, k, x, y);
    }
  }

  /** The leaders of a run, all together, come in the order the linearizer needs. */
  lemma RunLeadersUpcoming(
    ctx: Context, u: Dag, byzantine: set<nat>, calls: seq<Call>, committers: seq<Options>, schedule: Schedule, start: Slot)
    requires Universe(ctx, u, byzantine) && Growing(u, calls) && OneLeader(committers, schedule) && calls != []
    ensures forall i :: 0 <= i < |calls| ==> Closed(calls[i].view)
    ensures Upcoming(u, CommitState({}, 0), CommittedLeaders(Decisions(ctx.committee, calls, committers, schedule, start)))
  {
    hide Bft, WellFormed, Closed, OneLeader, Decisions, DecidedLeaders;
    var final, st := calls[|calls| - 1], CommitState({}, 0);
    RunIsOneCall(ctx, u, byzantine, calls, committers, schedule, start);
    OneLeaderDistinct(committers, schedule);
    LeadersUpcoming(ctx.committee, final.view, committers, schedule, start, final.highest, st);
    var all := DecidedLeaders(ctx.committee, final.view, committers, schedule, start, final.highest);
    CommittedLeadersPrefix(Decisions(ctx.committee, calls, committers, schedule, start), all);
    assert View(final.view, u);
    UpcomingPrefix(final.view, st, CommittedLeaders(Decisions(ctx.committee, calls, committers, schedule, start)), CommittedLeaders(all));
  }
}
