/** From committed leaders to one sequence of committed blocks. */
module Linearizers {
  import opened Sequences
  import opened Committees
  import opened Blocks
  import opened BlockVerifier
  import opened Dags
  import opened CommitRule
  import opened Agreement
  import opened BaseCommitter
  import opened UniversalCommitter
  import opened SubDags

  /** What earlier commits left behind: the blocks they committed and the round of the last leader. */
  datatype CommitState = CommitState(committed: set<BlockRef>, lastRound: nat)

  /** Blocks at or below this round are obsolete; genesis when garbage collection is off (`depth` zero). */
  function GcRound(depth: nat, lastRound: nat): nat {
    if depth > 0 && lastRound > depth then lastRound - depth else GENESIS_ROUND
  }

  function SubDag(d: Dag, depth: nat, st: CommitState, leader: BlockRef): seq<BlockRef>
    requires Closed(d) && leader in d
  {
    SortBlocks(Walk(d, GcRound(depth, st.lastRound), st.committed + {leader}, [leader]).0)
  }

  function After(d: Dag, depth: nat, st: CommitState, leader: BlockRef): CommitState
    requires Closed(d) && leader in d
  {
    CommitState(Walk(d, GcRound(depth, st.lastRound), st.committed + {leader}, [leader]).1, leader.round)
  }

  /** The sub-DAGs of a sequence of leaders. */
  function CommitAll(d: Dag, depth: nat, st: CommitState, leaders: seq<BlockRef>): (r: seq<seq<BlockRef>>)
    requires Closed(d) && forall l :: l in leaders ==> l in d
    ensures |r| == |leaders|
    decreases |leaders|
  {
    if leaders == [] then []
    else [SubDag(d, depth, st, leaders[0])] + CommitAll(d, depth, After(d, depth, st, leaders[0]), leaders[1..])
  }

  function AfterAll(d: Dag, depth: nat, st: CommitState, leaders: seq<BlockRef>): CommitState
    requires Closed(d) && forall l :: l in leaders ==> l in d
    decreases |leaders|
  {
    if leaders == [] then st else AfterAll(d, depth, After(d, depth, st, leaders[0]), leaders[1..])
  }

  /** The committed blocks hold all their causal history above the GC round. */
  ghost predicate Ready(d: Dag, depth: nat, st: CommitState) {
    Closed(d) && DistinctAncestors(d) && DownClosed(d, GcRound(depth, st.lastRound), st.committed)
  }

  /** Leaders to come: distinct, in ascending rounds, not below the last one, and not committed. */
  ghost predicate Upcoming(d: Dag, st: CommitState, leaders: seq<BlockRef>) {
    && (forall i :: 0 <= i < |leaders| ==>
          && leaders[i] in d && leaders[i] !in st.committed
          && GENESIS_ROUND < leaders[i].round && st.lastRound <= leaders[i].round)
    && Ascend(leaders)
  }

  ghost predicate Ascend(leaders: seq<BlockRef>) {
    forall i, j :: 0 <= i < j < |leaders| ==> leaders[i].round <= leaders[j].round && leaders[i] != leaders[j]
  }

  /** Verified DAGs qualify: the verifier allows one ancestor per author, and genesis has none. */
  lemma VerifiedDistinct(ctx: Context, d: Dag)
    requires Verified(ctx, d)
    ensures DistinctAncestors(d)
  {
    forall r | r in d
      ensures NoRepeats(d[r].ancestors)
    {
      assert d[r].ancestors != [] ==> d[r].ancestors[0] in d[r].ancestors;
      assert d[r].ancestors != [] ==> d[r].ancestors[0].round < r.round;
    }
  }

  /** Every view of a verified universe qualifies. */
  lemma ViewVerified(ctx: Context, v: Dag, u: Dag)
    requires Verified(ctx, u) && View(v, u)
    ensures Closed(v) && DistinctAncestors(v)
  {
    VerifiedDistinct(ctx, u);
  }

  /** Accepting more blocks between commits disturbs nothing. */
  lemma ReadyInLarger(v: Dag, w: Dag, depth: nat, st: CommitState)
    requires Ready(v, depth, st) && View(v, w) && Closed(w) && DistinctAncestors(w)
    ensures Ready(w, depth, st)
  {
    var gc := GcRound(depth, st.lastRound);
    forall r | r in st.committed
      ensures r in w && AncestorsMarked(w, gc, st.committed, r)
    {
      assert AncestorsMarked(v, gc, st.committed, r);
    }
  }

  // ----- one commit

  /**
   * A leader's sub-DAG is its uncommitted causal history without genesis, sorted, each block once; with
   * garbage collection, as far as it is less than `depth` rounds below the last leader.
   */
  lemma SubDagExact(d: Dag, depth: nat, st: CommitState, leader: BlockRef)
    requires Ready(d, depth, st) && leader in d && leader !in st.committed
    requires leader.round > 0 && (depth == 0 || leader.round + depth > st.lastRound)
    ensures var s := SubDag(d, depth, st, leader);
            && NoRepeats(s) && Sorted(s)
            && (forall y :: y in s <==>
                  && AtOrBelow(d, leader, y) && y !in st.committed
                  && y.round > 0 && (depth == 0 || y.round + depth > st.lastRound))
            && After(d, depth, st, leader).committed == st.committed + Elements(s)
            && DownClosed(d, GcRound(depth, st.lastRound), After(d, depth, st, leader).committed)
  {
    hide InPast, AncestorsMarked, Walk, SortBlocks, NoRepeats, Sorted;
    var order := Walk(d, GcRound(depth, st.lastRound), st.committed + {leader}, [leader]).0;
    WalkExact(d, GcRound(depth, st.lastRound), st.committed, leader);
    SortedKeeps(order);
    assert Elements(SortBlocks(order)) == Elements(order);
  }

  /** After a commit the next one starts from the same kind of state. */
  lemma CommitStep(d: Dag, depth: nat, st: CommitState, leaders: seq<BlockRef>)
    requires Ready(d, depth, st) && leaders != [] && Upcoming(d, st, leaders)
    ensures leaders[0].round > 0 && (depth == 0 || leaders[0].round + depth > st.lastRound)
    ensures Ready(d, depth, After(d, depth, st, leaders[0]))
    ensures Upcoming(d, After(d, depth, st, leaders[0]), leaders[1..])
  {
    hide InPast, Walk, SortBlocks, NoRepeats, Sorted, DownClosed;
    var leader := leaders[0];
    SubDagExact(d, depth, st, leader);
    var next := After(d, depth, st, leader);
    DownClosedLater(d, GcRound(depth, st.lastRound), GcRound(depth, leader.round), next.committed);
    forall i | 0 <= i < |leaders[1..]|
      ensures leaders[1..][i] !in next.committed
    {
      NotBelow(d, leader, leaders[i + 1]);
    }
  }

  /** A block of the same or a later round is not in a block's causal history. */
  lemma NotBelow(d: Dag, x: BlockRef, y: BlockRef)
    requires Closed(d) && x != y && x.round <= y.round
    ensures !AtOrBelow(d, x, y)
  {
    if InPast(d, x, y) {
      PastLower(d, x, y);
      assert false;
    }
  }

  // ----- whole runs

  /** No block is ever committed twice, over any sequence of leaders. */
  lemma {:induction false} CommittedOnce(d: Dag, depth: nat, st: CommitState, leaders: seq<BlockRef>)
    requires Ready(d, depth, st) && Upcoming(d, st, leaders)
    ensures NoRepeats(Flatten(CommitAll(d, depth, st, leaders)))
    ensures forall r :: r in Flatten(CommitAll(d, depth, st, leaders)) ==> r !in st.committed
    decreases |leaders|
  {
    if leaders == [] {
    } else {
      hide NoRepeats, Sorted, Closed, DistinctAncestors, DownClosed, Upcoming, AtOrBelow, SubDag, After;
      LeadersKnown(d, st, leaders);
      CommitStep(d, depth, st, leaders);
      SubDagExact(d, depth, st, leaders[0]);
      var next := After(d, depth, st, leaders[0]);
      CommittedOnce(d, depth, next, leaders[1..]);
      AppendNoRepeats(SubDag(d, depth, st, leaders[0]), Flatten(CommitAll(d, depth, next, leaders[1..])));
    }
  }

  lemma LeadersKnown(d: Dag, st: CommitState, leaders: seq<BlockRef>)
    requires Upcoming(d, st, leaders)
    ensures forall l :: l in leaders ==> l in d && l !in st.committed
  {
  }

  /** `y` stands before `x` in `s`. */
  ghost predicate Earlier(s: seq<BlockRef>, y: BlockRef, x: BlockRef) {
    exists i, j :: 0 <= i < j < |s| && s[i] == y && s[j] == x
  }

  lemma LowerIsEarlier(s: seq<BlockRef>, y: BlockRef, x: BlockRef)
    requires Sorted(s) && x in s && y in s && y.round < x.round
    ensures Earlier(s, y, x)
  {
    var i :| 0 <= i < |s| && s[i] == y;
    var j :| 0 <= j < |s| && s[j] == x;
  }

  /** The round of the leader committed before position `k`. */
  function RoundBefore(st: CommitState, leaders: seq<BlockRef>, k: nat): nat
    requires k <= |leaders|
  {
    if k == 0 then st.lastRound else leaders[k - 1].round
  }

  /**
   * Causal order: when `x` is committed, everything in its causal history above genesis has been
   * committed before, in an earlier commit or earlier in the same one; with garbage collection, as far
   * as it is less than `depth` rounds below the leader of the commit before.
   */
  lemma {:induction false} CausalOrder(
    d: Dag, depth: nat, st: CommitState, leaders: seq<BlockRef>, k: nat, x: BlockRef, y: BlockRef)
    requires Ready(d, depth, st) && Upcoming(d, st, leaders) && k < |leaders|
    requires x in CommitAll(d, depth, st, leaders)[k] && InPast(d, x, y)
    requires y.round > 0 && (depth == 0 || y.round + depth > RoundBefore(st, leaders, k))
    ensures var all := CommitAll(d, depth, st, leaders);
            || y in st.committed
            || (exists j :: 0 <= j < k && y in all[j])
            || Earlier(all[k], y, x)
    decreases k
  {
    hide NoRepeats, Sorted, Closed, DistinctAncestors, DownClosed, Upcoming, InPast, SubDag, After, Earlier;
    LeadersKnown(d, st, leaders);
    CommitStep(d, depth, st, leaders);
    SubDagExact(d, depth, st, leaders[0]);
    var next, all := After(d, depth, st, leaders[0]), CommitAll(d, depth, st, leaders);
    PastLower(d, x, y);
    if k == 0 {
      DownClosedPast(d, GcRound(depth, st.lastRound), next.committed, x, y);
      if y !in st.committed {
        LowerIsEarlier(all[0], y, x);
      }
    } else {
      NextRound(d, depth, st, leaders, k);
      CausalOrder(d, depth, next, leaders[1..], k - 1, x, y);
      var rest := CommitAll(d, depth, next, leaders[1..]);
      assert all[1..] == rest;
      if y in next.committed && y !in st.committed {
        assert y in all[0];
      } else if exists j :: 0 <= j < k - 1 && y in rest[j] {
        var j :| 0 <= j < k - 1 && y in rest[j];
        assert y in all[j + 1];
      }
    }
  }

  lemma NextRound(d: Dag, depth: nat, st: CommitState, leaders: seq<BlockRef>, k: nat)
    requires Closed(d) && 0 < k <= |leaders| && leaders[0] in d
    ensures RoundBefore(After(d, depth, st, leaders[0]), leaders[1..], k - 1) == RoundBefore(st, leaders, k)
  {
  }

  // ----- agreement

  /** The sub-DAGs depend only on the leaders' causal history, so a view and the universe commit alike. */
  lemma {:induction false} CommitAllLocal(v: Dag, u: Dag, depth: nat, st: CommitState, leaders: seq<BlockRef>)
    requires View(v, u) && Closed(u) && forall l :: l in leaders ==> l in v
    ensures forall l :: l in leaders ==> l in u
    ensures CommitAll(v, depth, st, leaders) == CommitAll(u, depth, st, leaders)
    decreases |leaders|
  {
    if leaders == [] {
    } else {
      WalkLocal(v, u, GcRound(depth, st.lastRound), st.committed + {leaders[0]}, [leaders[0]]);
      CommitAllLocal(v, u, depth, After(v, depth, st, leaders[0]), leaders[1..]);
    }
  }

  lemma {:induction false} CommitAllPrefix(u: Dag, depth: nat, st: CommitState, p: seq<BlockRef>, q: seq<BlockRef>)
    requires Closed(u) && p <= q && forall l :: l in q ==> l in u
    ensures (forall l :: l in p ==> l in u) && CommitAll(u, depth, st, p) <= CommitAll(u, depth, st, q)
    decreases |p|
  {
    if p == [] {
    } else {
      CommitAllPrefix(u, depth, After(u, depth, st, p[0]), p[1..], q[1..]);
    }
  }

  /** The leaders among decided statuses. */
  function CommittedLeaders(statuses: seq<LeaderStatus>): seq<BlockRef> {
    if statuses == [] then []
    else (if statuses[0].Commit? then [statuses[0].block] else []) + CommittedLeaders(statuses[1..])
  }

  predicate IsCommit(s: LeaderStatus) { s.Commit? }

  predicate CommitOf(s: LeaderStatus, b: BlockRef) { s == Commit(b) }

  /** The blocks of the committed statuses, all of them, in order. */
  lemma {:induction false} CommittedLeadersExact(statuses: seq<LeaderStatus>) returns (at: seq<nat>)
    ensures Selects(statuses, IsCommit, at) && Picks(statuses, CommitOf, at, CommittedLeaders(statuses))
  {
    if statuses == [] {
      at := [];
    } else {
      hide Selects, Picks, MovedUp;
      var rest := CommittedLeadersExact(statuses[1..]);
      var first := if statuses[0].Commit? then [statuses[0].block] else [];
      SelectsOneMore(statuses, IsCommit, rest);
      PicksOneMore(statuses, CommitOf, rest, CommittedLeaders(statuses[1..]), first);
      at := MovedUp(rest, statuses[0].Commit?);
    }
  }

  lemma {:induction false} CommittedLeadersPrefix(s: seq<LeaderStatus>, t: seq<LeaderStatus>)
    requires s <= t
    ensures CommittedLeaders(s) <= CommittedLeaders(t)
  {
    if s == [] {
    } else {
      var head := if s[0].Commit? then [s[0].block] else [];
      CommittedLeadersPrefix(s[1..], t[1..]);
      assert t[0] == s[0];
      assert CommittedLeaders(s) == head + CommittedLeaders(s[1..]);
      assert CommittedLeaders(t) == head + CommittedLeaders(t[1..]);
    }
  }

  lemma {:induction false} LeadersInView(v: Dag, statuses: seq<LeaderStatus>)
    requires forall s :: s in statuses ==> s.Commit? ==> s.block in v
    ensures forall l :: l in CommittedLeaders(DecidedPrefix(statuses)) ==> l in v && l.round > GENESIS_ROUND
  {
    if statuses == [] {
    } else {
      assert statuses[0] in statuses;
      LeadersInView(v, statuses[1..]);
    }
  }

  /** The leaders that a view commits after `lastDecided`. */
  ghost function LeadersOf(
    c: Committee, v: Dag, committers: seq<Options>, schedule: Schedule, lastDecided: Slot, highest: nat): (r: seq<BlockRef>)
    requires Closed(v)
    ensures forall l :: l in r ==> l in v && l.round > GENESIS_ROUND
  {
    var slots := Slots(committers, schedule, lastDecided.round + 1, EndRound(highest));
    DecideSound(c, v, slots);
    LeadersInView(v, Decide(c, v, slots));
    CommittedLeaders(DecidedLeaders(c, v, committers, schedule, lastDecided, highest))
  }

  /**
   * Total order. Any two authorities that start from the same commit produce sequences of committed
   * sub-DAGs, blocks and order included, one of which continues the other.
   */
  lemma CommitsAgree(
    ctx: Context, u: Dag, byzantine: set<nat>, v: Dag, w: Dag, committers: seq<Options>, schedule: Schedule,
    lastDecided: Slot, highestV: nat, highestW: nat, depth: nat, st: CommitState)
    requires Universe(ctx, u, byzantine) && View(v, u) && View(w, u)
    ensures var s := CommitAll(v, depth, st, LeadersOf(ctx.committee, v, committers, schedule, lastDecided, highestV));
            var t := CommitAll(w, depth, st, LeadersOf(ctx.committee, w, committers, schedule, lastDecided, highestW));
            s <= t || t <= s
  {
    hide Bft, Closed, WellFormed, DecidedLeaders, CommitAll;
    var p := LeadersOf(ctx.committee, v, committers, schedule, lastDecided, highestV);
    var q := LeadersOf(ctx.committee, w, committers, schedule, lastDecided, highestW);
    var dv := DecidedLeaders(ctx.committee, v, committers, schedule, lastDecided, highestV);
    var dw := DecidedLeaders(ctx.committee, w, committers, schedule, lastDecided, highestW);
    DecidedSequencesAgree(ctx, u, byzantine, v, w, committers, schedule, lastDecided, highestV, highestW);
    CommitAllLocal(v, u, depth, st, p);
    CommitAllLocal(w, u, depth, st, q);
    if dv <= dw {
      CommittedLeadersPrefix(dv, dw);
      CommitAllPrefix(u, depth, st, p, q);
    } else {
      CommittedLeadersPrefix(dw, dv);
      CommitAllPrefix(u, depth, st, q, p);
    }
  }

  // ----- decided leaders come in an order that the linearizer accepts

  /** Committers that lead the same round elect different authorities. */
  ghost predicate DistinctLeaders(committers: seq<Options>, schedule: Schedule) {
    forall i, j, round: nat :: 0 <= i < j < |committers| && committers[i].Leads(round) && committers[j].Leads(round) ==>
      schedule(round, committers[i].leaderOffset) != schedule(round, committers[j].leaderOffset)
  }

  ghost predicate SlotsAscend(slots: seq<Slot>) {
    forall i, j :: 0 <= i < j < |slots| ==> slots[i].round <= slots[j].round && slots[i] != slots[j]
  }

  /** One of the committers from position `i` on elects `authority` for `round`. */
  ghost predicate LedFrom(committers: seq<Options>, schedule: Schedule, round: nat, i: nat, authority: nat) {
    exists j ::
      && i <= j < |committers| && committers[j].Leads(round)
      && authority == schedule(round, committers[j].leaderOffset)
  }

  lemma LedApart(committers: seq<Options>, schedule: Schedule, round: nat, i: nat, authority: nat)
    requires DistinctLeaders(committers, schedule) && i < |committers|
    requires LedFrom(committers, schedule, round, i + 1, authority)
    ensures LedFrom(committers, schedule, round, i, authority)
    ensures committers[i].Leads(round) ==> authority != schedule(round, committers[i].leaderOffset)
  {
    hide Options.Leads;
  }

  lemma LedBy(committers: seq<Options>, schedule: Schedule, round: nat, i: nat)
    requires i < |committers| && committers[i].Leads(round)
    ensures LedFrom(committers, schedule, round, i, schedule(round, committers[i].leaderOffset))
  {
    hide Options.Leads;
  }

  lemma PrependSlot(slot: Slot, rest: seq<Slot>)
    requires SlotsAscend(rest) && forall s :: s in rest ==> slot.round <= s.round && slot != s
    ensures SlotsAscend([slot] + rest)
  {
  }

  lemma {:induction false} RoundInOrder(committers: seq<Options>, schedule: Schedule, round: nat, i: nat)
    requires DistinctLeaders(committers, schedule) && i <= |committers|
    ensures SlotsAscend(SlotsOfRound(committers, schedule, round, i))
    ensures forall s :: s in SlotsOfRound(committers, schedule, round, i) ==>
              s.round == round && LedFrom(committers, schedule, round, i, s.authority)
    decreases |committers| - i
  {
    if i >= |committers| {
    } else {
      hide Options.Leads, DistinctLeaders, SlotsAscend, LedFrom;
      RoundInOrder(committers, schedule, round, i + 1);
      var rest := SlotsOfRound(committers, schedule, round, i + 1);
      forall s | s in rest
        ensures LedFrom(committers, schedule, round, i, s.authority)
        ensures committers[i].Leads(round) ==> s.authority != schedule(round, committers[i].leaderOffset)
      {
        LedApart(committers, schedule, round, i, s.authority);
      }
      if committers[i].Leads(round) {
        PrependSlot(Slot(round, schedule(round, committers[i].leaderOffset)), rest);
        LedBy(committers, schedule, round, i);
      }
    }
  }

  lemma {:induction false} SlotsInOrder(committers: seq<Options>, schedule: Schedule, lo: nat, hi: nat)
    requires DistinctLeaders(committers, schedule)
    ensures SlotsAscend(Slots(committers, schedule, lo, hi))
    ensures forall s :: s in Slots(committers, schedule, lo, hi) ==> lo <= s.round
    decreases hi - lo
  {
    if lo >= hi {
    } else {
      RoundInOrder(committers, schedule, lo, 0);
      SlotsInOrder(committers, schedule, lo + 1, hi);
    }
  }

  lemma PrependLeader(slots: seq<Slot>, l: BlockRef, rest: seq<BlockRef>)
    requires slots != [] && SlotsAscend(slots) && l.ToSlot() == slots[0]
    requires Ascend(rest) && forall r :: r in rest ==> r.ToSlot() in slots[1..]
    ensures Ascend([l] + rest)
  {
    forall j | 0 <= j < |rest|
      ensures l.round <= rest[j].round && l != rest[j]
    {
      var k :| 0 <= k < |slots[1..]| && slots[1..][k] == rest[j].ToSlot();
      assert slots[0].round <= slots[k + 1].round && slots[0] != slots[k + 1];
    }
  }

  /** Committed leaders keep the order of their slots. */
  lemma {:induction false} LeadersInOrder(v: Dag, slots: seq<Slot>, statuses: seq<LeaderStatus>)
    requires Sound(v, slots, statuses) && SlotsAscend(slots)
    ensures var leaders := CommittedLeaders(DecidedPrefix(statuses));
            Ascend(leaders) && forall l :: l in leaders ==> l.ToSlot() in slots && l.round > GENESIS_ROUND
  {
    if statuses == [] {
    } else {
      assert statuses[0].ToSlot() == slots[0];
      assert slots == [slots[0]] + slots[1..];
      TailSound(v, slots, statuses);
      hide Ascend, SlotsAscend, Sound;
      LeadersInOrder(v, slots[1..], statuses[1..]);
      if statuses[0].Commit? {
        var rest := DecidedPrefix(statuses[1..]);
        assert ([statuses[0]] + rest)[1..] == rest;
        PrependLeader(slots, statuses[0].block, CommittedLeaders(rest));
      }
    }
  }

  lemma TailSound(v: Dag, slots: seq<Slot>, statuses: seq<LeaderStatus>)
    requires Sound(v, slots, statuses) && SlotsAscend(slots) && slots != []
    ensures Sound(v, slots[1..], statuses[1..]) && SlotsAscend(slots[1..])
  {
  }

  /** What a view decides after `lastDecided` is what the linearizer expects next. */
  lemma LeadersUpcoming(
    c: Committee, v: Dag, committers: seq<Options>, schedule: Schedule, lastDecided: Slot, highest: nat, st: CommitState)
    requires Closed(v) && DistinctLeaders(committers, schedule)
    requires st.lastRound <= lastDecided.round && forall r :: r in st.committed ==> r.round <= lastDecided.round
    ensures Upcoming(v, st, LeadersOf(c, v, committers, schedule, lastDecided, highest))
  {
    hide Closed, Slots, Decide, DistinctLeaders, DecidedPrefix;
    var slots := Slots(committers, schedule, lastDecided.round + 1, EndRound(highest));
    SlotsInOrder(committers, schedule, lastDecided.round + 1, EndRound(highest));
    DecideSound(c, v, slots);
    LeadersInOrder(v, slots, Decide(c, v, slots));
  }

  // ----- the linearizer

  datatype Outcome = Panic | Done(blocks: seq<BlockRef>)

  class Linearizer {
    const depth: nat
    var dag: Dag
    var committed: set<BlockRef>
    var lastRound: nat

    ghost function State(): CommitState
      reads this
    {
      CommitState(committed, lastRound)
    }

    constructor (gcDepth: nat, d: Dag)
      requires Closed(d) && DistinctAncestors(d)
      ensures depth == gcDepth && dag == d && committed == {} && lastRound == 0
      ensures Ready(dag, depth, State())
    {
      depth, dag, committed, lastRound := gcDepth, d, {}, 0;
    }

    /** More blocks have been accepted since the last commit. */
    method Grow(d: Dag)
      requires Ready(dag, depth, State()) && View(dag, d) && Closed(d) && DistinctAncestors(d)
      modifies this`dag
      ensures dag == d && Ready(dag, depth, State())
    {
      ReadyInLarger(dag, d, depth, State());
      dag := d;
    }

    /** Says whether the block was not committed before. */
    method SetCommitted(r: BlockRef) returns (first: bool)
      modifies this`committed
      ensures first <==> r !in old(committed)
      ensures committed == old(committed) + {r}
    {
      first := r !in committed;
      committed := committed + {r};
    }

    method PushAll(buffer: seq<BlockRef>, refs: seq<BlockRef>) returns (ok: bool, all: seq<BlockRef>)
      requires NoRepeats(refs) && forall r :: r in refs ==> r !in committed
      modifies this`committed
      ensures ok && all == buffer + refs && committed == old(committed) + Elements(refs)
    {
      all := buffer;
      for i := 0 to |refs|
        invariant all == buffer + refs[..i] && committed == old(committed) + Elements(refs[..i])
      {
        all := all + [refs[i]];
        assert refs[..i + 1] == refs[..i] + [refs[i]];
        assert refs[i] !in refs[..i];
        var first := SetCommitted(refs[i]);
        if !first {
          return false, all;
        }
      }
      assert refs[..|refs|] == refs;
      ok := true;
    }

    /** Empties the buffer: pops a block, and pushes and marks what is new among its ancestors. */
    method Collect(gc: nat, leader: BlockRef) returns (toCommit: seq<BlockRef>)
      requires Closed(dag) && DistinctAncestors(dag) && leader in dag && leader in committed
      modifies this`committed
      ensures (toCommit, committed) == Walk(dag, gc, old(committed), [leader])
    {
      hide NoRepeats, Uncommitted, Closed;
      ghost var whole := Walk(dag, gc, committed, [leader]);
      var buffer := [leader];
      toCommit := [];
      OneElement(leader);
      assert toCommit + whole.0 == whole.0;
      while buffer != []
        invariant forall r :: r in buffer ==> r in dag && r in committed
        invariant NoRepeats(buffer)
        invariant whole.0 == toCommit + Walk(dag, gc, committed, buffer).0
        invariant whole.1 == Walk(dag, gc, committed, buffer).1
        decreases dag.Keys - committed, |buffer|
      {
        var x := buffer[|buffer| - 1];
        assert x in buffer;
        var ancestors := Uncommitted(dag[x].ancestors, gc, committed);
        UncommittedNoRepeats(dag[x].ancestors, gc, committed);
        PushNoRepeats(buffer, ancestors);
        AncestorsKnown(dag, x);
        assert ancestors != [] ==> ancestors[0] in dag.Keys - committed;
        ghost var order := Walk(dag, gc, committed + Elements(ancestors), buffer[..|buffer| - 1] + ancestors).0;
        assert toCommit + ([x] + order) == (toCommit + [x]) + order;
        toCommit := toCommit + [x];
        var ok;
        ok, buffer := PushAll(buffer[..|buffer| - 1], ancestors);
      }
      assert toCommit + [] == toCommit;
    }

    static lemma OneElement(r: BlockRef)
      ensures NoRepeats([r])
    {
    }

    static lemma AncestorsKnown(d: Dag, x: BlockRef)
      requires Closed(d) && x in d
      ensures forall a :: a in d[x].ancestors ==> a in d
    {
    }

    /**
     * Panics exactly when the leader was committed before, or garbage collection is on and the leader is
     * genesis or `depth` rounds below the last one; otherwise gives the leader's sub-DAG and marks it
     * committed.
     */
    method LinearizeSubDag(leader: BlockRef) returns (o: Outcome)
      requires Closed(dag) && DistinctAncestors(dag) && leader in dag
      modifies this`committed
      ensures o.Panic? <==>
        leader in old(committed) || (depth > 0 && (leader.round == 0 || leader.round + depth <= lastRound))
      ensures o.Done? ==> o.blocks == SubDag(dag, depth, old(State()), leader)
      ensures o.Done? ==> committed == After(dag, depth, old(State()), leader).committed
      ensures o.Done? && Ready(dag, depth, old(State())) && leader.round > 0 ==>
        && Sorted(o.blocks) && NoRepeats(o.blocks) && committed == old(committed) + Elements(o.blocks)
        && forall y :: y in o.blocks <==>
             && AtOrBelow(dag, leader, y) && y !in old(committed)
             && y.round > 0 && (depth == 0 || y.round + depth > lastRound)
    {
      hide NoRepeats, Closed, DistinctAncestors, DownClosed, Walk, SortBlocks, InPast, Sorted;
      var gc := GcRound(depth, lastRound);
      var first := SetCommitted(leader);
      if !first {
        return Panic;
      }
      ghost var marked := committed;
      OneElement(leader);
      WalkListsOnce(dag, gc, marked, [leader]);
      WalkStaysBelow(dag, gc, marked, [leader], leader);
      var toCommit := Collect(gc, leader);
      assert leader in toCommit;
      if depth > 0 && exists r :: r in toCommit && r.round <= gc {
        return Panic;
      }
      if Ready(dag, depth, old(State())) && leader.round > 0 {
        SubDagExact(dag, depth, old(State()), leader);
      }
      return Done(SortBlocks(toCommit));
    }

    /**
     * Expands committed leaders into sub-DAGs. Leaders in the order of their slots never panic, and the
     * result depends only on the leaders, the state, and the DAG below the leaders.
     */
    method HandleCommit(leaders: seq<BlockRef>) returns (panicked: bool, subDags: seq<seq<BlockRef>>)
      requires Ready(dag, depth, State()) && Upcoming(dag, State(), leaders)
      modifies this`committed, this`lastRound
      ensures !panicked && Ready(dag, depth, State())
      ensures (forall l :: l in leaders ==> l in dag) && subDags == CommitAll(dag, depth, old(State()), leaders)
      ensures State() == AfterAll(dag, depth, old(State()), leaders)
    {
      hide NoRepeats, Closed, DistinctAncestors, DownClosed, SubDag, After, Upcoming;
      subDags := [];
      panicked := false;
      LeadersKnown(dag, State(), leaders);
      ghost var whole := CommitAll(dag, depth, State(), leaders);
      assert leaders[0..] == leaders && subDags + whole == whole;
      var i := 0;
      while i < |leaders|
        invariant 0 <= i <= |leaders| && Ready(dag, depth, State()) && Upcoming(dag, State(), leaders[i..])
        invariant whole == subDags + CommitAll(dag, depth, State(), leaders[i..])
        invariant AfterAll(dag, depth, old(State()), leaders) == AfterAll(dag, depth, State(), leaders[i..])
      {
        ghost var st, rest := State(), leaders[i..];
        assert rest[1..] == leaders[i + 1..] && rest[0] == leaders[i];
        LeadersKnown(dag, st, rest);
        CommitStep(dag, depth, st, rest);
        var o := LinearizeSubDag(leaders[i]);
        if o.Panic? {
          return true, subDags;
        }
        lastRound := leaders[i].round;
        LastRoundAfter(dag, depth, st, leaders[i]);
        ghost var more := CommitAll(dag, depth, State(), leaders[i + 1..]);
        assert subDags + ([o.blocks] + more) == (subDags + [o.blocks]) + more;
        subDags := subDags + [o.blocks];
        i := i + 1;
      }
      assert subDags + [] == subDags;
    }

    static lemma LastRoundAfter(d: Dag, depth: nat, st: CommitState, leader: BlockRef)
      requires Closed(d) && leader in d
      ensures After(d, depth, st, leader).lastRound == leader.round
    {
    }
  }
}
