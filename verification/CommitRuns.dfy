/** Whole runs of an authority: many calls, each from the last leader decided before. */
module CommitRuns {
  import opened Committees
  import opened Blocks
  import opened BlockVerifier
  import opened Dags
  import opened CommitRule
  import opened Agreement
  import opened BaseCommitter
  import opened UniversalCommitter
  import opened Linearizers

  /** At most one leader slot per round, as in the shipped configuration. */
  ghost predicate OneLeader(committers: seq<Options>, schedule: Schedule) {
    forall round: nat :: |SlotsOfRound(committers, schedule, round, 0)| <= 1
  }

  /** A pipeline of one committer per wave position, each with one leader, has one leader per round. */
  lemma PipelineHasOneLeader(schedule: Schedule)
    ensures OneLeader([Options(0, 0), Options(0, 1), Options(0, 2)], schedule)
  {
    var committers := [Options(0, 0), Options(0, 1), Options(0, 2)];
    forall round: nat
      ensures |SlotsOfRound(committers, schedule, round, 0)| <= 1
    {
      hide ElectLeader;
      assert |SlotsOfRound(committers, schedule, round, 3)| == 0;
      assert |SlotsOfRound(committers, schedule, round, 2)| <= if round % 3 == 2 then 1 else 0;
      assert |SlotsOfRound(committers, schedule, round, 1)| <= if round % 3 == 0 then 0 else 1;
    }
  }

  // ----- one call continues another

  lemma {:induction false} SlotsSplit(committers: seq<Options>, schedule: Schedule, lo: nat, mid: nat, hi: nat)
    requires lo <= mid <= hi
    ensures Slots(committers, schedule, lo, hi)
         == Slots(committers, schedule, lo, mid) + Slots(committers, schedule, mid, hi)
    decreases mid - lo
  {
    if lo == mid {
      assert Slots(committers, schedule, lo, mid) == [];
    } else {
      SlotsSplit(committers, schedule, lo + 1, mid, hi);
    }
  }

  /** The slots of a range are the slots of its rounds. */
  lemma {:induction false} SlotsRounds(committers: seq<Options>, schedule: Schedule, lo: nat, hi: nat, s: Slot)
    requires s in Slots(committers, schedule, lo, hi)
    ensures lo <= s.round < hi && s in SlotsOfRound(committers, schedule, s.round, 0)
    decreases hi - lo
  {
    if s in SlotsOfRound(committers, schedule, lo, 0) {
      RoundOfSlots(committers, schedule, lo, 0, s);
    } else {
      SlotsRounds(committers, schedule, lo + 1, hi, s);
    }
  }

  lemma {:induction false} RoundOfSlots(committers: seq<Options>, schedule: Schedule, round: nat, i: nat, s: Slot)
    requires i <= |committers| && s in SlotsOfRound(committers, schedule, round, i)
    ensures s.round == round
    decreases |committers| - i
  {
    if ElectLeader(committers[i], schedule, round) == Some(s) {
    } else {
      RoundOfSlots(committers, schedule, round, i + 1, s);
    }
  }

  /** With one leader per round, the slots up to a slot's round end with that slot. */
  lemma LastOfItsRound(committers: seq<Options>, schedule: Schedule, lo: nat, hi: nat, s: Slot)
    requires OneLeader(committers, schedule) && s in Slots(committers, schedule, lo, hi)
    ensures lo <= s.round < hi
    ensures var front := Slots(committers, schedule, lo, s.round + 1);
      front != [] && front[|front| - 1] == s
  {
    SlotsRounds(committers, schedule, lo, hi, s);
    SlotsSplit(committers, schedule, lo, s.round, s.round + 1);
    OneRound(committers, schedule, s.round);
    hide Slots, SlotsOfRound;
    var here := SlotsOfRound(committers, schedule, s.round, 0);
    assert |here| <= 1;
    assert here == [s];
  }

  lemma OneRound(committers: seq<Options>, schedule: Schedule, round: nat)
    ensures Slots(committers, schedule, round, round + 1) == SlotsOfRound(committers, schedule, round, 0)
  {
    assert Slots(committers, schedule, round + 1, round + 1) == [];
  }

  /** Later slots are decided without the earlier ones. */
  lemma {:induction false} DecideSuffix(c: Committee, d: Dag, front: seq<Slot>, back: seq<Slot>)
    requires Closed(d)
    ensures Decide(c, d, front + back)[|front|..] == Decide(c, d, back)
  {
    if front == [] {
      assert front + back == back;
    } else {
      hide DecideSlot;
      assert (front + back)[1..] == front[1..] + back;
      DecideSuffix(c, d, front[1..], back);
      var later := Decide(c, d, front[1..] + back);
      assert Decide(c, d, front + back)[1..] == later;
      assert Decide(c, d, front + back)[|front|..] == later[|front| - 1..];
    }
  }

  ghost predicate DistinctSlots(statuses: seq<LeaderStatus>) {
    && (forall i :: 0 <= i < |statuses| ==> statuses[i].Round() > GENESIS_ROUND)
    && (forall i, j :: 0 <= i < j < |statuses| ==> statuses[i].ToSlot() != statuses[j].ToSlot())
  }

  lemma {:induction false} PrefixSlots(statuses: seq<LeaderStatus>, s: LeaderStatus)
    requires s in DecidedPrefix(statuses)
    ensures s in statuses
  {
    if statuses == [] {
    } else {
      assert statuses == [statuses[0]] + statuses[1..];
      if s != statuses[0] {
        PrefixSlots(statuses[1..], s);
      }
    }
  }

  /** If `p` is decided and ends with the last status of `x`, then all of `x` is decided, and is `p`. */
  lemma {:induction false} CutPrefix(x: seq<LeaderStatus>, y: seq<LeaderStatus>, p: seq<LeaderStatus>)
    requires x != [] && p != [] && DistinctSlots(x + y) && p <= DecidedPrefix(x + y)
    requires p[|p| - 1].ToSlot() == x[|x| - 1].ToSlot()
    ensures DecidedPrefix(x + y) == p + DecidedPrefix(y)
  {
    var rest := x[1..] + y;
    assert (x + y)[0] == x[0] && (x + y)[1..] == rest;
    assert x[0].Round() > GENESIS_ROUND;
    assert DecidedPrefix(x + y) == [x[0]] + DecidedPrefix(rest);
    assert p[0] == x[0] && p[1..] <= DecidedPrefix(rest);
    DistinctTail(x + y);
    if |x| == 1 {
      assert rest == y;
      if |p| > 1 {
        SlotElsewhere(x + y, p[|p| - 1]);
      }
      assert p == [x[0]];
    } else {
      assert (x + y)[|x| - 1] == x[|x| - 1];
      assert p == [p[0]] + p[1..];
      CutPrefix(x[1..], y, p[1..]);
    }
  }

  lemma DistinctTail(s: seq<LeaderStatus>)
    requires s != [] && DistinctSlots(s)
    ensures DistinctSlots(s[1..])
  {
  }

  /** A status decided after the first one is of another slot. */
  lemma SlotElsewhere(s: seq<LeaderStatus>, t: LeaderStatus)
    requires s != [] && DistinctSlots(s) && t in DecidedPrefix(s[1..])
    ensures t.ToSlot() != s[0].ToSlot()
  {
    PrefixSlots(s[1..], t);
    var k :| 0 <= k < |s[1..]| && s[1..][k] == t;
    assert s[k + 1] == t;
  }

  /**
   * With one leader per round, whatever a view has decided, deciding on from the last of it gives the
   * rest of what it decides in one call.
   */
  lemma CallsContinue(
    c: Committee, w: Dag, committers: seq<Options>, schedule: Schedule, last: Slot, highest: nat, p: seq<LeaderStatus>)
    requires Closed(w) && OneLeader(committers, schedule) && p != []
    requires p <= DecidedLeaders(c, w, committers, schedule, last, highest)
    ensures DecidedLeaders(c, w, committers, schedule, last, highest)
         == p + DecidedLeaders(c, w, committers, schedule, p[|p| - 1].ToSlot(), highest)
  {
    hide Closed, Decide, Slots, DecidedPrefix, OneLeader;
    var lo, hi, slot := last.round + 1, EndRound(highest), p[|p| - 1].ToSlot();
    var slots := Slots(committers, schedule, lo, hi);
    var all := Decide(c, w, slots);
    DecidedSlots(c, w, slots, p[|p| - 1]);
    LastOfItsRound(committers, schedule, lo, hi, slot);
    SlotsSplit(committers, schedule, lo, slot.round + 1, hi);
    var front, back := Slots(committers, schedule, lo, slot.round + 1), Slots(committers, schedule, slot.round + 1, hi);
    DecideSuffix(c, w, front, back);
    DecideSound(c, w, slots);
    OneLeaderDistinct(committers, schedule);
    SlotsInOrder(committers, schedule, lo, hi);
    StatusesDistinct(w, slots, all);
    assert all == all[..|front|] + all[|front|..];
    assert all[|front| - 1].ToSlot() == slots[|front| - 1] == front[|front| - 1];
    CutPrefix(all[..|front|], all[|front|..], p);
  }

  lemma DecidedSlots(c: Committee, w: Dag, slots: seq<Slot>, s: LeaderStatus)
    requires Closed(w) && s in DecidedPrefix(Decide(c, w, slots))
    ensures s.ToSlot() in slots
  {
    hide Decide, DecidedPrefix;
    PrefixSlots(Decide(c, w, slots), s);
    DecideSound(c, w, slots);
  }

  lemma OneLeaderDistinct(committers: seq<Options>, schedule: Schedule)
    requires OneLeader(committers, schedule)
    ensures DistinctLeaders(committers, schedule)
  {
    hide Options.Leads, SlotsOfRound;
    if !DistinctLeaders(committers, schedule) {
      var i, j, round: nat :| 0 <= i < j < |committers| && committers[i].Leads(round) && committers[j].Leads(round);
      SlotsCount(committers, schedule, round, 0, i, j);
    }
  }

  /** Two committers that lead a round give it two slots. */
  lemma {:induction false} SlotsCount(committers: seq<Options>, schedule: Schedule, round: nat, k: nat, i: nat, j: nat)
    requires k <= i < j < |committers| && committers[i].Leads(round) && committers[j].Leads(round)
    ensures |SlotsOfRound(committers, schedule, round, k)| >= 2
    decreases i - k
  {
    hide Options.Leads;
    if k < i {
      SlotsCount(committers, schedule, round, k + 1, i, j);
    } else {
      SlotsSome(committers, schedule, round, k + 1, j);
    }
  }

  lemma {:induction false} SlotsSome(committers: seq<Options>, schedule: Schedule, round: nat, k: nat, j: nat)
    requires k <= j < |committers| && committers[j].Leads(round)
    ensures |SlotsOfRound(committers, schedule, round, k)| >= 1
    decreases j - k
  {
    hide Options.Leads;
    if k < j {
      SlotsSome(committers, schedule, round, k + 1, j);
    }
  }

  lemma StatusesDistinct(v: Dag, slots: seq<Slot>, statuses: seq<LeaderStatus>)
    requires Sound(v, slots, statuses) && SlotsAscend(slots) && forall s :: s in slots ==> s.round > GENESIS_ROUND
    ensures DistinctSlots(statuses)
  {
    forall i | 0 <= i < |statuses|
      ensures statuses[i].Round() > GENESIS_ROUND && statuses[i].ToSlot() == slots[i]
    {
      assert slots[i] in slots;
    }
  }

  // ----- runs of decisions

  /**
   * One call: what the authority has accepted by then, the highest round of it, and how many leaders it
   * may take before the leader schedule is due for an update.
   */
  datatype Call = Call(view: Dag, highest: nat, limit: nat)

  /** The calls of one authority see more and more of the universe. */
  ghost predicate Growing(u: Dag, calls: seq<Call>) {
    && (forall i :: 0 <= i < |calls| ==> View(calls[i].view, u))
    && (forall i, j :: 0 <= i < j < |calls| ==>
          View(calls[i].view, calls[j].view) && calls[i].highest <= calls[j].highest)
  }

  /** As many decisions as the limit allows. */
  function Truncated(p: seq<LeaderStatus>, limit: nat): (r: seq<LeaderStatus>)
    ensures r <= p && |r| <= limit && (|r| < limit ==> r == p)
  {
    if |p| >= limit then p[..limit] else p
  }

  /** The last decided slot after deciding `p`. */
  function LastOf(last: Slot, p: seq<LeaderStatus>): Slot {
    if p == [] then last else p[|p| - 1].ToSlot()
  }

  ghost function Taken(c: Committee, call: Call, committers: seq<Options>, schedule: Schedule, last: Slot): seq<LeaderStatus>
    requires Closed(call.view)
  {
    Truncated(DecidedLeaders(c, call.view, committers, schedule, last, call.highest), call.limit)
  }

  /** All decisions of a run, each call starting from the last decision before it. */
  ghost function Decisions(c: Committee, calls: seq<Call>, committers: seq<Options>, schedule: Schedule, last: Slot)
    : seq<LeaderStatus>
    requires forall i :: 0 <= i < |calls| ==> Closed(calls[i].view)
    decreases |calls|
  {
    if calls == [] then []
    else
      var p := Taken(c, calls[0], committers, schedule, last);
      p + Decisions(c, calls[1..], committers, schedule, LastOf(last, p))
  }

  lemma GrowingClosed(u: Dag, calls: seq<Call>)
    requires Growing(u, calls)
    ensures forall i :: 0 <= i < |calls| ==> Closed(calls[i].view)
  {
    hide Closed;
  }

  lemma GrowingTail(u: Dag, calls: seq<Call>)
    requires Growing(u, calls) && calls != []
    ensures Growing(u, calls[1..])
  {
    hide View;
    forall i, j | 0 <= i < j < |calls[1..]|
      ensures View(calls[1..][i].view, calls[1..][j].view) && calls[1..][i].highest <= calls[1..][j].highest
    {
      assert View(calls[i + 1].view, calls[j + 1].view) && calls[i + 1].highest <= calls[j + 1].highest;
    }
  }

  /** What the first call takes is the start of what the final view decides. */
  lemma FirstCallCounts(
    ctx: Context, u: Dag, byzantine: set<nat>, calls: seq<Call>, committers: seq<Options>, schedule: Schedule, last: Slot)
    requires Universe(ctx, u, byzantine) && Growing(u, calls) && calls != []
    ensures var final := calls[|calls| - 1];
      && Closed(calls[0].view) && Closed(final.view)
      && Taken(ctx.committee, calls[0], committers, schedule, last)
         <= DecidedLeaders(ctx.committee, final.view, committers, schedule, last, final.highest)
  {
    hide Bft, WellFormed, DecidedLeaders;
    var final := calls[|calls| - 1];
    assert View(final.view, u) && View(calls[0].view, u);
    assert |calls| > 1 ==> View(calls[0].view, final.view) && calls[0].highest <= final.highest;
    ViewOfItself(final.view);
    DecidedSequenceGrows(ctx, u, byzantine, calls[0].view, final.view, committers, schedule, last, calls[0].highest, final.highest);
  }

  lemma ViewOfItself(v: Dag)
    requires Closed(v)
    ensures View(v, v)
  {
  }

  /**
   * With one leader per round, all the decisions of a run together are the start of what the final view
   * decides in one call.
   */
  lemma {:induction false} RunIsOneCall(
    ctx: Context, u: Dag, byzantine: set<nat>, calls: seq<Call>, committers: seq<Options>, schedule: Schedule, last: Slot)
    requires Universe(ctx, u, byzantine) && Growing(u, calls) && calls != [] && OneLeader(committers, schedule)
    ensures var final := calls[|calls| - 1];
      && Closed(final.view) && (forall i :: 0 <= i < |calls| ==> Closed(calls[i].view))
      && Decisions(ctx.committee, calls, committers, schedule, last)
         <= DecidedLeaders(ctx.committee, final.view, committers, schedule, last, final.highest)
    decreases |calls|
  {
    hide Universe, Growing, OneLeader, Closed, DecidedLeaders, Taken;
    GrowingClosed(u, calls);
    FirstCallCounts(ctx, u, byzantine, calls, committers, schedule, last);
    var c, final, p := ctx.committee, calls[|calls| - 1], Taken(ctx.committee, calls[0], committers, schedule, last);
    if |calls| == 1 {
      assert Decisions(c, calls[1..], committers, schedule, LastOf(last, p)) == [];
    } else {
      GrowingTail(u, calls);
      assert calls[1..][|calls| - 2] == final;
      RunIsOneCall(ctx, u, byzantine, calls[1..], committers, schedule, LastOf(last, p));
      if p != [] {
        CallsContinue(c, final.view, committers, schedule, last, final.highest, p);
      }
    }
  }

  /**
   * Agreement over whole runs. With one leader per round, the decisions of any two authorities, over all
   * the calls they make, are prefixes of one another.
   */
  lemma RunsAgree(
    ctx: Context, u: Dag, byzantine: set<nat>, p: seq<Call>, q: seq<Call>, committers: seq<Options>, schedule: Schedule, last: Slot)
    requires Universe(ctx, u, byzantine) && Growing(u, p) && Growing(u, q) && OneLeader(committers, schedule)
    ensures (forall i :: 0 <= i < |p| ==> Closed(p[i].view)) && (forall i :: 0 <= i < |q| ==> Closed(q[i].view))
    ensures var s := Decisions(ctx.committee, p, committers, schedule, last);
      var t := Decisions(ctx.committee, q, committers, schedule, last);
      s <= t || t <= s
  {
    GrowingClosed(u, p);
    GrowingClosed(u, q);
    if p != [] && q != [] {
      hide Bft, WellFormed, OneLeader, Closed, DecidedLeaders, Decisions;
      RunIsOneCall(ctx, u, byzantine, p, committers, schedule, last);
      RunIsOneCall(ctx, u, byzantine, q, committers, schedule, last);
      var v, w := p[|p| - 1], q[|q| - 1];
      DecidedSequencesAgree(ctx, u, byzantine, v.view, w.view, committers, schedule, last, v.highest, w.highest);
    }
  }
}
