/** Deciding all leader slots of a range of rounds, and the sequence of decided leaders. */
module UniversalCommitter {
  import opened Committees
  import opened Blocks
  import opened BlockVerifier
  import opened Dags
  import opened CommitRule
  import opened Agreement
  import opened BaseCommitter

  /** Leader slots of one round, from the committer at position `i` on. */
  function SlotsOfRound(committers: seq<Options>, schedule: Schedule, round: nat, i: nat): seq<Slot>
    requires i <= |committers|
    decreases |committers| - i
  {
    if i == |committers| then []
    else
      match ElectLeader(committers[i], schedule, round)
      case None => SlotsOfRound(committers, schedule, round, i + 1)
      case Some(slot) => [slot] + SlotsOfRound(committers, schedule, round, i + 1)
  }

  /** Leader slots of the rounds from `lo` up to but excluding `hi`, ascending. */
  function Slots(committers: seq<Options>, schedule: Schedule, lo: nat, hi: nat): seq<Slot>
    decreases hi - lo
  {
    if lo >= hi then []
    else SlotsOfRound(committers, schedule, lo, 0) + Slots(committers, schedule, lo + 1, hi)
  }

  /** The longest decided start of the statuses, without genesis leaders. */
  function DecidedPrefix(statuses: seq<LeaderStatus>): seq<LeaderStatus> {
    if statuses == [] then []
    else if statuses[0].Round() == GENESIS_ROUND then DecidedPrefix(statuses[1..])
    else if statuses[0].Undecided? then []
    else [statuses[0]] + DecidedPrefix(statuses[1..])
  }

  /** Round above the last one worth deciding: a leader needs blocks two rounds above it. */
  function EndRound(highestAcceptedRound: nat): nat {
    if highestAcceptedRound >= 2 then highestAcceptedRound - 1 else 1
  }

  /** The sequence of decided leaders after `lastDecided`, in a view. */
  ghost function DecidedLeaders(
    c: Committee, v: Dag, committers: seq<Options>, schedule: Schedule, lastDecided: Slot, highestAcceptedRound: nat)
    : seq<LeaderStatus>
    requires Closed(v)
  {
    DecidedPrefix(Decide(c, v, Slots(committers, schedule, lastDecided.round + 1, EndRound(highestAcceptedRound))))
  }

  /** Runs the committers over the rounds from the highest down and collects the decided leaders. */
  method TryDecide(
    ctx: Context, ghost u: Dag, ghost byzantine: set<nat>, v: Dag,
    committers: seq<Options>, schedule: Schedule, lastDecided: Slot, highestAcceptedRound: nat)
    returns (decided: seq<LeaderStatus>)
    requires Universe(ctx, u, byzantine) && View(v, u)
    ensures decided == DecidedLeaders(ctx.committee, v, committers, schedule, lastDecided, highestAcceptedRound)
    ensures var slots := Slots(committers, schedule, lastDecided.round + 1, EndRound(highestAcceptedRound));
      var statuses := Decide(ctx.committee, v, slots);
      && decided <= statuses && (forall s :: s in decided ==> !s.Undecided?)
      && (|decided| < |slots| ==> statuses[|decided|].Undecided?)
  {
    hide WellFormed, Bft, Closed, DirectDecide, IndirectDecide, ElectLeader;
    var c := ctx.committee;
    var lo, hi := lastDecided.round + 1, EndRound(highestAcceptedRound);
    var leaders: seq<LeaderStatus> := [];
    var round := if lo < hi then hi else lo;
    while round > lo
      invariant lo <= round
      invariant leaders == Decide(c, v, Slots(committers, schedule, round, hi))
    {
      round := round - 1;
      leaders := DecideRound(ctx, u, byzantine, v, committers, schedule, lastDecided, round,
                             Slots(committers, schedule, round + 1, hi), leaders);
    }
    decided := Prefix(leaders);
    AboveGenesis(c, v, committers, schedule, lo, hi);
    DecidedPrefixExact(leaders);
  }

  /** Decides the slots of one round, the last committer's first. */
  method DecideRound(
    ctx: Context, ghost u: Dag, ghost byzantine: set<nat>, v: Dag, committers: seq<Options>, schedule: Schedule,
    lastDecided: Slot, round: nat, ghost above: seq<Slot>, later: seq<LeaderStatus>)
    returns (leaders: seq<LeaderStatus>)
    requires Universe(ctx, u, byzantine) && View(v, u) && round > lastDecided.round
    requires later == Decide(ctx.committee, v, above)
    ensures leaders == Decide(ctx.committee, v, SlotsOfRound(committers, schedule, round, 0) + above)
  {
    hide WellFormed, Bft, Closed, DirectDecide, IndirectDecide, ElectLeader, Decide;
    leaders := later;
    var i := |committers|;
    assert [] + above == above;
    while i > 0
      invariant 0 <= i <= |committers|
      invariant leaders == Decide(ctx.committee, v, SlotsOfRound(committers, schedule, round, i) + above)
    {
      i := i - 1;
      ghost var rest := SlotsOfRound(committers, schedule, round, i + 1);
      var elected := ElectLeader(committers[i], schedule, round);
      if elected.Some? {
        var slot := elected.value;
        assert slot != lastDecided; // so the early exit at the last decided slot is never taken
        leaders := DecideNext(ctx, committers[i], u, byzantine, v, slot, rest + above, leaders);
        assert ([slot] + rest) + above == [slot] + (rest + above);
      }
    }
  }

  /** Decides one slot by the direct rule, else by the indirect rule, and puts its status in front. */
  method DecideNext(
    ctx: Context, o: Options, ghost u: Dag, ghost byzantine: set<nat>, v: Dag,
    slot: Slot, ghost later: seq<Slot>, leaders: seq<LeaderStatus>)
    returns (r: seq<LeaderStatus>)
    requires Universe(ctx, u, byzantine) && View(v, u) && o.Leads(slot.round)
    requires leaders == Decide(ctx.committee, v, later)
    ensures r == Decide(ctx.committee, v, [slot] + later)
  {
    hide WellFormed, Bft, Closed, DirectDecide, IndirectDecide, Options.Leads;
    var status := TryDirectDecide(ctx, o, u, byzantine, v, slot);
    if status.Undecided? {
      DecideSound(ctx.committee, v, later);
      status := TryIndirectDecide(ctx, o, u, byzantine, v, slot, leaders);
    }
    assert ([slot] + later)[1..] == later;
    r := [status] + leaders;
  }

  method Prefix(leaders: seq<LeaderStatus>) returns (decided: seq<LeaderStatus>)
    ensures decided == DecidedPrefix(leaders)
  {
    decided := [];
    for i := 0 to |leaders|
      invariant DecidedPrefix(leaders) == decided + DecidedPrefix(leaders[i..])
    {
      assert leaders[i..][0] == leaders[i] && leaders[i..][1..] == leaders[i + 1..];
      if leaders[i].Round() == GENESIS_ROUND {
        continue;
      }
      if leaders[i].Undecided? {
        break;
      }
      decided := decided + [leaders[i]];
    }
  }

  // ----- what is decided, exactly

  /** The decided sequence ends only at the end of the statuses or before an undecided one; skipped leaders are in it. */
  lemma {:induction false} DecidedPrefixExact(s: seq<LeaderStatus>)
    requires forall x :: x in s ==> x.Round() > GENESIS_ROUND
    ensures var p := DecidedPrefix(s);
      p <= s && (forall x :: x in p ==> !x.Undecided?) && (|p| < |s| ==> s[|p|].Undecided?)
  {
    if s == [] {
    } else {
      assert s[0] in s;
      DecidedPrefixExact(s[1..]);
      assert s == [s[0]] + s[1..];
    }
  }

  /** Statuses of slots above the last decided one are above genesis. */
  lemma AboveGenesis(c: Committee, v: Dag, committers: seq<Options>, schedule: Schedule, lo: nat, hi: nat)
    requires Closed(v) && lo > GENESIS_ROUND
    ensures forall x :: x in Decide(c, v, Slots(committers, schedule, lo, hi)) ==> x.Round() > GENESIS_ROUND
  {
    hide Closed, Decide, Slots;
    var slots := Slots(committers, schedule, lo, hi);
    DecideSound(c, v, slots);
    var turns := SlotsByTurns(committers, schedule, lo, hi);
    forall i | 0 <= i < |slots|
      ensures Decide(c, v, slots)[i].Round() > GENESIS_ROUND
    {
      assert turns[i] in turns && Decide(c, v, slots)[i].ToSlot() == slots[i];
    }
  }

  /** The committer at one position leads one round. */
  datatype Turn = Turn(round: nat, committer: nat) {
    predicate Before(other: Turn) { round < other.round || (round == other.round && committer < other.committer) }

    function SlotOf(committers: seq<Options>, schedule: Schedule): Slot
      requires committer < |committers|
    {
      Slot(round, schedule(round, committers[committer].leaderOffset))
    }
  }

  /** `slots` are the slots of `turns`, which ascend. */
  ghost predicate InTurn(committers: seq<Options>, schedule: Schedule, slots: seq<Slot>, turns: seq<Turn>) {
    && |slots| == |turns|
    && (forall k :: 0 <= k < |turns| ==>
          turns[k].committer < |committers| && slots[k] == turns[k].SlotOf(committers, schedule))
    && (forall j, k :: 0 <= j < k < |turns| ==> turns[j].Before(turns[k]))
  }

  lemma InTurnConcat(
    committers: seq<Options>, schedule: Schedule, p: seq<Slot>, s: seq<Turn>, q: seq<Slot>, t: seq<Turn>)
    requires InTurn(committers, schedule, p, s) && InTurn(committers, schedule, q, t)
    requires forall x, y :: x in s && y in t ==> x.Before(y)
    ensures InTurn(committers, schedule, p + q, s + t)
  {
    hide Turn.SlotOf;
    forall j, k | 0 <= j < k < |s + t|
      ensures (s + t)[j].Before((s + t)[k])
    {
      if j < |s| <= k {
        assert s[j] in s && t[k - |s|] in t;
      }
    }
  }

  lemma {:induction false} RoundByTurns(committers: seq<Options>, schedule: Schedule, round: nat, i: nat)
    returns (turns: seq<Turn>)
    requires i <= |committers|
    ensures InTurn(committers, schedule, SlotsOfRound(committers, schedule, round, i), turns)
    ensures forall t :: t in turns <==> t.round == round && i <= t.committer < |committers| && committers[t.committer].Leads(round)
    decreases |committers| - i
  {
    hide Options.Leads, InTurn, Turn.SlotOf;
    if i == |committers| {
      turns := [];
      NoTurns(committers, schedule);
    } else {
      var rest := RoundByTurns(committers, schedule, round, i + 1);
      turns := rest;
      if committers[i].Leads(round) {
        var first := Turn(round, i);
        OneTurn(committers, schedule, first);
        assert SlotsOfRound(committers, schedule, round, i)
            == [first.SlotOf(committers, schedule)] + SlotsOfRound(committers, schedule, round, i + 1)
          by { FirstOfRound(committers, schedule, round, i); }
        InTurnConcat(committers, schedule, [first.SlotOf(committers, schedule)], [first],
                     SlotsOfRound(committers, schedule, round, i + 1), rest);
        turns := [first] + rest;
      }
    }
  }

  /** All leader slots of a range, once per committer that leads the round, by rounds and then in the order of the committers. */
  lemma {:induction false} SlotsByTurns(committers: seq<Options>, schedule: Schedule, lo: nat, hi: nat)
    returns (turns: seq<Turn>)
    ensures InTurn(committers, schedule, Slots(committers, schedule, lo, hi), turns)
    ensures forall t :: t in turns <==> lo <= t.round < hi && t.committer < |committers| && committers[t.committer].Leads(t.round)
    decreases hi - lo
  {
    hide Options.Leads, SlotsOfRound, InTurn;
    if lo >= hi {
      turns := [];
      assert InTurn(committers, schedule, [], []) by { NoTurns(committers, schedule); }
    } else {
      var first := RoundByTurns(committers, schedule, lo, 0);
      var rest := SlotsByTurns(committers, schedule, lo + 1, hi);
      InTurnConcat(committers, schedule, SlotsOfRound(committers, schedule, lo, 0), first,
                   Slots(committers, schedule, lo + 1, hi), rest);
      turns := first + rest;
    }
  }

  lemma OneTurn(committers: seq<Options>, schedule: Schedule, t: Turn)
    requires t.committer < |committers|
    ensures InTurn(committers, schedule, [t.SlotOf(committers, schedule)], [t])
  {
  }

  lemma FirstOfRound(committers: seq<Options>, schedule: Schedule, round: nat, i: nat)
    requires i < |committers| && committers[i].Leads(round)
    ensures SlotsOfRound(committers, schedule, round, i)
         == [Turn(round, i).SlotOf(committers, schedule)] + SlotsOfRound(committers, schedule, round, i + 1)
  {
    hide Options.Leads;
  }

  lemma NoTurns(committers: seq<Options>, schedule: Schedule)
    ensures InTurn(committers, schedule, [], [])
  {
  }

  /** A call looks at every round above the last decided one that has blocks two rounds above it, and at no other. */
  lemma SlotsOfCall(committers: seq<Options>, schedule: Schedule, lastDecided: Slot, highestAcceptedRound: nat)
    returns (turns: seq<Turn>)
    ensures InTurn(
      committers, schedule, Slots(committers, schedule, lastDecided.round + 1, EndRound(highestAcceptedRound)), turns)
    ensures forall t :: t in turns <==>
      && lastDecided.round < t.round && t.round + 2 <= highestAcceptedRound
      && t.committer < |committers| && committers[t.committer].Leads(t.round)
  {
    hide Options.Leads, InTurn;
    turns := SlotsByTurns(committers, schedule, lastDecided.round + 1, EndRound(highestAcceptedRound));
  }

  // ----- agreement on the decided sequence

  /** Ranges that start alike give slot lists one of which continues the other. */
  lemma {:induction false} SlotsPrefix(committers: seq<Options>, schedule: Schedule, lo: nat, mid: nat, hi: nat)
    requires mid <= hi
    ensures Slots(committers, schedule, lo, mid) <= Slots(committers, schedule, lo, hi)
    decreases hi - lo
  {
    if lo >= mid {
    } else {
      SlotsPrefix(committers, schedule, lo + 1, mid, hi);
    }
  }

  /** Compatible statuses have decided starts one of which continues the other. */
  lemma {:induction false} DecidedPrefixesComparable(s: seq<LeaderStatus>, t: seq<LeaderStatus>)
    requires PairwiseCompatible(s, t)
    ensures DecidedPrefix(s) <= DecidedPrefix(t) || DecidedPrefix(t) <= DecidedPrefix(s)
  {
    if s != [] && t != [] {
      assert s[0].ToSlot() == t[0].ToSlot() && Compatible(s[0], t[0]);
      forall i | 0 <= i < |s[1..]| && i < |t[1..]|
        ensures s[1..][i].ToSlot() == t[1..][i].ToSlot() && Compatible(s[1..][i], t[1..][i])
      {
        assert s[i + 1].ToSlot() == t[i + 1].ToSlot() && Compatible(s[i + 1], t[i + 1]);
      }
      DecidedPrefixesComparable(s[1..], t[1..]);
    }
  }

  /**
   * Any two authorities that have decided up to the same leader produce sequences of decided leaders
   * one of which continues the other, whatever parts of the universe they have seen.
   */
  lemma DecidedSequencesAgree(
    ctx: Context, u: Dag, byzantine: set<nat>, v: Dag, w: Dag,
    committers: seq<Options>, schedule: Schedule, lastDecided: Slot, highestV: nat, highestW: nat)
    requires Universe(ctx, u, byzantine) && View(v, u) && View(w, u)
    ensures var s := DecidedLeaders(ctx.committee, v, committers, schedule, lastDecided, highestV);
            var t := DecidedLeaders(ctx.committee, w, committers, schedule, lastDecided, highestW);
            s <= t || t <= s
  {
    hide WellFormed, Bft, Closed, Decide, Slots, DecidedPrefix, PairwiseCompatible;
    var lo, hv, hw := lastDecided.round + 1, EndRound(highestV), EndRound(highestW);
    var p, q := Slots(committers, schedule, lo, hv), Slots(committers, schedule, lo, hw);
    if hv <= hw {
      SlotsPrefix(committers, schedule, lo, hv, hw);
    } else {
      SlotsPrefix(committers, schedule, lo, hw, hv);
    }
    ViewsAgree(ctx, u, byzantine, v, w, p, q);
    DecidedPrefixesComparable(Decide(ctx.committee, v, p), Decide(ctx.committee, w, q));
  }

  // ----- decisions are never revised

  /** Every status decided in `s` is the same in `t`. */
  ghost predicate Extends(s: seq<LeaderStatus>, t: seq<LeaderStatus>) {
    |s| <= |t| && forall i :: 0 <= i < |s| ==> s[i].ToSlot() == t[i].ToSlot() && (s[i].Undecided? || s[i] == t[i])
  }

  lemma ExtendsTail(s: seq<LeaderStatus>, t: seq<LeaderStatus>)
    requires s != [] && Extends(s, t)
    ensures Extends(s[1..], t[1..])
  {
    forall i | 0 <= i < |s[1..]|
      ensures s[1..][i].ToSlot() == t[1..][i].ToSlot() && (s[1..][i].Undecided? || s[1..][i] == t[1..][i])
    {
      assert s[i + 1].ToSlot() == t[i + 1].ToSlot() && (s[i + 1].Undecided? || s[i + 1] == t[i + 1]);
    }
  }

  lemma ExtendsOneMore(x: LeaderStatus, s: seq<LeaderStatus>, y: LeaderStatus, t: seq<LeaderStatus>)
    requires Extends(s, t) && x.ToSlot() == y.ToSlot() && (x.Undecided? || x == y)
    ensures Extends([x] + s, [y] + t)
  {
  }

  lemma FirstSlot(v: Dag, slots: seq<Slot>, statuses: seq<LeaderStatus>)
    requires Sound(v, slots, statuses) && slots != []
    ensures statuses[0].ToSlot() == slots[0]
  {
  }

  lemma {:induction false} AnchorKept(s: seq<LeaderStatus>, t: seq<LeaderStatus>, minRound: nat)
    requires Extends(s, t) && FirstAnchor(s, minRound).Some?
    ensures FirstAnchor(t, minRound) == FirstAnchor(s, minRound)
  {
    ExtendsTail(s, t);
    if s[0].Round() < minRound || s[0].Skip? {
      AnchorKept(s[1..], t[1..], minRound);
    }
  }

  /** A larger view keeps every decision of a smaller one, direct or indirect. */
  lemma {:induction false} DecisionsKept(
    ctx: Context, u: Dag, byzantine: set<nat>, v: Dag, w: Dag, p: seq<Slot>, q: seq<Slot>)
    requires Universe(ctx, u, byzantine) && View(w, u) && View(v, w) && View(v, u) && p <= q
    ensures Extends(Decide(ctx.committee, v, p), Decide(ctx.committee, w, q))
  {
    if p == [] {
    } else {
      hide Universe, View, Closed, DecideSlot, Extends, Sound;
      var c := ctx.committee;
      var s, t := Decide(c, v, p[1..]), Decide(c, w, q[1..]);
      DecisionsKept(ctx, u, byzantine, v, w, p[1..], q[1..]);
      SlotKept(ctx, u, byzantine, v, w, p[0], p[1..], s, q[1..], t);
      DecideSound(c, v, p);
      DecideSound(c, w, q);
      FirstSlot(v, p, Decide(c, v, p));
      FirstSlot(w, q, Decide(c, w, q));
      ExtendsOneMore(DecideSlot(c, v, p[0], s), s, DecideSlot(c, w, q[0], t), t);
    }
  }

  lemma SlotKept(
    ctx: Context, u: Dag, byzantine: set<nat>, v: Dag, w: Dag, slot: Slot,
    p: seq<Slot>, s: seq<LeaderStatus>, q: seq<Slot>, t: seq<LeaderStatus>)
    requires Universe(ctx, u, byzantine) && View(w, u) && View(v, w) && View(v, u)
    requires s == Decide(ctx.committee, v, p) && t == Decide(ctx.committee, w, q) && Extends(s, t)
    ensures var ds := DecideSlot(ctx.committee, v, slot, s);
            ds.Undecided? || ds == DecideSlot(ctx.committee, w, slot, t)
  {
    hide WellFormed, Bft, Closed, DirectDecide, DecideFromAnchor, Decide, FirstAnchor;
    var c, minRound := ctx.committee, slot.round + WAVE_LENGTH;
    DecideSound(c, v, p);
    DecideSound(c, w, q);
    AnchorFound(v, p, s, minRound);
    AnchorFound(w, q, t, minRound);
    if !DirectDecide(c, v, slot).Undecided? {
      DirectDecideStable(ctx, u, byzantine, v, w, slot);
    } else if FirstAnchor(s, minRound).Some? {
      var anchor := FirstAnchor(s, minRound).value;
      AnchorKept(s, t, minRound);
      AnchorDecidesAlike(ctx, u, byzantine, v, w, anchor, slot);
      if !DirectDecide(c, w, slot).Undecided? {
        DirectVersusAnchor(ctx, u, byzantine, w, v, slot, anchor);
      }
    }
  }

  lemma {:induction false} DecidedPrefixGrows(s: seq<LeaderStatus>, t: seq<LeaderStatus>)
    requires Extends(s, t)
    ensures DecidedPrefix(s) <= DecidedPrefix(t)
  {
    if s == [] {
    } else {
      assert s[0].ToSlot() == t[0].ToSlot() && (s[0].Undecided? || s[0] == t[0]);
      ExtendsTail(s, t);
      DecidedPrefixGrows(s[1..], t[1..]);
    }
  }

  /** As an authority accepts more blocks, its sequence of decided leaders only grows at the end. */
  lemma DecidedSequenceGrows(
    ctx: Context, u: Dag, byzantine: set<nat>, v: Dag, w: Dag,
    committers: seq<Options>, schedule: Schedule, lastDecided: Slot, highestV: nat, highestW: nat)
    requires Universe(ctx, u, byzantine) && View(w, u) && View(v, w) && highestV <= highestW
    ensures DecidedLeaders(ctx.committee, v, committers, schedule, lastDecided, highestV)
         <= DecidedLeaders(ctx.committee, w, committers, schedule, lastDecided, highestW)
  {
    hide WellFormed, Bft, Closed, Decide, Slots, DecidedPrefix, Extends;
    var lo, hv, hw := lastDecided.round + 1, EndRound(highestV), EndRound(highestW);
    SlotsPrefix(committers, schedule, lo, hv, hw);
    var p, q := Slots(committers, schedule, lo, hv), Slots(committers, schedule, lo, hw);
    DecisionsKept(ctx, u, byzantine, v, w, p, q);
    DecidedPrefixGrows(Decide(ctx.committee, v, p), Decide(ctx.committee, w, q));
  }
}
