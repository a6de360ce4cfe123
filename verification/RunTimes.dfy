/** The commit times of whole runs: the same for all authorities, and never decreasing. */
module RunTimes {
  import opened Blocks
  import opened BlockVerifier
  import opened Dags
  import opened CommitRule
  import opened Agreement
  import opened BaseCommitter
  import opened UniversalCommitter
  import opened Linearizers
  import opened CommitTimestamps
  import opened CommitRuns
  import opened TotalOrder

  /** The time of the commit before position `i`. */
  function TimeBefore(last: nat, times: seq<nat>, i: nat): nat
    requires i <= |times|
  {
    if i == 0 then last else times[i - 1]
  }

  /** Each leader's commit has the time that the rule gives it after the one before. */
  ghost predicate AreTimes(ctx: Context, median: bool, d: Dag, leaders: seq<BlockRef>, last: nat, times: seq<nat>)
    requires Verified(ctx, d)
  {
    && |times| == |leaders|
    && forall i :: 0 <= i < |leaders| ==> IsTimeOf(ctx, median, d, leaders[i], TimeBefore(last, times, i), times[i])
  }

  ghost predicate IsTimeOf(ctx: Context, median: bool, d: Dag, leader: BlockRef, last: nat, time: nat)
    requires Verified(ctx, d)
  {
    leader in d && leader.round > GENESIS_ROUND && IsCommitTime(ctx, median, d, leader, last, time)
  }

  /** The times of a sequence of leaders, one after the other. */
  method CommitTimes(ctx: Context, median: bool, d: Dag, leaders: seq<BlockRef>, last: nat)
      returns (panicked: bool, times: seq<nat>)
    requires ctx.committee.Valid() && Verified(ctx, d) && forall l :: l in leaders ==> l in d && l.round > GENESIS_ROUND
    ensures !panicked && |times| == |leaders| && AreTimes(ctx, median, d, leaders, last, times)
  {
    hide Verified, IsCommitTime;
    panicked, times := false, [];
    var i := 0;
    while i < |leaders|
      invariant 0 <= i <= |leaders| && |times| == i && !panicked
      invariant forall k :: 0 <= k < i ==> IsTimeOf(ctx, median, d, leaders[k], TimeBefore(last, times, k), times[k])
    {
      assert leaders[i] in leaders;
      var time;
      panicked, time := CalculateCommitTimestamp(ctx, median, d, leaders[i], TimeBefore(last, times, i));
      ghost var before := times;
      times := times + [time];
      forall k | 0 <= k <= i
        ensures IsTimeOf(ctx, median, d, leaders[k], TimeBefore(last, times, k), times[k])
      {
        assert TimeBefore(last, times, k) == TimeBefore(last, before, k);
        assert k < i ==> times[k] == before[k];
      }
      i := i + 1;
    }
  }

  /** Commit times never decrease. */
  lemma {:induction false} TimesAscend(
    ctx: Context, median: bool, d: Dag, leaders: seq<BlockRef>, last: nat, times: seq<nat>, i: nat, j: nat)
    requires Verified(ctx, d) && AreTimes(ctx, median, d, leaders, last, times) && i <= j < |times|
    ensures last <= times[i] <= times[j]
    decreases j
  {
    hide Verified, IsTimeOf;
    assert IsTimeOf(ctx, median, d, leaders[j], TimeBefore(last, times, j), times[j]);
    NotBefore(ctx, median, d, leaders[j], TimeBefore(last, times, j), times[j]);
    if j == 0 {
    } else {
      TimesAscend(ctx, median, d, leaders, last, times, if i == j then j - 1 else i, j - 1);
    }
  }

  lemma NotBefore(ctx: Context, median: bool, d: Dag, leader: BlockRef, last: nat, time: nat)
    requires Verified(ctx, d) && IsTimeOf(ctx, median, d, leader, last, time)
    ensures last <= time
  {
    hide Verified, IsLeaderMedian;
  }

  /** A commit has the same time in a view as in the universe. */
  lemma TimeLocal(ctx: Context, median: bool, v: Dag, u: Dag, leader: BlockRef, last: nat, time: nat)
    requires Verified(ctx, u) && Verified(ctx, v) && View(v, u) && IsTimeOf(ctx, median, v, leader, last, time)
    ensures IsTimeOf(ctx, median, u, leader, last, time)
  {
    hide WellFormed, IsMedian;
    var b := u[leader];
    ParentsLocal(v, u, b, |b.ancestors|);
    if median {
      var m :| IsLeaderMedian(ctx, v, leader, m) && time == Max(m, last);
      assert IsLeaderMedian(ctx, u, leader, m);
    }
  }

  lemma TimesLocal(ctx: Context, median: bool, v: Dag, u: Dag, leaders: seq<BlockRef>, last: nat, times: seq<nat>)
    requires Verified(ctx, u) && Verified(ctx, v) && View(v, u) && AreTimes(ctx, median, v, leaders, last, times)
    ensures AreTimes(ctx, median, u, leaders, last, times)
  {
    hide Verified, View, IsTimeOf;
    forall i | 0 <= i < |leaders|
      ensures IsTimeOf(ctx, median, u, leaders[i], TimeBefore(last, times, i), times[i])
    {
      TimeLocal(ctx, median, v, u, leaders[i], TimeBefore(last, times, i), times[i]);
    }
  }

  lemma TimesConcat(
    ctx: Context, median: bool, u: Dag, a: seq<BlockRef>, b: seq<BlockRef>, last: nat, s: seq<nat>, t: seq<nat>)
    requires Verified(ctx, u) && AreTimes(ctx, median, u, a, last, s)
    requires AreTimes(ctx, median, u, b, TimeBefore(last, s, |s|), t)
    ensures AreTimes(ctx, median, u, a + b, last, s + t)
  {
    hide Verified, IsTimeOf;
    forall i | 0 <= i < |a + b|
      ensures IsTimeOf(ctx, median, u, (a + b)[i], TimeBefore(last, s + t, i), (s + t)[i])
    {
      if i < |a| {
        assert TimeBefore(last, s + t, i) == TimeBefore(last, s, i);
      } else {
        assert TimeBefore(last, s + t, i) == TimeBefore(TimeBefore(last, s, |s|), t, i - |a|);
        assert IsTimeOf(ctx, median, u, b[i - |a|], TimeBefore(TimeBefore(last, s, |s|), t, i - |a|), t[i - |a|]);
      }
    }
  }

  /** The rule gives a commit one time. */
  lemma OneTime(ctx: Context, median: bool, u: Dag, leader: BlockRef, last: nat, s: nat, t: nat)
    requires Verified(ctx, u) && IsTimeOf(ctx, median, u, leader, last, s) && IsTimeOf(ctx, median, u, leader, last, t)
    ensures s == t
  {
    hide IsCommitTime, WellFormed, Closed;
    CommitTimesAgree(ctx, median, u, u, u, leader, last, s, t);
  }

  lemma {:induction false} SameTimes(
    ctx: Context, median: bool, u: Dag, p: seq<BlockRef>, q: seq<BlockRef>, last: nat, s: seq<nat>, t: seq<nat>, i: nat)
    requires Verified(ctx, u) && p <= q && i < |p|
    requires AreTimes(ctx, median, u, p, last, s) && AreTimes(ctx, median, u, q, last, t)
    ensures s[i] == t[i]
  {
    hide Verified, IsTimeOf;
    if i == 0 {
    } else {
      SameTimes(ctx, median, u, p, q, last, s, t, i - 1);
    }
    assert IsTimeOf(ctx, median, u, p[i], TimeBefore(last, s, i), s[i]);
    assert IsTimeOf(ctx, median, u, q[i], TimeBefore(last, t, i), t[i]);
    OneTime(ctx, median, u, p[i], TimeBefore(last, s, i), s[i], t[i]);
  }

  /** If one sequence of leaders continues another, so do their times. */
  lemma TimesPrefix(
    ctx: Context, median: bool, u: Dag, p: seq<BlockRef>, q: seq<BlockRef>, last: nat, s: seq<nat>, t: seq<nat>)
    requires Verified(ctx, u) && p <= q
    requires AreTimes(ctx, median, u, p, last, s) && AreTimes(ctx, median, u, q, last, t)
    ensures s <= t
  {
    hide Verified, IsTimeOf, TimeBefore;
    forall i | 0 <= i < |s|
      ensures s[i] == t[i]
    {
      SameTimes(ctx, median, u, p, q, last, s, t, i);
    }
  }

  // ----- runs

  /** The times given over a run, each call computing them in its own view. */
  ghost predicate TimesOfRun(
    ctx: Context, median: bool, calls: seq<Call>, committers: seq<Options>, schedule: Schedule, last: Slot, time: nat, times: seq<nat>)
    decreases |calls|
  {
    if calls == [] then times == []
    else if !Verified(ctx, calls[0].view) then false
    else
      var p := Taken(ctx.committee, calls[0], committers, schedule, last);
      var n := |CommittedLeaders(p)|;
      && n <= |times| && AreTimes(ctx, median, calls[0].view, CommittedLeaders(p), time, times[..n])
      && TimesOfRun(ctx, median, calls[1..], committers, schedule, LastOf(last, p), TimeBefore(time, times, n), times[n..])
  }

  /** The times that an authority gives its commits, over all the calls it makes. */
  method GiveTimes(
    ctx: Context, median: bool, ghost u: Dag, ghost byzantine: set<nat>, calls: seq<Call>, committers: seq<Options>,
    schedule: Schedule, last: Slot, time: nat) returns (panicked: bool, times: seq<nat>)
    requires ctx.committee.Valid() && Universe(ctx, u, byzantine) && Growing(u, calls)
    ensures !panicked && TimesOfRun(ctx, median, calls, committers, schedule, last, time, times)
    decreases |calls|
  {
    hide Verified, Closed, Bft, AreTimes, DecidedLeaders, View;
    if calls == [] {
      return false, [];
    }
    var v := calls[0].view;
    assert View(v, u);
    PartVerified(ctx, v, u);
    var decided := TryDecide(ctx, u, byzantine, v, committers, schedule, last, calls[0].highest);
    var taken := Truncated(decided, calls[0].limit);
    TakenInView(ctx.committee, calls[0], committers, schedule, last);
    var head, rest;
    panicked, head := CommitTimes(ctx, median, v, CommittedLeaders(taken), time);
    GrowingTail(u, calls);
    var n := |head|;
    panicked, rest := GiveTimes(
      ctx, median, u, byzantine, calls[1..], committers, schedule, LastOf(last, taken), TimeBefore(time, head, n));
    times := head + rest;
    assert times[..n] == head && times[n..] == rest;
  }

  /** The times of a run are the times of its leaders in the universe. */
  lemma {:induction false} RunTimesInUniverse(
    ctx: Context, median: bool, u: Dag, calls: seq<Call>, committers: seq<Options>, schedule: Schedule, last: Slot, time: nat, times: seq<nat>)
    requires Verified(ctx, u) && Growing(u, calls)
    requires TimesOfRun(ctx, median, calls, committers, schedule, last, time, times)
    ensures forall i :: 0 <= i < |calls| ==> Closed(calls[i].view)
    ensures AreTimes(ctx, median, u, CommittedLeaders(Decisions(ctx.committee, calls, committers, schedule, last)), time, times)
    decreases |calls|
  {
    hide Verified, Closed, Taken, IsTimeOf, View;
    GrowingClosed(u, calls);
    if calls == [] {
    } else {
      var v, p := calls[0].view, Taken(ctx.committee, calls[0], committers, schedule, last);
      var leaders, rest := CommittedLeaders(p), Decisions(ctx.committee, calls[1..], committers, schedule, LastOf(last, p));
      var n := |leaders|;
      assert View(v, u);
      TimesLocal(ctx, median, v, u, leaders, time, times[..n]);
      GrowingTail(u, calls);
      assert TimeBefore(time, times, n) == TimeBefore(time, times[..n], n);
      RunTimesInUniverse(ctx, median, u, calls[1..], committers, schedule, LastOf(last, p), TimeBefore(time, times, n), times[n..]);
      TimesConcat(ctx, median, u, leaders, CommittedLeaders(rest), time, times[..n], times[n..]);
      CommittedLeadersConcat(p, rest);
      assert times[..n] + times[n..] == times;
    }
  }

  /**
   * Over whole runs, with one leader per round, the commit times of any two authorities are prefixes of one
   * another, and those of each never decrease.
   */
  lemma RunTimesAgree(
    ctx: Context, median: bool, u: Dag, byzantine: set<nat>, p: seq<Call>, q: seq<Call>, committers: seq<Options>, schedule: Schedule,
    last: Slot, time: nat, s: seq<nat>, t: seq<nat>)
    requires Universe(ctx, u, byzantine) && Growing(u, p) && Growing(u, q) && OneLeader(committers, schedule)
    requires TimesOfRun(ctx, median, p, committers, schedule, last, time, s)
    requires TimesOfRun(ctx, median, q, committers, schedule, last, time, t)
    ensures s <= t || t <= s
    ensures forall i, j :: 0 <= i <= j < |s| ==> time <= s[i] <= s[j]
  {
    hide Bft, Verified, OneLeader, Decisions, Growing, TimesOfRun, AreTimes;
    var c := ctx.committee;
    RunsAgree(ctx, u, byzantine, p, q, committers, schedule, last);
    RunTimesInUniverse(ctx, median, u, p, committers, schedule, last, time, s);
    RunTimesInUniverse(ctx, median, u, q, committers, schedule, last, time, t);
    var a, b := Decisions(c, p, committers, schedule, last), Decisions(c, q, committers, schedule, last);
    LeaderTimesAgree(ctx, median, u, a, b, time, s, t);
    forall i, j | 0 <= i <= j < |s|
      ensures time <= s[i] <= s[j]
    {
      TimesAscend(ctx, median, u, CommittedLeaders(a), time, s, i, j);
    }
  }

  lemma LeaderTimesAgree(
    ctx: Context, median: bool, u: Dag, a: seq<LeaderStatus>, b: seq<LeaderStatus>, time: nat, s: seq<nat>, t: seq<nat>)
    requires Verified(ctx, u) && (a <= b || b <= a)
    requires AreTimes(ctx, median, u, CommittedLeaders(a), time, s) && AreTimes(ctx, median, u, CommittedLeaders(b), time, t)
    ensures s <= t || t <= s
  {
    hide Verified, AreTimes, CommittedLeaders;
    if a <= b {
      CommittedLeadersPrefix(a, b);
      TimesPrefix(ctx, median, u, CommittedLeaders(a), CommittedLeaders(b), time, s, t);
    } else {
      CommittedLeadersPrefix(b, a);
      TimesPrefix(ctx, median, u, CommittedLeaders(b), CommittedLeaders(a), time, t, s);
    }
  }
}
