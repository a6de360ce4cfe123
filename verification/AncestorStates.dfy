/** Which authorities' blocks are left out of proposals, and the locks that keep that from flapping. */
module AncestorStates {

  import opened Committees
  import opened OrderStatistics

  const STATE_LOCK_QUORUM_ROUND_UPDATES: nat := 10
  const STATE_LOCK_SCORE_UPDATES: nat := 2
  const EXCLUSION_THRESHOLD_PERCENTAGE: nat := 10

  datatype State = Include | Exclude(score: nat)

  datatype Info = Info(state: State, lockExpiry: nat) {

    /** Included authorities are locked in by score updates, excluded ones by quorum-round updates. */
    predicate IsLocked(scoreUpdates: nat, roundUpdates: nat) {
      match state
      case Include => lockExpiry > scoreUpdates
      case Exclude(_) => lockExpiry > roundUpdates
    }
  }

  datatype Snapshot = Snapshot(infos: seq<Info>, scoreUpdates: nat, roundUpdates: nat)

  function Highest(scores: seq<nat>): (h: nat)
    ensures forall s :: s in scores ==> s <= h
    ensures h in scores || (h == 0 && scores == [])
  {
    if scores == [] then 0
    else
      assert scores == [scores[0]] + scores[1..];
      var rest := Highest(scores[1..]);
      if scores[0] > rest then scores[0] else rest
  }

  function LowScoreThreshold(scores: seq<nat>): nat {
    Highest(scores) * EXCLUSION_THRESHOLD_PERCENTAGE / 100
  }

  // ----- one authority, as far as the locks are concerned

  /** An authority only leaves a state whose lock has expired, and is locked into the one it enters. */
  predicate Moves(s: Snapshot, before: Info, after: Info) {
    || after == before
    || (&& !before.IsLocked(s.scoreUpdates, s.roundUpdates)
        && before.state.Include? && after.state.Exclude?
        && after.lockExpiry == s.roundUpdates + STATE_LOCK_QUORUM_ROUND_UPDATES)
    || (&& !before.IsLocked(s.scoreUpdates, s.roundUpdates)
        && before.state.Exclude? && after.state.Include?
        && after.lockExpiry == s.scoreUpdates + STATE_LOCK_SCORE_UPDATES)
  }

  /** A quorum-round update, a score update, or a pass over the authorities. */
  predicate Step(s: Snapshot, t: Snapshot) {
    || t == s.(roundUpdates := s.roundUpdates + 1)
    || t == s.(scoreUpdates := s.scoreUpdates + 1)
    || (&& t.scoreUpdates == s.scoreUpdates && t.roundUpdates == s.roundUpdates && |t.infos| == |s.infos|
        && forall a :: 0 <= a < |s.infos| ==> Moves(s, s.infos[a], t.infos[a]))
  }

  predicate Initial(size: nat, s: Snapshot) {
    && s.scoreUpdates == 0 && s.roundUpdates == 0 && |s.infos| == size
    && forall a :: 0 <= a < size ==> s.infos[a] == Info(Include, 0)
  }

  predicate IsRun(size: nat, run: seq<Snapshot>) {
    && run != [] && Initial(size, run[0]) && (forall k :: 0 <= k < |run| ==> |run[k].infos| == size)
    && forall k :: 0 < k < |run| ==> Step(run[k - 1], run[k])
  }

  predicate Excluded(s: Snapshot, a: nat) {
    a < |s.infos| && s.infos[a].state.Exclude?
  }

  /** How often authority `a` went from included to excluded along the run. */
  ghost function Exclusions(run: seq<Snapshot>, a: nat): nat {
    if |run| < 2 then 0
    else
      var n := |run|;
      Exclusions(run[..n - 1], a) + if !Excluded(run[n - 2], a) && Excluded(run[n - 1], a) then 1 else 0
  }

  /** How often authority `a` went from excluded back to included along the run. */
  ghost function Returns(run: seq<Snapshot>, a: nat): nat {
    if |run| < 2 then 0
    else
      var n := |run|;
      Returns(run[..n - 1], a) + if Excluded(run[n - 2], a) && !Excluded(run[n - 1], a) then 1 else 0
  }

  /**
   * Hysteresis. Along every run, each return costs ten quorum-round updates, each exclusion after the
   * first costs two score updates, moves alternate, and no lock reaches further than its own window.
   */
  lemma {:induction false} LockHysteresis(size: nat, run: seq<Snapshot>, a: nat)
    requires IsRun(size, run) && a < size
    ensures
      var last, e, i := run[|run| - 1], Exclusions(run, a), Returns(run, a);
      && 10 * i <= last.roundUpdates
      && 2 * (e - 1) <= last.scoreUpdates
      && |last.infos| == size
      && var info := last.infos[a];
         if info.state.Include? then e == i && 2 * i <= info.lockExpiry <= last.scoreUpdates + 2
         else e == i + 1 && 10 * e <= info.lockExpiry <= last.roundUpdates + 10
  {
    if |run| <= 1 {
    } else {
      LockHysteresis(size, run[..|run| - 1], a);
      var s, t := run[|run| - 2], run[|run| - 1];
      assert Step(s, t);
      assert t.infos == s.infos || Moves(s, s.infos[a], t.infos[a]);
    }
  }

  /**
   * How long a lock lasts. As long as an authority has not moved again, it is locked exactly while fewer than
   * ten quorum-round updates have followed its exclusion, or fewer than two score updates its return.
   */
  lemma LockWindow(size: nat, run: seq<Snapshot>, a: nat, k: nat, m: nat)
    requires IsRun(size, run) && a < size && 0 < k <= m < |run|
    requires run[k - 1].infos[a] != run[k].infos[a] && run[m].infos[a] == run[k].infos[a]
    ensures var info := run[m].infos[a];
      info.IsLocked(run[m].scoreUpdates, run[m].roundUpdates) <==>
        if info.state.Exclude? then run[m].roundUpdates < run[k].roundUpdates + 10
        else run[m].scoreUpdates < run[k].scoreUpdates + 2
  {
    assert Step(run[k - 1], run[k]);
    assert Moves(run[k - 1], run[k - 1].infos[a], run[k].infos[a]);
  }

  // ----- the manager

  class AncestorStateManager {
    const committee: Committee
    /** Whether accepted rounds are probed; received rounds are used otherwise. */
    const probeAccepted: bool
    var infos: seq<Info>
    var scoreUpdates: nat
    var roundUpdates: nat
    var receivedHigh: seq<nat>
    var acceptedHigh: seq<nat>
    var scores: seq<nat>
    ghost var history: seq<Snapshot>

    ghost function Snap(): Snapshot
      reads this
    {
      Snapshot(infos, scoreUpdates, roundUpdates)
    }

    ghost predicate Valid()
      reads this
    {
      && committee.Valid()
      && |infos| == |receivedHigh| == |acceptedHigh| == committee.Size()
      && |scores| <= committee.Size()
      && IsRun(committee.Size(), history) && history[|history| - 1] == Snap()
    }

    constructor (c: Committee, probe: bool)
      requires c.Valid()
      ensures Valid() && committee == c && probeAccepted == probe
      ensures scores == [] && history == [Snap()]
    {
      committee, probeAccepted := c, probe;
      infos := seq(|c.stakes|, _ => Info(Include, 0));
      scoreUpdates, roundUpdates, scores := 0, 0, [];
      receivedHigh := seq(|c.stakes|, _ => 0);
      acceptedHigh := seq(|c.stakes|, _ => 0);
      history := [Snapshot(seq(|c.stakes|, _ => Info(Include, 0)), 0, 0)];
    }

    ghost method Record()
      requires IsRun(committee.Size(), history) && Step(history[|history| - 1], Snap())
      modifies this`history
      ensures IsRun(committee.Size(), history) && history == old(history) + [Snap()]
    {
      history := history + [Snap()];
    }

    method SetQuorumRoundsPerAuthority(received: seq<nat>, accepted: seq<nat>)
      requires Valid() && |received| == |accepted| == committee.Size()
      modifies this
      ensures Valid() && history == old(history) + [Snap()]
      ensures receivedHigh == received && acceptedHigh == accepted && roundUpdates == old(roundUpdates) + 1
      ensures infos == old(infos) && scores == old(scores) && scoreUpdates == old(scoreUpdates)
    {
      receivedHigh, acceptedHigh := received, accepted;
      roundUpdates := roundUpdates + 1;
      Record();
    }

    method SetPropagationScores(newScores: seq<nat>)
      requires Valid() && |newScores| <= committee.Size()
      modifies this
      ensures Valid() && history == old(history) + [Snap()]
      ensures scores == newScores && scoreUpdates == old(scoreUpdates) + 1
      ensures infos == old(infos) && roundUpdates == old(roundUpdates)
      ensures receivedHigh == old(receivedHigh) && acceptedHigh == old(acceptedHigh)
    {
      scores := newScores;
      scoreUpdates := scoreUpdates + 1;
      Record();
    }

    /** So the locks hold back every manager, whatever calls it has seen. */
    lemma Hysteresis(a: nat)
      requires Valid() && a < committee.Size()
      ensures 10 * Returns(history, a) <= roundUpdates
      ensures 2 * (Exclusions(history, a) - 1) <= scoreUpdates
    {
      LockHysteresis(committee.Size(), history, a);
    }

    function HighRounds(): seq<nat>
      reads this
    {
      if probeAccepted then acceptedHigh else receivedHigh
    }

    /** The lowest round that the high quorum rounds of a quorum of authorities do not exceed. */
    method NetworkHighQuorumRound() returns (round: nat)
      requires Valid()
      ensures QuorumAt(committee, false, if probeAccepted then acceptedHigh else receivedHigh, round)
    {
      var point := QuorumPoint(committee, false, HighRounds());
      round := 0;
      if point.Some? {
        round := point.value;
      }
    }

    method UpdateState(authority: nat, score: nat, high: nat, network: nat)
      requires |infos| == committee.Size() && authority < |infos|
      modifies this`infos
      ensures |infos| == old(|infos|)
      ensures forall a :: 0 <= a < |infos| && a != authority ==> infos[a] == old(infos[a])
      ensures Moves(old(Snap()), old(infos[authority]), infos[authority])
      ensures Decided(old(Snap()), scores, score, high, network, old(infos[authority]), infos[authority])
    {
      var info := infos[authority];
      if info.IsLocked(scoreUpdates, roundUpdates) {
        return;
      }
      var threshold := LowScoreThreshold(scores);
      match info.state {
        case Include =>
          if score <= threshold {
            info := Info(Exclude(score), roundUpdates + STATE_LOCK_QUORUM_ROUND_UPDATES);
          }
        case Exclude(_) =>
          if score > threshold || high >= network {
            info := Info(Include, scoreUpdates + STATE_LOCK_SCORE_UPDATES);
          }
      }
      infos := infos[authority := info];
    }

    /**
     * One pass. The move of each scored authority depends only on its own entry; a best non-zero score
     * is never excluded; authorities without a score keep their state.
     */
    method UpdateAllAncestorsState() returns (ghost network: nat)
      requires Valid()
      modifies this`infos, this`history
      ensures Valid() && history == old(history) + [Snap()]
      ensures var high := if probeAccepted then acceptedHigh else receivedHigh;
        && QuorumAt(committee, false, high, network)
        && forall a :: 0 <= a < |scores| ==>
             Decided(old(Snap()), scores, scores[a], high[a], network, old(infos[a]), infos[a])
      ensures forall a :: |scores| <= a < |infos| ==> infos[a] == old(infos[a])
      ensures forall a :: 0 <= a < |scores| && 0 < scores[a] == Highest(scores) ==>
                (old(infos[a]).state.Include? ==> infos[a].state.Include?)
    {
      var round := NetworkHighQuorumRound();
      network := round;
      var a := 0;
      while a < |scores|
        modifies this`infos
        invariant 0 <= a <= |scores| && |infos| == old(|infos|)
        invariant forall b :: a <= b < |infos| ==> infos[b] == old(infos[b])
        invariant forall b :: 0 <= b < a ==> Moves(old(Snap()), old(infos[b]), infos[b])
        invariant forall b :: 0 <= b < a ==>
                    Decided(old(Snap()), scores, scores[b], HighRounds()[b], round, old(infos[b]), infos[b])
      {
        UpdateState(a, scores[a], HighRounds()[a], round);
        a := a + 1;
      }
      Record();
    }
  }

  /**
   * What one pass decides: a locked authority stays; an unlocked one is excluded exactly when its score
   * is at most a tenth of the best, and comes back exactly when it is above that or has caught up. The
   * lock ends with the update whose number is its expiry.
   */
  predicate Decided(s: Snapshot, scores: seq<nat>, score: nat, high: nat, network: nat, before: Info, after: Info) {
    if (if before.state.Include? then s.scoreUpdates else s.roundUpdates) < before.lockExpiry then after == before
    else
      && (before.state.Include? ==> (after.state.Exclude? <==> 10 * score <= Highest(scores)))
      && (before.state.Include? && after.state.Exclude? ==> after.state.score == score)
      && (before.state.Exclude? ==> (after.state.Include? <==> 10 * score > Highest(scores) || high >= network))
  }
}
