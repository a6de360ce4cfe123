/** The commit rule stated over sets: votes, certificates, blame, and the status of a leader slot. */
module CommitRule {
  import opened Committees
  import opened Blocks
  import opened Dags

  const WAVE_LENGTH: nat := 3

  datatype LeaderStatus = Commit(block: BlockRef) | Skip(slot: Slot) | Undecided(slot: Slot) {

    function Round(): nat {
      match this
      case Commit(b) => b.round
      case Skip(s) => s.round
      case Undecided(s) => s.round
    }

    /** The slot that the status speaks about. */
    function ToSlot(): Slot {
      match this
      case Commit(b) => b.ToSlot()
      case Skip(s) => s
      case Undecided(s) => s
    }
  }

  /** `vote` supports `leader` at the leader's slot. */
  predicate IsVote(d: Dag, vote: BlockRef, leader: BlockRef)
    requires Closed(d) && vote in d
  {
    FindSupported(d, leader.ToSlot(), vote) == Some(leader)
  }

  /** Authors of the ancestors of `cert` that vote for `leader`. */
  ghost function Voters(d: Dag, cert: BlockRef, leader: BlockRef): set<nat>
    requires Closed(d) && cert in d
  {
    set a | a in d[cert].ancestors && IsVote(d, a, leader) :: a.author
  }

  ghost predicate IsCertificate(c: Committee, d: Dag, cert: BlockRef, leader: BlockRef)
    requires Closed(d) && cert in d
  {
    c.IsQuorum(Voters(d, cert, leader))
  }

  /** A block none of whose ancestors is by `leader`. */
  ghost predicate IsBlame(b: Block, leader: nat) {
    forall a :: a in b.ancestors ==> a.author != leader
  }

  ghost function Blamers(d: Dag, votingRound: nat, leader: nat): set<nat> {
    set r | r in d && r.round == votingRound && IsBlame(d[r], leader) :: r.author
  }

  /** Authors of the blocks of `decisionRound` that certify `leader`. */
  ghost function Certifiers(c: Committee, d: Dag, decisionRound: nat, leader: BlockRef): set<nat>
    requires Closed(d)
  {
    set r | r in d && r.round == decisionRound && IsCertificate(c, d, r, leader) :: r.author
  }

  // ----- the direct rule

  ghost predicate DirectSkip(c: Committee, d: Dag, slot: Slot) {
    c.IsQuorum(Blamers(d, slot.round + 1, slot.authority))
  }

  /** Uncommitted blocks are accepted ones, so genesis blocks are never candidates. */
  ghost predicate DirectCommit(c: Committee, d: Dag, slot: Slot, l: BlockRef)
    requires Closed(d)
  {
    l in d && l.round > GENESIS_ROUND && l.ToSlot() == slot
    && c.IsQuorum(Certifiers(c, d, slot.round + WAVE_LENGTH - 1, l))
  }

  ghost function DirectDecide(c: Committee, d: Dag, slot: Slot): LeaderStatus
    requires Closed(d)
  {
    if DirectSkip(c, d, slot) then Skip(slot)
    else if exists l :: DirectCommit(c, d, slot, l) then
      var l :| DirectCommit(c, d, slot, l);
      Commit(l)
    else Undecided(slot)
  }

  // ----- the indirect rule

  /** The anchor: the first committed leader at or above `minRound`, unless an undecided one comes first. */
  function FirstAnchor(leaders: seq<LeaderStatus>, minRound: nat): Option<BlockRef> {
    if leaders == [] then None
    else if leaders[0].Round() < minRound then FirstAnchor(leaders[1..], minRound)
    else
      match leaders[0]
      case Commit(b) => Some(b)
      case Skip(_) => FirstAnchor(leaders[1..], minRound)
      case Undecided(_) => None
  }

  /** `l` has a certificate at its decision round in the causal history of `anchor`. */
  ghost predicate CertifiedBelow(c: Committee, d: Dag, anchor: BlockRef, slot: Slot, l: BlockRef)
    requires Closed(d)
  {
    l in d && l.round > GENESIS_ROUND && l.ToSlot() == slot
    && exists cert :: cert in d && InPast(d, anchor, cert) && cert.round == slot.round + WAVE_LENGTH - 1
                      && IsCertificate(c, d, cert, l)
  }

  ghost function DecideFromAnchor(c: Committee, d: Dag, anchor: BlockRef, slot: Slot): LeaderStatus
    requires Closed(d)
  {
    if exists l :: CertifiedBelow(c, d, anchor, slot, l) then
      var l :| CertifiedBelow(c, d, anchor, slot, l);
      Commit(l)
    else Skip(slot)
  }

  ghost function IndirectDecide(c: Committee, d: Dag, slot: Slot, leaders: seq<LeaderStatus>): LeaderStatus
    requires Closed(d)
  {
    match FirstAnchor(leaders, slot.round + WAVE_LENGTH)
    case Some(anchor) => DecideFromAnchor(c, d, anchor, slot)
    case None => Undecided(slot)
  }

  /** Position `i` holds the anchor: a committed leader a wave above `round`, and before it all such leaders are skipped. */
  ghost predicate AnchorAt(leaders: seq<LeaderStatus>, round: nat, i: nat) {
    && i < |leaders| && leaders[i].Commit? && leaders[i].Round() >= round + 3
    && forall j :: 0 <= j < i && leaders[j].Round() >= round + 3 ==> leaders[j].Skip?
  }

  /** The search finds the anchor if there is one, and none otherwise. */
  lemma {:induction false} FirstAnchorExact(leaders: seq<LeaderStatus>, round: nat)
    ensures forall i: nat :: AnchorAt(leaders, round, i) ==> FirstAnchor(leaders, round + 3) == Some(leaders[i].block)
    ensures FirstAnchor(leaders, round + 3).Some? ==> exists i: nat :: AnchorAt(leaders, round, i)
  {
    if leaders == [] {
    } else {
      FirstAnchorExact(leaders[1..], round);
      var passed := leaders[0].Round() < round + 3 || leaders[0].Skip?;
      forall i: nat | AnchorAt(leaders, round, i)
        ensures FirstAnchor(leaders, round + 3) == Some(leaders[i].block)
      {
        if i > 0 {
          assert passed;
          AnchorOfTail(leaders, round, i - 1);
        }
      }
      if passed && FirstAnchor(leaders[1..], round + 3).Some? {
        var i: nat :| AnchorAt(leaders[1..], round, i);
        AnchorOfTail(leaders, round, i);
        assert AnchorAt(leaders, round, i + 1);
      } else if FirstAnchor(leaders, round + 3).Some? {
        assert AnchorAt(leaders, round, 0);
      }
    }
  }

  lemma AnchorOfTail(leaders: seq<LeaderStatus>, round: nat, i: nat)
    requires leaders != [] && (leaders[0].Round() < round + 3 || leaders[0].Skip?)
    ensures AnchorAt(leaders, round, i + 1) <==> AnchorAt(leaders[1..], round, i)
  {
    if AnchorAt(leaders[1..], round, i) {
      forall j | 0 <= j < i + 1 && leaders[j].Round() >= round + 3
        ensures leaders[j].Skip?
      {
        assert j > 0 ==> leaders[j] == leaders[1..][j - 1];
      }
    }
    if AnchorAt(leaders, round, i + 1) {
      forall j | 0 <= j < i && leaders[1..][j].Round() >= round + 3
        ensures leaders[1..][j].Skip?
      {
        assert leaders[1..][j] == leaders[j + 1];
      }
    }
  }

  /**
   * The indirect rule decides from the first committed leader a wave above the slot that has only skipped
   * leaders a wave above the slot before it; without such a leader the slot stays undecided.
   */
  lemma IndirectDecideExact(c: Committee, d: Dag, slot: Slot, leaders: seq<LeaderStatus>)
    requires Closed(d)
    ensures forall i: nat :: AnchorAt(leaders, slot.round, i) ==>
      IndirectDecide(c, d, slot, leaders) == DecideFromAnchor(c, d, leaders[i].block, slot)
    ensures (forall i: nat :: !AnchorAt(leaders, slot.round, i)) ==>
      IndirectDecide(c, d, slot, leaders) == Undecided(slot)
  {
    hide Closed, DecideFromAnchor, AnchorAt, FirstAnchor;
    FirstAnchorExact(leaders, slot.round);
  }

  // ----- all slots, from the highest down

  /** The direct rule, then the indirect rule over the statuses of the later slots. */
  ghost function DecideSlot(c: Committee, d: Dag, slot: Slot, later: seq<LeaderStatus>): LeaderStatus
    requires Closed(d)
  {
    var direct := DirectDecide(c, d, slot);
    if direct.Undecided? then IndirectDecide(c, d, slot, later) else direct
  }

  /** Statuses of `slots`, which ascend; each slot is decided after all later ones. */
  ghost function Decide(c: Committee, d: Dag, slots: seq<Slot>): (s: seq<LeaderStatus>)
    requires Closed(d)
    ensures |s| == |slots|
  {
    if slots == [] then []
    else
      var later := Decide(c, d, slots[1..]);
      [DecideSlot(c, d, slots[0], later)] + later
  }

  /** Every slot is decided from the statuses of the slots after it. */
  lemma {:induction false} DecideAt(c: Committee, d: Dag, slots: seq<Slot>, i: nat)
    requires Closed(d) && i < |slots|
    ensures Decide(c, d, slots)[i] == DecideSlot(c, d, slots[i], Decide(c, d, slots)[i + 1..])
  {
    hide Closed, DecideSlot;
    var later := Decide(c, d, slots[1..]);
    assert Decide(c, d, slots) == [DecideSlot(c, d, slots[0], later)] + later;
    if i == 0 {
      assert Decide(c, d, slots)[1..] == later;
    } else {
      DecideAt(c, d, slots[1..], i - 1);
      assert Decide(c, d, slots)[i + 1..] == later[i..];
    }
  }
}
