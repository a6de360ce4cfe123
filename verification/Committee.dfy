/** The committee of one epoch: stakes, thresholds, and the intersection of quorums. */
module Committees {

  const U32_MAX: nat := 0xFFFF_FFFF
  const U64_MAX: nat := 0xFFFF_FFFF_FFFF_FFFF

  datatype Option<+T> = None | Some(value: T)

  /** The sum of the first `n` entries of `stakes`. */
  function SumTo(stakes: seq<nat>, n: nat): nat
    requires n <= |stakes|
  {
    if n == 0 then 0 else SumTo(stakes, n - 1) + stakes[n - 1]
  }

  /** The stake that the authorities in `authors` with index below `n` hold together. */
  function StakeBelow(stakes: seq<nat>, authors: set<nat>, n: nat): nat
    requires n <= |stakes|
  {
    if n == 0 then 0
    else StakeBelow(stakes, authors, n - 1) + (if n - 1 in authors then stakes[n - 1] else 0)
  }

  datatype Committee = Committee(epoch: nat, stakes: seq<nat>) {

    /** What `New` establishes, plus the bound that keeps `2 * TotalStake()` inside 64 bits. */
    predicate Valid() {
      0 < |stakes| < U32_MAX && 0 < TotalStake() && 2 * TotalStake() <= U64_MAX
    }

    function Size(): nat { |stakes| }

    function TotalStake(): nat { SumTo(stakes, |stakes|) }

    function QuorumThreshold(): nat { 2 * TotalStake() / 3 + 1 }

    function ValidityThreshold(): nat { (TotalStake() + 2) / 3 }

    function Stake(authority: nat): nat
      requires authority < Size()
    {
      stakes[authority]
    }

    predicate ReachedQuorum(stake: nat) { stake >= QuorumThreshold() }

    predicate ReachedValidity(stake: nat) { stake >= ValidityThreshold() }

    predicate IsValidIndex(authority: nat) { authority < Size() }

    /** The stake of a set of authorities, each counted once. */
    function StakeOf(authors: set<nat>): nat { StakeBelow(stakes, authors, |stakes|) }

    predicate IsQuorum(authors: set<nat>) { ReachedQuorum(StakeOf(authors)) }
  }

  /** Creating a committee fails when there are no authorities, too many of them, or no stake at all. */
  function New(epoch: nat, stakes: seq<nat>): (r: Option<Committee>)
    requires 2 * SumTo(stakes, |stakes|) <= U64_MAX
    ensures r.Some? ==> r.value.Valid() && r.value.stakes == stakes && r.value.epoch == epoch
    ensures r.None? <==> !Committee(epoch, stakes).Valid()
  {
    if |stakes| == 0 || |stakes| >= U32_MAX || SumTo(stakes, |stakes|) == 0 then None
    else Some(Committee(epoch, stakes))
  }

  // ----- arithmetic of stake over sets of authorities

  lemma {:induction false} StakeMonotone(stakes: seq<nat>, a: set<nat>, b: set<nat>, n: nat)
    requires n <= |stakes| && a <= b
    ensures StakeBelow(stakes, a, n) <= StakeBelow(stakes, b, n) <= SumTo(stakes, n)
  {
    if n == 0 {
    } else {
      StakeMonotone(stakes, a, b, n - 1);
    }
  }

  /** Stake is modular: two sets together hold what their union and their intersection hold. */
  lemma {:induction false} StakeModular(stakes: seq<nat>, a: set<nat>, b: set<nat>, n: nat)
    requires n <= |stakes|
    ensures StakeBelow(stakes, a, n) + StakeBelow(stakes, b, n)
         == StakeBelow(stakes, a + b, n) + StakeBelow(stakes, a * b, n)
  {
    if n == 0 {
    } else {
      StakeModular(stakes, a, b, n - 1);
    }
  }

  lemma {:induction false} StakeSingleton(stakes: seq<nat>, x: nat, n: nat)
    requires n <= |stakes|
    ensures StakeBelow(stakes, {x}, n) == if x < n then stakes[x] else 0
  {
    if n == 0 {
    } else {
      StakeSingleton(stakes, x, n - 1);
    }
  }

  lemma {:induction false} StakeEmpty(stakes: seq<nat>, n: nat)
    requires n <= |stakes|
    ensures StakeBelow(stakes, {}, n) == 0
  {
    if n == 0 {
    } else {
      StakeEmpty(stakes, n - 1);
    }
  }

  /** Counting one more authority adds its stake exactly when it was not counted before. */
  lemma StakeInsert(c: Committee, authors: set<nat>, x: nat)
    requires x < c.Size()
    ensures c.StakeOf(authors + {x}) == c.StakeOf(authors) + (if x in authors then 0 else c.Stake(x))
  {
    if x in authors {
      assert authors + {x} == authors;
    } else {
      assert authors * {x} == {};
      StakeModular(c.stakes, authors, {x}, |c.stakes|);
      StakeSingleton(c.stakes, x, |c.stakes|);
      StakeEmpty(c.stakes, |c.stakes|);
    }
  }

  // ----- thresholds

  /** `2f+1` and `f+1` are complementary: together they exceed the total by exactly one. */
  lemma ThresholdsComplementary(c: Committee)
    ensures c.QuorumThreshold() + c.ValidityThreshold() == c.TotalStake() + 1
  {
    var t := c.TotalStake();
    assert t == 3 * (t / 3) + t % 3;
  }

  /** Any two quorums share at least `ValidityThreshold()` stake. */
  lemma QuorumIntersection(c: Committee, a: set<nat>, b: set<nat>)
    requires c.IsQuorum(a) && c.IsQuorum(b)
    ensures c.ReachedValidity(c.StakeOf(a * b))
  {
    StakeModular(c.stakes, a, b, |c.stakes|);
    StakeMonotone(c.stakes, a + b, a + b, |c.stakes|);
    ThresholdsComplementary(c);
    var t := c.TotalStake();
    assert 2 * (2 * t / 3 + 1) >= t + (t + 2) / 3;
  }

  /** Hence two quorums share an authority outside any set that stays below validity. */
  lemma HonestInBoth(c: Committee, a: set<nat>, b: set<nat>, byzantine: set<nat>) returns (h: nat)
    requires c.IsQuorum(a) && c.IsQuorum(b)
    requires !c.ReachedValidity(c.StakeOf(byzantine))
    ensures h in a && h in b && h !in byzantine
  {
    QuorumIntersection(c, a, b);
    if a * b <= byzantine {
      StakeMonotone(c.stakes, a * b, byzantine, |c.stakes|);
      assert false;
    }
    h :| h in a * b && h !in byzantine;
  }

  /** A quorum is never empty. */
  lemma QuorumMember(c: Committee, a: set<nat>) returns (m: nat)
    requires c.IsQuorum(a)
    ensures m in a
  {
    if a == {} {
      StakeEmpty(c.stakes, |c.stakes|);
      assert false;
    }
    m :| m in a;
  }

  lemma QuorumMonotone(c: Committee, a: set<nat>, b: set<nat>)
    requires c.IsQuorum(a) && a <= b
    ensures c.IsQuorum(b)
  {
    StakeMonotone(c.stakes, a, b, |c.stakes|);
  }

  /** Votes of distinct authorities and the stake behind them. */
  class StakeAggregator {
    const committee: Committee
    var votes: set<nat>
    var stake: nat

    ghost predicate Valid()
      reads this
    {
      stake == committee.StakeOf(votes)
    }

    constructor (c: Committee)
      ensures Valid() && committee == c && votes == {}
    {
      committee := c;
      votes := {};
      stake := 0;
      StakeEmpty(c.stakes, |c.stakes|);
    }

    /** Counts a vote once per authority and says whether the voters now form a quorum. */
    method Add(vote: nat) returns (reached: bool)
      requires Valid() && vote < committee.Size()
      modifies this
      ensures Valid() && votes == old(votes) + {vote}
      ensures reached == committee.IsQuorum(votes)
    {
      StakeInsert(committee, votes, vote);
      if vote !in votes {
        votes := votes + {vote};
        stake := stake + committee.Stake(vote);
      } else {
        assert votes + {vote} == votes;
      }
      reached := committee.ReachedQuorum(stake);
    }
  }
}
