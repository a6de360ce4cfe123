/** The timestamp of a commit: the stake-weighted median over the leader's parents, kept monotonic. */
module CommitTimestamps {
  import opened Committees
  import opened Blocks
  import opened BlockVerifier
  import opened Dags
  import opened Agreement
  import opened OrderStatistics

  /** Timestamps with the stake of their authors. */
  function Timed(c: Committee, blocks: seq<Block>): (r: seq<Weighted>)
    requires forall b :: b in blocks ==> b.author < c.Size()
    ensures |r| == |blocks|
  {
    if blocks == [] then [] else [(blocks[0].timestamp, c.Stake(blocks[0].author))] + Timed(c, blocks[1..])
  }

  /** The smallest timestamp such that the blocks up to it hold more than half of all blocks' stake. */
  ghost predicate IsMedian(c: Committee, blocks: seq<Block>, m: nat)
    requires forall b :: b in blocks ==> b.author < c.Size()
  {
    IsQuorumPoint(false, Timed(c, blocks), Total(Timed(c, blocks)) / 2 + 1, m)
  }

  /** Fails without blocks or without a quorum of stake behind them. */
  method MedianTimestampByStake(c: Committee, blocks: seq<Block>) returns (r: Option<nat>)
    requires c.Valid() && forall b :: b in blocks ==> b.author < c.Size()
    ensures r.None? <==> Total(Timed(c, blocks)) < c.QuorumThreshold()
    ensures r.Some? ==> IsMedian(c, blocks, r.value)
  {
    var pairs := Timed(c, blocks);
    var total := 0;
    for i := 0 to |pairs|
      invariant total == Total(pairs[..i])
    {
      TotalAppend(pairs[..i], pairs[i]);
      assert pairs[..i + 1] == pairs[..i] + [pairs[i]];
      total := total + pairs[i].1;
    }
    assert pairs[..|pairs|] == pairs;
    if blocks == [] || total < c.QuorumThreshold() {
      return None;
    }
    r := FindQuorumPoint(false, pairs, total / 2 + 1);
  }

  // ----- blocks of different authors

  ghost predicate OnePerAuthor(blocks: seq<Block>) {
    forall i, j :: 0 <= i < j < |blocks| ==> blocks[i].author != blocks[j].author
  }

  /** Authors of the blocks with timestamps up to `bound`. */
  ghost function Early(blocks: seq<Block>, bound: int): set<nat> {
    set b | b in blocks && b.timestamp <= bound :: b.author
  }

  ghost function AuthorsOf(blocks: seq<Block>): set<nat> {
    set b | b in blocks :: b.author
  }

  lemma {:induction false} WeightIsEarlyStake(c: Committee, blocks: seq<Block>, bound: int)
    requires OnePerAuthor(blocks) && forall b :: b in blocks ==> b.author < c.Size()
    ensures Weight(false, Timed(c, blocks), bound) == c.StakeOf(Early(blocks, bound))
    ensures Total(Timed(c, blocks)) == c.StakeOf(AuthorsOf(blocks))
  {
    if blocks == [] {
      assert Early(blocks, bound) == {} && AuthorsOf(blocks) == {};
      StakeEmpty(c.stakes, |c.stakes|);
    } else {
      var b, rest := blocks[0], blocks[1..];
      WeightIsEarlyStake(c, rest, bound);
      assert blocks == [b] + rest && Timed(c, blocks)[1..] == Timed(c, rest);
      assert b.author !in AuthorsOf(rest) && b.author !in Early(rest, bound);
      assert AuthorsOf(blocks) == AuthorsOf(rest) + {b.author};
      assert Early(blocks, bound) == if b.timestamp <= bound then Early(rest, bound) + {b.author} else Early(rest, bound);
      StakeInsert(c, AuthorsOf(rest), b.author);
      StakeInsert(c, Early(rest, bound), b.author);
    }
  }

  /** Two bounds on one median coincide. */
  lemma MedianUnique(c: Committee, blocks: seq<Block>, m: nat, n: nat)
    requires forall b :: b in blocks ==> b.author < c.Size()
    requires IsMedian(c, blocks, m) && IsMedian(c, blocks, n)
    ensures m == n
  {
    assert (Ahead(false, m, n) <==> m < n) && (Ahead(false, n, m) <==> n < m);
  }

  /**
   * The median, exactly: the blocks up to it hold more than half of the stake behind all blocks, and the
   * blocks before it do not.
   */
  lemma MedianExact(c: Committee, blocks: seq<Block>, m: nat)
    requires OnePerAuthor(blocks) && forall b :: b in blocks ==> b.author < c.Size()
    ensures IsMedian(c, blocks, m) <==>
      && 2 * c.StakeOf(set b | b in blocks && b.timestamp <= m :: b.author) > c.StakeOf(AuthorsOf(blocks))
      && 2 * c.StakeOf(set b | b in blocks && b.timestamp < m :: b.author) <= c.StakeOf(AuthorsOf(blocks))
  {
    hide Weight, Timed, Total;
    var pairs, half := Timed(c, blocks), Total(Timed(c, blocks)) / 2 + 1;
    WeightIsEarlyStake(c, blocks, m);
    WeightIsEarlyStake(c, blocks, m - 1);
    assert (set b | b in blocks && b.timestamp <= m :: b.author) == Early(blocks, m);
    assert (set b | b in blocks && b.timestamp < m :: b.author) == Early(blocks, m - 1);
    assert Ahead(false, m - 1, m);
    if Weight(false, pairs, m) >= half && Weight(false, pairs, m - 1) < half {
      forall bound: int | Ahead(false, bound, m)
        ensures Weight(false, pairs, bound) < half
      {
        WeightIsEarlyStake(c, blocks, bound);
        assert Early(blocks, bound) <= Early(blocks, m - 1);
        StakeMonotone(c.stakes, Early(blocks, bound), Early(blocks, m - 1), |c.stakes|);
      }
    }
  }

  /**
   * Faulty authorities below the validity threshold cannot move the median outside the range of honest
   * timestamps: some honest block is not later and some honest block is not earlier.
   */
  lemma MedianBetweenHonest(c: Committee, blocks: seq<Block>, byzantine: set<nat>, m: nat)
      returns (low: Block, high: Block)
    requires OnePerAuthor(blocks) && forall b :: b in blocks ==> b.author < c.Size()
    requires Total(Timed(c, blocks)) >= c.QuorumThreshold() && IsMedian(c, blocks, m)
    requires !c.ReachedValidity(c.StakeOf(byzantine))
    ensures low in blocks && low.author !in byzantine && low.timestamp <= m
    ensures high in blocks && high.author !in byzantine && high.timestamp >= m
  {
    hide Weight, Timed, Total;
    var total := Total(Timed(c, blocks));
    HalfOfQuorum(c, total);
    WeightIsEarlyStake(c, blocks, m);
    low := HonestIn(c, blocks, byzantine, Early(blocks, m));
    WeightIsEarlyStake(c, blocks, m - 1);
    assert Ahead(false, m - 1, m);
    var late := AuthorsOf(blocks) - Early(blocks, m - 1);
    StakeSplit(c, AuthorsOf(blocks), Early(blocks, m - 1));
    high := HonestIn(c, blocks, byzantine, late);
  }

  /** Half of a quorum, rounded up, is at least the validity threshold. */
  lemma HalfOfQuorum(c: Committee, total: nat)
    requires total >= c.QuorumThreshold()
    ensures total / 2 + 1 >= c.ValidityThreshold() && total - total / 2 >= c.ValidityThreshold()
  {
    var t := c.TotalStake();
    assert t == 3 * (t / 3) + t % 3;
  }

  lemma StakeSplit(c: Committee, all: set<nat>, part: set<nat>)
    requires part <= all
    ensures c.StakeOf(all) == c.StakeOf(part) + c.StakeOf(all - part)
  {
    StakeModular(c.stakes, part, all - part, |c.stakes|);
    assert part + (all - part) == all && part * (all - part) == {};
    StakeEmpty(c.stakes, |c.stakes|);
  }

  lemma HonestIn(c: Committee, blocks: seq<Block>, byzantine: set<nat>, some: set<nat>) returns (b: Block)
    requires c.ReachedValidity(c.StakeOf(some)) && !c.ReachedValidity(c.StakeOf(byzantine))
    requires some <= AuthorsOf(blocks)
    ensures b in blocks && b.author in some && b.author !in byzantine
  {
    if some <= byzantine {
      StakeMonotone(c.stakes, some, byzantine, |c.stakes|);
      assert false;
    }
    var a :| a in some && a !in byzantine;
    assert a in AuthorsOf(blocks);
    b :| b in blocks && b.author == a;
  }

  // ----- the leader's parents

  /** The blocks of the round just below that `b` links to, in the order of its ancestors. */
  function ParentBlocks(d: Dag, b: Block, n: nat): seq<Block>
    requires n <= |b.ancestors| && forall a :: a in b.ancestors ==> a in d
  {
    if n == 0 then []
    else
      var rest := ParentBlocks(d, b, n - 1);
      if b.ancestors[n - 1].round + 1 == b.round then rest + [d[b.ancestors[n - 1]]] else rest
  }

  /** All of them, and nothing else. */
  lemma {:induction false} ParentBlocksExact(d: Dag, b: Block, n: nat, x: Block)
    requires n <= |b.ancestors| && forall a :: a in b.ancestors ==> a in d
    ensures x in ParentBlocks(d, b, n) <==>
      exists i :: 0 <= i < n && b.ancestors[i].round + 1 == b.round && d[b.ancestors[i]] == x
  {
    if n == 0 {
    } else {
      ParentBlocksExact(d, b, n - 1, x);
    }
  }

  lemma AppendAuthor(blocks: seq<Block>, x: Block)
    requires OnePerAuthor(blocks) && x.author !in AuthorsOf(blocks)
    ensures OnePerAuthor(blocks + [x]) && AuthorsOf(blocks + [x]) == AuthorsOf(blocks) + {x.author}
  {
    forall i | 0 <= i < |blocks|
      ensures blocks[i].author != x.author
    {
      assert blocks[i] in blocks && blocks[i].author in AuthorsOf(blocks);
    }
    forall b | b in blocks
      ensures b.author in AuthorsOf(blocks + [x])
    {
      assert b in blocks + [x];
    }
    assert x in blocks + [x];
  }

  lemma ParentAuthorsStep(b: Block, n: nat)
    requires DistinctAuthors(b) && 0 < n <= |b.ancestors|
    ensures var a := b.ancestors[n - 1];
            && a.author !in ParentAuthors(b, n - 1)
            && ParentAuthors(b, n) == ParentAuthors(b, n - 1) + if a.round + 1 == b.round then {a.author} else {}
  {
  }

  lemma NoParents(b: Block)
    ensures OnePerAuthor([]) && AuthorsOf([]) == {} && ParentAuthors(b, 0) == {}
  {
  }

  lemma AncestorFacts(ctx: Context, d: Dag, b: Block, i: nat)
    requires Closed(d) && WellFormed(ctx, b) && i < |b.ancestors| && forall a :: a in b.ancestors ==> a in d
    ensures var a := b.ancestors[i]; a in d && d[a].author == a.author < ctx.committee.Size()
    ensures DistinctAuthors(b)
  {
    assert b.ancestors[i] in b.ancestors;
  }

  /** The parents are blocks of different authors, those that the verifier requires to form a quorum. */
  lemma {:induction false} ParentsDistinct(ctx: Context, d: Dag, b: Block, n: nat)
    requires Closed(d) && WellFormed(ctx, b) && n <= |b.ancestors| && forall a :: a in b.ancestors ==> a in d
    ensures OnePerAuthor(ParentBlocks(d, b, n)) && AuthorsOf(ParentBlocks(d, b, n)) == ParentAuthors(b, n)
    ensures forall x :: x in ParentBlocks(d, b, n) ==> x.author < ctx.committee.Size()
  {
    hide OnePerAuthor, ParentAuthors, AuthorsOf, Closed, WellFormed;
    if n == 0 {
      NoParents(b);
    } else {
      ParentsDistinct(ctx, d, b, n - 1);
      var a := b.ancestors[n - 1];
      AncestorFacts(ctx, d, b, n - 1);
      ParentAuthorsStep(b, n);
      if a.round + 1 == b.round {
        AppendAuthor(ParentBlocks(d, b, n - 1), d[a]);
      }
    }
  }

  /** `m` is the median over the parents of `leader`. */
  ghost predicate IsLeaderMedian(ctx: Context, d: Dag, leader: BlockRef, m: nat)
    requires Verified(ctx, d) && leader in d && leader.round > GENESIS_ROUND
  {
    ParentsDistinct(ctx, d, d[leader], |d[leader].ancestors|);
    IsMedian(ctx.committee, ParentBlocks(d, d[leader], |d[leader].ancestors|), m)
  }

  /** The commit's own time and the previous commit's, whichever is later. */
  ghost predicate IsCommitTime(ctx: Context, median: bool, d: Dag, leader: BlockRef, last: nat, time: nat)
    requires Verified(ctx, d) && leader in d && leader.round > GENESIS_ROUND
  {
    if median then exists m :: IsLeaderMedian(ctx, d, leader, m) && time == Max(m, last)
    else time == Max(d[leader].timestamp, last)
  }

  function Max(a: nat, b: nat): nat { if a < b then b else a }

  /** A verified leader always has a commit time: its own or the previous one, whichever is later. */
  method CalculateCommitTimestamp(ctx: Context, median: bool, d: Dag, leader: BlockRef, last: nat)
      returns (panicked: bool, time: nat)
    requires ctx.committee.Valid() && Verified(ctx, d) && leader in d && leader.round > GENESIS_ROUND
    ensures !panicked && IsCommitTime(ctx, median, d, leader, last, time)
    ensures !median ==> time >= last && time >= d[leader].timestamp && (time == last || time == d[leader].timestamp)
    ensures median ==>
      exists m :: IsLeaderMedian(ctx, d, leader, m) && time >= last && time >= m && (time == last || time == m)
  {
    hide WellFormed, IsMedian, OnePerAuthor;
    var b := d[leader];
    panicked, time := false, Max(b.timestamp, last);
    ParentsDistinct(ctx, d, b, |b.ancestors|);
    var parents := ParentBlocks(d, b, |b.ancestors|);
    ParentsQuorumStake(ctx, d, b);
    if median {
      var m := MedianTimestampByStake(ctx.committee, parents);
      if m.None? {
        return true, time;
      }
      assert IsLeaderMedian(ctx, d, leader, m.value);
      time := Max(m.value, last);
    }
  }

  lemma ParentsQuorumStake(ctx: Context, d: Dag, b: Block)
    requires Closed(d) && WellFormed(ctx, b) && forall a :: a in b.ancestors ==> a in d
    ensures var parents := ParentBlocks(d, b, |b.ancestors|);
            && OnePerAuthor(parents) && (forall x :: x in parents ==> x.author < ctx.committee.Size())
            && Total(Timed(ctx.committee, parents)) >= ctx.committee.QuorumThreshold()
  {
    ParentsDistinct(ctx, d, b, |b.ancestors|);
    WeightIsEarlyStake(ctx.committee, ParentBlocks(d, b, |b.ancestors|), 0);
  }

  /** Two views give a commit the same time, if they gave the previous one the same. */
  lemma CommitTimesAgree(ctx: Context, median: bool, u: Dag, v: Dag, w: Dag, leader: BlockRef, last: nat, s: nat, t: nat)
    requires Verified(ctx, u) && Verified(ctx, v) && Verified(ctx, w) && View(v, u) && View(w, u)
    requires leader in v && leader in w && leader.round > GENESIS_ROUND
    requires IsCommitTime(ctx, median, v, leader, last, s) && IsCommitTime(ctx, median, w, leader, last, t)
    ensures s == t
  {
    hide WellFormed, IsMedian;
    var b := u[leader];
    var n := |b.ancestors|;
    ParentsLocal(v, u, b, n);
    ParentsLocal(w, u, b, n);
    ParentsDistinct(ctx, v, b, n);
    if median {
      var i :| IsLeaderMedian(ctx, v, leader, i) && s == Max(i, last);
      var j :| IsLeaderMedian(ctx, w, leader, j) && t == Max(j, last);
      MedianUnique(ctx.committee, ParentBlocks(v, b, n), i, j);
    }
  }

  lemma {:induction false} ParentsLocal(v: Dag, u: Dag, b: Block, n: nat)
    requires View(v, u) && n <= |b.ancestors| && forall a :: a in b.ancestors ==> a in v
    ensures ParentBlocks(v, b, n) == ParentBlocks(u, b, n)
  {
    if n == 0 {
    } else {
      ParentsLocal(v, u, b, n - 1);
      assert b.ancestors[n - 1] in b.ancestors;
    }
  }

  /** Before the previous commit is taken into account, a leader's median lies between honest timestamps. */
  lemma CommitTimeBetweenHonest(ctx: Context, u: Dag, byzantine: set<nat>, leader: BlockRef, m: nat)
      returns (low: BlockRef, high: BlockRef)
    requires Universe(ctx, u, byzantine) && leader in u && leader.round > GENESIS_ROUND
    requires IsLeaderMedian(ctx, u, leader, m)
    ensures low in u[leader].ancestors && low.author !in byzantine && u[low].timestamp <= m
    ensures high in u[leader].ancestors && high.author !in byzantine && u[high].timestamp >= m
  {
    hide WellFormed, IsMedian, OnePerAuthor, Total, Timed;
    var b := u[leader];
    var parents := ParentBlocks(u, b, |b.ancestors|);
    ParentsQuorumStake(ctx, u, b);
    var x, y := MedianBetweenHonest(ctx.committee, parents, byzantine, m);
    low := ParentRef(u, b, |b.ancestors|, x);
    high := ParentRef(u, b, |b.ancestors|, y);
  }

  lemma {:induction false} ParentRef(d: Dag, b: Block, n: nat, x: Block) returns (a: BlockRef)
    requires Closed(d) && n <= |b.ancestors| && (forall a :: a in b.ancestors ==> a in d) && x in ParentBlocks(d, b, n)
    ensures a in b.ancestors && d[a] == x && a.author == x.author
  {
    a := b.ancestors[n - 1];
    assert a in b.ancestors;
    if d[a] != x || a.round + 1 != b.round {
      a := ParentRef(d, b, n - 1, x);
    }
  }
}
