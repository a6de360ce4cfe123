/** The committer as it runs: loops over stored blocks, a stake aggregator, and a cache of votes. */
module BaseCommitter {
  import opened Sequences
  import opened Committees
  import opened Blocks
  import opened BlockVerifier
  import opened Dags
  import opened CommitRule
  import opened Agreement

  /** One committer of the pipeline; all share the wave length. */
  datatype Options = Options(leaderOffset: nat, roundOffset: nat) {

    function WaveNumber(round: nat): nat {
      (if round > roundOffset then round - roundOffset else 0) / WAVE_LENGTH
    }

    function LeaderRound(wave: nat): nat { wave * WAVE_LENGTH + roundOffset }

    function DecisionRound(wave: nat): nat { wave * WAVE_LENGTH + WAVE_LENGTH - 1 + roundOffset }

    /** Whether this committer has a leader in `round`. */
    predicate Leads(round: nat) { LeaderRound(WaveNumber(round)) == round }
  }

  /** Elects the authority of a round, the same way for everyone. */
  type Schedule = (nat, nat) -> nat

  function ElectLeader(o: Options, schedule: Schedule, round: nat): (slot: Option<Slot>)
    ensures slot.Some? <==> round >= o.roundOffset && (round - o.roundOffset) % WAVE_LENGTH == 0
    ensures slot.Some? ==> slot.value == Slot(round, schedule(round, o.leaderOffset)) && o.Leads(round)
  {
    if !o.Leads(round) then None else Some(Slot(round, schedule(round, o.leaderOffset)))
  }

  // ----- reading the DAG

  /** The elements of a set of references as a list, in some order. */
  method Listing(refs: set<BlockRef>) returns (s: seq<BlockRef>)
    ensures forall r :: r in s <==> r in refs
    ensures NoRepeats(s)
  {
    s := [];
    var rest := refs;
    while rest != {}
      invariant rest <= refs
      invariant forall r :: r in s <==> r in refs && r !in rest
      invariant NoRepeats(s)
      decreases rest
    {
      var r :| r in rest;
      s := s + [r];
      rest := rest - {r};
    }
  }

  /** Accepted blocks of a round; genesis blocks are kept apart from accepted ones. */
  method UncommittedBlocksAtRound(d: Dag, round: nat) returns (s: seq<BlockRef>)
    ensures forall r :: r in s <==> r in d && r.round == round && round > GENESIS_ROUND
    ensures NoRepeats(s)
  {
    s := Listing(set r | r in d && r.round == round && round > GENESIS_ROUND);
  }

  method UncommittedBlocksAtSlot(d: Dag, slot: Slot) returns (s: seq<BlockRef>)
    ensures forall r :: r in s <==> r in d && r.ToSlot() == slot && r.round > GENESIS_ROUND
    ensures NoRepeats(s)
  {
    s := Listing(set r | r in d && r.ToSlot() == slot && r.round > GENESIS_ROUND);
  }

  lemma {:induction false} GreatestExists(s: set<BlockRef>) returns (m: BlockRef)
    requires s != {}
    ensures m in s && forall x :: x in s && x != m ==> x.Less(m)
    decreases |s|
  {
    m :| m in s;
    var first, rest := m, s - {m};
    assert forall x :: x in s ==> x == first || x in rest;
    if rest != {} {
      assert |rest| < |s|;
      var k := GreatestExists(rest);
      if m.Less(k) {
        m := k;
      }
    }
  }

  /** The history of `later` at or below `e` is all at or below `linked`, and `linked` is in that history. */
  ghost predicate Covers(d: Dag, later: BlockRef, linked: set<BlockRef>, e: nat) {
    && (forall x :: x in linked ==> x in d && InPast(d, later, x))
    && (forall y :: InPast(d, later, y) && y.round <= e ==> exists x :: x in linked && AtOrBelow(d, x, y))
  }

  lemma CoversInitially(d: Dag, later: BlockRef, e: nat)
    requires Closed(d) && later in d
    ensures Covers(d, later, (set a | a in d[later].ancestors), e)
    ensures (set a | a in d[later].ancestors) <= d.Keys
  {
    hide InPast;
    var linked := set a | a in d[later].ancestors;
    forall y | InPast(d, later, y) && y.round <= e ensures exists x :: x in linked && AtOrBelow(d, x, y) {
      PastSplit(d, later, y);
      var a :| a in d[later].ancestors && AtOrBelow(d, a, y);
      assert a in linked;
    }
    forall x | x in linked ensures x in d && InPast(d, later, x) {
      PastSplit(d, later, x);
      assert AtOrBelow(d, x, x);
    }
  }

  /** Replacing a block above `e` by its ancestors loses nothing. */
  lemma CoversStep(d: Dag, later: BlockRef, before: set<BlockRef>, last: BlockRef, after: set<BlockRef>, e: nat)
    requires Closed(d) && Covers(d, later, before, e) && last in before && last.round > e
    requires after == (before - {last}) + (set a | a in d[last].ancestors)
    ensures Covers(d, later, after, e) && after <= d.Keys
    ensures forall a :: a in d[last].ancestors ==> a.Less(last)
  {
    hide InPast;
    forall y | InPast(d, later, y) && y.round <= e ensures exists x :: x in after && AtOrBelow(d, x, y) {
      var x :| x in before && AtOrBelow(d, x, y);
      if x == last {
        PastSplit(d, last, y);
        var a :| a in d[last].ancestors && AtOrBelow(d, a, y);
        assert a in after;
      } else {
        assert x in after;
      }
    }
    forall x | x in after ensures x in d && InPast(d, later, x) {
      if x in d[last].ancestors {
        PastSplit(d, last, x);
        assert AtOrBelow(d, x, x);
        PastTransitive(d, later, last, x);
      }
    }
  }

  lemma CoversAtTheEnd(d: Dag, later: BlockRef, linked: set<BlockRef>, e: nat, y: BlockRef)
    requires Closed(d) && Covers(d, later, linked, e) && forall x :: x in linked ==> x.round <= e
    ensures y in linked && y.round >= e <==> InPast(d, later, y) && y.round == e
  {
    hide InPast, Closed;
    if InPast(d, later, y) && y.round == e {
      var x :| x in linked && AtOrBelow(d, x, y);
      if x != y {
        PastLower(d, x, y);
      }
    }
  }

  /** Walks down from the greatest reference; what is left is the causal history at `earlierRound`. */
  method AncestorsAtRound(d: Dag, later: BlockRef, earlierRound: nat) returns (s: seq<BlockRef>)
    requires Closed(d) && later in d
    ensures forall y :: y in s <==> InPast(d, later, y) && y.round == earlierRound
  {
    hide Covers, InPast, Closed;
    var linked := set a | a in d[later].ancestors;
    CoversInitially(d, later, earlierRound);
    ghost var popped: set<BlockRef> := {};
    while linked != {}
      invariant linked <= d.Keys && Covers(d, later, linked, earlierRound)
      invariant popped <= d.Keys && forall x, p :: x in linked && p in popped ==> x.Less(p)
      decreases |d.Keys - popped|
    {
      var last := Last(linked);
      if last.round <= earlierRound {
        break;
      }
      var rest := (linked - {last}) + (set a | a in d[last].ancestors);
      CoversStep(d, later, linked, last, rest, earlierRound);
      assert last !in popped;
      SubsetSmaller(d.Keys - (popped + {last}), d.Keys - popped);
      linked, popped := rest, popped + {last};
    }
    forall y ensures y in linked && y.round >= earlierRound <==> InPast(d, later, y) && y.round == earlierRound {
      CoversAtTheEnd(d, later, linked, earlierRound, y);
    }
    s := Listing(set x | x in linked && x.round >= earlierRound);
  }

  /** The greatest reference of a set. */
  method Last(refs: set<BlockRef>) returns (last: BlockRef)
    requires refs != {}
    ensures last in refs && forall x :: x in refs ==> x.round <= last.round && (x == last || x.Less(last))
  {
    ghost var g := GreatestExists(refs);
    last :| last in refs && forall x :: x in refs && x != last ==> x.Less(last);
    assert forall x :: x in refs ==> x == last || x.Less(last);
  }

  lemma SubsetSmaller(a: set<BlockRef>, b: set<BlockRef>)
    requires a < b
    ensures |a| < |b|
  {
    assert b == a + (b - a);
    assert |b| == |a| + |b - a|;
  }

  // ----- certificates, with the cache of votes

  /** Every cached answer is the right one for this leader. */
  ghost predicate CacheSound(d: Dag, leader: BlockRef, cache: map<BlockRef, bool>)
    requires Closed(d)
  {
    forall r :: r in cache ==> r in d && cache[r] == IsVote(d, r, leader)
  }

  /** Authors among the first `n` ancestors that vote for `leader`. */
  ghost function VotersAmong(d: Dag, cert: BlockRef, leader: BlockRef, n: nat): set<nat>
    requires Closed(d) && cert in d && n <= |d[cert].ancestors|
  {
    set k | 0 <= k < n && IsVote(d, d[cert].ancestors[k], leader) :: d[cert].ancestors[k].author
  }

  ghost predicate ValidAuthors(c: Committee, d: Dag, r: BlockRef)
    requires r in d
  {
    c.IsValidIndex(r.author) && forall a :: a in d[r].ancestors ==> c.IsValidIndex(a.author)
  }

  /** Tests a certificate with early exit; the cache changes no answer and stays sound. */
  method TestCertificate(c: Committee, d: Dag, cert: BlockRef, leader: BlockRef, cache: map<BlockRef, bool>)
    returns (r: bool, allVotes: map<BlockRef, bool>)
    requires Closed(d) && cert in d && ValidAuthors(c, d, cert) && CacheSound(d, leader, cache)
    ensures r == IsCertificate(c, d, cert, leader)
    ensures CacheSound(d, leader, allVotes)
  {
    allVotes := cache;
    var ancestors := d[cert].ancestors;
    var aggregator := new StakeAggregator(c);
    StakeEmpty(c.stakes, |c.stakes|);
    for i := 0 to |ancestors|
      invariant CacheSound(d, leader, allVotes)
      invariant aggregator.Valid() && aggregator.committee == c && fresh(aggregator)
      invariant aggregator.votes == VotersAmong(d, cert, leader, i) && !c.IsQuorum(aggregator.votes)
    {
      var reference := ancestors[i];
      assert reference in ancestors;
      var isVote;
      if reference in allVotes {
        isVote := allVotes[reference];
      } else {
        isVote := IsVote(d, reference, leader);
        allVotes := allVotes[reference := isVote];
      }
      assert VotersAmong(d, cert, leader, i + 1)
          == VotersAmong(d, cert, leader, i) + (if isVote then {reference.author} else {});
      if isVote {
        var reached := aggregator.Add(reference.author);
        if reached {
          QuorumMonotone(c, aggregator.votes, Voters(d, cert, leader));
          return true, allVotes;
        }
      }
    }
    assert VotersAmong(d, cert, leader, |ancestors|) == Voters(d, cert, leader);
    return false, allVotes;
  }

  // ----- blame and support

  method TestBlame(b: Block, leader: nat) returns (r: bool)
    ensures r == IsBlame(b, leader)
  {
    for i := 0 to |b.ancestors|
      invariant forall k :: 0 <= k < i ==> b.ancestors[k].author != leader
    {
      if b.ancestors[i].author == leader {
        assert b.ancestors[i] in b.ancestors;
        return false;
      }
    }
    return true;
  }

  method EnoughLeaderBlame(c: Committee, d: Dag, votingRound: nat, leader: nat) returns (r: bool)
    requires votingRound > GENESIS_ROUND
    requires forall x :: x in d && x.round == votingRound ==> c.IsValidIndex(x.author)
    ensures r == c.IsQuorum(Blamers(d, votingRound, leader))
  {
    var blocks := UncommittedBlocksAtRound(d, votingRound);
    var aggregator := new StakeAggregator(c);
    StakeEmpty(c.stakes, |c.stakes|);
    for i := 0 to |blocks|
      invariant aggregator.Valid() && aggregator.committee == c && fresh(aggregator)
      invariant !c.IsQuorum(aggregator.votes) && aggregator.votes <= Blamers(d, votingRound, leader)
      invariant forall k :: 0 <= k < i && IsBlame(d[blocks[k]], leader) ==> blocks[k].author in aggregator.votes
    {
      assert blocks[i] in blocks;
      var blame := TestBlame(d[blocks[i]], leader);
      if blame {
        var reached := aggregator.Add(blocks[i].author);
        if reached {
          QuorumMonotone(c, aggregator.votes, Blamers(d, votingRound, leader));
          return true;
        }
      }
    }
    assert Blamers(d, votingRound, leader) == aggregator.votes;
    return false;
  }

  /** The stake of the blocks' authors, an author counted once per block. */
  function SumOfStakes(c: Committee, blocks: seq<BlockRef>): nat
    requires forall b :: b in blocks ==> c.IsValidIndex(b.author)
  {
    if blocks == [] then 0
    else
      var last := blocks[|blocks| - 1];
      assert c.IsValidIndex(last.author);
      SumOfStakes(c, blocks[..|blocks| - 1]) + c.Stake(last.author)
  }

  /** Counting equivocators several times only overestimates, so the quick reject is safe. */
  lemma {:induction false} SumOverestimates(c: Committee, blocks: seq<BlockRef>)
    requires forall b :: b in blocks ==> c.IsValidIndex(b.author)
    ensures c.StakeOf(Authors(blocks)) <= SumOfStakes(c, blocks)
  {
    if blocks == [] {
      assert Authors(blocks) == {};
      StakeEmpty(c.stakes, |c.stakes|);
    } else {
      var n := |blocks| - 1;
      SumOverestimates(c, blocks[..n]);
      assert blocks == blocks[..n] + [blocks[n]];
      assert Authors(blocks) == Authors(blocks[..n]) + {blocks[n].author};
      StakeInsert(c, Authors(blocks[..n]), blocks[n].author);
    }
  }

  method TotalStake(c: Committee, blocks: seq<BlockRef>) returns (total: nat)
    requires forall b :: b in blocks ==> c.IsValidIndex(b.author)
    ensures total == SumOfStakes(c, blocks)
  {
    total := 0;
    for i := 0 to |blocks|
      invariant total == SumOfStakes(c, blocks[..i])
    {
      assert blocks[..i + 1][..i] == blocks[..i];
      total := total + c.Stake(blocks[i].author);
    }
    assert blocks[..|blocks|] == blocks;
  }

  /**
   * Quick reject, shared cache and early exit together decide exactly whether distinct authors with
   * a certificate for the leader hold a quorum.
   */
  method EnoughLeaderSupport(c: Committee, d: Dag, decisionRound: nat, leader: BlockRef) returns (r: bool)
    requires Closed(d) && decisionRound > GENESIS_ROUND
    requires forall x :: x in d && x.round == decisionRound ==> ValidAuthors(c, d, x)
    ensures r == c.IsQuorum(Certifiers(c, d, decisionRound, leader))
  {
    var blocks := UncommittedBlocksAtRound(d, decisionRound);
    var total := TotalStake(c, blocks);
    if !c.ReachedQuorum(total) {
      SumOverestimates(c, blocks);
      StakeMonotone(c.stakes, Certifiers(c, d, decisionRound, leader), Authors(blocks), |c.stakes|);
      return false;
    }
    var aggregator := new StakeAggregator(c);
    StakeEmpty(c.stakes, |c.stakes|);
    var allVotes: map<BlockRef, bool> := map[];
    for i := 0 to |blocks|
      invariant aggregator.Valid() && aggregator.committee == c && fresh(aggregator)
      invariant CacheSound(d, leader, allVotes)
      invariant !c.IsQuorum(aggregator.votes) && aggregator.votes <= Certifiers(c, d, decisionRound, leader)
      invariant forall k :: 0 <= k < i && IsCertificate(c, d, blocks[k], leader) ==> blocks[k].author in aggregator.votes
    {
      assert blocks[i] in blocks;
      var certifies;
      certifies, allVotes := TestCertificate(c, d, blocks[i], leader, allVotes);
      if certifies {
        var reached := aggregator.Add(blocks[i].author);
        if reached {
          QuorumMonotone(c, aggregator.votes, Certifiers(c, d, decisionRound, leader));
          return true;
        }
      }
    }
    assert Certifiers(c, d, decisionRound, leader) == aggregator.votes;
    return false;
  }

  // ----- the two rules

  /** Verified blocks above genesis carry valid authority indices. */
  lemma ViewAuthors(ctx: Context, u: Dag, v: Dag)
    requires Verified(ctx, u) && View(v, u)
    ensures forall x :: x in v && x.round > GENESIS_ROUND ==> ValidAuthors(ctx.committee, v, x)
  {
  }

  /** The decision round of an elected leader is two rounds above it. */
  lemma LeaderDecisionRound(o: Options, round: nat)
    requires o.Leads(round)
    ensures o.DecisionRound(o.WaveNumber(round)) == round + WAVE_LENGTH - 1
  {
  }

  /** The leader blocks of the slot with enough support. */
  method SupportedLeaders(c: Committee, v: Dag, slot: Slot, decisionRound: nat) returns (supported: seq<BlockRef>)
    requires Closed(v) && decisionRound == slot.round + WAVE_LENGTH - 1
    requires forall x :: x in v && x.round > GENESIS_ROUND ==> ValidAuthors(c, v, x)
    ensures NoRepeats(supported)
    ensures forall l :: l in supported <==> DirectCommit(c, v, slot, l)
  {
    hide IsCertificate, Closed, ValidAuthors;
    var leaderBlocks := UncommittedBlocksAtSlot(v, slot);
    supported := [];
    for i := 0 to |leaderBlocks|
      invariant forall l :: l in supported <==> l in leaderBlocks[..i] && DirectCommit(c, v, slot, l)
      invariant NoRepeats(supported)
    {
      var l := leaderBlocks[i];
      assert l in leaderBlocks && l !in leaderBlocks[..i];
      var enough := EnoughLeaderSupport(c, v, decisionRound, l);
      assert enough == DirectCommit(c, v, slot, l);
      if enough {
        supported := supported + [l];
      }
      assert leaderBlocks[..i + 1] == leaderBlocks[..i] + [l];
    }
    assert leaderBlocks[..|leaderBlocks|] == leaderBlocks;
  }

  lemma SkipFirst(c: Committee, v: Dag, slot: Slot)
    requires Closed(v) && DirectSkip(c, v, slot)
    ensures DirectDecide(c, v, slot) == Skip(slot)
  {
  }

  /** What the direct rule answers, given the list of supported leader blocks. */
  lemma DirectDecideCases(c: Committee, v: Dag, slot: Slot, supported: seq<BlockRef>)
    requires Closed(v) && |supported| <= 1
    requires forall l :: l in supported <==> DirectCommit(c, v, slot, l)
    ensures !DirectSkip(c, v, slot) ==>
      DirectDecide(c, v, slot) == if |supported| == 1 then Commit(supported[0]) else Undecided(slot)
  {
    hide DirectSkip, DirectCommit;
    if |supported| == 1 {
      assert supported[0] in supported;
    }
  }

  method TryDirectDecide(ctx: Context, o: Options, ghost u: Dag, ghost byzantine: set<nat>, v: Dag, slot: Slot)
    returns (status: LeaderStatus)
    requires Universe(ctx, u, byzantine) && View(v, u) && o.Leads(slot.round)
    ensures status == DirectDecide(ctx.committee, v, slot)
  {
    ViewAuthors(ctx, u, v);
    LeaderDecisionRound(o, slot.round);
    hide WellFormed, DirectCommit, DirectDecide, Bft, Closed;
    var blamed := EnoughLeaderBlame(ctx.committee, v, slot.round + 1, slot.authority);
    var decisionRound := o.DecisionRound(o.WaveNumber(slot.round));
    if blamed {
      SkipFirst(ctx.committee, v, slot);
      return Skip(slot);
    }
    var supported := SupportedLeaders(ctx.committee, v, slot, decisionRound);
    AtMostOneSupported(ctx, u, byzantine, v, slot, supported);
    DirectDecideCases(ctx.committee, v, slot, supported);
    if |supported| > 1 {
      assert false; // the panic about more than one certified block
    }
    return if |supported| == 1 then Commit(supported[0]) else Undecided(slot);
  }

  /** The list of supported leader blocks never holds two entries. */
  lemma AtMostOneSupported(ctx: Context, u: Dag, byzantine: set<nat>, v: Dag, slot: Slot, supported: seq<BlockRef>)
    requires Universe(ctx, u, byzantine) && View(v, u) && NoRepeats(supported)
    requires forall l :: l in supported ==> DirectCommit(ctx.committee, v, slot, l)
    ensures |supported| <= 1
  {
    if |supported| > 1 {
      var l, m := supported[0], supported[1];
      assert l in supported && m in supported;
      DirectCommitUnique(ctx, u, byzantine, v, v, slot, l, m);
    }
  }

  /** Likewise for the leader blocks certified below an anchor. */
  lemma AtMostOneCertified(
    ctx: Context, u: Dag, byzantine: set<nat>, v: Dag, anchor: BlockRef, slot: Slot, certified: seq<BlockRef>)
    requires Universe(ctx, u, byzantine) && View(v, u) && NoRepeats(certified)
    requires forall l :: l in certified ==> CertifiedBelow(ctx.committee, v, anchor, slot, l)
    ensures |certified| <= 1
  {
    if |certified| > 1 {
      var l, m := certified[0], certified[1];
      assert l in certified && m in certified;
      CertifiedBelowUnique(ctx, u, byzantine, v, anchor, slot, l, m);
    }
  }

  /** The potential certificates: blocks of the decision round in the causal history of the anchor. */
  method PotentialCertificates(ctx: Context, ghost u: Dag, v: Dag, anchor: BlockRef, decisionRound: nat)
    returns (potential: seq<BlockRef>)
    requires Verified(ctx, u) && View(v, u) && anchor in v && decisionRound > GENESIS_ROUND
    ensures forall x :: x in potential ==> x in v && ValidAuthors(ctx.committee, v, x)
    ensures forall x :: x in potential <==> InPast(v, anchor, x) && x.round == decisionRound
  {
    hide InPast;
    potential := AncestorsAtRound(v, anchor, decisionRound);
    ViewAuthors(ctx, u, v);
    forall x | x in potential ensures x in v && ValidAuthors(ctx.committee, v, x) {
      PastLower(v, anchor, x);
    }
  }

  /** The leader blocks of the slot with a certificate in the causal history of the anchor. */
  method CertifiedLeaders(c: Committee, v: Dag, anchor: BlockRef, slot: Slot, potential: seq<BlockRef>)
    returns (certified: seq<BlockRef>)
    requires Closed(v)
    requires forall x :: x in potential ==> x in v && ValidAuthors(c, v, x)
    requires forall x :: x in potential <==> InPast(v, anchor, x) && x.round == slot.round + WAVE_LENGTH - 1
    ensures NoRepeats(certified)
    ensures forall l :: l in certified <==> CertifiedBelow(c, v, anchor, slot, l)
  {
    hide CertifiedBelow, InPast, Closed, ValidAuthors;
    var leaderBlocks := UncommittedBlocksAtSlot(v, slot);
    certified := [];
    for i := 0 to |leaderBlocks|
      invariant forall l :: l in certified <==> l in leaderBlocks[..i] && CertifiedBelow(c, v, anchor, slot, l)
      invariant NoRepeats(certified)
    {
      var l := leaderBlocks[i];
      assert l in leaderBlocks && l !in leaderBlocks[..i];
      var any := AnyCertificate(c, v, anchor, slot, potential, l);
      if any {
        certified := certified + [l];
      }
      assert leaderBlocks[..i + 1] == leaderBlocks[..i] + [l];
    }
    assert leaderBlocks[..|leaderBlocks|] == leaderBlocks;
    forall l | CertifiedBelow(c, v, anchor, slot, l) ensures l in leaderBlocks {
      CertifiedBelowAtSlot(c, v, anchor, slot, l);
    }
  }

  lemma CertifiedBelowAtSlot(c: Committee, v: Dag, anchor: BlockRef, slot: Slot, l: BlockRef)
    requires Closed(v) && CertifiedBelow(c, v, anchor, slot, l)
    ensures l in v && l.ToSlot() == slot && l.round > GENESIS_ROUND
  {
  }

  method DecideLeaderFromAnchor(
    ctx: Context, o: Options, ghost u: Dag, ghost byzantine: set<nat>, v: Dag, anchor: BlockRef, slot: Slot)
    returns (status: LeaderStatus)
    requires Universe(ctx, u, byzantine) && View(v, u) && anchor in v && o.Leads(slot.round)
    ensures status == DecideFromAnchor(ctx.committee, v, anchor, slot)
  {
    hide WellFormed, CertifiedBelow, Bft;
    LeaderDecisionRound(o, slot.round);
    var decisionRound := o.DecisionRound(o.WaveNumber(slot.round));
    var potential := PotentialCertificates(ctx, u, v, anchor, decisionRound);
    var certified := CertifiedLeaders(ctx.committee, v, anchor, slot, potential);
    AtMostOneCertified(ctx, u, byzantine, v, anchor, slot, certified);
    if |certified| > 1 {
      assert false; // the panic about more than one certified block
    }
    if |certified| == 1 {
      assert certified[0] in certified;
      return Commit(certified[0]);
    }
    return Skip(slot);
  }

  /** Whether some potential certificate below the anchor certifies the leader block. */
  method AnyCertificate(c: Committee, v: Dag, anchor: BlockRef, slot: Slot, potential: seq<BlockRef>, leader: BlockRef)
    returns (r: bool)
    requires Closed(v) && leader in v && leader.ToSlot() == slot && leader.round > GENESIS_ROUND
    requires forall x :: x in potential ==> x in v && ValidAuthors(c, v, x)
    requires forall x :: x in potential <==> InPast(v, anchor, x) && x.round == slot.round + WAVE_LENGTH - 1
    ensures r == CertifiedBelow(c, v, anchor, slot, leader)
  {
    var allVotes: map<BlockRef, bool> := map[];
    for i := 0 to |potential|
      invariant CacheSound(v, leader, allVotes)
      invariant forall k :: 0 <= k < i ==> !IsCertificate(c, v, potential[k], leader)
    {
      assert potential[i] in potential;
      var certifies;
      certifies, allVotes := TestCertificate(c, v, potential[i], leader, allVotes);
      if certifies {
        return true;
      }
    }
    return false;
  }

  /** Decides from the anchor, passing over skipped leaders and stopping at the first undecided one. */
  method TryIndirectDecide(
    ctx: Context, o: Options, ghost u: Dag, ghost byzantine: set<nat>, v: Dag, slot: Slot, leaders: seq<LeaderStatus>)
    returns (status: LeaderStatus)
    requires Universe(ctx, u, byzantine) && View(v, u) && o.Leads(slot.round)
    requires forall x :: x in leaders && x.Commit? ==> x.block in v
    ensures status == IndirectDecide(ctx.committee, v, slot, leaders)
    ensures forall i: nat :: AnchorAt(leaders, slot.round, i) ==>
      status == DecideFromAnchor(ctx.committee, v, leaders[i].block, slot)
    ensures (forall i: nat :: !AnchorAt(leaders, slot.round, i)) ==> status == Undecided(slot)
  {
    hide WellFormed, DecideFromAnchor, Bft, Closed, Options.Leads, AnchorAt;
    IndirectDecideExact(ctx.committee, v, slot, leaders);
    var minRound := slot.round + WAVE_LENGTH;
    for i := 0 to |leaders|
      invariant FirstAnchor(leaders, minRound) == FirstAnchor(leaders[i..], minRound)
    {
      assert leaders[i..][0] == leaders[i] && leaders[i..][1..] == leaders[i + 1..];
      if minRound <= leaders[i].Round() {
        match leaders[i] {
          case Commit(anchor) =>
            assert leaders[i] in leaders;
            status := DecideLeaderFromAnchor(ctx, o, u, byzantine, v, anchor, slot);
            return;
          case Skip(_) =>
          case Undecided(_) =>
            break;
        }
      }
    }
    return Undecided(slot);
  }
}
