/** A small committee for concrete runs: authority 3 is a quorum by itself. */
module HeavyAuthority {
  import opened Committees
  import opened Blocks
  import opened BlockVerifier

  const COMMITTEE := Committee(0, [1, 1, 1, 9])
  const G0 := Block(0, 0, 0, 0, 0, [], [])
  const G1 := Block(0, 0, 1, 0, 0, [], [])
  const G2 := Block(0, 0, 2, 0, 0, [], [])
  const G3 := Block(0, 0, 3, 0, 0, [], [])

  // The first blocks of authority 3.
  const H1 := Block(0, 1, 3, 0, 0, [G3.Ref()], [])
  const H2 := Block(0, 2, 3, 0, 0, [H1.Ref()], [])
  const H3 := Block(0, 3, 3, 0, 0, [H2.Ref()], [])
  const H4 := Block(0, 4, 3, 0, 0, [H3.Ref()], [])

  ghost const GENESIS: set<BlockRef> := {G0.Ref(), G1.Ref(), G2.Ref(), G3.Ref()}
  ghost const CTX := Context(COMMITTEE, GENESIS)

  lemma HeavyQuorum()
    ensures COMMITTEE.IsQuorum({3}) && !COMMITTEE.ReachedValidity(COMMITTEE.StakeOf({1}))
  {
    var s := COMMITTEE.stakes;
    StakeSingleton(s, 3, 4);
    StakeSingleton(s, 1, 4);
    assert SumTo(s, 1) == 1 && SumTo(s, 2) == 2 && SumTo(s, 3) == 3 && SumTo(s, 4) == 12;
  }

  /** A block that links the previous block of authority 3 is well-formed. */
  lemma WithHeavyParent(b: Block, k: nat)
    requires b.epoch == 0 && b.round > 0 && b.author < 4 && k < |b.ancestors| <= 4 && DistinctAuthors(b)
    requires b.ancestors[0].author == b.author
    requires b.ancestors[k].author == 3 && b.ancestors[k].round + 1 == b.round
    requires forall a :: a in b.ancestors ==> a.author < 4 && a.round < b.round && (a.round == 0 ==> a in GENESIS)
    ensures WellFormed(CTX, b)
  {
    HeavyQuorum();
    assert 3 in ParentAuthors(b, |b.ancestors|);
    QuorumMonotone(COMMITTEE, {3}, ParentAuthors(b, |b.ancestors|));
  }

  lemma ChainWellFormed()
    ensures WellFormed(CTX, H1) && WellFormed(CTX, H2) && WellFormed(CTX, H3) && WellFormed(CTX, H4)
  {
    hide WellFormed, CTX;
    WithHeavyParent(H1, 0);
    WithHeavyParent(H2, 0);
    WithHeavyParent(H3, 0);
    WithHeavyParent(H4, 0);
  }
}
