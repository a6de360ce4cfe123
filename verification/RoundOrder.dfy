/** A batch that does not accept blocks in ascending rounds, because a suspended block was above it. */
module RoundOrder {
  import opened Sequences
  import opened Blocks
  import opened BlockVerifier
  import opened SuspensionIndex
  import opened TimestampPass
  import opened ManagerState
  import opened ManagerSteps
  import opened Batches
  import opened BlockManagers
  import opened HeavyAuthority

  // C waits for X only; Z is ready.
  const X := Block(0, 2, 0, 0, 0, [G0.Ref(), H1.Ref()], [])
  const Z := Block(0, 3, 2, 0, 0, [G2.Ref(), H2.Ref()], [])
  const C := Block(0, 5, 1, 0, 0, [G1.Ref(), H4.Ref(), X.Ref()], [])

  const BEFORE := [G0, G1, G2, G3, H1, H2, H3, H4]
  const RECEIVED := [X, Z, C]
  const STORED: Store := StoreOf(BEFORE)
  ghost const WORLD: World := World(GENESIS, StoreOf(BEFORE + RECEIVED))

  /** All blocks of the run pass verification. */
  lemma AllAreWellFormed()
    ensures WellFormed(CTX, X) && WellFormed(CTX, Z) && WellFormed(CTX, C)
    ensures WellFormed(CTX, H1) && WellFormed(CTX, H2) && WellFormed(CTX, H3) && WellFormed(CTX, H4)
  {
    hide WellFormed, CTX;
    ChainWellFormed();
    WithHeavyParent(X, 1);
    WithHeavyParent(Z, 1);
    WithHeavyParent(C, 1);
  }

  lemma AllDistinct()
    ensures DistinctRefs(BEFORE + RECEIVED) && DistinctRefs(BEFORE)
  {
  }

  lemma AllFit()
    ensures forall b :: b in BEFORE + RECEIVED ==> Fits(GENESIS, b)
    ensures GENESIS <= Refs(BEFORE)
  {
    BeforeFits();
    ReceivedFits();
    hide Fits;
    assert G0 in BEFORE && G1 in BEFORE && G2 in BEFORE && G3 in BEFORE;
  }

  lemma BeforeFits()
    ensures forall b :: b in BEFORE ==> Fits(GENESIS, b)
  {
  }

  lemma ReceivedFits()
    ensures forall b :: b in RECEIVED ==> Fits(GENESIS, b)
  {
  }

  lemma AllAtZero()
    ensures forall b :: b in BEFORE + RECEIVED ==> b.timestamp == 0
    ensures forall b :: b in BEFORE ==> b.round == 0 || b.author == 3
  {
  }

  /** All timestamps are the same, so none fails the check. */
  lemma SameTime()
    ensures WellTimed(WORLD)
  {
    hide StoreOf, DistinctRefs, Fits, BEFORE, RECEIVED, Refs;
    AllDistinct();
    AllAtZero();
    StoreOfMembers(BEFORE + RECEIVED);
    forall r | r in WORLD.universe
      ensures WORLD.universe[r].timestamp == 0
    {
      var b := Named(BEFORE + RECEIVED, r);
    }
  }

  lemma WorldOk()
    ensures WORLD.Ok() && WORLD.Has(X) && WORLD.Has(Z) && WORLD.Has(C) && WORLD.genesis <= STORED.Keys
    ensures forall r :: r in STORED ==> r in WORLD.universe && STORED[r] == WORLD.universe[r]
  {
    hide Fits, World.Ok, World.Has, DistinctRefs, StoreOf;
    AllFit();
    AllDistinct();
    WorldOf(GENESIS, BEFORE, RECEIVED);
    assert X in BEFORE + RECEIVED && Z in BEFORE + RECEIVED && C in BEFORE + RECEIVED;
  }

  lemma WhatIsNeeded()
    ensures Needs(Gc(false, 0), C) - STORED.Keys == {X.Ref()}
    ensures Needs(Gc(false, 0), X) <= STORED.Keys && Needs(Gc(false, 0), Z) <= STORED.Keys
    ensures C.Ref() !in STORED && X.Ref() !in STORED && Z.Ref() !in STORED
    ensures X.Ref() != Z.Ref() && X.Ref() != C.Ref() && Z.Ref() != C.Ref()
  {
    hide StoreOf, DistinctRefs, BEFORE;
    AllDistinct();
    AllAtZero();
    StoreOfMembers(BEFORE);
    InBefore();
    assert Needs(Gc(false, 0), C) == {G1.Ref(), H4.Ref(), X.Ref()};
  }

  lemma InBefore()
    ensures {G0.Ref(), G1.Ref(), G2.Ref(), H1.Ref(), H2.Ref(), H4.Ref()} <= Refs(BEFORE)
  {
    assert G0 in BEFORE && G1 in BEFORE && G2 in BEFORE && H1 in BEFORE && H2 in BEFORE && H4 in BEFORE;
  }

  /** A trail through one block, or through two of different rounds, visits them in order. */
  lemma OneVisit(trail: seq<Visit>, b: Block)
    requires multiset(BlocksOf(trail)) == multiset([b])
    ensures |trail| == 1 && trail[0].block == b
  {
    assert |multiset(BlocksOf(trail))| == |BlocksOf(trail)| == 1;
    assert BlocksOf(trail)[0] in multiset(BlocksOf(trail));
  }

  lemma TwoVisits(trail: seq<Visit>, a: Block, b: Block)
    requires multiset(BlocksOf(trail)) == multiset([a, b]) && SortedByRound(BlocksOf(trail)) && a.round < b.round
    ensures |trail| == 2 && trail[0].block == a && trail[1].block == b
  {
    var s := BlocksOf(trail);
    assert |multiset(s)| == |s| == 2;
    assert s == [s[0], s[1]];
    assert s[0] in multiset(s) && s[1] in multiset(s);
    assert a in multiset(s) && b in multiset(s);
  }

  /** A ready block is accepted, and with it a block that misses nothing else. */
  lemma ReadyAccepted(w: World, median: bool, t: Snapshot, v: Visit, c: BlockRef)
    requires Steady(w, median, t) && Calm(w, median) && IsVisit(w, median, t, v)
    requires v.block.Ref() !in Known(t) && !TooOld(t.gc, v.block) && Needs(t.gc, v.block) <= t.dag.Keys
    requires c == v.block.Ref() || (c in t.suspended && t.suspended[c].missing == {v.block.Ref()})
    ensures c in Refs(v.accepted)
  {
    hide Inv, Grounded, WellTimed, Needs, Starts, IsListed, Released, Known;
    var x := v.block.Ref();
    ReadyStarts(w, median, t, v.block);
    CalmAcceptsAll(w, median, Receive(t, x), x, [v.block], v.listed, v.accepted, v.after);
    ListedRefs(Receive(t, x), x, v.block, v.listed);
    if c != x {
      OnlyChildReleased(t.suspended, x, c);
    }
  }

  lemma ListedRefs(t: Snapshot, x: BlockRef, b: Block, listed: seq<Block>)
    requires IsListed(t, x, [b], listed)
    ensures b.Ref() in Refs(listed) && Released(t.suspended, x) <= Refs(listed)
  {
    hide Released, ReleaseOrder, DistinctRefs;
    assert listed[..1][0] == listed[0] == b;
    assert forall d :: d in listed[1..] ==> d in listed;
  }

  /** A block of a higher round before one of a lower round. */
  lemma HigherFirst(front: seq<Block>, back: seq<Block>, high: BlockRef, low: BlockRef)
    requires high in Refs(front) && low in Refs(back) && high.round > low.round
    ensures !SortedByRound(front + back)
  {
    var p :| p in front && p.Ref() == high;
    var q :| q in back && q.Ref() == low;
    var i :| 0 <= i < |front| && front[i] == p;
    var j :| 0 <= j < |back| && back[j] == q;
    assert (front + back)[i].round > (front + back)[|front| + j].round;
  }

  /**
   * With `C` of round 5 suspended, the batch of `X` and `Z`, of rounds 2 and 3, accepts `C` before `Z`,
   * whether or not timestamps are checked.
   */
  method NotInRoundOrder(median: bool) returns (o: Outcome)
    ensures o.Done? && !SortedByRound(o.accepted)
  {
    hide STORED, WORLD, Needs, Inv, Grounded, WellTimed, World.Ok, OrdinaryStep, Progress, Known, SortedByRound, Fresh, Complete,
      IsTrail, BlocksOf, AcceptedBy, Flatten, NoneAboveAny, TimesOk;
    WorldOk();
    SameTime();
    WhatIsNeeded();
    var m := new BlockManager(false, median, STORED, WORLD);
    ghost var t0 := m.Snap();
    var first, trail1 := m.TryAcceptBlocks([C], {});
    ghost var t1 := m.Snap();
    CWaits(median, t0, trail1);
    ghost var trail;
    o, trail := m.TryAcceptBlocks([X, Z], {});
    CBeforeZ(median, t1, trail);
  }

  lemma FlattenTwo(a: seq<Block>, b: seq<Block>)
    ensures Flatten([a, b]) == a + b
  {
    assert [a] + [b] == [a, b];
    FlattenAppend([a], b);
    FlattenAppend([], a);
    assert [] + [a] == [a];
  }

  lemma CWaits(median: bool, t: Snapshot, trail: seq<Visit>)
    requires t == Snapshot(Gc(false, 0), STORED, map[], map[], map[])
    requires IsTrail(WORLD, median, t, trail) && multiset(BlocksOf(trail)) == multiset([C])
    ensures var t' := StateBefore(t, trail, |trail|);
      t'.gc == t.gc && t'.dag == STORED && t'.suspended == map[C.Ref() := SuspendedBlock(C, {X.Ref()})]
  {
    hide STORED, WORLD, Needs, AddWaiting, AddHolders, ReleaseStep;
    OneVisit(trail, C);
    assert IsVisit(WORLD, median, StateBefore(t, trail, 0), trail[0]);
    WhatIsNeeded();
  }

  lemma CBeforeZ(median: bool, t: Snapshot, trail: seq<Visit>)
    requires Steady(WORLD, median, t) && Calm(WORLD, median) && IsTrail(WORLD, median, t, trail)
    requires multiset(BlocksOf(trail)) == multiset([X, Z]) && SortedByRound(BlocksOf(trail))
    requires t.gc == Gc(false, 0) && t.dag == STORED && t.suspended == map[C.Ref() := SuspendedBlock(C, {X.Ref()})]
    ensures !SortedByRound(Flatten(AcceptedBy(trail)))
  {
    hide STORED, WORLD, Needs, Inv, Grounded, WellTimed, OrdinaryStep, Progress, SortedByRound;
    TwoVisits(trail, X, Z);
    WhatIsNeeded();
    var v, w := trail[0], trail[1];
    assert IsVisit(WORLD, median, StateBefore(t, trail, 0), v) && IsVisit(WORLD, median, StateBefore(t, trail, 1), w);
    ReadyAccepted(WORLD, median, t, v, C.Ref());
    OrdinaryStepSteady(WORLD, median, t, v.block, v.listed, v.accepted, v.toFetch, v.after);
    OrdinaryStepProgress(WORLD, median, t, v.block, v.listed, v.accepted, v.toFetch, v.after);
    ProgressGrows(t, v.accepted, v.after);
    ReadyAccepted(WORLD, median, v.after, w, Z.Ref());
    assert AcceptedBy(trail) == [v.accepted, w.accepted];
    FlattenTwo(v.accepted, w.accepted);
    HigherFirst(v.accepted, w.accepted, C.Ref(), Z.Ref());
  }
}
