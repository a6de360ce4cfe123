/**
 * With the timestamp check on, a rejected block is forgotten by the suspended blocks that wait for
 * it. One of them that is released later makes the check panic.
 */
module LostAncestors {
  import opened Committees
  import opened Blocks
  import opened BlockVerifier
  import opened SuspensionIndex
  import opened TimestampPass
  import opened ManagerState
  import opened ManagerSteps
  import opened BlockManagers

  /** A call panics only if it releases a block with a lost ancestor. */
  lemma PanicNeedsLost(w: World, t: Snapshot, x: BlockRef, first: seq<Block>, listed: seq<Block>)
    requires FirstOk(w, t, x, first) && IsListed(t, x, first, listed)
    requires VerifyBlocks(t.gc, t.dag, listed).Panicked?
    ensures exists c, a :: c in Released(t.suspended, x) && Lost(t, c, a)
  {
    hide FirstOk, IsListed, VerifyBlocks, Released, Lost;
    if GroundedIn(t, Released(t.suspended, x)) {
      ReleasedGroundedNoPanic(w, t, x, first, listed);
    }
  }

  /**
   * Conversely, a call that releases a block with a lost ancestor panics, unless the ancestor arrives
   * with it or the block is rejected together with another ancestor.
   */
  lemma LostPanics(w: World, t: Snapshot, x: BlockRef, first: seq<Block>, listed: seq<Block>, c: BlockRef, a: BlockRef)
    requires Starts(w, false, t, x, first) && IsListed(t, x, first, listed)
    requires c in Released(t.suspended, x) && Lost(t, c, a) && a !in Refs(listed)
    ensures var p := VerifyBlocks(t.gc, t.dag, listed);
      || p.Panicked?
      || (exists b :: b in t.suspended[c].block.ancestors && b !in t.dag && b in p.rejected)
  {
    hide VerifyBlocks, Starts, IsListed, Released, DistinctRefs, AcceptedWell, Refs;
    var p, b := VerifyBlocks(t.gc, t.dag, listed), t.suspended[c].block;
    if p.Sorted? {
      ListedGenuineOf(w, false, t, x, first, listed);
      PassPartitions(t.gc, t.dag, listed);
      ReleasedListed(t, x, first, listed, c);
      if c in p.accepted {
        PassAcceptsWell(t.gc, t.dag, listed, c);
        SameRefSameBlock(w, listed, p.accepted[c], b);
        LostNotAccounted(t.gc, t.dag, p.accepted, b, a);
        assert false;
      } else {
        PassRejectsWhy(t.gc, t.dag, listed, b);
      }
    }
  }

  lemma LostNotAccounted(gc: Gc, dag: Store, accepted: Store, b: Block, a: BlockRef)
    requires AcceptedWell(gc, dag, accepted, b) && a in b.ancestors
    ensures a in dag || a in accepted || gc.Collected(a)
  {
    assert Accounted(gc, dag, accepted, a);
  }

  /** A released block is on the list. */
  lemma ReleasedListed(t: Snapshot, x: BlockRef, first: seq<Block>, listed: seq<Block>, c: BlockRef)
    requires IsListed(t, x, first, listed) && c in Released(t.suspended, x)
    ensures c in t.suspended && t.suspended[c].block in listed && t.suspended[c].block.Ref() == c
    ensures c in Refs(listed)
  {
    hide Released, DistinctRefs, ReleaseOrder;
    var b :| b in listed[|first|..] && b.Ref() == c;
    ListedSuspended(t.suspended, x, listed[|first|..], b);
    assert b in listed;
  }

  /** What the pass decides about its first block does not change later. */
  lemma {:induction false} FirstStaysAccepted(gc: Gc, dag: Store, y: Block, listed: seq<Block>)
    requires listed != [] && listed[0] == y && DistinctRefs(listed) && VerifyBlocks(gc, dag, listed).Sorted?
    requires VerifyBlocks(gc, dag, [y]) == Sorted(map[y.Ref() := y], {})
    ensures y.Ref() !in VerifyBlocks(gc, dag, listed).rejected
  {
    var n := |listed| - 1;
    if n == 0 {
      assert listed == [y];
    } else {
      hide VerifyStep;
      StepCases(gc, dag, VerifyBlocks(gc, dag, listed[..n]), listed[n]);
      FirstStaysAccepted(gc, dag, y, listed[..n]);
    }
  }

  // ----- a run that panics

  // Three authorities of equal stake; every block is verified. X is earlier than its ancestors.
  const COMMITTEE := Committee(0, [1, 1, 1])
  const G0 := Block(0, 0, 0, 0, 0, [], [])
  const G1 := Block(0, 0, 1, 0, 0, [], [])
  const G2 := Block(0, 0, 2, 0, 0, [], [])
  const A0 := Block(0, 1, 0, 0, 10, [G0.Ref(), G1.Ref(), G2.Ref()], [])
  const A1 := Block(0, 1, 1, 0, 10, [G1.Ref(), G0.Ref(), G2.Ref()], [])
  const A2 := Block(0, 1, 2, 0, 10, [G2.Ref(), G0.Ref(), G1.Ref()], [])
  const X := Block(0, 2, 0, 0, 5, [A0.Ref(), A1.Ref(), A2.Ref()], [])
  const Y := Block(0, 2, 1, 0, 20, [A1.Ref(), A0.Ref(), A2.Ref()], [])
  const W := Block(0, 2, 2, 0, 20, [A2.Ref(), A0.Ref(), A1.Ref()], [])
  const C := Block(0, 3, 2, 0, 30, [W.Ref(), X.Ref(), Y.Ref()], [])

  ghost const GENESIS: set<BlockRef> := {G0.Ref(), G1.Ref(), G2.Ref()}
  const BEFORE := [G0, G1, G2, A0, A1, A2, W]
  const RECEIVED := [X, Y, C]
  const STORED: Store := StoreOf(BEFORE)
  ghost const WORLD: World := World(GENESIS, StoreOf(BEFORE + RECEIVED))

  lemma AllStake()
    ensures COMMITTEE.IsQuorum({0, 1, 2})
  {
    var s := COMMITTEE.stakes;
    assert SumTo(s, 1) == 1 && SumTo(s, 2) == 2 && SumTo(s, 3) == 3;
    assert StakeBelow(s, {0, 1, 2}, 1) == 1 && StakeBelow(s, {0, 1, 2}, 2) == 2;
  }

  /** Three parents by all three authorities make a block well-formed. */
  lemma ThreeParents(b: Block)
    requires b.epoch == 0 && b.round > 0 && b.author < 3 && |b.ancestors| == 3 && b.ancestors[0].author == b.author
    requires forall a :: a in b.ancestors ==> a.author < 3 && a.round + 1 == b.round && (a.round == 0 ==> a in GENESIS)
    requires DistinctAuthors(b)
    ensures WellFormed(Context(COMMITTEE, GENESIS), b)
  {
    AllStake();
    assert b.ancestors[0] in b.ancestors && b.ancestors[1] in b.ancestors && b.ancestors[2] in b.ancestors;
    assert {b.ancestors[0].author, b.ancestors[1].author, b.ancestors[2].author} <= ParentAuthors(b, 3);
    forall k | k in {0, 1, 2} ensures k in ParentAuthors(b, 3) {
      assert b.ancestors[0].author != b.ancestors[1].author;
      assert b.ancestors[0].author != b.ancestors[2].author;
      assert b.ancestors[1].author != b.ancestors[2].author;
    }
    QuorumMonotone(COMMITTEE, {0, 1, 2}, ParentAuthors(b, 3));
  }

  /** The blocks of the run below, stored or received, pass verification. */
  lemma AllAreWellFormed()
    ensures WellFormed(Context(COMMITTEE, GENESIS), A0) && WellFormed(Context(COMMITTEE, GENESIS), A1)
    ensures WellFormed(Context(COMMITTEE, GENESIS), A2) && WellFormed(Context(COMMITTEE, GENESIS), W)
    ensures WellFormed(Context(COMMITTEE, GENESIS), X) && WellFormed(Context(COMMITTEE, GENESIS), Y)
    ensures WellFormed(Context(COMMITTEE, GENESIS), C)
  {
    hide WellFormed;
    FirstRoundWellFormed();
    ThreeParents(W);
    ThreeParents(X);
    ThreeParents(Y);
    ThreeParents(C);
  }

  lemma FirstRoundWellFormed()
    ensures WellFormed(Context(COMMITTEE, GENESIS), A0)
    ensures WellFormed(Context(COMMITTEE, GENESIS), A1)
    ensures WellFormed(Context(COMMITTEE, GENESIS), A2)
  {
    hide WellFormed;
    ThreeParents(A0);
    ThreeParents(A1);
    ThreeParents(A2);
  }

  lemma AllDistinct()
    ensures DistinctRefs(BEFORE + RECEIVED) && DistinctRefs(BEFORE)
  {
  }

  lemma AllFit()
    ensures forall b :: b in BEFORE + RECEIVED ==> Fits(GENESIS, b)
    ensures GENESIS <= Refs(BEFORE)
  {
    BeforeFits();
    ReceivedFits();
    hide Fits;
    assert G0 in BEFORE && G1 in BEFORE && G2 in BEFORE;
  }

  lemma BeforeFits()
    ensures forall b :: b in BEFORE ==> Fits(GENESIS, b)
  {
  }

  lemma ReceivedFits()
    ensures forall b :: b in RECEIVED ==> Fits(GENESIS, b)
  {
  }

  lemma WorldOk()
    ensures WORLD.Ok() && WORLD.Has(X) && WORLD.Has(Y) && WORLD.Has(C) && WORLD.genesis <= STORED.Keys
    ensures forall r :: r in STORED ==> r in WORLD.universe && STORED[r] == WORLD.universe[r]
  {
    hide Fits, World.Ok, World.Has, DistinctRefs, StoreOf;
    AllFit();
    AllDistinct();
    WorldOf(GENESIS, BEFORE, RECEIVED);
    assert X in BEFORE + RECEIVED && Y in BEFORE + RECEIVED && C in BEFORE + RECEIVED;
  }

  /** What is stored. */
  lemma Stored()
    ensures STORED.Keys == Refs(BEFORE)
    ensures A0.Ref() in STORED && A1.Ref() in STORED && A2.Ref() in STORED && W.Ref() in STORED
    ensures STORED[A0.Ref()] == A0 && STORED[A1.Ref()] == A1 && STORED[A2.Ref()] == A2
  {
    hide StoreOf, DistinctRefs, Fits;
    AllDistinct();
    StoreOfMembers(BEFORE);
    assert A0 in BEFORE && A1 in BEFORE && A2 in BEFORE && W in BEFORE;
  }

  lemma WhatIsNeeded()
    ensures Needs(Gc(false, 0), C) - STORED.Keys == {X.Ref(), Y.Ref()}
    ensures Needs(Gc(false, 0), X) <= STORED.Keys && Needs(Gc(false, 0), Y) <= STORED.Keys
    ensures C.Ref() !in STORED && X.Ref() !in STORED && Y.Ref() !in STORED && W.Ref() in STORED
    ensures X.Ref() != Y.Ref() && X.Ref() != C.Ref() && Y.Ref() != C.Ref()
  {
    hide STORED;
    Stored();
    assert Needs(Gc(false, 0), C) == {W.Ref(), X.Ref(), Y.Ref()};
  }

  lemma XRejectedYAccepted()
    ensures VerifyBlocks(Gc(false, 0), STORED, [X]) == Sorted(map[], {X.Ref()})
    ensures VerifyBlocks(Gc(false, 0), STORED, [Y]) == Sorted(map[Y.Ref() := Y], {})
  {
    hide STORED;
    Stored();
    var gc := Gc(false, 0);
    ScanReady(gc, STORED, map[], {}, X, 0);
    ScanReady(gc, STORED, map[], {}, Y, 0);
    var foundX, foundY := ScanFrom(gc, STORED, map[], {}, X, 0).found, ScanFrom(gc, STORED, map[], {}, Y, 0).found;
    assert foundX[0] == Some(A0) && Relevant(foundX[0], false, 0);
    assert Y.ancestors[0] == A1.Ref() && Y.ancestors[1] == A0.Ref() && Y.ancestors[2] == A2.Ref();
    assert foundY[0] == Some(A1) && foundY[1] == Some(A0) && foundY[2] == Some(A2);
    assert TimestampOk(Y, foundY, false, 0);
    assert [X][..0] == [] && [Y][..0] == [];
    assert VerifyBlocks(gc, STORED, []) == Sorted(map[], {});
  }

  /** `X` alone does not release a block that also misses `Y`. */
  lemma XReleasesNothing(s: Suspended)
    requires s == map[C.Ref() := SuspendedBlock(C, {X.Ref(), Y.Ref()})]
    ensures Released(s, X.Ref()) == {}
  {
    assert Y.Ref() in s[C.Ref()].missing && !Releasable(s, X.Ref(), Y.Ref());
  }

  /** `X` is rejected, and `C` no longer waits for it. */
  lemma XIsForgotten(t1: Snapshot, listed: seq<Block>, accepted: seq<Block>, toFetch: set<BlockRef>, t2: Snapshot)
    requires t1.gc == Gc(false, 0) && t1.dag == STORED
    requires t1.suspended == map[C.Ref() := SuspendedBlock(C, {X.Ref(), Y.Ref()})]
    requires OrdinaryStep(WORLD, false, t1, X, listed, accepted, toFetch, t2)
    ensures t2.gc == t1.gc && t2.dag == STORED && t2.suspended == map[C.Ref() := SuspendedBlock(C, {Y.Ref()})]
  {
    hide STORED, WORLD, VerifyBlocks, Needs, Released, DistinctRefs, ReleaseOrder;
    WhatIsNeeded();
    XRejectedYAccepted();
    XReleasesNothing(t1.suspended);
    assert listed == [X] by {
      assert listed[..1] == [X] && Refs(listed[1..]) == {};
      NoRefs(listed[1..]);
      assert listed == listed[..1] + listed[1..];
    }
    NoRefs(accepted);
    assert t2.suspended.Keys == {C.Ref()};
    assert t2.suspended[C.Ref()].missing == {X.Ref(), Y.Ref()} - {X.Ref()} == {Y.Ref()};
    assert t2.dag == STORED + map[];
  }

  lemma NoRefs(blocks: seq<Block>)
    requires Refs(blocks) == {}
    ensures blocks == []
  {
    if blocks != [] {
      SomeRef(blocks);
    }
  }

  lemma XIsLost(r: Snapshot)
    requires r.gc == Gc(false, 0) && r.dag == STORED && r.suspended == map[C.Ref() := SuspendedBlock(C, {Y.Ref()})]
    ensures Lost(r, C.Ref(), X.Ref())
    ensures forall b :: b in C.ancestors ==> b in r.dag || b == X.Ref() || b == Y.Ref()
  {
    hide STORED;
    WhatIsNeeded();
  }

  /** `Y` releases `C`, whose ancestor `X` nobody accounts for. */
  lemma YPanics(t2: Snapshot, listed: seq<Block>, third: Outcome, t3: Snapshot)
    requires Steady(WORLD, false, t2) && t2.gc == Gc(false, 0) && t2.dag == STORED
    requires t2.suspended == map[C.Ref() := SuspendedBlock(C, {Y.Ref()})]
    requires third.Done? ==> OrdinaryStep(WORLD, false, t2, Y, listed, third.accepted, third.missing, t3)
    ensures third.Panic?
  {
    hide STORED, WORLD, VerifyBlocks, Needs, Released, IsListed, Inv, Starts, Lost, Release, Suspend, Grounded, WellTimed, World.Ok;
    if third.Done? {
      WorldOk();
      WhatIsNeeded();
      var r := Receive(t2, Y.Ref());
      ReadyStarts(WORLD, false, t2, Y);
      XIsLost(r);
      YReleasesOnlyC(r, listed);
      LostPanics(WORLD, r, Y.Ref(), [Y], listed, C.Ref(), X.Ref());
      var p := VerifyBlocks(r.gc, r.dag, listed);
      var b :| b in C.ancestors && b !in r.dag && b in p.rejected;
      PassPartitions(r.gc, r.dag, listed);
      XRejectedYAccepted();
      FirstStaysAccepted(r.gc, r.dag, Y, listed);
      assert false;
    }
  }

  lemma YReleasesOnlyC(r: Snapshot, listed: seq<Block>)
    requires Starts(WORLD, false, r, Y.Ref(), [Y]) && IsListed(r, Y.Ref(), [Y], listed)
    requires r.suspended == map[C.Ref() := SuspendedBlock(C, {Y.Ref()})]
    ensures C.Ref() in Released(r.suspended, Y.Ref()) && X.Ref() !in Refs(listed)
    ensures listed != [] && listed[0] == Y && DistinctRefs(listed)
  {
    hide STORED, WORLD, Starts, Released, ReleaseOrder, DistinctRefs;
    WhatIsNeeded();
    OnlyChildReleased(r.suspended, Y.Ref(), C.Ref());
    ListedGenuineOf(WORLD, false, r, Y.Ref(), [Y], listed);
    ReleasedBounded(r.suspended, Y.Ref());
    assert listed[..1] == [Y];
  }

  /** Nothing is lost while `C` waits for both `X` and `Y`. */
  lemma CIsGrounded(t: Snapshot)
    requires t.gc == Gc(false, 0) && t.dag == STORED && t.suspended == map[C.Ref() := SuspendedBlock(C, {X.Ref(), Y.Ref()})]
    ensures Grounded(t)
  {
    hide STORED;
    WhatIsNeeded();
  }

  /**
   * Receiving `C`, then `X`, then `Y`: the first two calls end well, the third panics. `X` is rejected
   * for its timestamp, `C` forgets that it waits for it, and `Y` releases `C` without its ancestor `X`.
   */
  method PanicReachable() returns (first: Outcome, second: Outcome, third: Outcome)
    ensures first.Done? && second.Done? && third.Panic?
  {
    hide STORED, WORLD, VerifyBlocks, Needs, Inv, ReleaseStep, World.Ok, Grounded, WellTimed, AddWaiting, AddHolders;
    WorldOk();
    WhatIsNeeded();
    var m := new BlockManager(false, false, STORED, WORLD);
    ghost var t0 := m.Snap();
    NothingSuspended(t0);
    ghost var l1, l2, l3;
    first, l1 := m.AcceptStep(C);
    OrdinaryStepSteady(WORLD, false, t0, C, l1, first.accepted, first.missing, m.Snap());
    ghost var t1 := m.Snap();
    CIsGrounded(t1);
    second, l2 := m.AcceptStep(X);
    OrdinaryStepSteady(WORLD, false, t1, X, l2, second.accepted, second.missing, m.Snap());
    ghost var t2 := m.Snap();
    XIsForgotten(t1, l2, second.accepted, second.missing, t2);
    third, l3 := m.AcceptStep(Y);
    YPanics(t2, l3, third, m.Snap());
  }

  lemma NothingSuspended(t: Snapshot)
    requires t.suspended == map[]
    ensures Grounded(t)
  {
  }
}
