/** The steps of the block manager as relations between states, and what they keep. */
module ManagerSteps {
  import opened Blocks
  import opened SuspensionIndex
  import opened TimestampPass
  import opened ManagerState

  /** The blocks that references name. */
  ghost function Genuine(w: World, refs: set<BlockRef>): (s: Store)
    ensures s.Keys == refs * w.universe.Keys
  {
    map r | r in refs && r in w.universe :: w.universe[r]
  }

  /** Storing one more genuine block, unless it is stored already. */
  lemma StoreOne(w: World, dag: Store, refs: set<BlockRef>, b: Block)
    requires w.Has(b) && forall r :: r in dag ==> r in w.universe && dag[r] == w.universe[r]
    ensures var d := dag + Genuine(w, refs);
      dag + Genuine(w, refs + {b.Ref()}) == if b.Ref() in d then d else d[b.Ref() := b]
  {
    var d, e := dag + Genuine(w, refs), dag + Genuine(w, refs + {b.Ref()});
    assert e.Keys == d.Keys + {b.Ref()};
    forall r | r in d ensures d[r] == w.universe[r] {
    }
    forall r | r in e ensures e[r] == w.universe[r] {
    }
  }

  ghost predicate AllGenuine(w: World, blocks: seq<Block>) { forall b :: b in blocks ==> w.Has(b) }

  ghost predicate SortedByRef(blocks: seq<Block>) {
    forall i, j :: 0 <= i < j < |blocks| ==> blocks[i].Ref().Less(blocks[j].Ref())
  }

  /** The list handed over: `first`, then the blocks that `x` releases, in causal order. */
  ghost predicate IsListed(t: Snapshot, x: BlockRef, first: seq<Block>, listed: seq<Block>) {
    && |first| <= |listed| && listed[..|first|] == first && DistinctRefs(listed)
    && Refs(listed[|first|..]) == Released(t.suspended, x)
    && ReleaseOrder(t.suspended, x, listed[|first|..])
  }

  /** What of the list is accepted: all of it, or what the timestamp check lets through. */
  ghost predicate IsAccepted(median: bool, t: Snapshot, listed: seq<Block>, accepted: seq<Block>) {
    if median then accepted == listed
    else
      var p := VerifyBlocks(t.gc, t.dag, listed);
      p.Sorted? && Refs(accepted) == p.accepted.Keys && SortedByRef(accepted) && (forall b :: b in accepted ==> b in listed)
  }

  /** `x` arrives: its releases are listed after `first`, and what is accepted is stored. */
  ghost predicate ReleaseStep(
    w: World, median: bool, t: Snapshot, x: BlockRef, first: seq<Block>, listed: seq<Block>, accepted: seq<Block>, t': Snapshot)
  {
    && IsListed(t, x, first, listed)
    && IsAccepted(median, t, listed, accepted)
    && t' == Release(t, x, Released(t.suspended, x), Genuine(w, Refs(accepted)))
  }

  /** What the caller of a release guarantees about `first`. */
  ghost predicate FirstOk(w: World, t: Snapshot, x: BlockRef, first: seq<Block>) {
    && (first == [] || (|first| == 1 && first[0].Ref() == x && x !in t.dag && w.Has(first[0])))
    && Supplied(t.gc, t.dag, first)
    && (x in t.dag || first != [] || t.gc.Collected(x))
  }

  // ----- facts about the list

  lemma ReleasedIsRelease(s: Suspended, x: BlockRef)
    requires WellSuspended(s)
    ensures forall b :: b in s ==> (b in Released(s, x) <==> s[b].missing <= {x} + Released(s, x))
  {
    forall b | b in s ensures b in Released(s, x) <==> s[b].missing <= {x} + Released(s, x) {
      if b in Released(s, x) {
        forall a | a in s[b].missing ensures a in {x} + Released(s, x) {
          assert a == x || Releasable(s, x, a);
        }
      }
      if s[b].missing <= {x} + Released(s, x) {
        forall a | a in s[b].missing ensures a == x || (a.round < b.round && Releasable(s, x, a)) {
          assert a in {x} + Released(s, x);
        }
      }
    }
  }

  /** Everything listed is genuine and not stored. */
  lemma ListedGenuine(w: World, t: Snapshot, x: BlockRef, first: seq<Block>, listed: seq<Block>)
    requires CoreInv(w, t, x) && FirstOk(w, t, x, first) && IsListed(t, x, first, listed)
    ensures AllGenuine(w, listed) && Refs(listed) == Refs(first) + Released(t.suspended, x)
    ensures Refs(first) <= {x} && Refs(listed) !! t.dag.Keys
  {
    hide WellSuspended, Linked, Released, ReleaseOrder, Supplied, DistinctRefs;
    var n := |first|;
    assert listed == first + listed[n..];
    RefsConcat(first, listed[n..]);
    forall b | b in listed ensures w.Has(b) && b.Ref() !in t.dag {
      if b in first {
        assert b == first[0];
      } else {
        assert b in listed[n..];
        ListedSuspended(t.suspended, x, listed[n..], b);
      }
    }
  }

  lemma ListedSuspended(s: Suspended, x: BlockRef, released: seq<Block>, b: Block)
    requires ReleaseOrder(s, x, released) && b in released
    ensures b.Ref() in s && s[b.Ref()].block == b
  {
    var i :| 0 <= i < |released| && released[i] == b;
  }

  /** What is accepted is part of the list, and nothing is accepted twice. */
  lemma AcceptedListed(median: bool, t: Snapshot, listed: seq<Block>, accepted: seq<Block>)
    requires DistinctRefs(listed) && IsAccepted(median, t, listed, accepted)
    ensures Refs(accepted) <= Refs(listed) && DistinctRefs(accepted) && forall b :: b in accepted ==> b in listed
  {
    if !median {
      PassPartitions(t.gc, t.dag, listed);
    }
  }

  /** The common frame of the lemmas below. */
  ghost predicate Starts(w: World, median: bool, t: Snapshot, x: BlockRef, first: seq<Block>) {
    CoreInv(w, t, x) && x !in t.suspended && FirstOk(w, t, x, first) && (Calm(w, median) ==> Grounded(t))
  }

  lemma StepAccepts(
    w: World, median: bool, t: Snapshot, x: BlockRef, first: seq<Block>, listed: seq<Block>, accepted: seq<Block>, t': Snapshot)
    requires Starts(w, median, t, x, first) && ReleaseStep(w, median, t, x, first, listed, accepted, t')
    ensures IsRelease(t, x, Released(t.suspended, x))
    ensures Accepts(w, x, Released(t.suspended, x), Genuine(w, Refs(accepted)))
    ensures Genuine(w, Refs(accepted)).Keys == Refs(accepted) && Refs(accepted) !! t.dag.Keys
    ensures AllGenuine(w, accepted) && DistinctRefs(accepted)
    ensures Refs(accepted) <= Refs(first) + Released(t.suspended, x) && Refs(first) <= {x}
  {
    hide SuspensionOk, DagOk, World.Ok, FirstOk, IsListed, IsAccepted, Released, Grounded, WellTimed, DistinctRefs;
    assert WellSuspended(t.suspended) by { CoreWellSuspended(w, t, x); }
    ReleasedIsRelease(t.suspended, x);
    assert Released(t.suspended, x) <= t.suspended.Keys by { ReleasedBounded(t.suspended, x); }
    ListedGenuine(w, t, x, first, listed);
    assert DistinctRefs(listed) by { ListedDistinct(t, x, first, listed); }
    AcceptedListed(median, t, listed, accepted);
  }

  lemma CoreWellSuspended(w: World, t: Snapshot, x: BlockRef)
    requires CoreInv(w, t, x)
    ensures WellSuspended(t.suspended) && Linked(t.suspended, t.waiting) && t.suspended.Keys !! t.dag.Keys
  {
    hide WellSuspended, Linked, World.Ok, DagOk;
  }

  lemma ReleasedBounded(s: Suspended, x: BlockRef)
    ensures Released(s, x) <= s.Keys
  {
  }

  lemma ListedDistinct(t: Snapshot, x: BlockRef, first: seq<Block>, listed: seq<Block>)
    requires IsListed(t, x, first, listed)
    ensures DistinctRefs(listed)
  {
  }

  // ----- what a release keeps

  lemma StepInv(
    w: World, median: bool, t: Snapshot, x: BlockRef, first: seq<Block>, listed: seq<Block>, accepted: seq<Block>, t': Snapshot)
    requires Starts(w, median, t, x, first) && ReleaseStep(w, median, t, x, first, listed, accepted, t')
    requires HoldersBut(t, x)
    ensures Inv(w, t')
  {
    hide SuspensionOk, DagOk, World.Ok, FirstOk, IsListed, IsAccepted, Grounded, WellTimed, Release, Genuine, Released, HoldersBut;
    StepAccepts(w, median, t, x, first, listed, accepted, t');
    ReleaseInv(w, t, x, Released(t.suspended, x), Genuine(w, Refs(accepted)));
  }

  /** Each accepted block comes after all its ancestors that were not stored before. */
  lemma StepOrder(
    w: World, median: bool, t: Snapshot, x: BlockRef, first: seq<Block>, listed: seq<Block>, accepted: seq<Block>, t': Snapshot)
    requires Starts(w, median, t, x, first) && ReleaseStep(w, median, t, x, first, listed, accepted, t')
    ensures Supplied(t.gc, t.dag, accepted)
  {
    hide SuspensionOk, DagOk, Grounded, WellTimed, Released, ReleaseOrder, Supplied, Genuine, Release, VerifyBlocks;
    if median {
      GroundedEverywhere(t, Released(t.suspended, x));
      ListedSupplied(w, t, x, first, listed);
    } else {
      ListedGenuine(w, t, x, first, listed);
      SortedSupplied(w, t.gc, t.dag, listed, accepted);
    }
  }

  lemma SortedSupplied(w: World, gc: Gc, dag: Store, listed: seq<Block>, accepted: seq<Block>)
    requires w.Ok() && AllGenuine(w, listed) && DistinctRefs(listed) && VerifyBlocks(gc, dag, listed).Sorted?
    requires Refs(accepted) == VerifyBlocks(gc, dag, listed).accepted.Keys && SortedByRef(accepted)
    requires forall b :: b in accepted ==> b in listed
    ensures Supplied(gc, dag, accepted)
  {
    hide VerifyBlocks, Accounted;
    var p := VerifyBlocks(gc, dag, listed);
    forall i, a | 0 <= i < |accepted| && a in accepted[i].ancestors
      ensures a in dag || a in Refs(accepted[..i]) || gc.Collected(a)
    {
      var b := accepted[i];
      assert b in accepted && b.Ref() in Refs(accepted);
      PassAcceptsWell(gc, dag, listed, b.Ref());
      PassPartitions(gc, dag, listed);
      SameRefSameBlock(w, listed, p.accepted[b.Ref()], b);
      assert Accounted(gc, dag, p.accepted, a);
      AccountedCases(gc, dag, p.accepted, a);
      if a in p.accepted {
        EarlierInList(accepted, i, a);
      }
    }
  }

  lemma AccountedCases(gc: Gc, dag: Store, accepted: Store, a: BlockRef)
    requires Accounted(gc, dag, accepted, a)
    ensures a in dag || a in accepted || gc.Collected(a)
  {
  }

  lemma SameRefSameBlock(w: World, blocks: seq<Block>, a: Block, b: Block)
    requires AllGenuine(w, blocks) && a in blocks && b in blocks && a.Ref() == b.Ref()
    ensures a == b
  {
    assert w.Has(a) && w.Has(b);
  }

  /** In a list sorted by reference, a block of a lower round comes earlier. */
  lemma EarlierInList(blocks: seq<Block>, i: nat, a: BlockRef)
    requires SortedByRef(blocks) && i < |blocks| && a in Refs(blocks) && a.round < blocks[i].round
    ensures a in Refs(blocks[..i])
  {
    var b :| b in blocks && b.Ref() == a;
    var j :| 0 <= j < |blocks| && blocks[j] == b;
    assert j < i;
    assert blocks[..i][j] == b;
  }

  /** If the released blocks are grounded, everything listed has its ancestors supplied. */
  lemma ListedSupplied(w: World, t: Snapshot, x: BlockRef, first: seq<Block>, listed: seq<Block>)
    requires FirstOk(w, t, x, first) && IsListed(t, x, first, listed) && GroundedIn(t, Released(t.suspended, x))
    ensures Supplied(t.gc, t.dag, listed)
  {
    hide GroundedIn, Released, ReleaseOrder, Supplied, DistinctRefs;
    assert listed == first + listed[|first|..];
    assert first != [] ==> first[0] in first;
    ReleasedSupplied(t, x, first, listed[|first|..]);
  }

  /** If the released blocks are grounded the timestamp check does not panic. */
  lemma ReleasedGroundedNoPanic(w: World, t: Snapshot, x: BlockRef, first: seq<Block>, listed: seq<Block>)
    requires FirstOk(w, t, x, first) && IsListed(t, x, first, listed) && GroundedIn(t, Released(t.suspended, x))
    ensures VerifyBlocks(t.gc, t.dag, listed).Sorted?
  {
    hide FirstOk, IsListed, GroundedIn, Released, Supplied, VerifyBlocks, DistinctRefs;
    ListedSupplied(w, t, x, first, listed);
    ListedDistinct(t, x, first, listed);
    SuppliedNeverPanics(t.gc, t.dag, listed);
  }

  /** In a grounded state the timestamp check never panics. */
  lemma GroundedNeverPanics(w: World, t: Snapshot, x: BlockRef, first: seq<Block>, listed: seq<Block>)
    requires Starts(w, true, t, x, first) && IsListed(t, x, first, listed)
    ensures VerifyBlocks(t.gc, t.dag, listed).Sorted?
  {
    hide SuspensionOk, DagOk, Grounded, WellTimed, GroundedIn, IsListed, VerifyBlocks;
    GroundedEverywhere(t, Released(t.suspended, x));
    ReleasedGroundedNoPanic(w, t, x, first, listed);
  }

  /** Well-timed blocks whose ancestors are supplied pass the timestamp check, all of them. */
  lemma {:induction false} SuppliedAllAccepted(w: World, gc: Gc, dag: Store, blocks: seq<Block>)
    requires WellTimed(w) && (forall r :: r in dag ==> r in w.universe && dag[r] == w.universe[r])
    requires AllGenuine(w, blocks) && DistinctRefs(blocks) && Supplied(gc, dag, blocks)
    ensures VerifyBlocks(gc, dag, blocks).Sorted? && VerifyBlocks(gc, dag, blocks).rejected == {}
  {
    if blocks == [] {
    } else {
      var n := |blocks| - 1;
      assert blocks == blocks[..n] + [blocks[n]];
      SuppliedPrefix(gc, dag, blocks, n);
      SuppliedAllAccepted(w, gc, dag, blocks[..n]);
      PassPartitions(gc, dag, blocks[..n]);
      TimelyStep(w, gc, dag, blocks[..n], VerifyBlocks(gc, dag, blocks[..n]), blocks[n]);
    }
  }

  lemma TimelyStep(w: World, gc: Gc, dag: Store, before: seq<Block>, p: Pass, b: Block)
    requires WellTimed(w) && (forall r :: r in dag ==> r in w.universe && dag[r] == w.universe[r])
    requires AllGenuine(w, before) && w.Has(b) && p.Sorted? && p.rejected == {} && Divides(p, before)
    requires forall a :: a in b.ancestors ==> a in dag || a in Refs(before) || gc.Collected(a)
    ensures VerifyStep(gc, dag, p, b) == Sorted(p.accepted[b.Ref() := b], {})
  {
    ScanReady(gc, dag, p.accepted, p.rejected, b, 0);
    forall r | r in p.accepted
      ensures r in w.universe && p.accepted[r] == w.universe[r]
    {
      assert w.Has(p.accepted[r]);
    }
    forall k | 0 <= k < |b.ancestors|
      ensures Accounted(gc, dag, p.accepted, b.ancestors[k])
    {
      assert b.ancestors[k] in b.ancestors;
    }
    var found := ScanFrom(gc, dag, p.accepted, p.rejected, b, 0).found;
    forall k | 0 <= k < |found| && found[k].Some?
      ensures found[k].value.timestamp <= b.timestamp
    {
      var a := b.ancestors[k];
      assert a in b.ancestors && found[k].value == w.universe[a] && b == w.universe[b.Ref()];
    }
  }

  /** When nothing is ever rejected a release accepts everything listed. */
  lemma CalmAcceptsAll(
    w: World, median: bool, t: Snapshot, x: BlockRef, first: seq<Block>, listed: seq<Block>, accepted: seq<Block>, t': Snapshot)
    requires Starts(w, median, t, x, first) && Calm(w, median)
    requires ReleaseStep(w, median, t, x, first, listed, accepted, t')
    ensures Refs(accepted) == Refs(listed)
  {
    hide SuspensionOk, World.Ok, Grounded, WellTimed, GroundedIn, FirstOk, IsListed, Released, Supplied, VerifyBlocks, DistinctRefs;
    if !median {
      GroundedEverywhere(t, Released(t.suspended, x));
      ListedSupplied(w, t, x, first, listed);
      ListedDistinct(t, x, first, listed);
      ListedGenuine(w, t, x, first, listed);
      SuppliedAllAccepted(w, t.gc, t.dag, listed);
      PassPartitions(t.gc, t.dag, listed);
    }
  }

  /** Groundedness after a step, exactly: nothing rejected was still awaited. */
  lemma StepGrounded(
    w: World, median: bool, t: Snapshot, x: BlockRef, first: seq<Block>, listed: seq<Block>, accepted: seq<Block>, t': Snapshot)
    requires Starts(w, median, t, x, first) && ReleaseStep(w, median, t, x, first, listed, accepted, t') && Grounded(t)
    ensures Grounded(t') <==> NothingLost(t, x, Released(t.suspended, x), Genuine(w, Refs(accepted)))
    ensures Refs(accepted) == Refs(listed) ==> Grounded(t')
  {
    hide SuspensionOk, DagOk, World.Ok, IsAccepted, Grounded, WellTimed, Release, Genuine, Released;
    StepAccepts(w, median, t, x, first, listed, accepted, t');
    CoreWellSuspended(w, t, x);
    GroundedAfterRelease(t, x, Released(t.suspended, x), Genuine(w, Refs(accepted)));
    if Refs(accepted) == Refs(listed) {
      ListedGenuine(w, t, x, first, listed);
      AllStoredNothingLost(t, x, first, Released(t.suspended, x), Genuine(w, Refs(accepted)));
    }
  }

  lemma AllStoredNothingLost(t: Snapshot, x: BlockRef, first: seq<Block>, released: set<BlockRef>, accepted: Store)
    requires accepted.Keys == Refs(first) + released
    requires x in t.dag || x in Refs(first) || t.gc.Collected(x) || (first != [] && first[0].Ref() == x)
    ensures NothingLost(t, x, released, accepted)
  {
    assert first != [] ==> first[0] in first;
  }

  lemma StepComplete(
    w: World, median: bool, t: Snapshot, x: BlockRef, first: seq<Block>, listed: seq<Block>, accepted: seq<Block>, t': Snapshot,
    roots: set<BlockRef>)
    requires Starts(w, median, t, x, first) && ReleaseStep(w, median, t, x, first, listed, accepted, t')
    requires Complete(t, roots)
    ensures Complete(t', roots)
  {
    hide SuspensionOk, DagOk, World.Ok, FirstOk, IsListed, IsAccepted, Grounded, WellTimed, Released, Complete, Supplied;
    StepAccepts(w, median, t, x, first, listed, accepted, t');
    StepOrder(w, median, t, x, first, listed, accepted, t');
    CompleteAfterAccept(t, t', accepted, roots);
  }

  /** The sets of stored and known references after a step. */
  lemma StepKnown(
    w: World, median: bool, t: Snapshot, x: BlockRef, first: seq<Block>, listed: seq<Block>, accepted: seq<Block>, t': Snapshot)
    requires Starts(w, median, t, x, first) && ReleaseStep(w, median, t, x, first, listed, accepted, t')
    ensures t'.dag.Keys == t.dag.Keys + Refs(accepted)
    ensures Swept(t) ==> Swept(t')
    ensures Tight(t) ==> Tight(t')
    ensures Calm(w, median) ==> Known(t') == Known(t) + Refs(first)
  {
    hide SuspensionOk, DagOk, World.Ok, FirstOk, Grounded, WellTimed, Released, Swept, Tight, DistinctRefs, ReleaseOrder;
    StepAccepts(w, median, t, x, first, listed, accepted, t');
    CoreWellSuspended(w, t, x);
    ReleaseKeeps(t, x, Released(t.suspended, x), Genuine(w, Refs(accepted)));
    ReleasedBounded(t.suspended, x);
    if Calm(w, median) {
      CalmAcceptsAll(w, median, t, x, first, listed, accepted, t');
      ListedGenuine(w, t, x, first, listed);
    }
  }

  // ----- one received block

  /** Blocks at or below the garbage collection round are not processed. */
  predicate TooOld(gc: Gc, block: Block) { gc.enabled && block.round <= gc.round }

  /** The block waits, or it arrives and releases others; a block already known or too old changes nothing. */
  ghost predicate OrdinaryStep(
    w: World, median: bool, t: Snapshot, block: Block,
    listed: seq<Block>, accepted: seq<Block>, toFetch: set<BlockRef>, t': Snapshot)
  {
    var x := block.Ref();
    if x in Known(t) || TooOld(t.gc, block) then t' == t && accepted == [] && toFetch == {}
    else if !(Needs(t.gc, block) <= t.dag.Keys) then
      t' == Suspend(t, block) && accepted == [] && toFetch == Needs(t.gc, block) - t.dag.Keys - t.suspended.Keys
    else toFetch == {} && ReleaseStep(w, median, Receive(t, x), x, [block], listed, accepted, t')
  }

  /** The block arrives and the timestamp check panics over what is listed. */
  ghost predicate StepPanics(median: bool, t: Snapshot, block: Block, listed: seq<Block>) {
    var x := block.Ref();
    && !median && x !in Known(t) && !TooOld(t.gc, block) && Needs(t.gc, block) <= t.dag.Keys
    && ReleasePanics(Receive(t, x), x, [block], listed)
  }

  ghost predicate ReleasePanics(t: Snapshot, x: BlockRef, first: seq<Block>, listed: seq<Block>) {
    IsListed(t, x, first, listed) && VerifyBlocks(t.gc, t.dag, listed).Panicked?
  }

  /** A state in which steps can be taken: the invariant, and groundedness when nothing is ever rejected. */
  ghost predicate Steady(w: World, median: bool, t: Snapshot) { Inv(w, t) && (Calm(w, median) ==> Grounded(t)) }

  /** A block that is not known, not too old and has all it needs may start a release. */
  lemma ReadyStarts(w: World, median: bool, t: Snapshot, block: Block)
    requires Steady(w, median, t) && w.Has(block) && block.Ref() !in Known(t) && Needs(t.gc, block) <= t.dag.Keys
    ensures Starts(w, median, Receive(t, block.Ref()), block.Ref(), [block])
    ensures HoldersBut(Receive(t, block.Ref()), block.Ref())
    ensures Grounded(t) ==> Grounded(Receive(t, block.Ref()))
  {
    hide WellSuspended, Linked, World.Ok;
    ReadySupplied(w, t, block);
  }

  /** What every step on a received block keeps. */
  ghost predicate Progress(t: Snapshot, accepted: seq<Block>, t': Snapshot) {
    && t'.gc == t.gc
    && t'.dag.Keys == t.dag.Keys + Refs(accepted) && t.dag.Keys !! Refs(accepted)
    && DistinctRefs(accepted) && Supplied(t.gc, t.dag, accepted)
    && (Swept(t) ==> Swept(t')) && (Tight(t) ==> Tight(t'))
  }

  lemma ProgressGrows(t: Snapshot, accepted: seq<Block>, t': Snapshot)
    requires Progress(t, accepted, t')
    ensures t.dag.Keys <= t'.dag.Keys && t'.gc == t.gc
  {
  }

  lemma OrdinaryStepSteady(
    w: World, median: bool, t: Snapshot, block: Block,
    listed: seq<Block>, accepted: seq<Block>, toFetch: set<BlockRef>, t': Snapshot)
    requires Steady(w, median, t) && w.Has(block) && block.round > GENESIS_ROUND
    requires OrdinaryStep(w, median, t, block, listed, accepted, toFetch, t')
    ensures Steady(w, median, t')
  {
    hide Inv, Grounded, WellTimed, Needs, Suspend, ReleaseStep, Known, Starts;
    var x := block.Ref();
    if x in Known(t) || TooOld(t.gc, block) {
    } else if !(Needs(t.gc, block) <= t.dag.Keys) {
      SuspendInv(w, t, block);
      SuspendKeeps(w, t, block, {});
    } else {
      ReadyStarts(w, median, t, block);
      StepInv(w, median, Receive(t, x), x, [block], listed, accepted, t');
      if Calm(w, median) {
        CalmAcceptsAll(w, median, Receive(t, x), x, [block], listed, accepted, t');
        StepGrounded(w, median, Receive(t, x), x, [block], listed, accepted, t');
      }
    }
  }

  lemma OrdinaryStepProgress(
    w: World, median: bool, t: Snapshot, block: Block,
    listed: seq<Block>, accepted: seq<Block>, toFetch: set<BlockRef>, t': Snapshot)
    requires Steady(w, median, t) && w.Has(block) && block.round > GENESIS_ROUND
    requires OrdinaryStep(w, median, t, block, listed, accepted, toFetch, t')
    ensures Progress(t, accepted, t')
    ensures Calm(w, median) ==> Known(t') == Known(t) + (if TooOld(t.gc, block) then {} else {block.Ref()})
  {
    hide Inv, Grounded, WellTimed, Needs, Known, Starts, Supplied, DistinctRefs, Swept, Tight, Refs;
    var x := block.Ref();
    assert Refs([]) == {} && Refs([block]) == {x} by { RefsNone(); RefsOne(block); }
    if x in Known(t) || TooOld(t.gc, block) {
      NothingSupplied(t.gc, t.dag);
      assert x in Known(t) ==> Known(t) + {x} == Known(t);
    } else if !(Needs(t.gc, block) <= t.dag.Keys) {
      NothingSupplied(t.gc, t.dag);
      SuspendKeeps(w, t, block, {});
      if Tight(t) {
        SuspendTight(w, t, block);
      }
    } else {
      var r := Receive(t, x);
      ReadyStarts(w, median, t, block);
      ReceiveKeeps(t, x);
      StepAccepts(w, median, r, x, [block], listed, accepted, t');
      StepOrder(w, median, r, x, [block], listed, accepted, t');
      StepKnown(w, median, r, x, [block], listed, accepted, t');
    }
  }

  lemma RefsNone()
    ensures Refs([]) == {}
  {
  }

  lemma RefsOne(b: Block)
    ensures Refs([b]) == {b.Ref()}
  {
  }

  lemma NothingSupplied(gc: Gc, dag: Store)
    ensures Supplied(gc, dag, []) && DistinctRefs([])
  {
  }

  lemma ReceiveKeeps(t: Snapshot, x: BlockRef)
    ensures Known(Receive(t, x)) == Known(t)
    ensures Swept(t) ==> Swept(Receive(t, x))
    ensures Tight(t) ==> Tight(Receive(t, x))
  {
  }

  /** Only the received block stops being one to fetch, and what is returned as missing is to fetch. */
  lemma OrdinaryStepHolders(
    w: World, median: bool, t: Snapshot, block: Block,
    listed: seq<Block>, accepted: seq<Block>, toFetch: set<BlockRef>, t': Snapshot)
    requires Steady(w, median, t) && w.Has(block)
    requires OrdinaryStep(w, median, t, block, listed, accepted, toFetch, t')
    ensures t.holders.Keys - {block.Ref()} <= t'.holders.Keys && toFetch <= t'.holders.Keys
    ensures forall a :: a in toFetch ==> a.round < block.round
  {
    hide SuspensionOk, Grounded, WellTimed, IsListed, IsAccepted, Released, StillSuspended, AddHolders, AddWaiting;
  }

  lemma OrdinaryStepComplete(
    w: World, median: bool, t: Snapshot, block: Block,
    listed: seq<Block>, accepted: seq<Block>, toFetch: set<BlockRef>, t': Snapshot, roots: set<BlockRef>)
    requires Steady(w, median, t) && w.Has(block) && block.round > GENESIS_ROUND
    requires OrdinaryStep(w, median, t, block, listed, accepted, toFetch, t') && Complete(t, roots)
    ensures Complete(t', roots)
  {
    hide Inv, Grounded, WellTimed, Needs, Starts, Supplied, DistinctRefs, Swept, Tight, Refs, ReleaseStep, Suspend;
    var x := block.Ref();
    if x in Known(t) || TooOld(t.gc, block) {
    } else if !(Needs(t.gc, block) <= t.dag.Keys) {
      SuspendKeeps(w, t, block, roots);
    } else {
      ReadyStarts(w, median, t, block);
      StepComplete(w, median, Receive(t, x), x, [block], listed, accepted, t', roots);
    }
  }

  // ----- several received blocks

  /** References of the received blocks that are not too old. */
  ghost function Fresh(gc: Gc, blocks: seq<Block>): set<BlockRef> {
    set b | b in blocks && !TooOld(gc, b) :: b.Ref()
  }

  lemma FreshAppend(gc: Gc, blocks: seq<Block>, b: Block)
    ensures Fresh(gc, blocks + [b]) == Fresh(gc, blocks) + (if TooOld(gc, b) then {} else {b.Ref()})
  {
    assert forall c :: c in blocks + [b] <==> c in blocks || c == b;
  }

  lemma NoProgress(t: Snapshot)
    ensures Progress(t, [], t)
  {
    NothingSupplied(t.gc, t.dag);
  }

  lemma ProgressConcat(t: Snapshot, a: seq<Block>, t1: Snapshot, b: seq<Block>, t2: Snapshot)
    requires Progress(t, a, t1) && Progress(t1, b, t2)
    ensures Progress(t, a + b, t2)
  {
    hide Supplied, Swept, Tight, DistinctRefs;
    RefsConcat(a, b);
    SuppliedConcat(t.gc, t.dag, t1.dag, a, b);
    DistinctConcat(a, b);
  }

  lemma DistinctConcat(a: seq<Block>, b: seq<Block>)
    requires DistinctRefs(a) && DistinctRefs(b) && Refs(a) !! Refs(b)
    ensures DistinctRefs(a + b)
  {
    forall i, j | 0 <= i < j < |a + b| ensures (a + b)[i].Ref() != (a + b)[j].Ref() {
      if j < |a| {
        assert (a + b)[i] == a[i] && (a + b)[j] == a[j];
      } else if i < |a| {
        var p, q := (a + b)[i], (a + b)[j];
        assert p in a && q == b[j - |a|] && q in b;
        assert p.Ref() in Refs(a) && q.Ref() in Refs(b);
      } else {
        assert (a + b)[i] == b[i - |a|] && (a + b)[j] == b[j - |a|];
      }
    }
  }

  // ----- timestamps without garbage collection

  /** No stored block is earlier than a stored ancestor. */
  ghost predicate TimesOk(t: Snapshot) {
    forall r, a :: r in t.dag && a in t.dag[r].ancestors && a in t.dag ==> t.dag[a].timestamp <= t.dag[r].timestamp
  }

  lemma OrdinaryStepTimes(
    w: World, t: Snapshot, block: Block,
    listed: seq<Block>, accepted: seq<Block>, toFetch: set<BlockRef>, t': Snapshot)
    requires Steady(w, false, t) && w.Has(block) && block.round > GENESIS_ROUND && !t.gc.enabled
    requires OrdinaryStep(w, false, t, block, listed, accepted, toFetch, t')
    requires TimesOk(t) && Complete(t, {})
    ensures TimesOk(t')
  {
    hide Inv, Needs, Known, Starts, Supplied, IsListed;
    var x := block.Ref();
    if x !in Known(t) && !TooOld(t.gc, block) && Needs(t.gc, block) <= t.dag.Keys {
      var r := Receive(t, x);
      ReadyStarts(w, false, t, block);
      StepAccepts(w, false, r, x, [block], listed, accepted, t');
      ListedDistinct(r, x, [block], listed);
      assert AllGenuine(w, listed) by { ListedGenuineOf(w, false, r, x, [block], listed); }
      AcceptedTimes(w, t, listed, accepted, t');
    }
  }

  lemma ListedGenuineOf(w: World, median: bool, t: Snapshot, x: BlockRef, first: seq<Block>, listed: seq<Block>)
    requires Starts(w, median, t, x, first) && IsListed(t, x, first, listed)
    ensures AllGenuine(w, listed) && DistinctRefs(listed) && WellSuspended(t.suspended)
    ensures Refs(listed) <= {x} + Released(t.suspended, x)
  {
    hide SuspensionOk, DagOk, World.Ok;
    ListedGenuine(w, t, x, first, listed);
    CoreWellSuspended(w, t, x);
  }

  lemma AcceptedTimes(w: World, t: Snapshot, listed: seq<Block>, accepted: seq<Block>, t': Snapshot)
    requires !t.gc.enabled && TimesOk(t) && Complete(t, {})
    requires AllGenuine(w, listed) && DistinctRefs(listed) && IsAccepted(false, t, listed, accepted)
    requires t'.dag == t.dag + Genuine(w, Refs(accepted)) && t.dag.Keys !! Refs(accepted)
    ensures TimesOk(t')
  {
    hide VerifyBlocks, DistinctRefs, SortedByRef;
    var p := VerifyBlocks(t.gc, t.dag, listed);
    PassPartitions(t.gc, t.dag, listed);
    forall r | r in p.accepted ensures p.accepted[r] == w.universe[r] && r in w.universe {
      assert w.Has(p.accepted[r]);
    }
    forall r, a | r in t'.dag && a in t'.dag[r].ancestors && a in t'.dag
      ensures t'.dag[a].timestamp <= t'.dag[r].timestamp
    {
      if r !in t.dag {
        assert r in p.accepted;
        PassAcceptsWell(t.gc, t.dag, listed, r);
        assert Accounted(t.gc, t.dag, p.accepted, a);
      }
    }
  }

  // ----- committed blocks

  /** A committed block is stored at once and no longer waits, whatever it still misses. */
  ghost function CommitIn(t: Snapshot, block: Block): Snapshot {
    var x := block.Ref();
    t.(dag := t.dag[x := block],
       suspended := t.suspended - {x},
       waiting := if x in t.suspended then Unlist(t.waiting, t.suspended[x].missing, x) else t.waiting,
       holders := t.holders - {x})
  }

  ghost predicate CommittedStep(
    w: World, median: bool, t: Snapshot, block: Block, listed: seq<Block>, accepted: seq<Block>, t': Snapshot)
  {
    if block.Ref() in t.dag then t' == t && accepted == []
    else
      accepted != [] && accepted[0] == block
      && ReleaseStep(w, median, CommitIn(t, block), block.Ref(), [], listed, accepted[1..], t')
  }

  lemma CommitSuspension(w: World, t: Snapshot, block: Block)
    requires SuspensionOk(w, t, {}) && block.Ref() !in t.dag
    ensures SuspensionOk(w, CommitIn(t, block), {block.Ref()})
  {
    hide WellSuspended, Linked;
    if block.Ref() in t.suspended {
      RemoveKeepsLinks(t.suspended, t.waiting, block.Ref());
    } else {
      assert t.suspended - {block.Ref()} == t.suspended;
    }
  }

  lemma CommitCore(w: World, t: Snapshot, block: Block)
    requires Inv(w, t) && w.Has(block) && block.Ref() !in t.dag
    ensures CoreInv(w, CommitIn(t, block), block.Ref()) && HoldersBut(CommitIn(t, block), block.Ref())
  {
    hide World.Ok, SuspensionOk;
    CommitSuspension(w, t, block);
    var t' := CommitIn(t, block);
    assert t'.waiting.Keys == t.waiting.Keys;
  }

  lemma CommitStarts(w: World, median: bool, t: Snapshot, block: Block)
    requires Steady(w, median, t) && w.Has(block) && block.Ref() !in t.dag
    ensures Starts(w, median, CommitIn(t, block), block.Ref(), []) && HoldersBut(CommitIn(t, block), block.Ref())
    ensures Grounded(t) ==> Grounded(CommitIn(t, block))
  {
    hide World.Ok, SuspensionOk;
    CommitCore(w, t, block);
    NothingSupplied(t.gc, CommitIn(t, block).dag);
  }

  lemma CommittedStepSteady(
    w: World, median: bool, t: Snapshot, block: Block, listed: seq<Block>, accepted: seq<Block>, t': Snapshot)
    requires Steady(w, median, t) && w.Has(block) && CommittedStep(w, median, t, block, listed, accepted, t')
    ensures Steady(w, median, t')
  {
    hide Inv, Grounded, WellTimed, ReleaseStep, Starts, CommitIn;
    if block.Ref() !in t.dag {
      var t1 := CommitIn(t, block);
      CommitStarts(w, median, t, block);
      StepInv(w, median, t1, block.Ref(), [], listed, accepted[1..], t');
      if Calm(w, median) {
        CalmAcceptsAll(w, median, t1, block.Ref(), [], listed, accepted[1..], t');
        StepGrounded(w, median, t1, block.Ref(), [], listed, accepted[1..], t');
      }
    }
  }

  lemma ReleaseKeepsGc(
    w: World, median: bool, t: Snapshot, x: BlockRef, first: seq<Block>, listed: seq<Block>, accepted: seq<Block>, t': Snapshot)
    requires ReleaseStep(w, median, t, x, first, listed, accepted, t')
    ensures t'.gc == t.gc
  {
  }

  lemma CommitInFacts(t: Snapshot, block: Block, roots: set<BlockRef>)
    ensures CommitIn(t, block).gc == t.gc && CommitIn(t, block).dag.Keys == t.dag.Keys + {block.Ref()}
    ensures Complete(t, roots) ==> Complete(CommitIn(t, block), roots + {block.Ref()})
  {
  }

  /** Only the committed block itself may enter without its history. */
  lemma CommittedStepComplete(
    w: World, median: bool, t: Snapshot, block: Block, listed: seq<Block>, accepted: seq<Block>, t': Snapshot, roots: set<BlockRef>)
    requires Steady(w, median, t) && w.Has(block) && CommittedStep(w, median, t, block, listed, accepted, t')
    requires Complete(t, roots)
    ensures Complete(t', roots + {block.Ref()})
    ensures t'.gc == t.gc && t'.dag.Keys == t.dag.Keys + Refs(accepted)
  {
    hide Inv, Grounded, WellTimed, ReleaseStep, Complete, CommitIn, Refs;
    if block.Ref() in t.dag {
      RefsNone();
      MoreRoots(t, roots, roots + {block.Ref()});
    } else {
      CommittedEnters(w, median, t, block, listed, accepted[1..], t', roots);
      assert accepted == [block] + accepted[1..];
      RefsConcat([block], accepted[1..]);
      RefsOne(block);
    }
  }

  /** What a committed block brings in is new, each block once. */
  lemma CommittedStepDistinct(
    w: World, median: bool, t: Snapshot, block: Block, listed: seq<Block>, accepted: seq<Block>, t': Snapshot)
    requires Steady(w, median, t) && w.Has(block) && CommittedStep(w, median, t, block, listed, accepted, t')
    ensures DistinctRefs(accepted) && Refs(accepted) !! t.dag.Keys
  {
    hide Inv, Grounded, WellTimed, ReleaseStep, CommitIn, Refs, Starts, DistinctRefs;
    RefsNone();
    RefsOne(block);
    NothingSupplied(t.gc, t.dag);
    if block.Ref() !in t.dag {
      CommitStarts(w, median, t, block);
      CommitInFacts(t, block, {});
      StepAccepts(w, median, CommitIn(t, block), block.Ref(), [], listed, accepted[1..], t');
      assert accepted == [block] + accepted[1..];
      RefsConcat([block], accepted[1..]);
      assert DistinctRefs([block]) by { OneIsDistinct(block); }
      DistinctConcat([block], accepted[1..]);
    }
  }

  lemma OneIsDistinct(b: Block)
    ensures DistinctRefs([b])
  {
  }

  lemma CommittedEnters(
    w: World, median: bool, t: Snapshot, block: Block, listed: seq<Block>, released: seq<Block>, t': Snapshot, roots: set<BlockRef>)
    requires Steady(w, median, t) && w.Has(block) && block.Ref() !in t.dag && Complete(t, roots)
    requires ReleaseStep(w, median, CommitIn(t, block), block.Ref(), [], listed, released, t')
    ensures Complete(t', roots + {block.Ref()}) && t'.gc == t.gc
    ensures t'.dag.Keys == t.dag.Keys + {block.Ref()} + Refs(released)
  {
    hide Inv, Grounded, WellTimed, Starts, ReleaseStep, Complete, CommitIn, Refs;
    var t1 := CommitIn(t, block);
    CommitStarts(w, median, t, block);
    CommitInFacts(t, block, roots);
    ReleaseKeepsGc(w, median, t1, block.Ref(), [], listed, released, t');
    StepComplete(w, median, t1, block.Ref(), [], listed, released, t', roots + {block.Ref()});
    StepKnown(w, median, t1, block.Ref(), [], listed, released, t');
  }

  /** More exceptions ask for less. */
  lemma MoreRoots(t: Snapshot, roots: set<BlockRef>, more: set<BlockRef>)
    requires roots <= more
    ensures Complete(t, roots) ==> Complete(t, more)
  {
  }

  // ----- asking for blocks

  /** The references asked for that are neither stored nor suspended, and recent enough to be fetched. */
  ghost function Unknown(t: Snapshot, refs: seq<BlockRef>): set<BlockRef> {
    set r | r in refs && r.round > t.gc.round && r !in Known(t)
  }

  ghost function AskWaiting(m: Waiting, unknown: set<BlockRef>): (r: Waiting)
    ensures r.Keys == m.Keys + unknown
  {
    map a | a in m.Keys + unknown :: if a in m then m[a] else {}
  }

  ghost function AskHolders(b: Holders, unknown: set<BlockRef>): (r: Holders)
    ensures r.Keys == b.Keys + unknown
  {
    map a | a in b.Keys + unknown :: if a in unknown then {a.author} else b[a]
  }

  /** Unknown references are blocks to fetch from their authors, even if nobody waits for them. */
  ghost function AskFor(t: Snapshot, unknown: set<BlockRef>): Snapshot {
    t.(waiting := AskWaiting(t.waiting, unknown), holders := AskHolders(t.holders, unknown))
  }

  lemma UnknownAppend(t: Snapshot, refs: seq<BlockRef>, r: BlockRef)
    ensures Unknown(t, refs + [r]) == Unknown(t, refs) + (if r.round > t.gc.round && r !in Known(t) then {r} else {})
  {
    assert forall x :: x in refs + [r] <==> x in refs || x == r;
  }

  lemma AskNothing(t: Snapshot)
    ensures AskFor(t, {}) == t && Unknown(t, []) == {}
  {
    assert AskWaiting(t.waiting, {}) == t.waiting;
    assert AskHolders(t.holders, {}) == t.holders;
  }

  lemma AskOneWaiting(m: Waiting, unknown: set<BlockRef>, r: BlockRef)
    ensures var a := AskWaiting(m, unknown);
      AskWaiting(m, unknown + {r}) == if r in a then a else a[r := {}]
  {
    var a, b := AskWaiting(m, unknown), AskWaiting(m, unknown + {r});
    assert b.Keys == a.Keys + {r};
    forall k | k in b ensures b[k] == (if k in a then a[k] else {}) {
    }
  }

  lemma AskOneHolder(h: Holders, unknown: set<BlockRef>, r: BlockRef)
    ensures AskHolders(h, unknown + {r}) == AskHolders(h, unknown)[r := {r.author}]
  {
    var a, b := AskHolders(h, unknown), AskHolders(h, unknown + {r});
    assert b.Keys == a.Keys + {r};
    forall k | k in b ensures b[k] == (if k == r then {r.author} else a[k]) {
    }
  }

  /** One more unknown reference. */
  lemma AskOne(w: World, t: Snapshot, unknown: set<BlockRef>, r: BlockRef)
    requires Inv(w, t)
    ensures var a := AskFor(t, unknown);
      && AskFor(t, unknown + {r})
         == a.(holders := a.holders[r := {r.author}], waiting := if r in a.waiting then a.waiting else a.waiting[r := {}])
      && a.holders.Keys <= a.waiting.Keys
  {
    hide World.Ok, DagOk, SuspensionOk, AskWaiting, AskHolders;
    AskOneWaiting(t.waiting, unknown, r);
    AskOneHolder(t.holders, unknown, r);
  }

  lemma AskForLinked(t: Snapshot, unknown: set<BlockRef>)
    requires Linked(t.suspended, t.waiting)
    ensures Linked(AskFor(t, unknown).suspended, AskFor(t, unknown).waiting)
  {
    var t' := AskFor(t, unknown);
    forall a, c ensures (a in t'.waiting && c in t'.waiting[a]) <==> (c in t'.suspended && a in t'.suspended[c].missing) {
      assert (a in t.waiting && c in t.waiting[a]) <==> (c in t.suspended && a in t.suspended[c].missing);
    }
  }

  lemma AskForStored(w: World, t: Snapshot, unknown: set<BlockRef>)
    ensures DagOk(w, t) ==> DagOk(w, AskFor(t, unknown))
    ensures Grounded(t) ==> Grounded(AskFor(t, unknown))
  {
    hide AskWaiting, AskHolders;
  }

  lemma AskForSuspension(w: World, t: Snapshot, unknown: set<BlockRef>)
    requires SuspensionOk(w, t, {}) && HoldersOk(t) && unknown !! Known(t) && forall r :: r in unknown ==> r.round > 0
    ensures SuspensionOk(w, AskFor(t, unknown), {}) && HoldersOk(AskFor(t, unknown))
  {
    hide WellSuspended, Linked;
    AskForLinked(t, unknown);
    var t' := AskFor(t, unknown);
    assert t'.holders.Keys == t'.waiting.Keys - t'.suspended.Keys;
  }

  lemma AskForSteady(w: World, median: bool, t: Snapshot, unknown: set<BlockRef>)
    requires Steady(w, median, t) && unknown !! Known(t) && forall r :: r in unknown ==> r.round > t.gc.round
    ensures Steady(w, median, AskFor(t, unknown))
    ensures Swept(t) ==> Swept(AskFor(t, unknown))
  {
    hide World.Ok, DagOk, Grounded, WellTimed, SuspensionOk, HoldersOk, AskHolders;
    AskForStored(w, t, unknown);
    AskForSuspension(w, t, unknown);
  }

  // ----- garbage collection

  /** A suspended block awaits a block of a lower round. */
  lemma AwaitsLess(w: World, t: Snapshot, c: BlockRef) returns (a: BlockRef)
    requires Inv(w, t) && c in t.suspended
    ensures a in t.waiting && a.round < c.round
  {
    hide World.Ok, DagOk, HoldersOk;
    a :| a in t.suspended[c].missing;
    assert a in t.waiting && c in t.waiting[a];
  }

  /** The least awaited reference is never suspended, since a suspended block awaits a lesser one. */
  lemma LeastNotSuspended(w: World, t: Snapshot, k: BlockRef)
    requires Inv(w, t) && k in t.waiting && forall r :: r in t.waiting ==> !r.Less(k)
    ensures k !in t.suspended
  {
    hide Inv;
    if k in t.suspended {
      var a := AwaitsLess(w, t, k);
    }
  }

  /** Giving up an awaited block below the garbage collection round starts a release. */
  lemma CollectStarts(w: World, median: bool, t: Snapshot, k: BlockRef)
    requires Steady(w, median, t) && t.gc.enabled && k in t.waiting && k.round <= t.gc.round && k !in t.suspended
    ensures Starts(w, median, Receive(t, k), k, []) && HoldersBut(Receive(t, k), k)
    ensures Grounded(t) ==> Grounded(Receive(t, k))
  {
    hide World.Ok, WellSuspended, Linked;
    NothingSupplied(t.gc, t.dag);
  }

  lemma CollectStepSteady(
    w: World, median: bool, t: Snapshot, k: BlockRef, listed: seq<Block>, accepted: seq<Block>, t': Snapshot)
    requires Steady(w, median, t) && t.gc.enabled && k in t.waiting && k.round <= t.gc.round && k !in t.suspended
    requires ReleaseStep(w, median, Receive(t, k), k, [], listed, accepted, t')
    ensures Steady(w, median, t') && t'.gc == t.gc && t'.waiting.Keys < t.waiting.Keys
  {
    hide Inv, Grounded, WellTimed, Starts, IsListed, IsAccepted, Released;
    CollectStarts(w, median, t, k);
    StepInv(w, median, Receive(t, k), k, [], listed, accepted, t');
    if Calm(w, median) {
      CalmAcceptsAll(w, median, Receive(t, k), k, [], listed, accepted, t');
      StepGrounded(w, median, Receive(t, k), k, [], listed, accepted, t');
    }
    assert k !in t'.waiting;
  }

  lemma CollectStepComplete(
    w: World, median: bool, t: Snapshot, k: BlockRef, listed: seq<Block>, accepted: seq<Block>, t': Snapshot, roots: set<BlockRef>)
    requires Steady(w, median, t) && t.gc.enabled && k in t.waiting && k.round <= t.gc.round && k !in t.suspended
    requires ReleaseStep(w, median, Receive(t, k), k, [], listed, accepted, t')
    requires Complete(t, roots)
    ensures Complete(t', roots)
  {
    hide Inv, Grounded, WellTimed, Starts, IsListed, IsAccepted, Released, ReleaseStep;
    CollectStarts(w, median, t, k);
    StepComplete(w, median, Receive(t, k), k, [], listed, accepted, t', roots);
  }

  /** When no awaited reference is at or below the garbage collection round, no suspended block is either. */
  lemma AboveGc(w: World, t: Snapshot)
    requires Inv(w, t) && forall a :: a in t.waiting ==> a.round > t.gc.round
    ensures Swept(t)
    ensures forall a :: a in t.holders ==> a.round > t.gc.round
    ensures forall c :: c in t.suspended ==> c.round > t.gc.round
  {
    forall c | c in t.suspended ensures c.round > t.gc.round {
      var a := AwaitsLess(w, t, c);
    }
  }

  /** A higher garbage collection round disturbs nothing. */
  lemma GcAdvances(w: World, median: bool, t: Snapshot, round: nat, roots: set<BlockRef>)
    requires Steady(w, median, t) && t.gc.enabled && round >= t.gc.round
    ensures Steady(w, median, t.(gc := Gc(true, round)))
    ensures Complete(t, roots) ==> Complete(t.(gc := Gc(true, round)), roots)
  {
    hide World.Ok, WellSuspended, Linked;
  }
}
