/** A batch as the sequence of its steps, and when it accepts blocks in ascending rounds. */
module Batches {
  import opened Sequences
  import opened Blocks
  import opened SuspensionIndex
  import opened TimestampPass
  import opened ManagerState
  import opened ManagerSteps

  /** One received block: what was listed and accepted, what is to be fetched, and the state afterwards. */
  datatype Visit = Visit(block: Block, listed: seq<Block>, accepted: seq<Block>, toFetch: set<BlockRef>, after: Snapshot)

  ghost predicate SortedByRound(s: seq<Block>) {
    forall i, j :: 0 <= i < j < |s| ==> s[i].round <= s[j].round
  }

  /** The state before visit `i`. */
  ghost function StateBefore(t: Snapshot, trail: seq<Visit>, i: nat): Snapshot
    requires i <= |trail|
  {
    if i == 0 then t else trail[i - 1].after
  }

  ghost predicate IsVisit(w: World, median: bool, t: Snapshot, v: Visit) {
    && w.Has(v.block) && v.block.round > GENESIS_ROUND
    && OrdinaryStep(w, median, t, v.block, v.listed, v.accepted, v.toFetch, v.after)
  }

  /** Each visit is a step from the state that the one before left. */
  ghost predicate IsTrail(w: World, median: bool, t: Snapshot, trail: seq<Visit>) {
    forall i :: 0 <= i < |trail| ==> IsVisit(w, median, StateBefore(t, trail, i), trail[i])
  }

  ghost function BlocksOf(trail: seq<Visit>): seq<Block> { seq(|trail|, i requires 0 <= i < |trail| => trail[i].block) }

  ghost function AcceptedBy(trail: seq<Visit>): seq<seq<Block>> {
    seq(|trail|, i requires 0 <= i < |trail| => trail[i].accepted)
  }

  lemma TrailExtends(w: World, median: bool, t: Snapshot, trail: seq<Visit>, v: Visit)
    requires IsTrail(w, median, t, trail) && IsVisit(w, median, StateBefore(t, trail, |trail|), v)
    ensures IsTrail(w, median, t, trail + [v]) && BlocksOf(trail + [v]) == BlocksOf(trail) + [v.block]
    ensures Flatten(AcceptedBy(trail + [v])) == Flatten(AcceptedBy(trail)) + v.accepted
  {
    hide IsVisit;
    var longer := trail + [v];
    forall i | 0 <= i < |longer|
      ensures IsVisit(w, median, StateBefore(t, longer, i), longer[i])
    {
      assert i < |trail| ==> longer[i] == trail[i] && StateBefore(t, longer, i) == StateBefore(t, trail, i);
    }
    assert AcceptedBy(longer) == AcceptedBy(trail) + [v.accepted];
    FlattenAppend(AcceptedBy(trail), v.accepted);
  }

  /** A block that is not below any suspended block releases nothing. */
  lemma {:induction false} NotReleasable(s: Suspended, x: BlockRef, c: BlockRef)
    requires WellSuspended(s) && forall d :: d in s ==> d.round <= x.round
    ensures !Releasable(s, x, c)
    decreases c.round
  {
    if c in s {
      var a :| a in s[c].missing;
      assert a.round < c.round;
      NotReleasable(s, x, a);
    }
  }

  /** No suspended block is above `round`. */
  ghost predicate NoneAbove(s: Suspended, round: nat) { forall d :: d in s ==> d.round <= round }

  lemma NothingReleased(s: Suspended, x: BlockRef)
    requires WellSuspended(s) && NoneAbove(s, x.round)
    ensures Released(s, x) == {}
  {
    forall c
      ensures c !in Released(s, x)
    {
      NotReleasable(s, x, c);
    }
  }

  /** One step in such a state accepts at most the received block, and keeps the state so. */
  lemma VisitAlone(w: World, median: bool, t: Snapshot, v: Visit)
    requires Inv(w, t) && IsVisit(w, median, t, v) && NoneAbove(t.suspended, v.block.round)
    ensures NoneAbove(v.after.suspended, v.block.round)
    ensures forall b :: b in v.accepted ==> b.round == v.block.round
  {
    hide DagOk, World.Ok, HoldersOk, VerifyBlocks, WellSuspended, Linked, Needs, ReleaseOrder, DistinctRefs, SortedByRef, Released;
    var x := v.block.Ref();
    if x in Known(t) || TooOld(t.gc, v.block) || !(Needs(t.gc, v.block) <= t.dag.Keys) {
    } else {
      NothingReleased(t.suspended, x);
      ListedAlone(v.listed, v.block);
      assert forall b :: b in v.accepted ==> b in v.listed;
    }
  }

  lemma ListedAlone(listed: seq<Block>, b: Block)
    requires |listed| >= 1 && listed[..1] == [b] && Refs(listed[1..]) == {}
    ensures listed == [b]
  {
    if |listed| > 1 {
      SomeRef(listed[1..]);
    } else {
      assert listed == listed[..1];
    }
  }

  lemma {:induction false} TrailSteady(w: World, median: bool, t: Snapshot, trail: seq<Visit>, k: nat)
    requires Steady(w, median, t) && IsTrail(w, median, t, trail) && k <= |trail|
    ensures Steady(w, median, StateBefore(t, trail, k))
  {
    hide Steady, IsVisit;
    if k == 0 {
    } else {
      TrailSteady(w, median, t, trail, k - 1);
      assert IsVisit(w, median, StateBefore(t, trail, k - 1), trail[k - 1]);
      VisitKnown(w, median, StateBefore(t, trail, k - 1), trail[k - 1]);
    }
  }

  /** No suspended block is above a block of the batch. */
  ghost predicate NoneAboveAny(s: Suspended, blocks: seq<Block>) {
    forall c, b :: c in s && b in blocks ==> c.round <= b.round
  }

  /** One visit of a trail, from a state with nothing suspended above its block. */
  lemma VisitStaysLow(w: World, median: bool, t: Snapshot, trail: seq<Visit>, k: nat)
    requires Steady(w, median, t) && IsTrail(w, median, t, trail) && k < |trail|
    requires NoneAbove(StateBefore(t, trail, k).suspended, trail[k].block.round)
    ensures NoneAbove(trail[k].after.suspended, trail[k].block.round)
    ensures forall b :: b in trail[k].accepted ==> b.round == trail[k].block.round
  {
    hide Inv, Grounded, WellTimed, IsVisit, NoneAbove;
    TrailSteady(w, median, t, trail, k);
    assert IsVisit(w, median, StateBefore(t, trail, k), trail[k]);
    VisitAlone(w, median, StateBefore(t, trail, k), trail[k]);
  }

  lemma LowStart(s: Suspended, trail: seq<Visit>)
    requires trail != [] && NoneAboveAny(s, BlocksOf(trail))
    ensures NoneAbove(s, trail[0].block.round)
  {
    assert BlocksOf(trail)[0] == trail[0].block;
  }

  lemma LowNext(s: Suspended, trail: seq<Visit>, k: nat)
    requires 0 < k < |trail| && SortedByRound(BlocksOf(trail)) && NoneAbove(s, trail[k - 1].block.round)
    ensures NoneAbove(s, trail[k].block.round)
  {
    assert BlocksOf(trail)[k - 1] == trail[k - 1].block && BlocksOf(trail)[k] == trail[k].block;
  }

  lemma {:induction false} TrailStaysLow(w: World, median: bool, t: Snapshot, trail: seq<Visit>, k: nat)
    requires Steady(w, median, t) && IsTrail(w, median, t, trail) && k < |trail|
    requires SortedByRound(BlocksOf(trail)) && NoneAboveAny(t.suspended, BlocksOf(trail))
    ensures NoneAbove(StateBefore(t, trail, k).suspended, trail[k].block.round)
    ensures forall b :: b in trail[k].accepted ==> b.round == trail[k].block.round
  {
    hide Steady, IsTrail, SortedByRound, NoneAbove, NoneAboveAny, BlocksOf;
    if k == 0 {
      LowStart(t.suspended, trail);
    } else {
      TrailStaysLow(w, median, t, trail, k - 1);
      VisitStaysLow(w, median, t, trail, k - 1);
      LowNext(trail[k - 1].after.suspended, trail, k);
    }
    VisitStaysLow(w, median, t, trail, k);
  }

  /** Lists of equal rounds, one after the other in ascending rounds, ascend. */
  lemma {:induction false} FlattenAscends(blocks: seq<Block>, lists: seq<seq<Block>>)
    requires |blocks| == |lists| && SortedByRound(blocks)
    requires forall k, b :: 0 <= k < |lists| && b in lists[k] ==> b.round == blocks[k].round
    ensures SortedByRound(Flatten(lists))
    ensures forall b :: b in Flatten(lists) ==> blocks != [] && b.round <= blocks[|blocks| - 1].round
  {
    if lists == [] {
    } else {
      var n := |lists| - 1;
      assert lists == lists[..n] + [lists[n]];
      FlattenAppend(lists[..n], lists[n]);
      FlattenAscends(blocks[..n], lists[..n]);
      var front := Flatten(lists[..n]);
      forall i, j | 0 <= i < j < |front + lists[n]|
        ensures (front + lists[n])[i].round <= (front + lists[n])[j].round
      {
        if i < |front| <= j {
          assert front[i] in front && lists[n][j - |front|] in lists[n];
        } else if |front| <= i {
          assert lists[n][i - |front|] in lists[n] && lists[n][j - |front|] in lists[n];
        }
      }
    }
  }

  /**
   * A batch accepts blocks in ascending rounds if no block suspended before it is above a block of the
   * batch; in particular if none is suspended.
   */
  lemma AscendingBatch(w: World, median: bool, t: Snapshot, trail: seq<Visit>)
    requires Steady(w, median, t) && IsTrail(w, median, t, trail)
    requires SortedByRound(BlocksOf(trail)) && NoneAboveAny(t.suspended, BlocksOf(trail))
    ensures SortedByRound(Flatten(AcceptedBy(trail)))
  {
    hide Inv, Grounded, WellTimed, OrdinaryStep, IsTrail, SortedByRound;
    forall k, b | 0 <= k < |trail| && b in AcceptedBy(trail)[k]
      ensures b.round == BlocksOf(trail)[k].round
    {
      TrailStaysLow(w, median, t, trail, k);
    }
    FlattenAscends(BlocksOf(trail), AcceptedBy(trail));
  }

  /** After some steps of the batch the next one panics. */
  ghost predicate BatchPanics(w: World, median: bool, t: Snapshot, blocks: seq<Block>) {
    exists trail: seq<Visit>, block: Block, listed: seq<Block> ::
      && IsTrail(w, median, t, trail) && block in blocks
      && (forall v: Visit :: v in trail ==> v.block in blocks && v.block.round <= block.round)
      && StepPanics(median, StateBefore(t, trail, |trail|), block, listed)
  }

  // ----- what a batch reports as missing

  lemma FreshFront(gc: Gc, blocks: seq<Block>, k: nat)
    requires k < |blocks|
    ensures Fresh(gc, blocks[..k + 1]) == Fresh(gc, blocks[..k]) + (if TooOld(gc, blocks[k]) then {} else {blocks[k].Ref()})
  {
    assert blocks[..k + 1] == blocks[..k] + [blocks[k]];
    FreshAppend(gc, blocks[..k], blocks[k]);
  }

  /** When nothing can be rejected, the blocks known at a visit are those known before and those visited. */
  lemma {:induction false} TrailKnown(w: World, median: bool, t: Snapshot, trail: seq<Visit>, k: nat)
    requires Steady(w, median, t) && Calm(w, median) && IsTrail(w, median, t, trail) && k <= |trail|
    ensures var s := StateBefore(t, trail, k);
      Steady(w, median, s) && s.gc == t.gc && Known(s) == Known(t) + Fresh(t.gc, BlocksOf(trail)[..k])
  {
    hide Steady, Calm, IsVisit, Known, Fresh, TooOld;
    if k == 0 {
      NoneFresh(t.gc, BlocksOf(trail));
    } else {
      TrailKnown(w, median, t, trail, k - 1);
      var s, v := StateBefore(t, trail, k - 1), trail[k - 1];
      assert IsVisit(w, median, s, v);
      VisitKnown(w, median, s, v);
      FreshFront(t.gc, BlocksOf(trail), k - 1);
    }
  }

  lemma VisitKnown(w: World, median: bool, t: Snapshot, v: Visit)
    requires Steady(w, median, t) && IsVisit(w, median, t, v)
    ensures Steady(w, median, v.after) && v.after.gc == t.gc
    ensures Calm(w, median) ==> Known(v.after) == Known(t) + (if TooOld(t.gc, v.block) then {} else {v.block.Ref()})
  {
    hide Steady, Calm, OrdinaryStep, Known, TooOld;
    OrdinaryStepSteady(w, median, t, v.block, v.listed, v.accepted, v.toFetch, v.after);
    OrdinaryStepProgress(w, median, t, v.block, v.listed, v.accepted, v.toFetch, v.after);
    ProgressGrows(t, v.accepted, v.after);
  }

  lemma NoneFresh(gc: Gc, blocks: seq<Block>)
    ensures Fresh(gc, blocks[..0]) == {}
  {
  }

  /** Some block of the batch is new, not too old, and needs `a`. */
  ghost predicate NeededByNew(t: Snapshot, blocks: seq<Block>, a: BlockRef) {
    exists b :: b in blocks && b.Ref() !in Known(t) && !TooOld(t.gc, b) && a in Needs(t.gc, b)
  }

  /** Some visit reports `a` as missing. */
  ghost predicate Reported(trail: seq<Visit>, a: BlockRef) { exists k :: 0 <= k < |trail| && a in trail[k].toFetch }

  /** What one visit reports: what the block needs and nobody knows, if the block is new and not too old. */
  lemma VisitReports(w: World, median: bool, t: Snapshot, v: Visit, a: BlockRef)
    requires IsVisit(w, median, t, v)
    ensures a in v.toFetch <==>
      v.block.Ref() !in Known(t) && !TooOld(t.gc, v.block) && a in Needs(t.gc, v.block) && a !in Known(t)
  {
    hide ReleaseStep, Suspend, Needs;
  }

  /** Blocks of a round at or above that of a later ancestor do not make the ancestor known. */
  lemma LowerStaysUnknown(gc: Gc, blocks: seq<Block>, k: nat, a: BlockRef)
    requires SortedByRound(blocks) && k < |blocks| && a.round < blocks[k].round
    ensures a in Fresh(gc, blocks) ==> a in Fresh(gc, blocks[..k])
  {
    if a in Fresh(gc, blocks) {
      var b :| b in blocks && !TooOld(gc, b) && b.Ref() == a;
      var i :| 0 <= i < |blocks| && blocks[i] == b;
      assert i < k;
      assert blocks[..k][i] == b;
    }
  }

  /** The first block of its reference in a list. */
  lemma {:induction false} FirstNamed(blocks: seq<Block>, r: BlockRef) returns (k: nat)
    requires r in Refs(blocks)
    ensures k < |blocks| && blocks[k].Ref() == r && r !in Refs(blocks[..k])
  {
    var b :| b in blocks && b.Ref() == r;
    var i :| 0 <= i < |blocks| && blocks[i] == b;
    if r in Refs(blocks[..i]) {
      k := FirstNamed(blocks[..i], r);
      assert blocks[..i][..k] == blocks[..k];
    } else {
      k := i;
    }
  }

  /**
   * When nothing can be rejected, a batch reports exactly the references that one of its new blocks needs
   * and that are unknown when the call ends.
   */
  lemma BatchReports(w: World, median: bool, t: Snapshot, trail: seq<Visit>, after: set<BlockRef>, a: BlockRef)
    requires Steady(w, median, t) && Calm(w, median) && IsTrail(w, median, t, trail) && SortedByRound(BlocksOf(trail))
    requires after == Known(StateBefore(t, trail, |trail|))
    ensures Reported(trail, a) <==> NeededByNew(t, BlocksOf(trail), a) && a !in after
  {
    hide Steady, Calm, IsTrail, Known, Fresh, Needs, TooOld, SortedByRound;
    var blocks := BlocksOf(trail);
    TrailKnown(w, median, t, trail, |trail|);
    assert blocks[..|trail|] == blocks;
    if Reported(trail, a) {
      var k :| 0 <= k < |trail| && a in trail[k].toFetch;
      VisitAtReports(w, median, t, trail, k, a);
      LowerStaysUnknown(t.gc, blocks, k, a);
      assert blocks[k] in blocks;
    }
    if NeededByNew(t, blocks, a) && a !in after {
      var b :| b in blocks && b.Ref() !in Known(t) && !TooOld(t.gc, b) && a in Needs(t.gc, b);
      var k := FirstNamed(blocks, b.Ref());
      assert trail[k].block == b by { SameVisit(w, median, t, trail, k, b); }
      TrailKnown(w, median, t, trail, k);
      NotYetFresh(t.gc, blocks, k, b.Ref(), a);
      VisitAtReports(w, median, t, trail, k, a);
    }
  }

  lemma VisitAtReports(w: World, median: bool, t: Snapshot, trail: seq<Visit>, k: nat, a: BlockRef)
    requires Steady(w, median, t) && Calm(w, median) && IsTrail(w, median, t, trail) && k < |trail|
    ensures var b, known := trail[k].block, Known(t) + Fresh(t.gc, BlocksOf(trail)[..k]);
      && (a in trail[k].toFetch <==> b.Ref() !in known && !TooOld(t.gc, b) && a in Needs(t.gc, b) && a !in known)
      && (a in Needs(t.gc, b) ==> a.round < b.round)
  {
    hide Calm, Known, Fresh, TooOld, SuspensionOk, Grounded, OrdinaryStep;
    TrailKnown(w, median, t, trail, k);
    assert IsVisit(w, median, StateBefore(t, trail, k), trail[k]);
    VisitReports(w, median, StateBefore(t, trail, k), trail[k], a);
  }

  /** A reference names one block, so the first block of the batch with a reference is every such block. */
  lemma SameVisit(w: World, median: bool, t: Snapshot, trail: seq<Visit>, k: nat, b: Block)
    requires IsTrail(w, median, t, trail) && k < |trail| && b in BlocksOf(trail) && trail[k].block.Ref() == b.Ref()
    ensures trail[k].block == b
  {
    hide OrdinaryStep;
    var i :| 0 <= i < |trail| && trail[i].block == b;
    assert IsVisit(w, median, StateBefore(t, trail, i), trail[i]) && IsVisit(w, median, StateBefore(t, trail, k), trail[k]);
  }

  lemma NotYetFresh(gc: Gc, blocks: seq<Block>, k: nat, r: BlockRef, a: BlockRef)
    requires k <= |blocks| && r !in Refs(blocks[..k]) && a !in Fresh(gc, blocks)
    ensures r !in Fresh(gc, blocks[..k]) && a !in Fresh(gc, blocks[..k])
  {
  }
}
