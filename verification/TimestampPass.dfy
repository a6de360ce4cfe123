/** One pass of the timestamp check over a list of blocks that are ready to be accepted. */
module TimestampPass {
  import opened Committees
  import opened Blocks
  import opened BlockVerifier
  import opened SuspensionIndex

  datatype Gc = Gc(enabled: bool, round: nat) {
    /** Blocks above genesis and at or below the garbage collection round are no longer asked for. */
    predicate Collected(a: BlockRef) { enabled && GENESIS_ROUND < a.round <= round }
  }

  type Store = BlockMap

  datatype Scan = Ready(found: seq<Option<Block>>) | RejectedAncestor | LostAncestor

  /** `Panicked` stands for the panic about an unsuspended block with a missing ancestor. */
  datatype Pass = Panicked | Sorted(accepted: Store, rejected: set<BlockRef>)

  /** Looks the ancestors of `b` up in order, from position `i` on. */
  function ScanFrom(gc: Gc, dag: Store, accepted: Store, rejected: set<BlockRef>, b: Block, i: nat): Scan
    requires i <= |b.ancestors|
    decreases |b.ancestors| - i
  {
    if i == |b.ancestors| then Ready([])
    else
      var a := b.ancestors[i];
      if a !in dag && a !in accepted && a in rejected then RejectedAncestor
      else if a !in dag && a !in accepted && !gc.Collected(a) then LostAncestor
      else
        var found := if a in dag then Some(dag[a]) else if a in accepted then Some(accepted[a]) else None;
        match ScanFrom(gc, dag, accepted, rejected, b, i + 1)
        case Ready(rest) => Ready([found] + rest)
        case other => other
  }

  /** Classifies one more block. */
  ghost function VerifyStep(gc: Gc, dag: Store, p: Pass, b: Block): Pass {
    if p.Panicked? then p
    else
      match ScanFrom(gc, dag, p.accepted, p.rejected, b, 0)
      case LostAncestor => Panicked
      case RejectedAncestor => Sorted(p.accepted, p.rejected + {b.Ref()})
      case Ready(found) =>
        if TimestampOk(b, found, gc.enabled, gc.round) then Sorted(p.accepted[b.Ref() := b], p.rejected)
        else Sorted(p.accepted, p.rejected + {b.Ref()})
  }

  ghost function VerifyBlocks(gc: Gc, dag: Store, blocks: seq<Block>): Pass {
    if blocks == [] then Sorted(map[], {})
    else VerifyStep(gc, dag, VerifyBlocks(gc, dag, blocks[..|blocks| - 1]), blocks[|blocks| - 1])
  }

  lemma VerifyAppend(gc: Gc, dag: Store, blocks: seq<Block>, b: Block)
    ensures VerifyBlocks(gc, dag, blocks + [b]) == VerifyStep(gc, dag, VerifyBlocks(gc, dag, blocks), b)
  {
    assert (blocks + [b])[..|blocks|] == blocks;
  }

  // ----- scanning one block

  /** A scan continued after `found`. */
  ghost function Onto(found: seq<Option<Block>>, scan: Scan): Scan {
    match scan
    case Ready(rest) => Ready(found + rest)
    case other => other
  }

  lemma OntoStep(found: seq<Option<Block>>, next: Option<Block>, scan: Scan)
    ensures Onto(found, Onto([next], scan)) == Onto(found + [next], scan)
  {
    if scan.Ready? {
      assert found + ([next] + scan.found) == (found + [next]) + scan.found;
    }
  }

  lemma ScanStep(gc: Gc, dag: Store, accepted: Store, rejected: set<BlockRef>, b: Block, i: nat)
    requires i < |b.ancestors|
    ensures var a, rest := b.ancestors[i], ScanFrom(gc, dag, accepted, rejected, b, i + 1);
      ScanFrom(gc, dag, accepted, rejected, b, i)
      == if a in dag then Onto([Some(dag[a])], rest)
         else if a in accepted then Onto([Some(accepted[a])], rest)
         else if a in rejected then RejectedAncestor
         else if gc.Collected(a) then Onto([None], rest)
         else LostAncestor
  {
  }

  lemma ScanEnd(gc: Gc, dag: Store, accepted: Store, rejected: set<BlockRef>, b: Block)
    ensures ScanFrom(gc, dag, accepted, rejected, b, |b.ancestors|) == Ready([])
  {
  }

  /** The ancestor is stored, accepted earlier in the pass, or collected. */
  predicate Accounted(gc: Gc, dag: Store, accepted: Store, a: BlockRef) {
    a in dag || a in accepted || gc.Collected(a)
  }

  /** The scan succeeds when every ancestor is accounted for and none was rejected in its place. */
  lemma {:induction false} ScanReady(gc: Gc, dag: Store, accepted: Store, rejected: set<BlockRef>, b: Block, i: nat)
    requires i <= |b.ancestors|
    ensures ScanFrom(gc, dag, accepted, rejected, b, i).Ready? <==>
      forall k :: i <= k < |b.ancestors| ==>
        Accounted(gc, dag, accepted, b.ancestors[k])
        && !(b.ancestors[k] !in dag && b.ancestors[k] !in accepted && b.ancestors[k] in rejected)
    ensures ScanFrom(gc, dag, accepted, rejected, b, i).Ready? ==>
      var found := ScanFrom(gc, dag, accepted, rejected, b, i).found;
      |found| == |b.ancestors| - i
      && forall k :: i <= k < |b.ancestors| ==>
           found[k - i] == (if b.ancestors[k] in dag then Some(dag[b.ancestors[k]])
                            else if b.ancestors[k] in accepted then Some(accepted[b.ancestors[k]]) else None)
    decreases |b.ancestors| - i
  {
    if i >= |b.ancestors| {
    } else {
      ScanReady(gc, dag, accepted, rejected, b, i + 1);
    }
  }

  /** The scan finds a lost ancestor only where none of the ancestors' fates accounts for it. */
  lemma {:induction false} ScanLost(gc: Gc, dag: Store, accepted: Store, rejected: set<BlockRef>, b: Block, i: nat)
    requires i <= |b.ancestors|
    ensures ScanFrom(gc, dag, accepted, rejected, b, i).LostAncestor? <==>
      exists k :: i <= k < |b.ancestors|
        && !Accounted(gc, dag, accepted, b.ancestors[k]) && b.ancestors[k] !in rejected
        && forall j :: i <= j < k ==>
             !(b.ancestors[j] !in dag && b.ancestors[j] !in accepted && b.ancestors[j] in rejected)
    decreases |b.ancestors| - i
  {
    if i >= |b.ancestors| {
    } else {
      ScanLost(gc, dag, accepted, rejected, b, i + 1);
    }
  }

  // ----- the whole pass

  /** The blocks of the list are divided between the two sides. */
  ghost predicate Divides(p: Pass, blocks: seq<Block>)
    requires p.Sorted?
  {
    && p.accepted.Keys + p.rejected == Refs(blocks) && p.accepted.Keys !! p.rejected
    && forall r :: r in p.accepted ==> p.accepted[r].Ref() == r && p.accepted[r] in blocks
  }

  lemma DividesOneMore(p: Pass, q: Pass, blocks: seq<Block>, b: Block)
    requires p.Sorted? && Divides(p, blocks) && b.Ref() !in Refs(blocks)
    requires q == Sorted(p.accepted[b.Ref() := b], p.rejected) || q == Sorted(p.accepted, p.rejected + {b.Ref()})
    ensures Divides(q, blocks + [b])
  {
    RefsAppend(blocks, b);
    hide Refs;
    assert forall c :: c in blocks ==> c in blocks + [b];
    assert b in blocks + [b];
  }

  /** Every block of the list is either accepted or rejected, never both. */
  lemma {:induction false} PassPartitions(gc: Gc, dag: Store, blocks: seq<Block>)
    requires DistinctRefs(blocks) && VerifyBlocks(gc, dag, blocks).Sorted?
    ensures Divides(VerifyBlocks(gc, dag, blocks), blocks)
  {
    if blocks == [] {
    } else {
      var n := |blocks| - 1;
      var p, b := VerifyBlocks(gc, dag, blocks[..n]), blocks[n];
      assert blocks == blocks[..n] + [b];
      StepCases(gc, dag, p, b);
      PassPartitions(gc, dag, blocks[..n]);
      assert b.Ref() !in Refs(blocks[..n]);
      DividesOneMore(p, VerifyStep(gc, dag, p, b), blocks[..n], b);
    }
  }

  /** A step panics or puts the block on one of the two sides. */
  lemma StepCases(gc: Gc, dag: Store, p: Pass, b: Block)
    ensures var q := VerifyStep(gc, dag, p, b);
      || q.Panicked?
      || (p.Sorted? && q == Sorted(p.accepted[b.Ref() := b], p.rejected))
      || (p.Sorted? && q == Sorted(p.accepted, p.rejected + {b.Ref()}))
    ensures p.Panicked? ==> VerifyStep(gc, dag, p, b).Panicked?
  {
  }

  /** Each ancestor is stored, earlier in the list, or collected. */
  ghost predicate Supplied(gc: Gc, dag: Store, blocks: seq<Block>) {
    forall i, a :: 0 <= i < |blocks| && a in blocks[i].ancestors ==>
      a in dag || a in Refs(blocks[..i]) || gc.Collected(a)
  }

  lemma SuppliedPrefix(gc: Gc, dag: Store, blocks: seq<Block>, n: nat)
    requires Supplied(gc, dag, blocks) && n <= |blocks|
    ensures Supplied(gc, dag, blocks[..n])
  {
    forall i, a | 0 <= i < n && a in blocks[..n][i].ancestors
      ensures a in dag || a in Refs(blocks[..n][..i]) || gc.Collected(a)
    {
      assert blocks[..n][i] == blocks[i] && blocks[..n][..i] == blocks[..i];
    }
  }

  /** With all ancestors supplied the pass does not panic. */
  lemma {:induction false} SuppliedNeverPanics(gc: Gc, dag: Store, blocks: seq<Block>)
    requires DistinctRefs(blocks) && Supplied(gc, dag, blocks)
    ensures VerifyBlocks(gc, dag, blocks).Sorted?
  {
    if blocks == [] {
    } else {
      var n := |blocks| - 1;
      SuppliedPrefix(gc, dag, blocks, n);
      SuppliedNeverPanics(gc, dag, blocks[..n]);
      PassPartitions(gc, dag, blocks[..n]);
      var p, b := VerifyBlocks(gc, dag, blocks[..n]), blocks[n];
      ScanLost(gc, dag, p.accepted, p.rejected, b, 0);
      forall k | 0 <= k < |b.ancestors| ensures Accounted(gc, dag, p.accepted, b.ancestors[k]) || b.ancestors[k] in p.rejected {
        assert b.ancestors[k] in b.ancestors;
      }
    }
  }

  /** What an accepted block's ancestors look like when the pass is over. */
  ghost predicate AcceptedWell(gc: Gc, dag: Store, accepted: Store, b: Block) {
    forall a :: a in b.ancestors ==>
      && Accounted(gc, dag, accepted, a)
      && (a in dag && (gc.enabled ==> dag[a].round > gc.round) ==> dag[a].timestamp <= b.timestamp)
      && (a !in dag && a in accepted && (gc.enabled ==> accepted[a].round > gc.round) ==>
            accepted[a].timestamp <= b.timestamp)
  }

  /** A block accepted by one step has all its ancestors, none later than itself. */
  lemma StepAcceptsWell(gc: Gc, dag: Store, p: Pass, b: Block)
    requires p.Sorted? && VerifyStep(gc, dag, p, b).Sorted? && b.Ref() in VerifyStep(gc, dag, p, b).accepted
    requires b.Ref() !in p.accepted
    ensures AcceptedWell(gc, dag, p.accepted, b)
  {
    ScanReady(gc, dag, p.accepted, p.rejected, b, 0);
    var found := ScanFrom(gc, dag, p.accepted, p.rejected, b, 0).found;
    forall a | a in b.ancestors
      ensures Accounted(gc, dag, p.accepted, a)
      ensures a in dag && (gc.enabled ==> dag[a].round > gc.round) ==> dag[a].timestamp <= b.timestamp
      ensures a !in dag && a in p.accepted && (gc.enabled ==> p.accepted[a].round > gc.round) ==>
                p.accepted[a].timestamp <= b.timestamp
    {
      var k :| 0 <= k < |b.ancestors| && b.ancestors[k] == a;
      if found[k].Some? && (gc.enabled ==> found[k].value.round > gc.round) {
        assert Relevant(found[k], gc.enabled, gc.round);
      }
    }
  }

  /**
   * Accepted blocks have all their ancestors stored, accepted or collected, and no relevant ancestor
   * is later than they are.
   */
  lemma {:induction false} PassAcceptsWell(gc: Gc, dag: Store, blocks: seq<Block>, r: BlockRef)
    requires DistinctRefs(blocks) && VerifyBlocks(gc, dag, blocks).Sorted?
    requires r in VerifyBlocks(gc, dag, blocks).accepted
    ensures AcceptedWell(gc, dag, VerifyBlocks(gc, dag, blocks).accepted, VerifyBlocks(gc, dag, blocks).accepted[r])
  {
    hide ScanFrom, TimestampOk, AcceptedWell;
    var n := |blocks| - 1;
    assert blocks == blocks[..n] + [blocks[n]];
    var p, q, b := VerifyBlocks(gc, dag, blocks[..n]), VerifyBlocks(gc, dag, blocks), blocks[n];
    PassPartitions(gc, dag, blocks[..n]);
    assert b.Ref() !in Refs(blocks[..n]);
    assert forall a :: a in p.accepted ==> a in q.accepted && q.accepted[a] == p.accepted[a];
    if r in p.accepted {
      PassAcceptsWell(gc, dag, blocks[..n], r);
      OthersAcceptedWell(gc, dag, p.accepted, q.accepted, b, q.accepted[r]);
    } else {
      StepAcceptsWell(gc, dag, p, b);
      OthersAcceptedWell(gc, dag, p.accepted, q.accepted, b, b);
    }
  }

  /** Accepting `b` later does not disturb a block whose ancestors were all accounted for before. */
  lemma OthersAcceptedWell(gc: Gc, dag: Store, accepted: Store, more: Store, b: Block, other: Block)
    requires AcceptedWell(gc, dag, accepted, other)
    requires more == accepted || more == accepted[b.Ref() := b]
    requires b.Ref() !in accepted
    ensures AcceptedWell(gc, dag, more, other)
  {
    forall a | a in other.ancestors && a !in dag && a !in accepted && a in more
      ensures gc.enabled && more[a].round <= gc.round
    {
      assert Accounted(gc, dag, accepted, a);
    }
  }

  /** What the last block of a list is decided to be, when one of its ancestors was rejected before. */
  lemma LastRejected(gc: Gc, dag: Store, p: Pass, b: Block, a: BlockRef)
    requires p.Sorted? && a in b.ancestors && a !in dag && a !in p.accepted && a in p.rejected
    requires VerifyStep(gc, dag, p, b).Sorted?
    ensures b.Ref() in VerifyStep(gc, dag, p, b).rejected
  {
    ScanReady(gc, dag, p.accepted, p.rejected, b, 0);
    var k :| 0 <= k < |b.ancestors| && b.ancestors[k] == a;
  }

  /** A rejection among the first blocks of a list is there before the last block is looked at. */
  lemma RejectedBefore(gc: Gc, dag: Store, blocks: seq<Block>, a: BlockRef)
    requires blocks != [] && DistinctRefs(blocks) && VerifyBlocks(gc, dag, blocks).Sorted?
    requires a in Refs(blocks[..|blocks| - 1]) && a in VerifyBlocks(gc, dag, blocks).rejected
    ensures var p := VerifyBlocks(gc, dag, blocks[..|blocks| - 1]);
      p.Sorted? && a in p.rejected && a !in p.accepted
  {
    hide VerifyStep;
    var n := |blocks| - 1;
    var p := VerifyBlocks(gc, dag, blocks[..n]);
    StepCases(gc, dag, p, blocks[n]);
    PassPartitions(gc, dag, blocks[..n]);
    var b :| b in blocks[..n] && b.Ref() == a;
  }

  /** A block that comes after a rejected ancestor is rejected with it. */
  lemma {:induction false} RejectionSpreads(gc: Gc, dag: Store, blocks: seq<Block>, i: nat, a: BlockRef)
    requires DistinctRefs(blocks) && VerifyBlocks(gc, dag, blocks).Sorted?
    requires i < |blocks| && a in blocks[i].ancestors && a !in dag
    requires a in Refs(blocks[..i]) && a in VerifyBlocks(gc, dag, blocks).rejected
    ensures blocks[i].Ref() in VerifyBlocks(gc, dag, blocks).rejected
  {
    hide VerifyStep, DistinctRefs, Refs;
    var n := |blocks| - 1;
    var p := VerifyBlocks(gc, dag, blocks[..n]);
    assert a in Refs(blocks[..n]) by { RefsPrefix(blocks, i, n, a); }
    RejectedBefore(gc, dag, blocks, a);
    if i == n {
      LastRejected(gc, dag, p, blocks[n], a);
    } else {
      assert blocks[..n][..i] == blocks[..i];
      DistinctPrefix(blocks, n);
      RejectionSpreads(gc, dag, blocks[..n], i, a);
      StepCases(gc, dag, p, blocks[n]);
    }
  }

  lemma RefsPrefix(blocks: seq<Block>, i: nat, n: nat, a: BlockRef)
    requires i <= n <= |blocks| && a in Refs(blocks[..i])
    ensures a in Refs(blocks[..n])
  {
    var b :| b in blocks[..i] && b.Ref() == a;
    assert b in blocks[..n];
  }

  lemma DistinctPrefix(blocks: seq<Block>, n: nat)
    requires DistinctRefs(blocks) && n <= |blocks|
    ensures DistinctRefs(blocks[..n])
  {
  }

  /** `a` is stored or accepted, counts for the check, and is later than `b`. */
  ghost predicate TooLate(gc: Gc, dag: Store, accepted: Store, a: BlockRef, b: Block) {
    || (a in dag && (gc.enabled ==> dag[a].round > gc.round) && dag[a].timestamp > b.timestamp)
    || (a !in dag && a in accepted && (gc.enabled ==> accepted[a].round > gc.round) && accepted[a].timestamp > b.timestamp)
  }

  /** Why a block is rejected: an ancestor was, or everything is there and some ancestor is too late. */
  ghost predicate RejectedFor(gc: Gc, dag: Store, p: Pass, b: Block)
    requires p.Sorted?
  {
    || (exists a :: a in b.ancestors && a !in dag && a in p.rejected)
    || (&& (forall a :: a in b.ancestors ==> Accounted(gc, dag, p.accepted, a))
        && (exists a :: a in b.ancestors && TooLate(gc, dag, p.accepted, a, b)))
  }

  /** Every rejection has one of the two reasons. */
  lemma {:induction false} PassRejectsWhy(gc: Gc, dag: Store, blocks: seq<Block>, b: Block)
    requires DistinctRefs(blocks) && VerifyBlocks(gc, dag, blocks).Sorted?
    requires b in blocks && b.Ref() in VerifyBlocks(gc, dag, blocks).rejected
    ensures RejectedFor(gc, dag, VerifyBlocks(gc, dag, blocks), b)
  {
    hide VerifyStep, RejectedFor;
    var n := |blocks| - 1;
    assert blocks == blocks[..n] + [blocks[n]];
    var p := VerifyBlocks(gc, dag, blocks[..n]);
    StepCases(gc, dag, p, blocks[n]);
    PassPartitions(gc, dag, blocks[..n]);
    assert blocks[n].Ref() !in Refs(blocks[..n]);
    if b in blocks[..n] {
      assert b.Ref() in Refs(blocks[..n]);
      PassRejectsWhy(gc, dag, blocks[..n], b);
    } else {
      StepRejectsWhy(gc, dag, p, b);
    }
    ReasonStays(gc, dag, p, VerifyBlocks(gc, dag, blocks), blocks[n], b);
  }

  lemma ReasonStays(gc: Gc, dag: Store, p: Pass, q: Pass, last: Block, b: Block)
    requires p.Sorted? && RejectedFor(gc, dag, p, b) && last.Ref() !in p.accepted
    requires q == Sorted(p.accepted[last.Ref() := last], p.rejected) || q == Sorted(p.accepted, p.rejected + {last.Ref()})
    ensures RejectedFor(gc, dag, q, b)
  {
    if exists a :: a in b.ancestors && TooLate(gc, dag, p.accepted, a, b) {
      var a :| a in b.ancestors && TooLate(gc, dag, p.accepted, a, b);
      assert TooLate(gc, dag, q.accepted, a, b);
    }
    if forall a :: a in b.ancestors ==> Accounted(gc, dag, p.accepted, a) {
      forall a | a in b.ancestors
        ensures Accounted(gc, dag, q.accepted, a)
      {
        assert Accounted(gc, dag, p.accepted, a);
      }
    }
  }

  lemma StepRejectsWhy(gc: Gc, dag: Store, p: Pass, b: Block)
    requires p.Sorted? && VerifyStep(gc, dag, p, b).Sorted? && b.Ref() !in p.rejected
    requires b.Ref() in VerifyStep(gc, dag, p, b).rejected
    ensures RejectedFor(gc, dag, p, b)
  {
    ScanReady(gc, dag, p.accepted, p.rejected, b, 0);
    ScanLost(gc, dag, p.accepted, p.rejected, b, 0);
    var scan := ScanFrom(gc, dag, p.accepted, p.rejected, b, 0);
    if scan.Ready? {
      forall a | a in b.ancestors ensures Accounted(gc, dag, p.accepted, a) {
        var k :| 0 <= k < |b.ancestors| && b.ancestors[k] == a;
      }
      var k :| 0 <= k < |scan.found| && Relevant(scan.found[k], gc.enabled, gc.round)
        && scan.found[k].value.timestamp > b.timestamp;
      assert b.ancestors[k] in b.ancestors && TooLate(gc, dag, p.accepted, b.ancestors[k], b);
    } else {
      ScanRejected(gc, dag, p.accepted, p.rejected, b, 0);
    }
  }

  lemma {:induction false} ScanRejected(gc: Gc, dag: Store, accepted: Store, rejected: set<BlockRef>, b: Block, i: nat)
    requires i <= |b.ancestors| && ScanFrom(gc, dag, accepted, rejected, b, i).RejectedAncestor?
    ensures exists a :: a in b.ancestors && a !in dag && a in rejected
    decreases |b.ancestors| - i
  {
    var a := b.ancestors[i];
    assert a in b.ancestors;
    if a in dag || a in accepted || a !in rejected {
      ScanRejected(gc, dag, accepted, rejected, b, i + 1);
    }
  }

  /** At position `k` the scan of `b` meets an ancestor that nobody accounts for, and it gets that far. */
  ghost predicate LostAt(gc: Gc, dag: Store, p: Pass, b: Block, k: nat)
    requires p.Sorted? && k < |b.ancestors|
  {
    && !Accounted(gc, dag, p.accepted, b.ancestors[k]) && b.ancestors[k] !in p.rejected
    && forall j :: 0 <= j < k ==>
         !(b.ancestors[j] !in dag && b.ancestors[j] !in p.accepted && b.ancestors[j] in p.rejected)
  }

  /** The pass gets as far as the block at position `i` and panics there. */
  ghost predicate PanicsAt(gc: Gc, dag: Store, blocks: seq<Block>, i: nat)
    requires i < |blocks|
  {
    var p := VerifyBlocks(gc, dag, blocks[..i]);
    p.Sorted? && exists k :: 0 <= k < |blocks[i].ancestors| && LostAt(gc, dag, p, blocks[i], k)
  }

  lemma LastStepPanics(gc: Gc, dag: Store, blocks: seq<Block>)
    requires blocks != []
    ensures VerifyBlocks(gc, dag, blocks).Panicked? <==>
      VerifyBlocks(gc, dag, blocks[..|blocks| - 1]).Panicked? || PanicsAt(gc, dag, blocks, |blocks| - 1)
  {
    var n := |blocks| - 1;
    var p := VerifyBlocks(gc, dag, blocks[..n]);
    if p.Sorted? {
      var b := blocks[n];
      ScanLost(gc, dag, p.accepted, p.rejected, b, 0);
      if ScanFrom(gc, dag, p.accepted, p.rejected, b, 0).LostAncestor? {
        var k :| 0 <= k < |b.ancestors|
          && !Accounted(gc, dag, p.accepted, b.ancestors[k]) && b.ancestors[k] !in p.rejected
          && forall j :: 0 <= j < k ==>
               !(b.ancestors[j] !in dag && b.ancestors[j] !in p.accepted && b.ancestors[j] in p.rejected);
        assert LostAt(gc, dag, p, b, k);
      }
    }
  }

  lemma PanicsAtPrefix(gc: Gc, dag: Store, blocks: seq<Block>, n: nat, i: nat)
    requires i < n <= |blocks|
    ensures PanicsAt(gc, dag, blocks[..n], i) <==> PanicsAt(gc, dag, blocks, i)
  {
    assert blocks[..n][..i] == blocks[..i];
  }

  /**
   * The pass panics exactly when it reaches a block one of whose ancestors is neither stored, nor
   * accepted or rejected earlier in the pass, nor collected, and no ancestor before that one was rejected.
   */
  lemma {:induction false} PanicExactly(gc: Gc, dag: Store, blocks: seq<Block>)
    ensures VerifyBlocks(gc, dag, blocks).Panicked? <==> exists i :: 0 <= i < |blocks| && PanicsAt(gc, dag, blocks, i)
  {
    if blocks == [] {
    } else {
      hide VerifyBlocks, PanicsAt;
      var n := |blocks| - 1;
      PanicExactly(gc, dag, blocks[..n]);
      LastStepPanics(gc, dag, blocks);
      forall i | 0 <= i < n ensures PanicsAt(gc, dag, blocks[..n], i) <==> PanicsAt(gc, dag, blocks, i) {
        PanicsAtPrefix(gc, dag, blocks, n, i);
      }
    }
  }
}
