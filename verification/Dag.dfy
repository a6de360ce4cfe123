/** DAGs of blocks, causal history, and the block that a block supports at a slot. */
module Dags {
  import opened Committees
  import opened Blocks
  import opened BlockVerifier

  type Dag = BlockMap

  /** Keys name their blocks, and every ancestor is present and of a lower round. */
  ghost predicate Closed(d: Dag) {
    && (forall r :: r in d ==> d[r].Ref() == r)
    && (forall r, a :: r in d && a in d[r].ancestors ==> a in d && a.round < r.round)
  }

  /** A closed DAG of verified blocks over the genesis blocks. */
  ghost predicate Verified(ctx: Context, d: Dag) {
    && Closed(d)
    && forall r :: r in d && r.round > GENESIS_ROUND ==> WellFormed(ctx, d[r])
  }

  /** `v` is an ancestor-closed part of `u`: what one authority has accepted so far. */
  ghost predicate View(v: Dag, u: Dag) {
    && Closed(v)
    && (forall r :: r in v ==> r in u && v[r] == u[r])
  }

  /** `y` is in the strict causal history of `x`. */
  ghost predicate InPast(d: Dag, x: BlockRef, y: BlockRef)
    decreases x.round
  {
    x in d && exists a :: a in d[x].ancestors && a.round < x.round && (a == y || InPast(d, a, y))
  }

  /**
   * The block at `slot` that `from` supports: depth first, in the order of the ancestors, looking
   * only through blocks above the slot's round.
   */
  function FindSupported(d: Dag, slot: Slot, from: BlockRef): Option<BlockRef>
    requires Closed(d) && from in d
    decreases from.round, |d[from].ancestors| + 1
  {
    if from.round < slot.round then None else FindFrom(d, slot, from, 0)
  }

  /** The search of `FindSupported`, from the ancestor at position `i` on. */
  function FindFrom(d: Dag, slot: Slot, from: BlockRef, i: nat): Option<BlockRef>
    requires Closed(d) && from in d && i <= |d[from].ancestors|
    decreases from.round, |d[from].ancestors| - i
  {
    if i == |d[from].ancestors| then None
    else
      var a := d[from].ancestors[i];
      if a.ToSlot() == slot then Some(a)
      else if a.round <= slot.round then FindFrom(d, slot, from, i + 1)
      else
        match FindSupported(d, slot, a)
        case Some(s) => Some(s)
        case None => FindFrom(d, slot, from, i + 1)
  }

  /** Every view of a verified universe is verified. */
  lemma PartVerified(ctx: Context, v: Dag, u: Dag)
    requires Verified(ctx, u) && View(v, u)
    ensures Verified(ctx, v) && Closed(v)
  {
    hide WellFormed;
  }

  // ----- causal history

  /** `y` is `x` or in its causal history. */
  ghost predicate AtOrBelow(d: Dag, x: BlockRef, y: BlockRef) { x == y || InPast(d, x, y) }

  /** Causal history is what is at or below some ancestor. */
  lemma PastSplit(d: Dag, x: BlockRef, y: BlockRef)
    requires Closed(d) && x in d
    ensures InPast(d, x, y) <==> exists a :: a in d[x].ancestors && AtOrBelow(d, a, y)
  {
    if InPast(d, x, y) {
      var a :| a in d[x].ancestors && a.round < x.round && (a == y || InPast(d, a, y));
      assert AtOrBelow(d, a, y);
    }
  }

  lemma {:induction false} PastLower(d: Dag, x: BlockRef, y: BlockRef)
    requires Closed(d) && InPast(d, x, y)
    ensures y in d && y.round < x.round
    decreases x.round
  {
    var a :| a in d[x].ancestors && a.round < x.round && (a == y || InPast(d, a, y));
    if a != y {
      PastLower(d, a, y);
    }
  }

  lemma {:induction false} PastTransitive(d: Dag, x: BlockRef, y: BlockRef, z: BlockRef)
    requires InPast(d, x, y) && InPast(d, y, z)
    ensures InPast(d, x, z)
    decreases x.round
  {
    var a :| a in d[x].ancestors && a.round < x.round && (a == y || InPast(d, a, y));
    if a != y {
      PastTransitive(d, a, y, z);
    }
  }

  /** A view sees the same causal history below its blocks as any larger DAG. */
  lemma {:induction false} PastLocal(v: Dag, u: Dag, x: BlockRef, y: BlockRef)
    requires View(v, u) && x in v
    ensures InPast(v, x, y) <==> InPast(u, x, y)
    decreases x.round
  {
    forall a | a in v[x].ancestors && a.round < x.round ensures InPast(v, a, y) <==> InPast(u, a, y) {
      PastLocal(v, u, a, y);
    }
  }

  // ----- the supported block

  /**
   * The search finds a block at the slot exactly when the strict causal history holds one; what it
   * finds is such a block.
   */
  lemma FindSupportedExact(d: Dag, slot: Slot, from: BlockRef)
    requires Closed(d) && from in d
    ensures FindSupported(d, slot, from).Some? <==> exists y :: InPast(d, from, y) && y.ToSlot() == slot
    ensures FindSupported(d, slot, from).Some? ==>
      InPast(d, from, FindSupported(d, slot, from).value) && FindSupported(d, slot, from).value.ToSlot() == slot
  {
    FindSupportedSound(d, slot, from);
    forall y | InPast(d, from, y) && y.ToSlot() == slot ensures FindSupported(d, slot, from).Some? {
      FindSupportedComplete(d, slot, from, y);
    }
  }

  lemma {:induction false} FindSupportedSound(d: Dag, slot: Slot, from: BlockRef)
    requires Closed(d) && from in d
    ensures FindSupported(d, slot, from).Some? ==>
      InPast(d, from, FindSupported(d, slot, from).value) && FindSupported(d, slot, from).value.ToSlot() == slot
    decreases from.round, |d[from].ancestors| + 1
  {
    if from.round >= slot.round {
      FindFromSound(d, slot, from, 0);
    }
  }

  lemma {:induction false} FindFromSound(d: Dag, slot: Slot, from: BlockRef, i: nat)
    requires Closed(d) && from in d && i <= |d[from].ancestors|
    ensures FindFrom(d, slot, from, i).Some? ==>
      InPast(d, from, FindFrom(d, slot, from, i).value) && FindFrom(d, slot, from, i).value.ToSlot() == slot
    decreases from.round, |d[from].ancestors| - i
  {
    if i >= |d[from].ancestors| {
    } else {
      var a := d[from].ancestors[i];
      assert a in d[from].ancestors;
      FindFromSound(d, slot, from, i + 1);
      if a.ToSlot() != slot && a.round > slot.round {
        FindSupportedSound(d, slot, a);
      }
    }
  }

  lemma {:induction false} FindSupportedComplete(d: Dag, slot: Slot, from: BlockRef, y: BlockRef)
    requires Closed(d) && from in d && InPast(d, from, y) && y.ToSlot() == slot
    ensures FindSupported(d, slot, from).Some?
    decreases from.round
  {
    PastLower(d, from, y);
    var a :| a in d[from].ancestors && a.round < from.round && (a == y || InPast(d, a, y));
    var k :| 0 <= k < |d[from].ancestors| && d[from].ancestors[k] == a;
    if a != y {
      PastLower(d, a, y);
      FindSupportedComplete(d, slot, a, y);
    }
    FindFromReaches(d, slot, from, 0, k);
  }

  /** The search does not stop short of a position where it would succeed. */
  lemma {:induction false} FindFromReaches(d: Dag, slot: Slot, from: BlockRef, i: nat, k: nat)
    requires Closed(d) && from in d && i <= k < |d[from].ancestors|
    requires var a := d[from].ancestors[k];
      a.ToSlot() == slot || (a.round > slot.round && FindSupported(d, slot, a).Some?)
    ensures FindFrom(d, slot, from, i).Some?
    decreases k - i
  {
    if i >= k {
    } else {
      FindFromReaches(d, slot, from, i + 1, k);
    }
  }

  /** A view and any larger DAG agree on what a block supports. */
  lemma {:induction false} FindSupportedLocal(v: Dag, u: Dag, slot: Slot, from: BlockRef)
    requires View(v, u) && Closed(u) && from in v
    ensures FindSupported(v, slot, from) == FindSupported(u, slot, from)
    decreases from.round, |v[from].ancestors| + 1
  {
    if from.round >= slot.round {
      FindFromLocal(v, u, slot, from, 0);
    }
  }

  lemma {:induction false} FindFromLocal(v: Dag, u: Dag, slot: Slot, from: BlockRef, i: nat)
    requires View(v, u) && Closed(u) && from in v && i <= |v[from].ancestors|
    ensures FindFrom(v, slot, from, i) == FindFrom(u, slot, from, i)
    decreases from.round, |v[from].ancestors| - i
  {
    if i >= |v[from].ancestors| {
    } else {
      var a := v[from].ancestors[i];
      assert a in v[from].ancestors;
      FindFromLocal(v, u, slot, from, i + 1);
      if a.ToSlot() != slot && a.round > slot.round {
        FindSupportedLocal(v, u, slot, a);
      }
    }
  }

  // ----- support along the chain of own blocks

  /** `a` is reached from `b` by following first ancestors only, which the verifier forces to be own blocks. */
  ghost predicate OnOwnChain(d: Dag, b: BlockRef, a: BlockRef)
    decreases b.round
  {
    b == a || (b in d && |d[b].ancestors| > 0 && d[b].ancestors[0].round < b.round && OnOwnChain(d, d[b].ancestors[0], a))
  }

  /** Once a block supports something at a slot, every later block on its own chain supports the same. */
  lemma {:induction false} SupportPersists(d: Dag, slot: Slot, b: BlockRef, a: BlockRef)
    requires Closed(d) && b in d && a in d && OnOwnChain(d, b, a)
    requires FindSupported(d, slot, a).Some?
    ensures FindSupported(d, slot, b) == FindSupported(d, slot, a)
    ensures a.round <= b.round
    decreases b.round
  {
    FindSupportedSound(d, slot, a);
    PastLower(d, a, FindSupported(d, slot, a).value);
    if b != a {
      var own := d[b].ancestors[0];
      assert own in d[b].ancestors;
      SupportPersists(d, slot, own, a);
      assert FindFrom(d, slot, b, 0) == FindSupported(d, slot, own);
    }
  }

  /** `b` has at most one block of the slot in its causal history. */
  ghost predicate OneAtSlot(d: Dag, b: BlockRef, slot: Slot) {
    forall y, z :: InPast(d, b, y) && InPast(d, b, z) && y.ToSlot() == slot && z.ToSlot() == slot ==> y == z
  }

  /** Where there is nothing to choose, every block in the history that supports something supports the same. */
  lemma SupportOfTheOnly(d: Dag, slot: Slot, b: BlockRef, a: BlockRef)
    requires Closed(d) && b in d && a in d && InPast(d, b, a) && OneAtSlot(d, b, slot)
    requires FindSupported(d, slot, a).Some?
    ensures FindSupported(d, slot, b) == FindSupported(d, slot, a)
  {
    hide FindSupported, InPast;
    FindSupportedExact(d, slot, a);
    var y := FindSupported(d, slot, a).value;
    PastTransitive(d, b, a, y);
    FindSupportedExact(d, slot, b);
  }

  /** The own chain of verified blocks stays with one author. */
  lemma {:induction false} OwnChainAuthor(ctx: Context, d: Dag, b: BlockRef, a: BlockRef)
    requires Verified(ctx, d) && b in d && OnOwnChain(d, b, a)
    ensures a in d && a.author == b.author
    decreases b.round
  {
    if b == a {
    } else {
      var own := d[b].ancestors[0];
      assert own in d[b].ancestors;
      OwnChainAuthor(ctx, d, own, a);
    }
  }
}
