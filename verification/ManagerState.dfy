/** The state of the block manager as a value: its invariants and what every step does to them. */
module ManagerState {
  import opened Blocks
  import opened SuspensionIndex
  import opened TimestampPass

  /** What does not change: the genesis blocks and every block that any reference can name. */
  datatype World = World(genesis: set<BlockRef>, universe: Store) {

    /** References name their blocks, ancestors are of lower rounds, and round zero is genesis. */
    ghost predicate Ok() {
      && (forall r :: r in universe ==> universe[r].Ref() == r && (r.round == GENESIS_ROUND ==> r in genesis))
      && (forall r, a :: r in universe && a in universe[r].ancestors ==>
            a.round < r.round && (a.round == GENESIS_ROUND ==> a in genesis))
    }

    ghost predicate Has(b: Block) { b.Ref() in universe && universe[b.Ref()] == b }
  }

  /** Ancestors are of lower rounds, and round zero is genesis. */
  ghost predicate Fits(genesis: set<BlockRef>, b: Block) {
    && (b.round == GENESIS_ROUND ==> b.Ref() in genesis)
    && forall a :: a in b.ancestors ==> a.round < b.round && (a.round == GENESIS_ROUND ==> a in genesis)
  }

  /** The blocks of a list, by reference. */
  function StoreOf(blocks: seq<Block>): Store {
    if blocks == [] then map[] else StoreOf(blocks[..|blocks| - 1])[blocks[|blocks| - 1].Ref() := blocks[|blocks| - 1]]
  }

  lemma {:induction false} StoreOfMembers(blocks: seq<Block>)
    requires DistinctRefs(blocks)
    ensures StoreOf(blocks).Keys == Refs(blocks) && forall b :: b in blocks ==> StoreOf(blocks)[b.Ref()] == b
  {
    if blocks == [] {
    } else {
      var n := |blocks| - 1;
      assert blocks == blocks[..n] + [blocks[n]];
      StoreOfMembers(blocks[..n]);
      RefsAppend(blocks[..n], blocks[n]);
    }
  }

  /** A list of distinct fitting blocks makes a world, and the front of the list a DAG in it. */
  lemma WorldOf(genesis: set<BlockRef>, stored: seq<Block>, received: seq<Block>)
    requires DistinctRefs(stored + received) && genesis <= Refs(stored)
    requires forall b :: b in stored + received ==> Fits(genesis, b)
    ensures var w := World(genesis, StoreOf(stored + received));
      && w.Ok() && (forall b :: b in stored + received ==> w.Has(b)) && genesis <= StoreOf(stored).Keys
      && forall r :: r in StoreOf(stored) ==> r in w.universe && StoreOf(stored)[r] == w.universe[r]
  {
    hide StoreOf, DistinctRefs, Fits, World.Ok, Refs;
    var all := stored + received;
    DistinctFront(stored, received);
    StoreOfMembers(all);
    StoreOfMembers(stored);
    forall r | r in StoreOf(stored)
      ensures r in StoreOf(all) && StoreOf(stored)[r] == StoreOf(all)[r]
    {
      var b := Named(stored, r);
      IsNamed(all, b);
    }
    forall r | r in StoreOf(all)
      ensures StoreOf(all)[r].Ref() == r && Fits(genesis, StoreOf(all)[r])
    {
      var b := Named(all, r);
    }
    FittingIsOk(genesis, StoreOf(all));
    forall b | b in all
      ensures b.Ref() in StoreOf(all)
    {
      IsNamed(all, b);
    }
  }

  lemma DistinctFront(stored: seq<Block>, received: seq<Block>)
    requires DistinctRefs(stored + received)
    ensures DistinctRefs(stored)
  {
    assert (stored + received)[..|stored|] == stored;
  }

  lemma Named(blocks: seq<Block>, r: BlockRef) returns (b: Block)
    requires r in Refs(blocks)
    ensures b in blocks && b.Ref() == r
  {
    b :| b in blocks && b.Ref() == r;
  }

  lemma IsNamed(blocks: seq<Block>, b: Block)
    requires b in blocks
    ensures b.Ref() in Refs(blocks)
  {
  }

  lemma FittingIsOk(genesis: set<BlockRef>, m: Store)
    requires forall r :: r in m ==> m[r].Ref() == r && Fits(genesis, m[r])
    ensures World(genesis, m).Ok()
  {
  }

  datatype Snapshot = Snapshot(gc: Gc, dag: Store, suspended: Suspended, waiting: Waiting, holders: Holders)

  // ----- invariants

  /** Stored blocks are genuine, and genesis is always stored. */
  ghost predicate DagOk(w: World, t: Snapshot) {
    && w.genesis <= t.dag.Keys
    && (forall r :: r in t.dag ==> r in w.universe && t.dag[r] == w.universe[r])
  }

  /**
   * Suspended blocks are genuine and not stored; nothing waits for genesis or for a stored block,
   * except for the blocks in `arriving` while a step is under way.
   */
  ghost predicate SuspensionOk(w: World, t: Snapshot, arriving: set<BlockRef>) {
    && WellSuspended(t.suspended) && Linked(t.suspended, t.waiting)
    && (forall c :: c in t.suspended ==> c in w.universe && t.suspended[c].block == w.universe[c] && c !in t.dag)
    && (forall a :: a in t.waiting ==> a.round > GENESIS_ROUND && (a !in t.dag || a in arriving))
  }

  /** The blocks to fetch are the awaited ones that have not been received. */
  ghost predicate HoldersOk(t: Snapshot) { t.holders.Keys == t.waiting.Keys - t.suspended.Keys }

  /** Kept by every operation. */
  ghost predicate Inv(w: World, t: Snapshot) {
    w.Ok() && DagOk(w, t) && SuspensionOk(w, t, {}) && HoldersOk(t) && (!t.gc.enabled ==> t.gc.round == 0)
  }

  /**
   * `a` is an ancestor of the suspended block `c` that nobody accounts for: it is neither stored, nor
   * awaited by `c`, nor collected.
   */
  ghost predicate Lost(t: Snapshot, c: BlockRef, a: BlockRef) {
    && c in t.suspended && a in t.suspended[c].block.ancestors
    && a !in t.dag && a !in t.suspended[c].missing && !t.gc.Collected(a)
  }

  /** No suspended block has lost an ancestor. */
  ghost predicate Grounded(t: Snapshot) {
    forall c, a :: c in t.suspended && a in t.suspended[c].block.ancestors ==> !Lost(t, c, a)
  }

  /** The same for the blocks in `cs` alone. */
  ghost predicate GroundedIn(t: Snapshot, cs: set<BlockRef>) {
    forall c, a :: c in cs && c in t.suspended && a in t.suspended[c].block.ancestors ==> !Lost(t, c, a)
  }

  /** No block of the world is earlier than one of its ancestors. */
  ghost predicate WellTimed(w: World) {
    forall r, a :: r in w.universe && a in w.universe[r].ancestors && a in w.universe ==>
      w.universe[a].timestamp <= w.universe[r].timestamp
  }

  /** Nothing is ever rejected: timestamps are not checked, or no block can fail the check. */
  ghost predicate Calm(w: World, median: bool) { median || WellTimed(w) }

  lemma GroundedEverywhere(t: Snapshot, cs: set<BlockRef>)
    requires Grounded(t)
    ensures GroundedIn(t, cs)
  {
  }

  /** Every ancestor of a stored block outside `roots` is stored or collected. */
  ghost predicate Complete(t: Snapshot, roots: set<BlockRef>) {
    forall r, a :: r in t.dag && r !in roots && a in t.dag[r].ancestors ==> a in t.dag || t.gc.Collected(a)
  }

  /** No awaited block is collected. */
  ghost predicate Swept(t: Snapshot) { forall a :: a in t.waiting ==> !t.gc.Collected(a) }

  /** Every awaited block has somebody waiting, and its holders are its author and the waiting authors. */
  ghost predicate Tight(t: Snapshot) {
    && (forall a :: a in t.waiting ==> t.waiting[a] != {})
    && (forall a :: a in t.holders && a in t.waiting ==>
          t.holders[a] == Expected(t.waiting[a], a))
  }

  /** Ancestors that must be stored before a block is accepted. */
  ghost function Needs(gc: Gc, b: Block): set<BlockRef> {
    set a | a in b.ancestors && (gc.enabled ==> a.round == GENESIS_ROUND || a.round > gc.round)
  }

  /** All references of blocks that have been received and kept. */
  ghost function Known(t: Snapshot): set<BlockRef> { t.dag.Keys + t.suspended.Keys }

  // ----- suspending

  ghost function Suspend(t: Snapshot, block: Block): Snapshot {
    var r, missing := block.Ref(), Needs(t.gc, block) - t.dag.Keys;
    t.(suspended := t.suspended[r := SuspendedBlock(block, missing)],
       waiting := AddWaiting(t.waiting, missing, r),
       holders := AddHolders(t.holders, missing - t.suspended.Keys, block.author) - {r})
  }

  /** A new block that still needs ancestors. */
  ghost predicate MustWait(w: World, t: Snapshot, block: Block) {
    && w.Has(block) && block.round > GENESIS_ROUND && block.Ref() !in Known(t)
    && !(Needs(t.gc, block) <= t.dag.Keys)
  }

  /** What a block that must wait misses. */
  lemma MissingOfNew(w: World, t: Snapshot, block: Block)
    requires w.Ok() && DagOk(w, t) && MustWait(w, t, block)
    ensures var missing := Needs(t.gc, block) - t.dag.Keys;
      missing != {} && forall a :: a in missing ==> a in block.ancestors && GENESIS_ROUND < a.round < block.round
  {
    var a :| a in Needs(t.gc, block) && a !in t.dag.Keys;
    assert a in Needs(t.gc, block) - t.dag.Keys;
  }

  lemma SuspendSuspensionOk(w: World, t: Snapshot, block: Block)
    requires w.Ok() && DagOk(w, t) && SuspensionOk(w, t, {}) && MustWait(w, t, block)
    ensures SuspensionOk(w, Suspend(t, block), {})
  {
    hide World.Ok, WellSuspended, Linked, AddWaiting, AddHolders, DagOk, Needs;
    MissingOfNew(w, t, block);
    SuspendKeepsLinks(t.suspended, t.waiting, block, Needs(t.gc, block) - t.dag.Keys);
    SuspendKeepsShape(t.suspended, block, Needs(t.gc, block) - t.dag.Keys);
  }

  lemma SuspendHoldersOk(w: World, t: Snapshot, block: Block)
    requires w.Ok() && DagOk(w, t) && HoldersOk(t) && MustWait(w, t, block)
    ensures HoldersOk(Suspend(t, block))
  {
    hide World.Ok, AddWaiting, AddHolders, DagOk, Needs;
    MissingOfNew(w, t, block);
    assert block.Ref() !in Needs(t.gc, block) - t.dag.Keys;
  }

  lemma SuspendInv(w: World, t: Snapshot, block: Block)
    requires Inv(w, t) && MustWait(w, t, block)
    ensures Inv(w, Suspend(t, block))
  {
    hide World.Ok, SuspensionOk, HoldersOk, AddWaiting, AddHolders, Needs;
    SuspendSuspensionOk(w, t, block);
    SuspendHoldersOk(w, t, block);
  }

  lemma SuspendKeeps(w: World, t: Snapshot, block: Block, roots: set<BlockRef>)
    requires Inv(w, t) && MustWait(w, t, block)
    ensures Grounded(t) ==> Grounded(Suspend(t, block))
    ensures Complete(t, roots) ==> Complete(Suspend(t, block), roots)
    ensures Swept(t) ==> Swept(Suspend(t, block))
    ensures Known(Suspend(t, block)) == Known(t) + {block.Ref()}
  {
    hide World.Ok, SuspensionOk, HoldersOk, AddWaiting, AddHolders, Needs;
    if Grounded(t) {
      SuspendGrounded(w, t, block);
    }
    if Swept(t) {
      SuspendSwept(t, block);
    }
  }

  lemma SuspendGrounded(w: World, t: Snapshot, block: Block)
    requires w.Ok() && w.Has(block) && Grounded(t)
    ensures Grounded(Suspend(t, block))
  {
    hide AddWaiting, AddHolders;
  }

  lemma SuspendSwept(t: Snapshot, block: Block)
    requires Swept(t)
    ensures Swept(Suspend(t, block))
  {
    hide AddWaiting, AddHolders;
  }

  /** The authors of the blocks waiting for `a`, and the author of `a`. */
  ghost function Expected(waiting: set<BlockRef>, a: BlockRef): set<nat> {
    {a.author} + (set c | c in waiting :: c.author)
  }

  lemma ExpectOneMore(waiting: set<BlockRef>, a: BlockRef, r: BlockRef)
    ensures Expected(waiting + {r}, a) == Expected(waiting, a) + {r.author} && Expected({}, a) == {a.author}
  {
  }

  /** The holders of one block to fetch, after one more block waits for it. */
  lemma SuspendTightOne(t: Snapshot, missing: set<BlockRef>, r: BlockRef, a: BlockRef)
    requires HoldersOk(t) && Tight(t) && a in t.waiting.Keys + missing
    requires a in t.holders.Keys + (missing - t.suspended.Keys)
    ensures HoldersOf(t.holders, missing - t.suspended.Keys, r.author, a) == Expected(WaitersOf(t.waiting, missing, r, a), a)
  {
    hide Expected;
    var before := if a in t.waiting then t.waiting[a] else {};
    ExpectOneMore(before, a, r);
    ExpectOneMore({}, a, r);
    assert before + {} == before;
    assert a in t.holders <==> a in t.waiting && a !in t.suspended;
  }

  lemma SuspendTight(w: World, t: Snapshot, block: Block)
    requires Inv(w, t) && MustWait(w, t, block) && Tight(t)
    ensures Tight(Suspend(t, block))
  {
    hide World.Ok, DagOk, SuspensionOk, Needs, Known, Expected, WaitersOf, HoldersOf;
    var r, missing := block.Ref(), Needs(t.gc, block) - t.dag.Keys;
    var t' := Suspend(t, block);
    forall a | a in t'.waiting
      ensures t'.waiting[a] != {}
    {
      SuspendSomeoneWaits(t, missing, r, a);
    }
    forall a | a in t'.holders && a in t'.waiting
      ensures t'.holders[a] == Expected(t'.waiting[a], a)
    {
      SuspendTightOne(t, missing, r, a);
    }
  }

  lemma SuspendSomeoneWaits(t: Snapshot, missing: set<BlockRef>, r: BlockRef, a: BlockRef)
    requires Tight(t) && a in t.waiting.Keys + missing
    ensures WaitersOf(t.waiting, missing, r, a) != {}
  {
    hide Expected;
    if a in missing {
      assert r in WaitersOf(t.waiting, missing, r, a);
    }
  }

  // ----- accepting and releasing

  /** `r` is no longer a block to fetch. */
  ghost function Receive(t: Snapshot, r: BlockRef): Snapshot { t.(holders := t.holders - {r}) }

  /** `x` is there, `released` are no longer suspended, and `accepted` are stored. */
  ghost function Release(t: Snapshot, x: BlockRef, released: set<BlockRef>, accepted: Store): Snapshot {
    t.(dag := t.dag + accepted,
       suspended := StillSuspended(t.suspended, x, released),
       waiting := t.waiting - ({x} + released))
  }

  /** The released blocks are the suspended ones that miss nothing but `x` and other released blocks. */
  ghost predicate IsRelease(t: Snapshot, x: BlockRef, released: set<BlockRef>) {
    && released <= t.suspended.Keys
    && forall b :: b in t.suspended ==> (b in released <==> t.suspended[b].missing <= {x} + released)
  }

  /** Only `x` and released blocks are stored, and they are genuine. */
  ghost predicate Accepts(w: World, x: BlockRef, released: set<BlockRef>, accepted: Store) {
    && accepted.Keys <= {x} + released
    && forall r :: r in accepted ==> r in w.universe && accepted[r] == w.universe[r]
  }

  /** The blocks to fetch when `x` has just been received or given up. */
  ghost predicate HoldersBut(t: Snapshot, x: BlockRef) { t.holders.Keys == t.waiting.Keys - t.suspended.Keys - {x} }

  /** Everything but the blocks to fetch, while `x` is arriving. */
  ghost predicate CoreInv(w: World, t: Snapshot, x: BlockRef) {
    w.Ok() && DagOk(w, t) && SuspensionOk(w, t, {x}) && (!t.gc.enabled ==> t.gc.round == 0)
  }

  lemma ReleaseSuspensionOk(w: World, t: Snapshot, x: BlockRef, released: set<BlockRef>, accepted: Store)
    requires SuspensionOk(w, t, {x}) && IsRelease(t, x, released) && Accepts(w, x, released, accepted) && x !in t.suspended
    ensures SuspensionOk(w, Release(t, x, released, accepted), {})
  {
    hide WellSuspended, Linked;
    ReleaseKeepsLinks(t.suspended, t.waiting, x, released);
    ReleaseKeepsShape(t.suspended, x, released);
  }

  lemma ReleaseInv(w: World, t: Snapshot, x: BlockRef, released: set<BlockRef>, accepted: Store)
    requires CoreInv(w, t, x) && HoldersBut(t, x) && x !in t.suspended
    requires IsRelease(t, x, released) && Accepts(w, x, released, accepted)
    ensures Inv(w, Release(t, x, released, accepted))
  {
    hide World.Ok, SuspensionOk, StillSuspended;
    ReleaseSuspensionOk(w, t, x, released, accepted);
    var t' := Release(t, x, released, accepted);
    assert t'.waiting.Keys == t.waiting.Keys - ({x} + released);
    assert t'.holders.Keys == t'.waiting.Keys - t'.suspended.Keys;
  }

  /** No suspended block that stays was waiting for something that arrived but was not stored. */
  ghost predicate NothingLost(t: Snapshot, x: BlockRef, released: set<BlockRef>, accepted: Store) {
    forall c, a :: c in t.suspended && c !in released && a in t.suspended[c].missing && a in {x} + released ==>
      a in accepted || a in t.dag || t.gc.Collected(a)
  }

  /**
   * After a release the state is grounded again exactly when nothing was lost, that is, when no block
   * that is still suspended was waiting for a block that arrived but was not stored.
   */
  lemma GroundedAfterRelease(t: Snapshot, x: BlockRef, released: set<BlockRef>, accepted: Store)
    requires WellSuspended(t.suspended) && Grounded(t) && t.dag.Keys !! accepted.Keys
    ensures Grounded(Release(t, x, released, accepted)) <==> NothingLost(t, x, released, accepted)
  {
    var t' := Release(t, x, released, accepted);
    if Grounded(t') {
      forall c, a | c in t.suspended && c !in released && a in t.suspended[c].missing && a in {x} + released
        ensures a in accepted || a in t.dag || t.gc.Collected(a)
      {
        assert c in t'.suspended && a in t'.suspended[c].block.ancestors;
        assert a !in t'.suspended[c].missing;
      }
    }
  }

  lemma ReleaseKeeps(t: Snapshot, x: BlockRef, released: set<BlockRef>, accepted: Store)
    requires IsRelease(t, x, released) && t.suspended.Keys !! t.dag.Keys
    ensures Swept(t) ==> Swept(Release(t, x, released, accepted))
    ensures Tight(t) ==> Tight(Release(t, x, released, accepted))
    ensures Known(Release(t, x, released, accepted)) == (Known(t) - released) + accepted.Keys
  {
    hide IsRelease, StillSuspended;
    assert released <= t.suspended.Keys by { ReleasedSuspended(t, x, released); }
  }

  lemma ReleasedSuspended(t: Snapshot, x: BlockRef, released: set<BlockRef>)
    requires IsRelease(t, x, released)
    ensures released <= t.suspended.Keys
  {
  }

  /** Blocks stored after all their ancestors keep the DAG causally complete. */
  lemma CompleteAfterAccept(t: Snapshot, t': Snapshot, blocks: seq<Block>, roots: set<BlockRef>)
    requires Complete(t, roots) && t'.gc == t.gc && t.dag.Keys <= t'.dag.Keys
    requires forall r :: r in t.dag ==> t'.dag[r] == t.dag[r]
    requires Supplied(t.gc, t.dag, blocks) && t'.dag.Keys == t.dag.Keys + Refs(blocks)
    requires forall b :: b in blocks ==> t'.dag[b.Ref()] == b
    ensures Complete(t', roots)
  {
    forall r, a | r in t'.dag && r !in roots && a in t'.dag[r].ancestors ensures a in t'.dag || t'.gc.Collected(a) {
      if r !in t.dag {
        var b :| b in blocks && b.Ref() == r;
        var i :| 0 <= i < |blocks| && blocks[i] == b;
        assert a in blocks[i].ancestors;
        if a in Refs(blocks[..i]) {
          var c :| c in blocks[..i] && c.Ref() == a;
          assert c in blocks;
        }
      }
    }
  }

  // ----- the list handed to the timestamp check

  /** A new block all of whose needed ancestors are stored has every ancestor supplied. */
  lemma ReadySupplied(w: World, t: Snapshot, block: Block)
    requires w.Ok() && w.Has(block) && Needs(t.gc, block) <= t.dag.Keys
    ensures Supplied(t.gc, t.dag, [block])
  {
    forall i, a | 0 <= i < 1 && a in [block][i].ancestors
      ensures a in t.dag || a in Refs([block][..i]) || t.gc.Collected(a)
    {
      if !t.gc.Collected(a) {
        assert a in Needs(t.gc, block);
      }
    }
  }

  /** Released blocks that are grounded, listed after `first`, have every ancestor supplied. */
  lemma ReleasedSupplied(t: Snapshot, x: BlockRef, first: seq<Block>, released: seq<Block>)
    requires GroundedIn(t, Refs(released)) && ReleaseOrder(t.suspended, x, released) && Supplied(t.gc, t.dag, first)
    requires x in t.dag || x in Refs(first) || t.gc.Collected(x)
    ensures Supplied(t.gc, t.dag, first + released)
  {
    var all := first + released;
    forall i, a | 0 <= i < |all| && a in all[i].ancestors
      ensures a in t.dag || a in Refs(all[..i]) || t.gc.Collected(a)
    {
      if i < |first| {
        assert all[..i] == first[..i] && all[i] == first[i];
      } else {
        var k := i - |first|;
        assert all[i] == released[k] && all[..i] == first + released[..k];
        RefsConcat(first, released[..k]);
        var c := released[k].Ref();
        assert released[k] in released && c in Refs(released) && t.suspended[c].block == released[k];
      }
    }
  }

  lemma RefsConcat(a: seq<Block>, b: seq<Block>)
    ensures Refs(a + b) == Refs(a) + Refs(b)
  {
    assert forall c :: c in a + b <==> c in a || c in b;
  }

  /** Lists of supplied blocks can be stored one after the other. */
  lemma SuppliedConcat(gc: Gc, dag: Store, more: Store, a: seq<Block>, b: seq<Block>)
    requires Supplied(gc, dag, a) && Supplied(gc, more, b) && more.Keys == dag.Keys + Refs(a)
    ensures Supplied(gc, dag, a + b)
  {
    forall i, x | 0 <= i < |a + b| && x in (a + b)[i].ancestors
      ensures x in dag || x in Refs((a + b)[..i]) || gc.Collected(x)
    {
      if i < |a| {
        assert (a + b)[..i] == a[..i] && (a + b)[i] == a[i];
      } else {
        var k := i - |a|;
        assert (a + b)[i] == b[k] && (a + b)[..i] == a + b[..k];
        RefsConcat(a, b[..k]);
      }
    }
  }
}
