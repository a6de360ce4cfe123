/** What the block manager ends up with depends only on what it received, not on order or batching. */
module OrderIndependence {
  import opened Sequences
  import opened Blocks
  import opened Dags
  import opened SuspensionIndex
  import opened TimestampPass
  import opened ManagerState
  import opened ManagerSteps
  import opened BlockManagers

  /** The causally complete part of `known`: everything needed is itself in it, down to `roots`. */
  ghost predicate Acceptable(w: World, gc: Gc, roots: set<BlockRef>, known: set<BlockRef>, r: BlockRef)
    decreases r.round
  {
    r in known
    && (r in roots
        || (r in w.universe
            && forall a :: a in Needs(gc, w.universe[r]) ==> a.round < r.round && Acceptable(w, gc, roots, known, a)))
  }

  /** A state reached by ordinary receipts alone, over a DAG that started as `roots`. */
  ghost predicate Settled(w: World, t: Snapshot, roots: set<BlockRef>) {
    Inv(w, t) && Grounded(t) && Complete(t, roots) && Swept(t) && Tight(t) && roots <= t.dag.Keys
  }

  /** What a suspended block misses is what it needs and is not stored. */
  lemma MissingIsNeeded(w: World, t: Snapshot, c: BlockRef)
    requires Inv(w, t) && Grounded(t) && Swept(t) && c in t.suspended
    ensures t.suspended[c].missing == Needs(t.gc, t.suspended[c].block) - t.dag.Keys
  {
    hide World.Ok, DagOk, HoldersOk;
    var b, missing := t.suspended[c].block, t.suspended[c].missing;
    forall a | a in missing ensures a in Needs(t.gc, b) && a !in t.dag {
      assert a in t.waiting && c in t.waiting[a];
      assert !t.gc.Collected(a);
    }
  }

  /** The stored blocks are exactly the causally complete part of the known ones. */
  lemma {:induction false} StoredIsAcceptable(w: World, t: Snapshot, roots: set<BlockRef>, r: BlockRef)
    requires Settled(w, t, roots)
    ensures r in t.dag <==> Acceptable(w, t.gc, roots, Known(t), r)
    decreases r.round
  {
    hide World.Ok, HoldersOk, Tight, Swept, Grounded, WellTimed, SuspensionOk;
    if r in t.dag && r !in roots {
      forall a | a in Needs(t.gc, w.universe[r]) ensures a.round < r.round && Acceptable(w, t.gc, roots, Known(t), a) {
        assert a.round < r.round by { AncestorLower(w, r, a); }
        assert a in t.dag;
        StoredIsAcceptable(w, t, roots, a);
      }
    }
    if r in t.suspended {
      SuspendedNotAcceptable(w, t, r);
      var a :| a in Needs(t.gc, w.universe[r]) - t.dag.Keys;
      if a.round < r.round {
        StoredIsAcceptable(w, t, roots, a);
      }
    }
  }

  lemma AncestorLower(w: World, r: BlockRef, a: BlockRef)
    requires w.Ok() && r in w.universe && a in w.universe[r].ancestors
    ensures a.round < r.round
  {
  }

  lemma SuspendedNotAcceptable(w: World, t: Snapshot, c: BlockRef)
    requires Inv(w, t) && Grounded(t) && Swept(t) && c in t.suspended
    ensures c !in t.dag && c in w.universe && Needs(t.gc, w.universe[c]) - t.dag.Keys != {}
  {
    hide World.Ok, DagOk, HoldersOk, Needs;
    MissingIsNeeded(w, t, c);
  }

  /** Two settled states that know the same blocks store the same ones. */
  lemma SameStored(w: World, t: Snapshot, u: Snapshot, roots: set<BlockRef>)
    requires Settled(w, t, roots) && Settled(w, u, roots) && t.gc == u.gc && Known(t) == Known(u)
    ensures t.dag == u.dag
  {
    hide World.Ok, HoldersOk, Tight, Swept, Grounded, WellTimed, SuspensionOk, Complete;
    forall r ensures r in t.dag <==> r in u.dag {
      StoredIsAcceptable(w, t, roots, r);
      StoredIsAcceptable(w, u, roots, r);
    }
  }

  lemma SameSuspended(w: World, t: Snapshot, u: Snapshot)
    requires Inv(w, t) && Grounded(t) && Swept(t) && Inv(w, u) && Grounded(u) && Swept(u)
    requires t.gc == u.gc && t.dag == u.dag && Known(t) == Known(u)
    ensures t.suspended == u.suspended
  {
    hide World.Ok, DagOk, HoldersOk, Grounded, WellTimed, Swept, Needs, WellSuspended, Linked;
    assert t.suspended.Keys == Known(t) - t.dag.Keys && u.suspended.Keys == Known(u) - u.dag.Keys;
    forall c | c in t.suspended ensures c in u.suspended && t.suspended[c] == u.suspended[c] {
      MissingIsNeeded(w, t, c);
      MissingIsNeeded(w, u, c);
    }
  }

  lemma SameIndex(t: Snapshot, u: Snapshot)
    requires Linked(t.suspended, t.waiting) && Linked(u.suspended, u.waiting) && t.suspended == u.suspended
    requires Tight(t) && Tight(u) && HoldersOk(t) && HoldersOk(u)
    ensures t.waiting == u.waiting && t.holders == u.holders
  {
    forall a, c ensures (a in t.waiting && c in t.waiting[a]) <==> (a in u.waiting && c in u.waiting[a]) {
      assert (a in t.waiting && c in t.waiting[a]) <==> (c in t.suspended && a in t.suspended[c].missing);
      assert (a in u.waiting && c in u.waiting[a]) <==> (c in u.suspended && a in u.suspended[c].missing);
    }
    forall a ensures a in t.waiting <==> a in u.waiting {
      if a in t.waiting {
        var c :| c in t.waiting[a];
      }
      if a in u.waiting {
        var c :| c in u.waiting[a];
      }
    }
    forall a | a in t.waiting ensures t.waiting[a] == u.waiting[a] {
    }
    assert t.waiting == u.waiting;
    forall a | a in t.holders ensures a in u.holders && t.holders[a] == u.holders[a] {
    }
  }

  /**
   * Order independence: two settled states over the same starting DAG and with the same garbage
   * collection round that know the same blocks are the same, in every map.
   */
  lemma SameKnownSameState(w: World, t: Snapshot, u: Snapshot, roots: set<BlockRef>)
    requires Settled(w, t, roots) && Settled(w, u, roots) && t.gc == u.gc && Known(t) == Known(u)
    ensures t == u
  {
    hide World.Ok, DagOk, HoldersOk, Tight, Swept, Grounded, WellTimed, Complete, Known, WellSuspended, Linked;
    SameStored(w, t, u, roots);
    SameSuspended(w, t, u);
    SameIndex(t, u);
  }

  // ----- whole runs

  lemma FreshConcat(gc: Gc, a: seq<Block>, b: seq<Block>)
    ensures Fresh(gc, a + b) == Fresh(gc, a) + Fresh(gc, b)
  {
    assert forall c :: c in a + b <==> c in a || c in b;
  }

  /**
   * A fresh manager fed with any sequence of batches: its state is settled, and it knows its starting
   * DAG and whatever it received above the garbage collection round.
   */
  method Replay(gcEnabled: bool, median: bool, gcRound: nat, stored: Store, ghost world: World, batches: seq<seq<Block>>)
    returns (m: BlockManager)
    requires world.Ok() && Calm(world, median) && world.genesis <= stored.Keys && (!gcEnabled ==> gcRound == 0)
    requires forall r :: r in stored ==> r in world.universe && stored[r] == world.universe[r]
    requires forall b :: b in Flatten(batches) ==> world.Has(b) && b.round > GENESIS_ROUND
    ensures m.Snap().gc == Gc(gcEnabled, gcRound) && Settled(world, m.Snap(), stored.Keys)
    ensures Known(m.Snap()) == stored.Keys + Fresh(Gc(gcEnabled, gcRound), Flatten(batches))
  {
    hide World.Ok, DagOk, SuspensionOk, HoldersOk, Tight, Swept, Grounded, WellTimed, Complete, Fresh, Supplied;
    m := new BlockManager(gcEnabled, median, stored, world);
    ghost var gc := Gc(gcEnabled, gcRound);
    StartSettled(gcEnabled, stored);
    if gcEnabled {
      m.AdvanceGcRound(gcRound, stored.Keys);
    }
    StartSwept(gc, stored);
    BlockManager.NothingFresh(gc);
    assert batches[..0] == [];
    for i := 0 to |batches|
      invariant m.world == world && m.medianTimestamps == median && fresh(m) && m.Valid() && m.Snap().gc == gc
      invariant Complete(m.Snap(), stored.Keys) && Swept(m.Snap()) && Tight(m.Snap()) && stored.Keys <= m.dag.Keys
      invariant Known(m.Snap()) == stored.Keys + Fresh(gc, Flatten(batches[..i]))
    {
      assert batches[..i + 1] == batches[..i] + [batches[i]];
      FlattenAppend(batches[..i], batches[i]);
      FreshConcat(gc, Flatten(batches[..i]), batches[i]);
      forall b | b in batches[i] ensures world.Has(b) && b.round > GENESIS_ROUND {
        InFlatten(batches, i, b);
      }
      var o, trail := m.TryAcceptBlocks(batches[i], stored.Keys);
    }
    assert batches[..|batches|] == batches;
  }

  /** Two runs that receive the same blocks, in any order and any batches, end in the same state. */
  method ReplaysAgree(
    gcEnabled: bool, median: bool, gcRound: nat, stored: Store, ghost world: World, p: seq<seq<Block>>, q: seq<seq<Block>>)
    returns (m: BlockManager, n: BlockManager)
    requires world.Ok() && Calm(world, median) && world.genesis <= stored.Keys && (!gcEnabled ==> gcRound == 0)
    requires forall r :: r in stored ==> r in world.universe && stored[r] == world.universe[r]
    requires forall b :: b in Flatten(p) || b in Flatten(q) ==> world.Has(b) && b.round > GENESIS_ROUND
    requires Fresh(Gc(gcEnabled, gcRound), Flatten(p)) == Fresh(Gc(gcEnabled, gcRound), Flatten(q))
    ensures m.Snap() == n.Snap()
    ensures forall r :: r in m.dag <==>
      Acceptable(world, Gc(gcEnabled, gcRound), stored.Keys, stored.Keys + Fresh(Gc(gcEnabled, gcRound), Flatten(p)), r)
  {
    hide World.Ok, Settled, Fresh, Acceptable, Known;
    m := Replay(gcEnabled, median, gcRound, stored, world, p);
    n := Replay(gcEnabled, median, gcRound, stored, world, q);
    SameKnownSameState(world, m.Snap(), n.Snap(), stored.Keys);
    forall r ensures r in m.dag <==> Acceptable(world, m.Snap().gc, stored.Keys, Known(m.Snap()), r) {
      StoredIsAcceptable(world, m.Snap(), stored.Keys, r);
    }
  }

  lemma StartSettled(gcEnabled: bool, stored: Store)
    ensures Complete(Snapshot(Gc(gcEnabled, 0), stored, map[], map[], map[]), stored.Keys)
  {
  }

  lemma StartSwept(gc: Gc, stored: Store)
    ensures var t := Snapshot(gc, stored, map[], map[], map[]);
      Swept(t) && Tight(t) && Known(t) == stored.Keys
  {
  }

  // ----- timestamps along causal paths

  /** Without garbage collection and bypass, timestamps never decrease along a causal path of the DAG. */
  lemma {:induction false} TimestampsNeverDecrease(w: World, t: Snapshot, x: BlockRef, y: BlockRef)
    requires Inv(w, t) && TimesOk(t) && Complete(t, {}) && !t.gc.enabled
    requires InPast(t.dag, x, y)
    ensures x in t.dag && y in t.dag && t.dag[y].timestamp <= t.dag[x].timestamp
    decreases x.round
  {
    hide World.Ok, SuspensionOk, HoldersOk, InPast, DagOk;
    FirstStep(t.dag, x, y);
    var a :| a in t.dag[x].ancestors && a.round < x.round && AtOrBelow(t.dag, a, y);
    assert a in t.dag;
    if a != y {
      TimestampsNeverDecrease(w, t, a, y);
    }
  }

  lemma FirstStep(d: Store, x: BlockRef, y: BlockRef)
    requires InPast(d, x, y)
    ensures x in d && exists a :: a in d[x].ancestors && a.round < x.round && AtOrBelow(d, a, y)
  {
    var a :| a in d[x].ancestors && a.round < x.round && (a == y || InPast(d, a, y));
    assert AtOrBelow(d, a, y);
  }
}
