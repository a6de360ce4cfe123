/** The block manager: it suspends blocks until their causal history is there and releases them then. */
module BlockManagers {
  import opened Sequences
  import opened Committees
  import opened Blocks
  import opened BlockVerifier
  import opened SuspensionIndex
  import opened TimestampPass
  import opened ManagerState
  import opened ManagerSteps
  import opened Batches
  import opened JointRelease

  datatype TryAcceptResult = Accepted | SuspendedOn(toFetch: set<BlockRef>) | Processed | Skipped

  /** `Panic` stands for the panic about an unsuspended block with a missing ancestor. */
  datatype Outcome = Panic | Done(accepted: seq<Block>, missing: set<BlockRef>)

  /** Ancestors among the first `n` that must be stored. */
  ghost function NeedsAmong(gc: Gc, b: Block, n: nat): set<BlockRef>
    requires n <= |b.ancestors|
  {
    set k | 0 <= k < n && (gc.enabled ==> b.ancestors[k].round == GENESIS_ROUND || b.ancestors[k].round > gc.round)
      :: b.ancestors[k]
  }

  lemma NeedsAmongAll(gc: Gc, b: Block)
    ensures NeedsAmong(gc, b, |b.ancestors|) == Needs(gc, b) && NeedsAmong(gc, b, 0) == {}
  {
  }

  lemma NeedsAmongStep(gc: Gc, b: Block, i: nat)
    requires i < |b.ancestors|
    ensures var a := b.ancestors[i];
      NeedsAmong(gc, b, i + 1)
      == NeedsAmong(gc, b, i) + (if gc.enabled ==> a.round == GENESIS_ROUND || a.round > gc.round then {a} else {})
  {
  }

  lemma NothingAdded(m: Waiting, b: Holders, r: BlockRef)
    ensures AddWaiting(m, {}, r) == m && AddHolders(b, {}, r.author) == b
  {
    forall a | a in m ensures AddWaiting(m, {}, r)[a] == m[a] {
    }
    forall a | a in b ensures AddHolders(b, {}, r.author)[a] == b[a] {
    }
  }

  /** One more missing ancestor in the map of waiting blocks. */
  lemma OneMoreWaiting(m: Waiting, missing: set<BlockRef>, a: BlockRef, r: BlockRef)
    ensures var w := AddWaiting(m, missing, r);
      w[a := (if a in w then w[a] else {}) + {r}] == AddWaiting(m, missing + {a}, r)
  {
    var w, v := AddWaiting(m, missing, r), AddWaiting(m, missing + {a}, r);
    var w' := w[a := (if a in w then w[a] else {}) + {r}];
    assert w'.Keys == v.Keys;
    assert w'[a] == v[a];
    forall k | k in w' && k != a ensures w'[k] == v[k] {
    }
  }

  /** One more block to fetch. */
  lemma OneMoreHeld(b: Holders, fetch: set<BlockRef>, a: BlockRef, author: nat)
    ensures var h := AddHolders(b, fetch, author);
      h[a := (if a in h then h[a] else {a.author}) + {author}] == AddHolders(b, fetch + {a}, author)
  {
    var h, v := AddHolders(b, fetch, author), AddHolders(b, fetch + {a}, author);
    var h' := h[a := (if a in h then h[a] else {a.author}) + {author}];
    assert h'.Keys == v.Keys;
    assert h'[a] == v[a];
    forall k | k in h' && k != a ensures h'[k] == v[k] {
    }
  }

  predicate LowerRound(a: Block, b: Block) { a.round < b.round }

  method SortByRound(blocks: seq<Block>) returns (sorted: seq<Block>)
    ensures multiset(sorted) == multiset(blocks) && SortedByRound(sorted)
  {
    sorted := Sort(LowerRound, blocks);
    SortInOrder(LowerRound, blocks);
    forall i, j | 0 <= i < j < |sorted|
      ensures sorted[i].round <= sorted[j].round
    {
      assert !LowerRound(sorted[j], sorted[i]);
    }
  }

  class BlockManager {
    const gcEnabled: bool
    const medianTimestamps: bool
    ghost const world: World
    var gcRound: nat
    var dag: Store
    var suspended: Suspended
    var missingAncestors: Waiting
    var missingBlocks: Holders

    ghost function Snap(): Snapshot
      reads this
    {
      Snapshot(Gc(gcEnabled, gcRound), dag, suspended, missingAncestors, missingBlocks)
    }

    ghost predicate Valid()
      reads this
    {
      Steady(world, medianTimestamps, Snap())
    }

    /** A manager over a DAG that already stores some blocks, genesis among them. */
    constructor (gcEnabled: bool, medianTimestamps: bool, stored: Store, ghost world: World)
      requires world.Ok() && world.genesis <= stored.Keys
      requires forall r :: r in stored ==> r in world.universe && stored[r] == world.universe[r]
      ensures Valid() && this.world == world && this.medianTimestamps == medianTimestamps
      ensures Snap() == Snapshot(Gc(gcEnabled, 0), stored, map[], map[], map[])
    {
      this.gcEnabled := gcEnabled;
      this.medianTimestamps := medianTimestamps;
      this.world := world;
      gcRound := 0;
      dag := stored;
      suspended := map[];
      missingAncestors := map[];
      missingBlocks := map[];
    }

    // ----- releasing suspended blocks

    /** The caller knows that the block is suspended and misses the dependency; neither check can fail. */
    method TryUnsuspendBlock(r: BlockRef, dependency: BlockRef) returns (unsuspended: Option<Block>)
      requires r in suspended && dependency in suspended[r].missing
      modifies this`suspended
      ensures var rest := old(suspended)[r].missing - {dependency};
        if rest == {} then unsuspended == Some(old(suspended)[r].block) && suspended == old(suspended) - {r}
        else unsuspended == None && suspended == old(suspended)[r := SuspendedBlock(old(suspended)[r].block, rest)]
    {
      var block := suspended[r];
      var rest := block.missing - {dependency};
      if rest == {} {
        suspended := suspended - {r};
        return Some(block.block);
      }
      suspended := suspended[r := SuspendedBlock(block.block, rest)];
      return None;
    }

    /**
     * Releases exactly the blocks that miss nothing but `x` and other released blocks, each once and
     * after everything it was missing, whatever the order in which children are served.
     */
    method UnsuspendChildren(x: BlockRef) returns (released: seq<Block>)
      requires WellSuspended(suspended) && Linked(suspended, missingAncestors) && x !in suspended
      modifies this`suspended, this`missingAncestors
      ensures DistinctRefs(released) && Refs(released) == Released(old(suspended), x)
      ensures ReleaseOrder(old(suspended), x, released)
      ensures suspended == StillSuspended(old(suspended), x, Refs(released))
      ensures missingAncestors == old(missingAncestors) - ({x} + Refs(released))
    {
      hide WellSuspended, Linked, Listed, Trimmed, Released, StillSuspended;
      ghost var s0, m0 := suspended, missingAncestors;
      released := [];
      var toProcess := [x];
      ghost var done: set<BlockRef>, last := {}, x;
      WorklistStart(s0, x, last);
      while toProcess != []
        invariant Listed(s0, x, done, toProcess, released) && Trimmed(s0, done, last, {}, released, suspended)
        invariant missingAncestors == m0 - done
        decreases {x} + s0.Keys - done
      {
        var y := toProcess[|toProcess| - 1];
        PopListed(s0, x, done, toProcess, released);
        PopTrimmed(s0, m0, x, done, toProcess, last, y, released, suspended);
        toProcess := toProcess[..|toProcess| - 1];
        done, last := done + {y}, y;
        var children: set<BlockRef> := {};
        if y in missingAncestors {
          children := missingAncestors[y];
          missingAncestors := missingAncestors - {y};
        }
        released, toProcess := ServeChildren(y, children, released, toProcess, s0, x, done);
      }
      WorklistEnd(s0, x, done, last, released, suspended);
      assert DistinctRefs(released) && ReleaseOrder(s0, x, released) by { ListedOrder(s0, x, done, [], released); }
    }

    static lemma ListedOrder(s0: Suspended, x: BlockRef, done: set<BlockRef>, stack: seq<BlockRef>, out: seq<Block>)
      requires Listed(s0, x, done, stack, out)
      ensures DistinctRefs(out) && ReleaseOrder(s0, x, out)
    {
    }

    /** Serves the children of a popped reference one by one. */
    method ServeChildren(
      y: BlockRef, children: set<BlockRef>, unsuspended: seq<Block>, stack: seq<BlockRef>,
      ghost s0: Suspended, ghost x: BlockRef, ghost done: set<BlockRef>)
      returns (released: seq<Block>, toProcess: seq<BlockRef>)
      requires WellSuspended(s0) && x !in s0 && y in done
      requires Listed(s0, x, done, stack, unsuspended) && Trimmed(s0, done, y, children, unsuspended, suspended)
      modifies this`suspended
      ensures Listed(s0, x, done, toProcess, released) && Trimmed(s0, done, y, {}, released, suspended)
    {
      hide WellSuspended, Listed, Trimmed;
      released, toProcess := unsuspended, stack;
      var todo := children;
      while todo != {}
        invariant Listed(s0, x, done, toProcess, released) && Trimmed(s0, done, y, todo, released, suspended)
        decreases todo
      {
        var r :| r in todo;
        ServeMissing(s0, done, y, todo, released, suspended, r);
        ServeTrimmed(s0, done, y, todo, released, suspended, r);
        var block := TryUnsuspendBlock(r, y);
        if block.Some? {
          ServeListed(s0, x, done, toProcess, released, block.value);
          toProcess := toProcess + [block.value.Ref()];
          released := released + [block.value];
        }
        todo := todo - {r};
      }
    }

    // ----- timestamps and storing

    ghost predicate DagGenuine()
      reads this
    {
      world.Ok() && DagOk(world, Snap())
    }

    /** Looks up the ancestors of a block in order. */
    method ScanAncestors(accepted: Store, rejected: set<BlockRef>, b: Block) returns (scan: Scan)
      ensures scan == ScanFrom(Gc(gcEnabled, gcRound), dag, accepted, rejected, b, 0)
    {
      hide ScanFrom;
      ghost var gc := Gc(gcEnabled, gcRound);
      ghost var whole := ScanFrom(gc, dag, accepted, rejected, b, 0);
      var found: seq<Option<Block>> := [];
      for i := 0 to |b.ancestors|
        invariant whole == Onto(found, ScanFrom(gc, dag, accepted, rejected, b, i))
      {
        var a := b.ancestors[i];
        ScanStep(gc, dag, accepted, rejected, b, i);
        var next;
        if a in dag {
          next := Some(dag[a]);
        } else if a in accepted {
          next := Some(accepted[a]);
        } else if a in rejected {
          return RejectedAncestor;
        } else if gcEnabled && GENESIS_ROUND < a.round <= gcRound {
          next := None;
        } else {
          return LostAncestor;
        }
        OntoStep(found, next, ScanFrom(gc, dag, accepted, rejected, b, i + 1));
        found := found + [next];
      }
      ScanEnd(gc, dag, accepted, rejected, b);
      assert found + [] == found;
      return Ready(found);
    }

    /** Runs the timestamp check over the list, or panics. */
    method VerifyTimestamps(blocks: seq<Block>) returns (r: Option<Store>)
      requires DagGenuine() && AllGenuine(world, blocks) && DistinctRefs(blocks)
      ensures var p := VerifyBlocks(Gc(gcEnabled, gcRound), dag, blocks);
        if p.Panicked? then r == None else r == Some(p.accepted)
    {
      hide ScanFrom, TimestampOk, World.Ok;
      ghost var gc := Gc(gcEnabled, gcRound);
      var accepted: Store, rejected: set<BlockRef> := map[], {};
      for i := 0 to |blocks|
        invariant VerifyBlocks(gc, dag, blocks[..i]) == Sorted(accepted, rejected)
        invariant forall a :: a in accepted ==> accepted[a].Ref() == a
      {
        var b := blocks[i];
        assert blocks[..i + 1] == blocks[..i] + [b];
        VerifyAppend(gc, dag, blocks[..i], b);
        var scan := ScanAncestors(accepted, rejected, b);
        match scan {
          case LostAncestor =>
            PanicStays(gc, dag, blocks, i + 1);
            return None;
          case RejectedAncestor =>
            rejected := rejected + {b.Ref()};
          case Ready(found) =>
            FoundMatches(world, gc, dag, accepted, rejected, b);
            var check := CheckAncestors(b, found, gcEnabled, gcRound);
            if check.Err? {
              rejected := rejected + {b.Ref()};
            } else {
              accepted := accepted[b.Ref() := b];
            }
        }
      }
      assert blocks[..|blocks|] == blocks;
      return Some(accepted);
    }

    static lemma {:induction false} PanicStays(gc: Gc, dag: Store, blocks: seq<Block>, n: nat)
      requires n <= |blocks| && VerifyBlocks(gc, dag, blocks[..n]).Panicked?
      ensures VerifyBlocks(gc, dag, blocks).Panicked?
      decreases |blocks| - n
    {
      if n < |blocks| {
        assert blocks[..n + 1] == blocks[..n] + [blocks[n]];
        VerifyAppend(gc, dag, blocks[..n], blocks[n]);
        PanicStays(gc, dag, blocks, n + 1);
      } else {
        assert blocks[..n] == blocks;
      }
    }

    static lemma FoundMatches(w: World, gc: Gc, dag: Store, accepted: Store, rejected: set<BlockRef>, b: Block)
      requires w.Ok() && forall r :: r in dag ==> r in w.universe && dag[r] == w.universe[r]
      requires forall a :: a in accepted ==> accepted[a].Ref() == a
      requires ScanFrom(gc, dag, accepted, rejected, b, 0).Ready?
      ensures !gc.enabled ==> Matches(b, ScanFrom(gc, dag, accepted, rejected, b, 0).found)
    {
      ScanReady(gc, dag, accepted, rejected, b, 0);
      var found := ScanFrom(gc, dag, accepted, rejected, b, 0).found;
      if !gc.enabled {
        forall k | 0 <= k < |found| ensures found[k].Some? && found[k].value.Ref() == b.ancestors[k] {
          assert Accounted(gc, dag, accepted, b.ancestors[k]);
        }
      }
    }

    /** The values of a map from references, in the order of the references. */
    static method SortedValues(store: Store) returns (s: seq<Block>)
      requires forall r :: r in store ==> store[r].Ref() == r
      ensures Refs(s) == store.Keys && SortedByRef(s) && forall b :: b in s ==> b.Ref() in store && store[b.Ref()] == b
    {
      s := [];
      var rest := store.Keys;
      while rest != {}
        invariant rest <= store.Keys
        invariant Refs(s) == store.Keys - rest && SortedByRef(s)
        invariant forall b :: b in s ==> b.Ref() in store && store[b.Ref()] == b
        invariant forall b, r :: b in s && r in rest ==> b.Ref().Less(r)
        decreases rest
      {
        ghost var g := LeastExists(rest);
        var least :| least in rest && forall r :: r in rest ==> !r.Less(least);
        RefsAppend(s, store[least]);
        forall r | r in rest - {least} ensures least.Less(r) {
          Comparable(least, r);
        }
        s := s + [store[least]];
        rest := rest - {least};
      }
    }

    /** Stores blocks that are not stored yet; genesis blocks never come this way. */
    method AcceptBlocks(blocks: seq<Block>)
      requires DagGenuine() && AllGenuine(world, blocks) && Refs(blocks) !! world.genesis
      modifies this`dag
      ensures dag == old(dag) + Genuine(world, Refs(blocks))
    {
      hide Genuine, World.Ok;
      GenuineNone(world, dag);
      assert blocks[..0] == [];
      for i := 0 to |blocks|
        invariant dag == old(dag) + Genuine(world, Refs(blocks[..i]))
      {
        var b := blocks[i];
        assert b in blocks && b.Ref() in Refs(blocks);
        assert b.round != GENESIS_ROUND by { OnlyGenesisAtZero(world, b); }
        RefsAppend(blocks[..i], b);
        assert blocks[..i + 1] == blocks[..i] + [b];
        StoreOne(world, old(dag), Refs(blocks[..i]), b);
        if b.Ref() !in dag {
          dag := dag[b.Ref() := b];
        }
      }
      assert blocks[..|blocks|] == blocks;
    }

    static lemma GenuineNone(w: World, dag: Store)
      ensures dag + Genuine(w, Refs([])) == dag
    {
    }

    /** So the panic about accepting a genesis block cannot happen. */
    static lemma OnlyGenesisAtZero(w: World, b: Block)
      requires w.Ok() && w.Has(b) && b.Ref() !in w.genesis
      ensures b.round != GENESIS_ROUND
    {
    }

    method VerifyAndAccept(listed: seq<Block>) returns (r: Option<seq<Block>>)
      requires DagGenuine() && AllGenuine(world, listed) && DistinctRefs(listed) && Refs(listed) !! dag.Keys
      modifies this`dag
      ensures r.None? <==> !medianTimestamps && VerifyBlocks(old(Snap()).gc, old(dag), listed).Panicked?
      ensures r.None? ==> dag == old(dag)
      ensures r.Some? ==> IsAccepted(medianTimestamps, old(Snap()), listed, r.value)
      ensures r.Some? ==> dag == old(dag) + Genuine(world, Refs(r.value))
    {
      var accepted := listed;
      if !medianTimestamps {
        var verified := VerifyTimestamps(listed);
        if verified.None? {
          return None;
        }
        PassPartitions(Gc(gcEnabled, gcRound), dag, listed);
        accepted := SortedValues(verified.value);
      }
      AcceptBlocks(accepted);
      return Some(accepted);
    }

    /** Releases what `x` releases and accepts it after `first`. */
    method ReleaseAndAccept(x: BlockRef, first: seq<Block>) returns (r: Option<seq<Block>>, ghost listed: seq<Block>)
      requires Starts(world, medianTimestamps, Snap(), x, first)
      modifies this`suspended, this`missingAncestors, this`dag
      ensures IsListed(old(Snap()), x, first, listed)
      ensures r.None? <==> !medianTimestamps && VerifyBlocks(old(Snap()).gc, old(dag), listed).Panicked?
      ensures r.Some? ==> ReleaseStep(world, medianTimestamps, old(Snap()), x, first, listed, r.value, Snap())
    {
      hide SuspensionOk, Linked, WellSuspended, Released, ReleaseOrder, StillSuspended, Grounded, WellTimed, VerifyBlocks, World.Ok,
        Supplied, Genuine, SortedByRef;
      ghost var t := Snap();
      CoreWellSuspended(world, t, x);
      var released := UnsuspendChildren(x);
      listed := first + released;
      assert listed[..|first|] == first && listed[|first|..] == released;
      FirstThenReleased(world, medianTimestamps, t, x, first, released);
      ListedGenuine(world, t, x, first, listed);
      r := VerifyAndAccept(first + released);
    }

    static lemma FirstThenReleased(
      w: World, median: bool, t: Snapshot, x: BlockRef, first: seq<Block>, released: seq<Block>)
      requires Starts(w, median, t, x, first) && DistinctRefs(released) && Refs(released) == Released(t.suspended, x)
      ensures DistinctRefs(first + released)
    {
      hide SuspensionOk, Grounded, WellTimed, World.Ok, Supplied;
      ReleasedBounded(t.suspended, x);
      var all := first + released;
      forall i, j | 0 <= i < j < |all| ensures all[i].Ref() != all[j].Ref() {
        if i < |first| {
          assert released[j - |first|] in released;
        }
      }
    }

    // ----- receiving blocks

    /** Records the needed ancestors of a new block that are not stored. */
    method NoteMissing(block: Block) returns (missing: set<BlockRef>, toFetch: set<BlockRef>)
      modifies this`missingAncestors, this`missingBlocks
      ensures missing == Needs(Gc(gcEnabled, gcRound), block) - dag.Keys && toFetch == missing - suspended.Keys
      ensures forall a :: a in missing <==>
        a in block.ancestors && a !in dag && (gcEnabled ==> a.round == GENESIS_ROUND || a.round > gcRound)
      ensures missingAncestors == AddWaiting(old(missingAncestors), missing, block.Ref())
      ensures missingBlocks == AddHolders(old(missingBlocks), toFetch, block.author)
    {
      hide AddWaiting, AddHolders, NeedsAmong;
      ghost var gc, waiting0, holders0 := Gc(gcEnabled, gcRound), missingAncestors, missingBlocks;
      var x := block.Ref();
      missing, toFetch := {}, {};
      NothingAdded(missingAncestors, missingBlocks, x);
      NeedsAmongAll(gc, block);
      for i := 0 to |block.ancestors|
        invariant missing == NeedsAmong(gc, block, i) - dag.Keys && toFetch == missing - suspended.Keys
        invariant missingAncestors == AddWaiting(waiting0, missing, x)
        invariant missingBlocks == AddHolders(holders0, toFetch, x.author)
      {
        var ancestor := block.ancestors[i];
        NeedsAmongStep(gc, block, i);
        if (gcEnabled ==> ancestor.round == GENESIS_ROUND || ancestor.round > gcRound) && ancestor !in dag {
          NoteOne(ancestor, x, waiting0, missing, holders0, toFetch);
          missing := missing + {ancestor};
          if ancestor !in suspended {
            toFetch := toFetch + {ancestor};
          }
        }
      }
    }

    /** Records one missing ancestor of `x`. */
    method NoteOne(ancestor: BlockRef, x: BlockRef, ghost w: Waiting, ghost missing: set<BlockRef>,
                   ghost h: Holders, ghost toFetch: set<BlockRef>)
      requires missingAncestors == AddWaiting(w, missing, x) && missingBlocks == AddHolders(h, toFetch, x.author)
      modifies this`missingAncestors, this`missingBlocks
      ensures missingAncestors == AddWaiting(w, missing + {ancestor}, x)
      ensures missingBlocks == AddHolders(h, if ancestor in suspended then toFetch else toFetch + {ancestor}, x.author)
    {
      hide AddWaiting, AddHolders;
      OneMoreWaiting(w, missing, ancestor, x);
      OneMoreHeld(h, toFetch, ancestor, x.author);
      var children := if ancestor in missingAncestors then missingAncestors[ancestor] else {};
      missingAncestors := missingAncestors[ancestor := children + {x}];
      if ancestor !in suspended {
        var holders := if ancestor in missingBlocks then missingBlocks[ancestor] else {ancestor.author};
        missingBlocks := missingBlocks[ancestor := holders + {x.author}];
      }
    }

    method TryAcceptOneBlock(block: Block) returns (result: TryAcceptResult)
      requires Valid() && world.Has(block) && block.round > GENESIS_ROUND
      modifies this`suspended, this`missingAncestors, this`missingBlocks
      ensures var t, x := old(Snap()), block.Ref();
        if x in dag || x in old(suspended) then result == Processed && Snap() == t
        else if gcEnabled && block.round <= gcRound then result == Skipped && Snap() == t
        else if !(Needs(t.gc, block) <= t.dag.Keys) then
          result == SuspendedOn(Needs(t.gc, block) - t.dag.Keys - t.suspended.Keys) && Snap() == Suspend(t, block)
        else result == Accepted && Snap() == Receive(t, x)
    {
      hide Steady, AddWaiting, AddHolders, Needs;
      var x := block.Ref();
      if x in suspended || x in dag {
        return Processed;
      }
      if gcEnabled && block.round <= gcRound {
        return Skipped;
      }
      var missing, toFetch := NoteMissing(block);
      missingBlocks := missingBlocks - {x};
      if missing != {} {
        suspended := suspended[x := SuspendedBlock(block, missing)];
        return SuspendedOn(toFetch);
      }
      assert toFetch == {};
      NothingAdded(old(missingAncestors), old(missingBlocks), x);
      return Accepted;
    }

    /** One received block: it is ignored, suspended, or accepted together with what it releases. */
    method AcceptStep(block: Block) returns (o: Outcome, ghost listed: seq<Block>)
      requires Valid() && world.Has(block) && block.round > GENESIS_ROUND
      modifies this`suspended, this`missingAncestors, this`missingBlocks, this`dag
      ensures o.Done? ==>
        OrdinaryStep(world, medianTimestamps, old(Snap()), block, listed, o.accepted, o.missing, Snap())
      ensures o.Panic? ==> StepPanics(medianTimestamps, old(Snap()), block, listed)
      ensures Grounded(old(Snap())) ==> o.Done?
    {
      hide Inv, Starts, Grounded, WellTimed, Needs, VerifyBlocks, ReleaseStep, Suspend, IsListed;
      ghost var t := Snap();
      listed := [];
      var result := TryAcceptOneBlock(block);
      match result {
        case Processed | Skipped =>
          return Done([], {}), listed;
        case SuspendedOn(toFetch) =>
          return Done([], toFetch), listed;
        case Accepted =>
      }
      ReadyStarts(world, medianTimestamps, t, block);
      var accepted;
      accepted, listed := ReleaseAndAccept(block.Ref(), [block]);
      if accepted.None? {
        if Grounded(t) {
          ReadyNeverPanics(world, t, block, listed);
        }
        return Panic, listed;
      }
      return Done(accepted.value, {}), listed;
    }

    /** A ready block in a grounded state does not make the timestamp check panic. */
    static lemma ReadyNeverPanics(w: World, t: Snapshot, block: Block, listed: seq<Block>)
      requires Inv(w, t) && Grounded(t) && w.Has(block) && block.Ref() !in Known(t) && Needs(t.gc, block) <= t.dag.Keys
      requires IsListed(Receive(t, block.Ref()), block.Ref(), [block], listed)
      ensures VerifyBlocks(t.gc, t.dag, listed).Sorted?
    {
      hide Inv, Grounded, WellTimed, Needs, IsListed, VerifyBlocks, Known, Starts;
      ReadyStarts(w, true, t, block);
      GroundedNeverPanics(w, Receive(t, block.Ref()), block.Ref(), [block], listed);
    }

    /**
     * Receives a batch of blocks, the lowest rounds first, one step per block. What is accepted is listed
     * after its ancestors and is exactly what the DAG gained; it is in ascending rounds if no block was
     * suspended above the batch. Every block reported missing is still one to fetch when the call ends.
     * When nothing can be rejected the call does not panic, everything received is kept, and reported
     * missing is exactly what new blocks of the batch need and nobody knows when the call ends.
     */
    method TryAcceptBlocks(blocks: seq<Block>, ghost roots: set<BlockRef>) returns (o: Outcome, ghost trail: seq<Visit>)
      requires Valid() && forall b :: b in blocks ==> world.Has(b) && b.round > GENESIS_ROUND
      modifies this
      ensures Calm(world, medianTimestamps) ==> o.Done? && Grounded(Snap())
      ensures o.Done? ==> Valid() && Progress(old(Snap()), o.accepted, Snap()) && o.missing <= missingBlocks.Keys
      ensures o.Panic? ==> BatchPanics(world, medianTimestamps, old(Snap()), blocks)
      ensures o.Done? ==> forall a :: a in o.missing <==> Reported(trail, a)
      ensures Calm(world, medianTimestamps) ==>
        forall a :: a in o.missing <==> NeededByNew(old(Snap()), blocks, a) && a !in Known(Snap())
      ensures o.Done? ==>
        && IsTrail(world, medianTimestamps, old(Snap()), trail) && Snap() == StateBefore(old(Snap()), trail, |trail|)
        && multiset(BlocksOf(trail)) == multiset(blocks) && SortedByRound(BlocksOf(trail))
        && o.accepted == Flatten(AcceptedBy(trail))
      ensures o.Done? && NoneAboveAny(old(suspended), blocks) ==> SortedByRound(o.accepted)
      ensures Calm(world, medianTimestamps) ==> Known(Snap()) == Known(old(Snap())) + Fresh(Snap().gc, blocks)
      ensures o.Done? && Complete(old(Snap()), roots) ==> Complete(Snap(), roots)
      ensures o.Done? && !gcEnabled && !medianTimestamps && TimesOk(old(Snap())) && Complete(old(Snap()), {}) ==>
        TimesOk(Snap())
    {
      hide Inv, Grounded, WellTimed, Progress, Known, Complete, TimesOk, Fresh, OrdinaryStep, IsTrail, BlocksOf, AcceptedBy,
        Flatten, NoneAboveAny, Reported, NeededByNew, StepPanics, BatchPanics;
      var sorted := SortByRound(blocks);
      ghost var t0 := Snap();
      var accepted: seq<Block>, missing: set<BlockRef> := [], {};
      trail := [];
      NoProgress(t0);
      NothingFresh(t0.gc);
      EmptyTrail(world, medianTimestamps, t0);
      assert sorted[..0] == [];
      for i := 0 to |sorted|
        invariant Valid() && Progress(t0, accepted, Snap()) && Snap().gc == t0.gc
        invariant IsTrail(world, medianTimestamps, t0, trail) && Snap() == StateBefore(t0, trail, |trail|)
        invariant BlocksOf(trail) == sorted[..i] && accepted == Flatten(AcceptedBy(trail))
        invariant Calm(world, medianTimestamps) ==> Known(Snap()) == Known(t0) + Fresh(t0.gc, sorted[..i])
        invariant Complete(t0, roots) ==> Complete(Snap(), roots)
        invariant !gcEnabled && !medianTimestamps && TimesOk(t0) && Complete(t0, {}) ==> TimesOk(Snap()) && Complete(Snap(), {})
        invariant missing <= missingBlocks.Keys && forall a :: a in missing <==> Reported(trail, a)
        invariant forall a, j :: a in missing && i <= j < |sorted| ==> a.round < sorted[j].round
      {
        var b := sorted[i];
        assert b in multiset(sorted);
        assert b in blocks;
        ghost var t := Snap();
        assert sorted[..i + 1] == sorted[..i] + [b];
        FreshAppend(t0.gc, sorted[..i], b);
        var step, listed := AcceptStep(b);
        if step.Panic? {
          BatchPanicsAt(world, medianTimestamps, t0, blocks, sorted, trail, i, listed);
          return Panic, trail;
        }
        StepFacts(world, medianTimestamps, t, b, listed, step.accepted, step.missing, Snap(), roots);
        ProgressConcat(t0, accepted, t, step.accepted, Snap());
        ghost var v := Visit(b, listed, step.accepted, step.missing, Snap());
        TrailExtends(world, medianTimestamps, t0, trail, v);
        ReportsExtend(trail, v);
        trail := trail + [v];
        accepted := accepted + step.accepted;
        missing := missing + step.missing;
      }
      assert sorted[..|sorted|] == sorted;
      SameFresh(t0.gc, sorted, blocks);
      if Calm(world, medianTimestamps) {
        ReportsOfBatch(world, medianTimestamps, t0, blocks, trail, Snap());
      }
      if NoneAboveAny(t0.suspended, blocks) {
        SameNoneAbove(t0.suspended, blocks, sorted);
        AscendingBatch(world, medianTimestamps, t0, trail);
      }
      return Done(accepted, missing), trail;
    }

    static lemma EmptyTrail(w: World, median: bool, t: Snapshot)
      ensures IsTrail(w, median, t, []) && BlocksOf([]) == [] && Flatten(AcceptedBy([])) == []
      ensures forall a :: !Reported([], a)
    {
    }

    static lemma BatchPanicsAt(
      w: World, median: bool, t: Snapshot, blocks: seq<Block>, sorted: seq<Block>, trail: seq<Visit>, i: nat, listed: seq<Block>)
      requires IsTrail(w, median, t, trail) && i < |sorted| && BlocksOf(trail) == sorted[..i] && SortedByRound(sorted)
      requires multiset(sorted) == multiset(blocks) && StepPanics(median, StateBefore(t, trail, |trail|), sorted[i], listed)
      ensures BatchPanics(w, median, t, blocks)
    {
      hide IsTrail, StepPanics;
      assert forall b :: b in sorted <==> b in multiset(sorted);
      assert forall b :: b in blocks <==> b in multiset(blocks);
      forall v | v in trail
        ensures v.block in blocks && v.block.round <= sorted[i].round
      {
        var k :| 0 <= k < |trail| && trail[k] == v;
        assert BlocksOf(trail)[k] == sorted[k];
        assert sorted[k] in sorted;
      }
      assert sorted[i] in sorted;
    }

    static lemma ReportsExtend(trail: seq<Visit>, v: Visit)
      ensures forall a :: Reported(trail + [v], a) <==> Reported(trail, a) || a in v.toFetch
    {
      forall a
        ensures Reported(trail + [v], a) <==> Reported(trail, a) || a in v.toFetch
      {
        if Reported(trail, a) {
          var k :| 0 <= k < |trail| && a in trail[k].toFetch;
          assert (trail + [v])[k] == trail[k];
        }
        assert (trail + [v])[|trail|] == v;
      }
    }

    static lemma ReportsOfBatch(w: World, median: bool, t: Snapshot, blocks: seq<Block>, trail: seq<Visit>, after: Snapshot)
      requires Steady(w, median, t) && Calm(w, median) && IsTrail(w, median, t, trail) && SortedByRound(BlocksOf(trail))
      requires multiset(BlocksOf(trail)) == multiset(blocks) && after == StateBefore(t, trail, |trail|)
      ensures forall a :: Reported(trail, a) <==> NeededByNew(t, blocks, a) && a !in Known(after)
    {
      hide Steady, Calm, IsTrail, Known, Needs, SortedByRound, Reported, TooOld, BlocksOf;
      assert forall b :: b in blocks <==> b in multiset(blocks);
      assert forall b :: b in BlocksOf(trail) <==> b in multiset(BlocksOf(trail));
      forall a
        ensures Reported(trail, a) <==> NeededByNew(t, blocks, a) && a !in Known(after)
      {
        BatchReports(w, median, t, trail, Known(after), a);
      }
    }

    static lemma SameNoneAbove(s: Suspended, blocks: seq<Block>, sorted: seq<Block>)
      requires NoneAboveAny(s, blocks) && multiset(blocks) == multiset(sorted)
      ensures NoneAboveAny(s, sorted)
    {
      forall b | b in sorted
        ensures b in blocks
      {
        assert b in multiset(sorted);
      }
    }

    static lemma NothingFresh(gc: Gc)
      ensures Fresh(gc, []) == {}
    {
    }

    static lemma SameFresh(gc: Gc, a: seq<Block>, b: seq<Block>)
      requires multiset(a) == multiset(b)
      ensures Fresh(gc, a) == Fresh(gc, b)
    {
      assert forall x :: x in a <==> x in multiset(a);
      assert forall x :: x in b <==> x in multiset(b);
    }

    /** Everything a batch needs to know about one step. */
    static lemma StepFacts(
      w: World, median: bool, t: Snapshot, block: Block,
      listed: seq<Block>, accepted: seq<Block>, toFetch: set<BlockRef>, t': Snapshot, roots: set<BlockRef>)
      requires Steady(w, median, t) && w.Has(block) && block.round > GENESIS_ROUND
      requires OrdinaryStep(w, median, t, block, listed, accepted, toFetch, t')
      ensures Steady(w, median, t') && Progress(t, accepted, t') && t'.gc == t.gc
      ensures Calm(w, median) ==> Known(t') == Known(t) + (if TooOld(t.gc, block) then {} else {block.Ref()})
      ensures t.holders.Keys - {block.Ref()} <= t'.holders.Keys && toFetch <= t'.holders.Keys
      ensures forall a :: a in toFetch ==> a.round < block.round
      ensures Complete(t, roots) ==> Complete(t', roots)
      ensures !t.gc.enabled && !median && TimesOk(t) && Complete(t, {}) ==> TimesOk(t') && Complete(t', {})
    {
      hide Inv, Grounded, WellTimed, Known, Complete, TimesOk, OrdinaryStep;
      OrdinaryStepSteady(w, median, t, block, listed, accepted, toFetch, t');
      OrdinaryStepProgress(w, median, t, block, listed, accepted, toFetch, t');
      OrdinaryStepHolders(w, median, t, block, listed, accepted, toFetch, t');
      if Complete(t, roots) {
        OrdinaryStepComplete(w, median, t, block, listed, accepted, toFetch, t', roots);
      }
      if !t.gc.enabled && !median && TimesOk(t) && Complete(t, {}) {
        OrdinaryStepTimes(w, t, block, listed, accepted, toFetch, t');
        OrdinaryStepComplete(w, median, t, block, listed, accepted, toFetch, t', {});
      }
    }

    // ----- committed blocks

    /** Takes `r` off the lists under the ancestors it was missing. */
    method UnlistBlock(r: BlockRef, missing: set<BlockRef>)
      modifies this`missingAncestors
      ensures missingAncestors == Unlist(old(missingAncestors), missing, r)
    {
      var rest := missing;
      while rest != {}
        invariant rest <= missing && missingAncestors == Unlist(old(missingAncestors), missing - rest, r)
        decreases rest
      {
        var a :| a in rest;
        if a in missingAncestors {
          missingAncestors := missingAncestors[a := missingAncestors[a] - {r}];
        }
        rest := rest - {a};
      }
      assert missing - rest == missing;
    }

    /** Stores a committed block at once, then releases and accepts its children. */
    method AcceptCommittedStep(block: Block) returns (o: Option<seq<Block>>, ghost listed: seq<Block>)
      requires Valid() && world.Has(block) && block.round > GENESIS_ROUND
      modifies this`suspended, this`missingAncestors, this`missingBlocks, this`dag
      ensures Calm(world, medianTimestamps) || Grounded(old(Snap())) ==> o.Some?
      ensures o.None? ==>
        && !medianTimestamps && block.Ref() !in old(dag)
        && ReleasePanics(CommitIn(old(Snap()), block), block.Ref(), [], listed)
      ensures o.Some? ==> CommittedStep(world, medianTimestamps, old(Snap()), block, listed, o.value, Snap())
    {
      hide Inv, Grounded, WellTimed, Starts, Unlist, ReleaseStep, IsListed, VerifyBlocks;
      ghost var t := Snap();
      var x := block.Ref();
      listed := [];
      if x in dag {
        return Some([]), listed;
      }
      missingBlocks := missingBlocks - {x};
      if x in suspended {
        var missing := suspended[x].missing;
        suspended := suspended - {x};
        UnlistBlock(x, missing);
      } else {
        assert suspended - {x} == suspended;
      }
      dag := dag[x := block];
      assert Snap() == CommitIn(t, block);
      CommitStarts(world, medianTimestamps, t, block);
      var accepted;
      accepted, listed := ReleaseAndAccept(x, []);
      if accepted.None? {
        if Grounded(t) {
          CommitStarts(world, true, t, block);
          GroundedNeverPanics(world, CommitIn(t, block), x, [], listed);
        }
        return None, listed;
      }
      assert ([block] + accepted.value)[1..] == accepted.value;
      return Some([block] + accepted.value), listed;
    }

    /**
     * Committed blocks never wait: they enter even without their history, and the index stays consistent. A
     * suspended block leaves exactly when it is committed or everything it misses is committed or leaves too;
     * it is stored unless an ancestor is later than it or leaves too. Everything else stays.
     */
    method TryAcceptCommittedBlocks(blocks: seq<Block>, ghost roots: set<BlockRef>) returns (o: Option<seq<Block>>)
      requires Valid() && forall b :: b in blocks ==> world.Has(b) && b.round > GENESIS_ROUND
      modifies this
      ensures Calm(world, medianTimestamps) || !gcEnabled ==> o.Some?
      ensures o.None? ==> !medianTimestamps && CommitPanics(old(Snap()), blocks)
      ensures !gcEnabled ==> o == Some([]) && Snap() == old(Snap())
      ensures o.Some? ==> Valid() && Snap().gc == old(Snap()).gc && dag.Keys == old(dag).Keys + Refs(o.value)
      ensures o.Some? ==> DistinctRefs(o.value) && Refs(o.value) !! old(dag).Keys
      ensures o.Some? && gcEnabled ==> Refs(blocks) <= dag.Keys
      ensures o.Some? && Complete(old(Snap()), roots) ==> Complete(Snap(), roots + Refs(blocks))
      ensures o.Some? && gcEnabled ==>
        var gone := iset a: BlockRef | a in Refs(blocks);
        var freed := Freed(old(suspended), gone);
        && Left(old(Snap()), Snap(), gone) && dag.Keys <= old(dag).Keys + Refs(blocks) + freed
        && (forall c :: c in freed - dag.Keys ==> Excused(world, dag, freed, c))
        && (Calm(world, medianTimestamps) ==> dag.Keys == old(dag).Keys + Refs(blocks) + freed)
    {
      hide Inv, Grounded, WellTimed, Complete, CommittedStep, Refs, Served, DroppedFor, EnteredSoFar, Left, Freed, Excused,
        ReleasePanics, CommitIn, CommitPanics;
      if !gcEnabled {
        RefsNone();
        MoreRoots(Snap(), roots, roots + Refs(blocks));
        return Some([]);
      }
      ghost var t0 := Snap();
      var sorted := SortByRound(blocks);
      var accepted: seq<Block> := [];
      RefsNone();
      assert sorted[..0] == [] && roots + {} == roots;
      ghost var freed: set<BlockRef>, dropped: set<BlockRef> := {}, {};
      ServedStart(world, t0);
      NothingDropped(world, medianTimestamps, t0);
      NothingEntered(t0);
      for i := 0 to |sorted|
        invariant Valid() && Snap().gc == t0.gc && dag.Keys == t0.dag.Keys + Refs(accepted)
        invariant Refs(sorted[..i]) <= dag.Keys && DistinctRefs(accepted) && Refs(accepted) !! t0.dag.Keys
        invariant Complete(t0, roots) ==> Complete(Snap(), roots + Refs(sorted[..i]))
        invariant Served(t0, Snap(), Refs(sorted[..i]), freed) && EnteredSoFar(t0, Snap(), Refs(sorted[..i]), freed, dropped)
        invariant DroppedFor(world, medianTimestamps, dag, dropped)
      {
        var b := sorted[i];
        assert b in multiset(sorted);
        assert b in blocks;
        ghost var t := Snap();
        var step, listed := AcceptCommittedStep(b);
        if step.None? {
          assert Refs(sorted[..i]) <= Refs(blocks) by { FrontRefs(sorted, blocks, i); }
          CommitPanicsAt(t0, blocks, t, Refs(sorted[..i]), freed, b, listed);
          return None;
        }
        RefsAppend(sorted[..i], b);
        assert sorted[..i + 1] == sorted[..i] + [b];
        CommittedFacts(world, medianTimestamps, t, b, listed, step.value, Snap(), roots + Refs(sorted[..i]));
        freed, dropped := CommittedStepServed(
          world, medianTimestamps, t0, t, Refs(sorted[..i]), freed, dropped, b, listed, step.value, Snap());
        assert roots + Refs(sorted[..i]) + {b.Ref()} == roots + Refs(sorted[..i + 1]);
        RefsConcat(accepted, step.value);
        DistinctConcat(accepted, step.value);
        accepted := accepted + step.value;
      }
      assert sorted[..|sorted|] == sorted;
      SameRefs(sorted, blocks);
      CommittedExactly(world, medianTimestamps, t0, Snap(), Refs(blocks), freed, dropped);
      return Some(accepted);
    }

    static lemma SameRefs(a: seq<Block>, b: seq<Block>)
      requires multiset(a) == multiset(b)
      ensures Refs(a) == Refs(b)
    {
      assert forall x :: x in a <==> x in multiset(a);
      assert forall x :: x in b <==> x in multiset(b);
    }

    static lemma FrontRefs(sorted: seq<Block>, blocks: seq<Block>, i: nat)
      requires multiset(sorted) == multiset(blocks) && i <= |sorted|
      ensures Refs(sorted[..i]) <= Refs(blocks)
    {
      SameRefs(sorted, blocks);
      assert forall b :: b in sorted[..i] ==> b in sorted;
    }

    static lemma CommittedFacts(
      w: World, median: bool, t: Snapshot, block: Block, listed: seq<Block>, accepted: seq<Block>, t': Snapshot, roots: set<BlockRef>)
      requires Steady(w, median, t) && w.Has(block) && CommittedStep(w, median, t, block, listed, accepted, t')
      ensures Steady(w, median, t') && t'.gc == t.gc && t'.dag.Keys == t.dag.Keys + Refs(accepted)
      ensures block.Ref() in t'.dag && DistinctRefs(accepted) && Refs(accepted) !! t.dag.Keys
      ensures Complete(t, roots) ==> Complete(t', roots + {block.Ref()})
    {
      hide Inv, Grounded, WellTimed, Complete, ReleaseStep;
      CommittedStepSteady(w, median, t, block, listed, accepted, t');
      EverythingRoot(t);
      CommittedStepDistinct(w, median, t, block, listed, accepted, t');
      CommittedStepComplete(w, median, t, block, listed, accepted, t', t.dag.Keys);
      if Complete(t, roots) {
        CommittedStepComplete(w, median, t, block, listed, accepted, t', roots);
      }
      assert block.Ref() !in t.dag ==> accepted[0] in accepted;
    }

    static lemma EverythingRoot(t: Snapshot)
      ensures Complete(t, t.dag.Keys)
    {
    }

    // ----- asking for blocks

    /** Returns the references that have to be fetched; a reference asked for again is reset to its author. */
    method TryFindBlocks(refs: seq<BlockRef>) returns (missing: set<BlockRef>)
      requires Valid()
      modifies this`missingAncestors, this`missingBlocks
      ensures Valid() && missing == Unknown(old(Snap()), refs)
      ensures Snap() == AskFor(old(Snap()), missing)
      ensures forall r :: r in missing <==> r in refs && r.round > gcRound && r !in dag && r !in suspended
      ensures missingBlocks.Keys == old(missingBlocks).Keys + missing && missingAncestors.Keys == old(missingAncestors).Keys + missing
      ensures forall a :: a in missingBlocks ==> missingBlocks[a] == if a in missing then {a.author} else old(missingBlocks)[a]
      ensures forall a :: a in missingAncestors ==>
        missingAncestors[a] == if a in old(missingAncestors) then old(missingAncestors)[a] else {}
    {
      hide Inv, Grounded, WellTimed, AskFor, Unknown;
      ghost var t := Snap();
      missing := {};
      AskNothing(t);
      assert refs[..0] == [];
      for i := 0 to |refs|
        invariant missing == Unknown(t, refs[..i])
        invariant Snap() == AskFor(t, missing) && dag == t.dag && suspended == t.suspended
      {
        var r := refs[i];
        assert refs[..i + 1] == refs[..i] + [r];
        UnknownAppend(t, refs[..i], r);
        if r.round > gcRound && r !in dag && r !in suspended {
          AskOne(world, t, missing, r);
          missing := missing + {r};
          if r !in missingBlocks {
            missingAncestors := if r in missingAncestors then missingAncestors else missingAncestors[r := {}];
          }
          missingBlocks := missingBlocks[r := {r.author}];
        }
      }
      assert refs[..|refs|] == refs;
      UnknownFacts(t, refs);
      AskForFacts(t, missing);
      AskForSteady(world, medianTimestamps, t, missing);
    }

    static lemma UnknownFacts(t: Snapshot, refs: seq<BlockRef>)
      ensures Unknown(t, refs) !! Known(t) && forall r :: r in Unknown(t, refs) ==> r.round > t.gc.round
      ensures forall r :: r in Unknown(t, refs) <==> r in refs && r.round > t.gc.round && r !in t.dag && r !in t.suspended
    {
    }

    static lemma AskForFacts(t: Snapshot, unknown: set<BlockRef>)
      ensures var t' := AskFor(t, unknown);
        && t'.dag == t.dag && t'.suspended == t.suspended && t'.gc == t.gc
        && t'.holders.Keys == t.holders.Keys + unknown && t'.waiting.Keys == t.waiting.Keys + unknown
        && (forall a :: a in t'.holders ==> t'.holders[a] == if a in unknown then {a.author} else t.holders[a])
        && (forall a :: a in t'.waiting ==> t'.waiting[a] == if a in t.waiting then t.waiting[a] else {})
    {
    }

    // ----- garbage collection

    /** The DAG moves its garbage collection round up. */
    method AdvanceGcRound(round: nat, ghost roots: set<BlockRef>)
      requires Valid() && gcEnabled && round >= gcRound
      modifies this`gcRound
      ensures Valid() && Snap() == old(Snap()).(gc := Gc(true, round))
      ensures Complete(old(Snap()), roots) ==> Complete(Snap(), roots)
    {
      GcAdvances(world, medianTimestamps, Snap(), round, roots);
      gcRound := round;
    }

    /**
     * Gives up awaited blocks at or below the garbage collection round, least first, and accepts what
     * that releases. Afterwards nothing awaited, to be fetched or suspended is at or below the round. A
     * suspended block leaves exactly when everything it misses is at or below the round or leaves too; it is
     * stored unless an ancestor is later than it or was not stored for such a reason. Everything else stays.
     */
    method SweepForGcRound(ghost roots: set<BlockRef>) returns (ok: bool)
      requires Valid()
      modifies this`suspended, this`missingAncestors, this`missingBlocks, this`dag
      ensures Calm(world, medianTimestamps) || !gcEnabled ==> ok
      ensures !ok ==> !medianTimestamps && SweepPanics(old(Snap()))
      ensures !gcEnabled ==> Snap() == old(Snap())
      ensures ok ==> Valid()
      ensures ok && gcEnabled ==>
        && (forall a :: a in missingAncestors ==> a.round > gcRound)
        && (forall a :: a in missingBlocks ==> a.round > gcRound)
        && (forall c :: c in suspended ==> c.round > gcRound)
        && Swept(Snap())
      ensures ok && Complete(old(Snap()), roots) ==> Complete(Snap(), roots)
      ensures ok && gcEnabled ==>
        var gone := iset a: BlockRef | a.round <= gcRound;
        var freed := Freed(old(suspended), gone);
        && Left(old(Snap()), Snap(), gone) && old(dag).Keys <= dag.Keys <= old(dag).Keys + freed
        && (forall c :: c in freed - dag.Keys ==> Excused(world, dag, freed - dag.Keys, c))
        && (Calm(world, medianTimestamps) ==> dag.Keys == old(dag).Keys + freed && Known(Snap()) == Known(old(Snap())))
    {
      hide Grounded, WellTimed, Complete, World.Ok, SuspensionOk, DagOk, HoldersOk, Starts, ReleaseStep, IsListed, VerifyBlocks,
        Served, DroppedFor, Known, Left, SweepPanics;
      if !gcEnabled {
        return true;
      }
      ghost var t0 := Snap();
      ghost var given: set<BlockRef>, freed: set<BlockRef>, dropped: set<BlockRef> := {}, {}, {};
      ServedStart(world, t0);
      NothingDropped(world, medianTimestamps, t0);
      while missingAncestors.Keys != {}
        invariant Valid() && gcEnabled
        invariant Complete(t0, roots) ==> Complete(Snap(), roots)
        invariant Served(t0, Snap(), given, freed) && GivenUp(t0, given)
        invariant StoredSoFar(t0, Snap(), freed, dropped) && DroppedFor(world, medianTimestamps, dag, dropped)
        decreases missingAncestors.Keys
      {
        ghost var g := LeastExists(missingAncestors.Keys);
        var k :| k in missingAncestors.Keys && forall r :: r in missingAncestors.Keys ==> !r.Less(k);
        if k.round > gcRound {
          forall r | r in missingAncestors ensures r.round > gcRound {
            assert !r.Less(k);
          }
          break;
        }
        ghost var t := Snap();
        LeastNotSuspended(world, t, k);
        assert k !in suspended; // a block that is given up is never a suspended one
        missingBlocks := missingBlocks - {k};
        CollectStarts(world, medianTimestamps, t, k);
        var accepted, listed := ReleaseAndAccept(k, []);
        if accepted.None? {
          if Grounded(t) {
            CollectStarts(world, true, t, k);
            GroundedNeverPanics(world, Receive(t, k), k, [], listed);
          }
          SweepPanicsAt(t0, t, given, freed, k, listed);
          return false;
        }
        CollectStepSteady(world, medianTimestamps, t, k, listed, accepted.value, Snap());
        if Complete(t, roots) {
          CollectStepComplete(world, medianTimestamps, t, k, listed, accepted.value, Snap(), roots);
        }
        given, freed, dropped := CollectStepServed(
          world, medianTimestamps, t0, t, given, freed, dropped, k, listed, accepted.value, Snap());
      }
      AboveGc(world, Snap());
      SweptExactly(world, medianTimestamps, t0, Snap(), given, freed, dropped);
      return true;
    }
  }
}
