/** What several blocks together release, when they arrive or are given up one after the other. */
module JointRelease {
  import opened Blocks
  import opened SuspensionIndex
  import opened TimestampPass
  import opened ManagerState
  import opened ManagerSteps

  /** `c` can be released once all of `gone` are there: everything it misses is in `gone` or can itself be released. */
  ghost predicate FreedBy(s: Suspended, gone: iset<BlockRef>, c: BlockRef)
    decreases c.round
  {
    c in s && forall a :: a in s[c].missing ==> a in gone || (a.round < c.round && FreedBy(s, gone, a))
  }

  ghost function Freed(s: Suspended, gone: iset<BlockRef>): set<BlockRef> { set c | c in s && FreedBy(s, gone, c) }

  // ----- the suspended blocks

  /** `s` is what is left of `s0` after `given` have been served and `freed` released. */
  ghost predicate Cut(s0: Suspended, s: Suspended, given: set<BlockRef>, freed: set<BlockRef>) {
    && freed <= s0.Keys && s.Keys == s0.Keys - given - freed
    && (forall c :: c in s ==> s[c] == SuspendedBlock(s0[c].block, s0[c].missing - given - freed))
    && (forall c :: c in s0 && c !in given ==> (c in freed <==> s0[c].missing <= given + freed))
    && (forall c :: c in freed ==> s0[c].missing <= given + freed)
  }

  lemma CutStart(s: Suspended)
    requires WellSuspended(s)
    ensures Cut(s, s, {}, {})
  {
    assert forall c :: c in s ==> s[c].missing - {} - {} == s[c].missing;
  }

  /** One more block `x`, which is no longer suspended itself, releases what misses only it and other released blocks. */
  lemma CutStep(
    s0: Suspended, s: Suspended, given: set<BlockRef>, freed: set<BlockRef>, x: BlockRef, s1: Suspended, released: set<BlockRef>)
    requires Cut(s0, s, given, freed) && s1 == s - {x} && released <= s1.Keys
    requires forall b :: b in s1 ==> (b in released <==> s1[b].missing <= {x} + released)
    ensures Cut(s0, StillSuspended(s1, x, released), given + {x}, freed + released)
  {
    var s' := StillSuspended(s1, x, released);
    forall c | c in s'
      ensures s'[c].missing == s0[c].missing - (given + {x}) - (freed + released)
    {
      assert s1[c].missing == s0[c].missing - given - freed;
    }
    forall c | c in s0 && c !in given + {x}
      ensures c in freed + released <==> s0[c].missing <= (given + {x}) + (freed + released)
    {
      if c !in freed {
        assert c in s1 && s1[c].missing == s0[c].missing - given - freed;
      }
    }
    forall c | c in released
      ensures s0[c].missing <= (given + {x}) + (freed + released)
    {
      assert s1[c].missing == s0[c].missing - given - freed;
    }
  }

  /** A block that nobody waits for changes nothing. */
  lemma CutUnawaited(s0: Suspended, s: Suspended, given: set<BlockRef>, freed: set<BlockRef>, x: BlockRef)
    requires Cut(s0, s, given, freed) && WellSuspended(s) && x !in s && forall c :: c in s ==> x !in s[c].missing
    ensures Cut(s0, s, given + {x}, freed)
  {
    forall c | c in s
      ensures s[c].missing == s0[c].missing - (given + {x}) - freed && !(s0[c].missing <= given + {x} + freed)
    {
      assert s[c].missing == s0[c].missing - given - freed;
      var a :| a in s[c].missing;
      assert a in s0[c].missing && a !in given + {x} + freed;
    }
  }

  /** When all of `gone` that anybody missed have been served, exactly the blocks freed by `gone` are released. */
  lemma {:induction false} CutUnique(
    s0: Suspended, s: Suspended, given: set<BlockRef>, freed: set<BlockRef>, gone: iset<BlockRef>, c: BlockRef)
    requires WellSuspended(s0) && Cut(s0, s, given, freed) && c !in given && forall a :: a in given ==> a in gone
    requires forall b, a :: b in s0 && a in s0[b].missing && a in gone ==> a in given + freed
    ensures c in freed <==> FreedBy(s0, gone, c)
    decreases c.round
  {
    if c in s0 {
      forall a | a in s0[c].missing && a !in given
        ensures a in freed <==> FreedBy(s0, gone, a)
      {
        CutUnique(s0, s, given, freed, gone, a);
      }
    }
  }

  // ----- the whole state

  ghost predicate Served(t0: Snapshot, t: Snapshot, given: set<BlockRef>, freed: set<BlockRef>) {
    && t.gc == t0.gc && Cut(t0.suspended, t.suspended, given, freed)
    && t.waiting.Keys == t0.waiting.Keys - given - freed && t.holders == t0.holders - given
  }

  lemma ServedStart(w: World, t: Snapshot)
    requires Inv(w, t)
    ensures Served(t, t, {}, {})
  {
    hide Cut, WellSuspended, Linked, World.Ok, DagOk;
    CutStart(t.suspended);
    assert t.holders - {} == t.holders;
  }

  lemma ServedStep(
    w: World, median: bool, t0: Snapshot, t: Snapshot, given: set<BlockRef>, freed: set<BlockRef>, x: BlockRef,
    t1: Snapshot, listed: seq<Block>, accepted: seq<Block>, t': Snapshot)
    requires Served(t0, t, given, freed)
    requires t1.gc == t.gc && t1.suspended == t.suspended - {x} && t1.waiting.Keys == t.waiting.Keys && t1.holders == t.holders - {x}
    requires Starts(w, median, t1, x, []) && ReleaseStep(w, median, t1, x, [], listed, accepted, t')
    ensures Served(t0, t', given + {x}, freed + Released(t1.suspended, x))
  {
    hide Starts, Cut, IsListed, IsAccepted, Released, Genuine, StillSuspended;
    var released := Released(t1.suspended, x);
    assert WellSuspended(t1.suspended) by { StartsWell(w, median, t1, x); }
    ReleasedIsRelease(t1.suspended, x);
    ReleasedBounded(t1.suspended, x);
    CutStep(t0.suspended, t.suspended, given, freed, x, t1.suspended, released);
    assert t0.holders - given - {x} == t0.holders - (given + {x});
  }

  lemma StartsWell(w: World, median: bool, t: Snapshot, x: BlockRef)
    requires Starts(w, median, t, x, [])
    ensures WellSuspended(t.suspended)
  {
    hide WellSuspended, Linked, World.Ok, DagOk;
  }

  lemma ServedUnawaited(w: World, t0: Snapshot, t: Snapshot, given: set<BlockRef>, freed: set<BlockRef>, x: BlockRef)
    requires Served(t0, t, given, freed) && Inv(w, t) && x in t.dag
    ensures Served(t0, t, given + {x}, freed)
  {
    hide Cut, World.Ok, WellSuspended;
    forall c | c in t.suspended
      ensures x !in t.suspended[c].missing
    {
      if x in t.suspended[c].missing {
        MissedAwaited(w, t, c, x);
        assert false;
      }
    }
    CutUnawaited(t0.suspended, t.suspended, given, freed, x);
    assert x !in t.holders;
    assert t0.holders - (given + {x}) == t0.holders - given;
  }

  /**
   * What is left when all of `gone` have been served. A suspended block is left unless it is in `gone` or freed,
   * and misses what it missed without those; the same holds for awaited blocks. Blocks to fetch are left, with
   * their holders, unless they are in `gone`.
   */
  ghost predicate Left(t0: Snapshot, t: Snapshot, gone: iset<BlockRef>) {
    && (forall c :: c in t.suspended <==> c in t0.suspended && c !in gone && !FreedBy(t0.suspended, gone, c))
    && (forall c :: c in t.suspended ==> t.suspended[c].block == t0.suspended[c].block)
    && (forall c, a :: c in t.suspended ==>
          (a in t.suspended[c].missing <==>
             a in t0.suspended[c].missing && a !in gone && !FreedBy(t0.suspended, gone, a)))
    && (forall a :: a in t.waiting <==> a in t0.waiting && a !in gone && !FreedBy(t0.suspended, gone, a))
    && (forall a :: a in t.holders <==> a in t0.holders && a !in gone)
    && (forall a :: a in t.holders ==> t.holders[a] == t0.holders[a])
  }

  /** Of `gone`, everything awaited or suspended has been served or released. */
  ghost predicate GoneServed(t0: Snapshot, given: set<BlockRef>, freed: set<BlockRef>, gone: iset<BlockRef>) {
    && (forall a :: a in given ==> a in gone)
    && (forall a :: a in gone && (a in t0.waiting || a in t0.suspended) ==> a in given + freed)
  }

  lemma FreedExactly(
    w: World, t0: Snapshot, t: Snapshot, given: set<BlockRef>, freed: set<BlockRef>, gone: iset<BlockRef>, c: BlockRef)
    requires Inv(w, t0) && Served(t0, t, given, freed) && GoneServed(t0, given, freed, gone)
    ensures c !in given ==> (c in freed <==> FreedBy(t0.suspended, gone, c))
  {
    hide Cut, World.Ok, DagOk, HoldersOk, FreedBy, WellSuspended;
    forall b, a | b in t0.suspended && a in t0.suspended[b].missing && a in gone
      ensures a in given + freed
    {
      assert a in t0.waiting && b in t0.waiting[a];
    }
    if c !in given {
      CutUnique(t0.suspended, t.suspended, given, freed, gone, c);
    }
  }

  lemma ServedLeft(w: World, t0: Snapshot, t: Snapshot, given: set<BlockRef>, freed: set<BlockRef>, gone: iset<BlockRef>)
    requires Inv(w, t0) && Served(t0, t, given, freed) && GoneServed(t0, given, freed, gone)
    ensures Left(t0, t, gone)
  {
    hide Inv, FreedBy;
    forall c
      ensures c !in given ==> (c in freed <==> FreedBy(t0.suspended, gone, c))
    {
      FreedExactly(w, t0, t, given, freed, gone, c);
    }
    assert t0.holders.Keys <= t0.waiting.Keys - t0.suspended.Keys by { FetchedAwaited(w, t0); }
    forall c, a | c in t0.suspended && a in t0.suspended[c].missing
      ensures a in t0.waiting
    {
      MissedAwaited(w, t0, c, a);
    }
  }

  lemma FetchedAwaited(w: World, t: Snapshot)
    requires Inv(w, t)
    ensures t.holders.Keys <= t.waiting.Keys - t.suspended.Keys
  {
  }

  lemma MissedAwaited(w: World, t: Snapshot, c: BlockRef, a: BlockRef)
    requires Inv(w, t) && c in t.suspended && a in t.suspended[c].missing
    ensures a in t.waiting
  {
    hide World.Ok, DagOk, WellSuspended;
    assert c in t.waiting[a];
  }

  // ----- what is stored, and what is dropped

  /** Some ancestor of `c` is stored and later than `c`, or dropped. */
  ghost predicate Excused(w: World, dag: Store, dropped: set<BlockRef>, c: BlockRef) {
    && c in w.universe
    && exists a ::
         && a in w.universe[c].ancestors
         && (a in dropped || (a in dag && dag[a].timestamp > w.universe[c].timestamp))
  }

  /** The blocks that a release does not accept have a reason, and there are none when nothing can be rejected. */
  lemma StepDrops(
    w: World, median: bool, t: Snapshot, x: BlockRef, listed: seq<Block>, accepted: seq<Block>, t': Snapshot, c: BlockRef)
    requires Starts(w, median, t, x, []) && ReleaseStep(w, median, t, x, [], listed, accepted, t')
    requires c in Released(t.suspended, x) - Refs(accepted)
    ensures Excused(w, t'.dag, Released(t.suspended, x) - Refs(accepted), c) && !Calm(w, median)
  {
    hide Starts, Released, VerifyBlocks, Release, Supplied, ReleaseOrder;
    ListedGenuineOf(w, median, t, x, [], listed);
    assert listed[0..] == listed;
    if Calm(w, median) {
      CalmAcceptsAll(w, median, t, x, [], listed, accepted, t');
      assert false;
    }
    var b :| b in listed && b.Ref() == c;
    PassPartitions(t.gc, t.dag, listed);
    PassRejectsWhy(t.gc, t.dag, listed, b);
    var p := VerifyBlocks(t.gc, t.dag, listed);
    StoredAfter(w, median, t, x, listed, accepted, t');
    RejectedExcused(w, t, p, listed, accepted, t', Released(t.suspended, x), b);
  }

  lemma StoredAfter(
    w: World, median: bool, t: Snapshot, x: BlockRef, listed: seq<Block>, accepted: seq<Block>, t': Snapshot)
    requires Starts(w, median, t, x, []) && ReleaseStep(w, median, t, x, [], listed, accepted, t')
    ensures t'.dag == t.dag + Genuine(w, Refs(accepted)) && Refs(accepted) !! t.dag.Keys
    ensures Genuine(w, Refs(accepted)).Keys == Refs(accepted)
  {
    hide Starts, IsListed, IsAccepted, Released, StillSuspended;
    StepAccepts(w, median, t, x, [], listed, accepted, t');
  }

  lemma RejectedExcused(
    w: World, t: Snapshot, p: Pass, listed: seq<Block>, accepted: seq<Block>, t': Snapshot, released: set<BlockRef>, b: Block)
    requires p.Sorted? && Divides(p, listed) && Refs(accepted) == p.accepted.Keys && Refs(listed) == released
    requires AllGenuine(w, listed) && b in listed && RejectedFor(t.gc, t.dag, p, b)
    requires t'.dag == t.dag + Genuine(w, Refs(accepted)) && Refs(accepted) !! t.dag.Keys
    ensures Excused(w, t'.dag, released - Refs(accepted), b.Ref())
  {
    hide Refs;
    assert w.universe[b.Ref()] == b;
    if exists a :: a in b.ancestors && a !in t.dag && a in p.rejected {
      var a :| a in b.ancestors && a !in t.dag && a in p.rejected;
      assert a in released - Refs(accepted);
    } else {
      var a :| a in b.ancestors && TooLate(t.gc, t.dag, p.accepted, a, b);
      if a !in t.dag {
        assert w.Has(p.accepted[a]);
      }
      assert a in t'.dag && t'.dag[a].timestamp > b.timestamp;
    }
  }

  /** Every reason stays one as more blocks are stored or dropped. */
  lemma ExcusedStays(w: World, dag: Store, dropped: set<BlockRef>, dag': Store, dropped': set<BlockRef>, c: BlockRef)
    requires Excused(w, dag, dropped, c) && dropped <= dropped' && forall r :: r in dag ==> r in dag' && dag'[r] == dag[r]
    ensures Excused(w, dag', dropped', c)
  {
    var a :| a in w.universe[c].ancestors && (a in dropped || (a in dag && dag[a].timestamp > w.universe[c].timestamp));
    assert a in dropped' || (a in dag' && dag'[a].timestamp > w.universe[c].timestamp);
  }

  /** Everything dropped so far has a reason; nothing is dropped when nothing can be rejected. */
  ghost predicate DroppedFor(w: World, median: bool, dag: Store, dropped: set<BlockRef>) {
    (forall c :: c in dropped ==> Excused(w, dag, dropped, c)) && (Calm(w, median) ==> dropped == {})
  }

  lemma DroppedStep(
    w: World, median: bool, dag: Store, dropped: set<BlockRef>, t: Snapshot, x: BlockRef,
    listed: seq<Block>, accepted: seq<Block>, t': Snapshot)
    requires DroppedFor(w, median, dag, dropped) && (forall r :: r in dag ==> r in t.dag && t.dag[r] == dag[r])
    requires Starts(w, median, t, x, []) && ReleaseStep(w, median, t, x, [], listed, accepted, t')
    ensures DroppedFor(w, median, t'.dag, dropped + (Released(t.suspended, x) - Refs(accepted)))
  {
    hide Starts, ReleaseStep, Excused, Calm, Released, Refs;
    var more := Released(t.suspended, x) - Refs(accepted);
    StoredAfter(w, median, t, x, listed, accepted, t');
    forall c | c in dropped
      ensures Excused(w, t'.dag, dropped + more, c)
    {
      ExcusedStays(w, dag, dropped, t'.dag, dropped + more, c);
    }
    forall c | c in more
      ensures Excused(w, t'.dag, dropped + more, c)
    {
      StepDrops(w, median, t, x, listed, accepted, t', c);
      ExcusedStays(w, t'.dag, more, t'.dag, dropped + more, c);
    }
    if Calm(w, median) && more != {} {
      var c :| c in more;
      StepDrops(w, median, t, x, listed, accepted, t', c);
    }
  }

  /** Of what was freed, everything but what was dropped is stored, and nothing else is new. */
  ghost predicate StoredSoFar(t0: Snapshot, t: Snapshot, freed: set<BlockRef>, dropped: set<BlockRef>) {
    && t.dag.Keys == t0.dag.Keys + (freed - dropped) && dropped <= freed && freed !! t0.dag.Keys
    && forall r :: r in t0.dag ==> t.dag[r] == t0.dag[r]
  }

  lemma NothingDropped(w: World, median: bool, t: Snapshot)
    ensures DroppedFor(w, median, t.dag, {}) && StoredSoFar(t, t, {}, {})
  {
  }

  // ----- giving up blocks at or below the garbage collection round

  /** Given up so far: awaited blocks at or below the round, none of them received. */
  ghost predicate GivenUp(t0: Snapshot, given: set<BlockRef>) {
    given <= t0.waiting.Keys && given !! t0.suspended.Keys && forall a :: a in given ==> a.round <= t0.gc.round
  }

  lemma CollectStepServed(
    w: World, median: bool, t0: Snapshot, t: Snapshot, given: set<BlockRef>, freed: set<BlockRef>, dropped: set<BlockRef>,
    k: BlockRef, listed: seq<Block>, accepted: seq<Block>, t': Snapshot)
    returns (given': set<BlockRef>, freed': set<BlockRef>, dropped': set<BlockRef>)
    requires Inv(w, t0) && Steady(w, median, t) && Served(t0, t, given, freed) && GivenUp(t0, given)
    requires StoredSoFar(t0, t, freed, dropped) && DroppedFor(w, median, t.dag, dropped)
    requires t.gc.enabled && k in t.waiting && k.round <= t.gc.round && k !in t.suspended
    requires ReleaseStep(w, median, Receive(t, k), k, [], listed, accepted, t')
    ensures Served(t0, t', given', freed') && GivenUp(t0, given')
    ensures StoredSoFar(t0, t', freed', dropped') && DroppedFor(w, median, t'.dag, dropped')
  {
    hide Steady, Starts, ReleaseStep, DroppedFor, Cut, Released, Refs, Inv;
    var t1 := Receive(t, k);
    var released := Released(t.suspended, k);
    CollectStarts(w, median, t, k);
    assert t.suspended - {k} == t.suspended;
    ServedStep(w, median, t0, t, given, freed, k, t1, listed, accepted, t');
    DroppedStep(w, median, t.dag, dropped, t1, k, listed, accepted, t');
    given', freed', dropped' := given + {k}, freed + released, dropped + (released - Refs(accepted));
    StoredStep(w, median, t0, t, given, freed, dropped, t1, k, listed, accepted, t');
    NotGivenTwice(t0, t, given, freed, k);
  }

  lemma NotGivenTwice(t0: Snapshot, t: Snapshot, given: set<BlockRef>, freed: set<BlockRef>, k: BlockRef)
    requires Served(t0, t, given, freed) && k in t.waiting && k !in t.suspended
    ensures k in t0.waiting && k !in t0.suspended
  {
  }

  lemma StoredStep(
    w: World, median: bool, t0: Snapshot, t: Snapshot, given: set<BlockRef>, freed: set<BlockRef>, dropped: set<BlockRef>,
    t1: Snapshot, x: BlockRef, listed: seq<Block>, accepted: seq<Block>, t': Snapshot)
    requires Inv(w, t0) && Served(t0, t, given, freed) && StoredSoFar(t0, t, freed, dropped)
    requires t1.dag == t.dag && t1.suspended == t.suspended
    requires Starts(w, median, t1, x, []) && ReleaseStep(w, median, t1, x, [], listed, accepted, t')
    ensures StoredSoFar(t0, t', freed + Released(t.suspended, x), dropped + (Released(t.suspended, x) - Refs(accepted)))
  {
    hide Starts, Released, Refs, Inv, ReleaseStep, Served;
    StepAccepts(w, median, t1, x, [], listed, accepted, t');
    StoredAfter(w, median, t1, x, listed, accepted, t');
    ReleasedBounded(t.suspended, x);
    RefsNone();
    var released := Released(t.suspended, x);
    CutKeys(t0, t, given, freed);
    SuspendedNotStored(w, t0);
    OneMoreDropped(freed, dropped, released, Refs(accepted));
  }

  /** When nothing awaited is left at or below the round, exactly what waited only for such blocks has left. */
  lemma SweptExactly(
    w: World, median: bool, t0: Snapshot, t: Snapshot, given: set<BlockRef>, freed: set<BlockRef>, dropped: set<BlockRef>)
    requires Inv(w, t0) && Inv(w, t) && Served(t0, t, given, freed) && GivenUp(t0, given)
    requires StoredSoFar(t0, t, freed, dropped) && DroppedFor(w, median, t.dag, dropped)
    requires (forall a :: a in t.waiting ==> a.round > t.gc.round) && (forall c :: c in t.suspended ==> c.round > t.gc.round)
    ensures var gone := iset a: BlockRef | a.round <= t0.gc.round;
      var freed := Freed(t0.suspended, gone);
      && Left(t0, t, gone) && t0.dag.Keys <= t.dag.Keys <= t0.dag.Keys + freed
      && (forall c :: c in freed - t.dag.Keys ==> Excused(w, t.dag, freed - t.dag.Keys, c))
      && (Calm(w, median) ==> t.dag.Keys == t0.dag.Keys + freed && Known(t) == Known(t0))
  {
    hide Inv, FreedBy, Excused, Calm, Left, Cut, Freed;
    var gone := iset a: BlockRef | a.round <= t0.gc.round;
    CutKeys(t0, t, given, freed);
    assert GoneServed(t0, given, freed, gone);
    ServedLeft(w, t0, t, given, freed, gone);
    forall c
      ensures c in Freed(t0.suspended, gone) <==> c in freed
    {
      FreedExactly(w, t0, t, given, freed, gone, c);
      FreedSuspended(t0.suspended, gone, c);
    }
    assert Freed(t0.suspended, gone) == freed;
    assert freed - t.dag.Keys == dropped;
  }

  lemma OneMoreDropped(freed: set<BlockRef>, dropped: set<BlockRef>, released: set<BlockRef>, accepted: set<BlockRef>)
    requires dropped <= freed && released !! freed && accepted <= released
    ensures (freed + released) - (dropped + (released - accepted)) == (freed - dropped) + accepted
  {
  }

  lemma SuspendedNotStored(w: World, t: Snapshot)
    requires Inv(w, t)
    ensures t.suspended.Keys !! t.dag.Keys
  {
  }

  lemma CutKeys(t0: Snapshot, t: Snapshot, given: set<BlockRef>, freed: set<BlockRef>)
    requires Served(t0, t, given, freed)
    ensures t.suspended.Keys == t0.suspended.Keys - given - freed && freed <= t0.suspended.Keys
  {
  }

  lemma FreedSuspended(s: Suspended, gone: iset<BlockRef>, c: BlockRef)
    ensures c in Freed(s, gone) <==> FreedBy(s, gone, c)
    ensures FreedBy(s, gone, c) ==> c in s
  {
  }

  /** After some blocks have been given up, giving up the next one panics. */
  ghost predicate SweepPanics(t0: Snapshot) {
    exists t: Snapshot, given: set<BlockRef>, freed: set<BlockRef>, k: BlockRef, listed: seq<Block> ::
      && Served(t0, t, given, freed) && GivenUp(t0, given)
      && k in t.waiting && k.round <= t.gc.round && ReleasePanics(Receive(t, k), k, [], listed)
  }

  lemma SweepPanicsAt(t0: Snapshot, t: Snapshot, given: set<BlockRef>, freed: set<BlockRef>, k: BlockRef, listed: seq<Block>)
    requires Served(t0, t, given, freed) && GivenUp(t0, given)
    requires k in t.waiting && k.round <= t.gc.round && ReleasePanics(Receive(t, k), k, [], listed)
    ensures SweepPanics(t0)
  {
  }

  // ----- committed blocks

  /** After some of the committed blocks have entered, the next one panics. */
  ghost predicate CommitPanics(t0: Snapshot, blocks: seq<Block>) {
    exists t: Snapshot, given: set<BlockRef>, freed: set<BlockRef>, block: Block, listed: seq<Block> ::
      && Served(t0, t, given, freed) && given <= Refs(blocks) && block in blocks && block.Ref() !in t.dag
      && ReleasePanics(CommitIn(t, block), block.Ref(), [], listed)
  }

  lemma CommitPanicsAt(
    t0: Snapshot, blocks: seq<Block>, t: Snapshot, given: set<BlockRef>, freed: set<BlockRef>, block: Block, listed: seq<Block>)
    requires Served(t0, t, given, freed) && given <= Refs(blocks) && block in blocks && block.Ref() !in t.dag
    requires ReleasePanics(CommitIn(t, block), block.Ref(), [], listed)
    ensures CommitPanics(t0, blocks)
  {
  }

  /** All of `given` are stored, of what was freed everything but what was dropped, and nothing else is new. */
  ghost predicate EnteredSoFar(
    t0: Snapshot, t: Snapshot, given: set<BlockRef>, freed: set<BlockRef>, dropped: set<BlockRef>)
  {
    && t0.dag.Keys + given + (freed - dropped) <= t.dag.Keys <= t0.dag.Keys + given + freed && dropped <= freed
    && forall r :: r in t0.dag ==> t.dag[r] == t0.dag[r]
  }

  lemma NothingEntered(t: Snapshot)
    ensures EnteredSoFar(t, t, {}, {}, {})
  {
  }

  lemma CommittedStepServed(
    w: World, median: bool, t0: Snapshot, t: Snapshot, given: set<BlockRef>, freed: set<BlockRef>, dropped: set<BlockRef>,
    block: Block, listed: seq<Block>, accepted: seq<Block>, t': Snapshot)
    returns (freed': set<BlockRef>, dropped': set<BlockRef>)
    requires Steady(w, median, t) && w.Has(block) && CommittedStep(w, median, t, block, listed, accepted, t')
    requires Served(t0, t, given, freed) && EnteredSoFar(t0, t, given, freed, dropped) && DroppedFor(w, median, t.dag, dropped)
    ensures Served(t0, t', given + {block.Ref()}, freed') && EnteredSoFar(t0, t', given + {block.Ref()}, freed', dropped')
    ensures DroppedFor(w, median, t'.dag, dropped')
  {
    hide Inv, Grounded, WellTimed, Starts, ReleaseStep, DroppedFor, Served, Released, Refs, CommitIn;
    var x := block.Ref();
    if x in t.dag {
      ServedUnawaited(w, t0, t, given, freed, x);
      freed', dropped' := freed, dropped;
    } else {
      var t1 := CommitIn(t, block);
      CommitStarts(w, median, t, block);
      CommitInParts(t, block);
      ServedStep(w, median, t0, t, given, freed, x, t1, listed, accepted[1..], t');
      DroppedStep(w, median, t.dag, dropped, t1, x, listed, accepted[1..], t');
      EnteredStep(w, median, t1, x, listed, accepted[1..], t');
      var released := Released(t1.suspended, x);
      freed', dropped' := freed + released, dropped + (released - Refs(accepted[1..]));
    }
  }

  lemma CommitInParts(t: Snapshot, block: Block)
    requires block.Ref() !in t.dag
    ensures var t1, x := CommitIn(t, block), block.Ref();
      && t1.gc == t.gc && t1.suspended == t.suspended - {x} && t1.waiting.Keys == t.waiting.Keys
      && t1.holders == t.holders - {x} && t1.dag == t.dag[x := block]
  {
  }

  lemma EnteredStep(
    w: World, median: bool, t: Snapshot, x: BlockRef, listed: seq<Block>, accepted: seq<Block>, t': Snapshot)
    requires Starts(w, median, t, x, []) && ReleaseStep(w, median, t, x, [], listed, accepted, t')
    ensures t'.dag.Keys == t.dag.Keys + Refs(accepted) && Refs(accepted) <= Released(t.suspended, x)
    ensures forall r :: r in t.dag ==> t'.dag[r] == t.dag[r]
  {
    hide Starts, ReleaseStep, Released, Refs;
    StepAccepts(w, median, t, x, [], listed, accepted, t');
    StoredAfter(w, median, t, x, listed, accepted, t');
    RefsNone();
  }

  /** Everything freed along the way is freed by all that was given. */
  lemma {:induction false} FreedAlong(
    w: World, t0: Snapshot, t: Snapshot, given: set<BlockRef>, freed: set<BlockRef>, gone: iset<BlockRef>, c: BlockRef)
    requires Inv(w, t0) && Served(t0, t, given, freed) && GoneServed(t0, given, freed, gone) && c in freed
    ensures FreedBy(t0.suspended, gone, c)
  {
    hide World.Ok, DagOk, HoldersOk, Linked;
    forall a | a in t0.suspended[c].missing
      ensures a in gone || (a.round < c.round && FreedBy(t0.suspended, gone, a))
    {
      FreedExactly(w, t0, t, given, freed, gone, a);
    }
  }

  /** When all committed blocks have been served, what waited only for them has left with them. */
  lemma CommittedExactly(
    w: World, median: bool, t0: Snapshot, t: Snapshot, given: set<BlockRef>, freed: set<BlockRef>, dropped: set<BlockRef>)
    requires Inv(w, t0) && Served(t0, t, given, freed) && EnteredSoFar(t0, t, given, freed, dropped)
    requires DroppedFor(w, median, t.dag, dropped)
    ensures var gone := iset a: BlockRef | a in given;
      var all := Freed(t0.suspended, gone);
      && Left(t0, t, gone) && t0.dag.Keys + given <= t.dag.Keys <= t0.dag.Keys + given + all
      && (forall c :: c in all - t.dag.Keys ==> Excused(w, t.dag, all, c))
      && (Calm(w, median) ==> t.dag.Keys == t0.dag.Keys + given + all)
  {
    hide Inv, FreedBy, Excused, Calm, Left, Served, Freed;
    var gone := iset a: BlockRef | a in given;
    var all := Freed(t0.suspended, gone);
    assert GoneServed(t0, given, freed, gone);
    ServedLeft(w, t0, t, given, freed, gone);
    forall c
      ensures (c in freed ==> c in all) && (c in all ==> c in freed + given)
    {
      FreedSuspended(t0.suspended, gone, c);
      FreedExactly(w, t0, t, given, freed, gone, c);
      if c in freed {
        FreedAlong(w, t0, t, given, freed, gone, c);
      }
    }
    forall c | c in all - t.dag.Keys
      ensures Excused(w, t.dag, all, c)
    {
      ExcusedStays(w, t.dag, dropped, t.dag, all, c);
    }
  }
}
