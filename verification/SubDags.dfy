/** The sub-DAG of a committed leader: a depth-first walk over what is not committed yet, then sorted. */
module SubDags {
  import opened Sequences
  import opened Blocks
  import opened Dags

  /** No block names the same ancestor twice; the verifier guarantees more. */
  ghost predicate DistinctAncestors(d: Dag) {
    forall r :: r in d ==> NoRepeats(d[r].ancestors)
  }

  /** The references above the GC round that are not committed, in order. */
  function Uncommitted(refs: seq<BlockRef>, gc: nat, committed: set<BlockRef>): (r: seq<BlockRef>)
    ensures forall a :: a in r <==> a in refs && a.round > gc && a !in committed
  {
    if refs == [] then []
    else
      assert refs == [refs[0]] + refs[1..];
      (if refs[0].round > gc && refs[0] !in committed then [refs[0]] else []) + Uncommitted(refs[1..], gc, committed)
  }

  lemma {:induction false} UncommittedNoRepeats(refs: seq<BlockRef>, gc: nat, committed: set<BlockRef>)
    requires NoRepeats(refs)
    ensures NoRepeats(Uncommitted(refs, gc, committed))
  {
    if refs == [] {
    } else {
      UncommittedNoRepeats(refs[1..], gc, committed);
      assert refs[0] !in refs[1..];
    }
  }

  function Elements(s: seq<BlockRef>): set<BlockRef> { set r | r in s }

  /**
   * Pops a block, marks its new ancestors as committed and pushes them. Gives the blocks in the order
   * they are popped, and what is committed in the end.
   */
  function Walk(d: Dag, gc: nat, marked: set<BlockRef>, stack: seq<BlockRef>): (seq<BlockRef>, set<BlockRef>)
    requires Closed(d) && forall r :: r in stack ==> r in d
    decreases d.Keys - marked, |stack|
  {
    if stack == [] then ([], marked)
    else
      var x, rest := stack[|stack| - 1], stack[..|stack| - 1];
      var pushed := Uncommitted(d[x].ancestors, gc, marked);
      assert pushed != [] ==> pushed[0] in d.Keys - marked;
      var (order, final) := Walk(d, gc, marked + Elements(pushed), rest + pushed);
      ([x] + order, final)
  }

  // ----- what the walk collects

  /** Whatever is in `marked` has all its ancestors above the GC round there too. */
  ghost predicate DownClosed(d: Dag, gc: nat, marked: set<BlockRef>) {
    forall r :: r in marked ==> r in d && AncestorsMarked(d, gc, marked, r)
  }

  ghost predicate AncestorsMarked(d: Dag, gc: nat, marked: set<BlockRef>, r: BlockRef)
    requires r in d
  {
    forall a :: a in d[r].ancestors && a.round > gc ==> a in marked
  }

  /** As `DownClosed`, except for the blocks still waiting on the stack. */
  ghost predicate Frontier(d: Dag, gc: nat, marked: set<BlockRef>, stack: seq<BlockRef>) {
    && (forall r :: r in stack ==> r in marked)
    && (forall r :: r in marked ==> r in d)
    && (forall r :: r in marked && r !in stack ==> AncestorsMarked(d, gc, marked, r))
  }

  lemma FrontierStep(d: Dag, gc: nat, marked: set<BlockRef>, stack: seq<BlockRef>)
    requires Closed(d) && Frontier(d, gc, marked, stack) && stack != []
    ensures var x, rest := stack[|stack| - 1], stack[..|stack| - 1];
            var pushed := Uncommitted(d[x].ancestors, gc, marked);
            Frontier(d, gc, marked + Elements(pushed), rest + pushed)
  {
    var x, rest := stack[|stack| - 1], stack[..|stack| - 1];
    assert stack == rest + [x];
  }

  /** When the stack is empty nothing is left open. */
  lemma {:induction false} WalkCloses(d: Dag, gc: nat, marked: set<BlockRef>, stack: seq<BlockRef>)
    requires Closed(d) && Frontier(d, gc, marked, stack)
    ensures DownClosed(d, gc, Walk(d, gc, marked, stack).1) && marked <= Walk(d, gc, marked, stack).1
    decreases d.Keys - marked, |stack|
  {
    if stack == [] {
    } else {
      FrontierStep(d, gc, marked, stack);
      var x, rest := stack[|stack| - 1], stack[..|stack| - 1];
      var pushed := Uncommitted(d[x].ancestors, gc, marked);
      assert pushed != [] ==> pushed[0] in d.Keys - marked;
      WalkCloses(d, gc, marked + Elements(pushed), rest + pushed);
    }
  }

  lemma PushNoRepeats(stack: seq<BlockRef>, pushed: seq<BlockRef>)
    requires NoRepeats(stack) && NoRepeats(pushed) && stack != [] && forall r :: r in pushed ==> r !in stack
    ensures NoRepeats(stack[..|stack| - 1] + pushed)
    ensures stack[|stack| - 1] !in stack[..|stack| - 1] + pushed
  {
    var rest := stack[..|stack| - 1];
    assert stack == rest + [stack[|stack| - 1]];
    forall i, j | 0 <= i < j < |rest + pushed|
      ensures (rest + pushed)[i] != (rest + pushed)[j]
    {
      if i < |rest| <= j {
        assert rest[i] in stack && pushed[j - |rest|] in pushed;
      }
    }
  }

  lemma PrependNoRepeats(x: BlockRef, s: seq<BlockRef>)
    requires NoRepeats(s) && x !in s
    ensures NoRepeats([x] + s)
  {
  }

  /** The walk lists, once each, the blocks on the stack and those it marks. */
  lemma {:induction false} WalkListsOnce(d: Dag, gc: nat, marked: set<BlockRef>, stack: seq<BlockRef>)
    requires Closed(d) && DistinctAncestors(d) && NoRepeats(stack)
    requires (forall r :: r in stack ==> r in d && r in marked)
    ensures var (order, final) := Walk(d, gc, marked, stack);
            && NoRepeats(order) && marked <= final
            && forall r :: r in order <==> r in stack || r in final - marked
    decreases d.Keys - marked, |stack|
  {
    if stack == [] {
    } else {
      hide NoRepeats, Uncommitted;
      var x, rest := stack[|stack| - 1], stack[..|stack| - 1];
      var pushed := Uncommitted(d[x].ancestors, gc, marked);
      assert stack == rest + [x];
      assert pushed != [] ==> pushed[0] in d.Keys - marked;
      UncommittedNoRepeats(d[x].ancestors, gc, marked);
      PushNoRepeats(stack, pushed);
      WalkListsOnce(d, gc, marked + Elements(pushed), rest + pushed);
      PrependNoRepeats(x, Walk(d, gc, marked + Elements(pushed), rest + pushed).0);
    }
  }

  /** Everything the walk marks is in the causal history of its start, and above the GC round. */
  lemma {:induction false} WalkStaysBelow(d: Dag, gc: nat, marked: set<BlockRef>, stack: seq<BlockRef>, leader: BlockRef)
    requires Closed(d) && forall r :: r in stack ==> r in d && AtOrBelow(d, leader, r)
    ensures forall r :: r in Walk(d, gc, marked, stack).1 - marked ==> AtOrBelow(d, leader, r) && r.round > gc
    decreases d.Keys - marked, |stack|
  {
    hide InPast;
    if stack != [] {
      var x, rest := stack[|stack| - 1], stack[..|stack| - 1];
      var pushed := Uncommitted(d[x].ancestors, gc, marked);
      assert pushed != [] ==> pushed[0] in d.Keys - marked;
      forall a | a in pushed
        ensures AtOrBelow(d, leader, a)
      {
        AncestorBelow(d, leader, x, a);
      }
      WalkStaysBelow(d, gc, marked + Elements(pushed), rest + pushed, leader);
    }
  }

  lemma AncestorBelow(d: Dag, leader: BlockRef, x: BlockRef, a: BlockRef)
    requires Closed(d) && x in d && AtOrBelow(d, leader, x) && a in d[x].ancestors
    ensures AtOrBelow(d, leader, a)
  {
    assert InPast(d, x, a);
    if leader != x {
      PastTransitive(d, leader, x, a);
    }
  }

  /** A down-closed set holds the whole causal history of its blocks down to the GC round. */
  lemma {:induction false} DownClosedPast(d: Dag, gc: nat, marked: set<BlockRef>, x: BlockRef, y: BlockRef)
    requires Closed(d) && DownClosed(d, gc, marked) && x in marked && InPast(d, x, y) && y.round > gc
    ensures y in marked
    decreases x.round
  {
    var a :| a in d[x].ancestors && a.round < x.round && (a == y || InPast(d, a, y));
    assert AncestorsMarked(d, gc, marked, x);
    if a != y {
      PastLower(d, a, y);
      DownClosedPast(d, gc, marked, a, y);
    }
  }

  /**
   * The sub-DAG of `leader` is exactly the part of its causal history, itself included, that is above
   * the GC round and not committed; each block once.
   */
  lemma WalkExact(d: Dag, gc: nat, committed: set<BlockRef>, leader: BlockRef)
    requires Closed(d) && DistinctAncestors(d) && DownClosed(d, gc, committed)
    requires leader in d && leader !in committed && leader.round > gc
    ensures var (order, final) := Walk(d, gc, committed + {leader}, [leader]);
            && NoRepeats(order) && final == committed + Elements(order) && DownClosed(d, gc, final)
            && forall y :: y in order <==> AtOrBelow(d, leader, y) && y.round > gc && y !in committed
  {
    hide InPast, AncestorsMarked;
    var marked := committed + {leader};
    var (order, final) := Walk(d, gc, marked, [leader]);
    FirstFrontier(d, gc, committed, leader);
    WalkCloses(d, gc, marked, [leader]);
    WalkListsOnce(d, gc, marked, [leader]);
    WalkStaysBelow(d, gc, marked, [leader], leader);
    forall y | AtOrBelow(d, leader, y) && y.round > gc && y !in committed
      ensures y in order
    {
      if y != leader {
        DownClosedPast(d, gc, final, leader, y);
      }
    }
  }

  lemma FirstFrontier(d: Dag, gc: nat, committed: set<BlockRef>, leader: BlockRef)
    requires DownClosed(d, gc, committed) && leader in d
    ensures Frontier(d, gc, committed + {leader}, [leader])
  {
  }

  /** A later GC round asks for less. */
  lemma DownClosedLater(d: Dag, gc: nat, later: nat, marked: set<BlockRef>)
    requires DownClosed(d, gc, marked) && gc <= later
    ensures DownClosed(d, later, marked)
  {
    forall r | r in marked
      ensures r in d && AncestorsMarked(d, later, marked, r)
    {
      assert AncestorsMarked(d, gc, marked, r);
    }
  }

  /** The walk only looks at causal history, so a view and any larger DAG walk alike. */
  lemma {:induction false} WalkLocal(v: Dag, u: Dag, gc: nat, marked: set<BlockRef>, stack: seq<BlockRef>)
    requires View(v, u) && Closed(u) && forall r :: r in stack ==> r in v
    ensures Walk(v, gc, marked, stack) == Walk(u, gc, marked, stack)
    decreases v.Keys - marked, |stack|
  {
    if stack == [] {
    } else {
      var x, rest := stack[|stack| - 1], stack[..|stack| - 1];
      var pushed := Uncommitted(v[x].ancestors, gc, marked);
      assert pushed != [] ==> pushed[0] in v.Keys - marked;
      WalkLocal(v, u, gc, marked + Elements(pushed), rest + pushed);
    }
  }

  // ----- the order inside a sub-DAG

  /** Round first, then author; equal for blocks of one slot. */
  predicate Precedes(a: BlockRef, b: BlockRef) {
    a.round < b.round || (a.round == b.round && a.author < b.author)
  }

  lemma PrecedesIsOrder()
    ensures WeakOrder(Precedes)
  {
  }

  /** Sorted by round and author; the sort is stable, so blocks of one slot keep the order of the walk. */
  function SortBlocks(s: seq<BlockRef>): seq<BlockRef> { Sort(Precedes, s) }

  /** Ascending rounds, and ascending authors within a round. */
  ghost predicate Sorted(s: seq<BlockRef>) {
    forall i, j :: 0 <= i < j < |s| ==>
      s[i].round < s[j].round || (s[i].round == s[j].round && s[i].author <= s[j].author)
  }

  /** The blocks of one slot, in order. */
  function OfSlot(s: seq<BlockRef>, slot: Slot): seq<BlockRef> {
    if s == [] then [] else (if s[0].ToSlot() == slot then [s[0]] else []) + OfSlot(s[1..], slot)
  }

  lemma {:induction false} OfSlotIsTies(s: seq<BlockRef>, slot: Slot)
    ensures OfSlot(s, slot) == Ties(Precedes, BlockRef(slot.round, slot.authority, 0), s)
  {
    if s == [] {
    } else {
      OfSlotIsTies(s[1..], slot);
    }
  }

  /** Sorting keeps the blocks, each as often as before, and the order of blocks of one slot. */
  lemma SortedKeeps(s: seq<BlockRef>)
    ensures Sorted(SortBlocks(s)) && (NoRepeats(s) ==> NoRepeats(SortBlocks(s)))
    ensures forall r :: r in SortBlocks(s) <==> r in s
    ensures forall slot :: OfSlot(SortBlocks(s), slot) == OfSlot(s, slot)
  {
    PrecedesIsOrder();
    SortInOrder(Precedes, s);
    SortKeeps(Precedes, s);
    forall slot
      ensures OfSlot(SortBlocks(s), slot) == OfSlot(s, slot)
    {
      SortStable(Precedes, BlockRef(slot.round, slot.authority, 0), s);
      OfSlotIsTies(s, slot);
      OfSlotIsTies(SortBlocks(s), slot);
    }
  }
}
