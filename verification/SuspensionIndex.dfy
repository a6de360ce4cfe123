/** The index of suspended blocks as values: who waits for whom, and what a new block releases. */
module SuspensionIndex {
  import opened Blocks

  datatype SuspendedBlock = SuspendedBlock(block: Block, missing: set<BlockRef>)

  type Suspended = map<BlockRef, SuspendedBlock>

  /** From a missing block to the suspended blocks that wait for it. */
  type Waiting = map<BlockRef, set<BlockRef>>

  /** From a block to fetch to the authorities expected to have it. */
  type Holders = map<BlockRef, set<nat>>

  /** A child is listed under an ancestor exactly when the ancestor is in the child's missing set. */
  ghost predicate Linked(s: Suspended, m: Waiting) {
    forall a, c :: (a in m && c in m[a]) <==> (c in s && a in s[c].missing)
  }

  /** Every suspended block misses at least one of its ancestors, all of them of lower rounds. */
  ghost predicate WellSuspended(s: Suspended) {
    forall c :: c in s ==>
      && s[c].block.Ref() == c
      && s[c].missing != {}
      && (forall a :: a in s[c].missing ==> a in s[c].block.ancestors && a.round < c.round)
  }

  // ----- suspending a block

  /** Who waits for `a` once `child` waits for all of `missing`. */
  ghost function WaitersOf(m: Waiting, missing: set<BlockRef>, child: BlockRef, a: BlockRef): set<BlockRef> {
    (if a in m then m[a] else {}) + (if a in missing then {child} else {})
  }

  /** `m` with `child` listed under every member of `missing`. */
  ghost function AddWaiting(m: Waiting, missing: set<BlockRef>, child: BlockRef): (r: Waiting)
    ensures r.Keys == m.Keys + missing
  {
    map a | a in m.Keys + missing :: WaitersOf(m, missing, child, a)
  }

  /** Who is expected to have `a` once `author` is known to have all of `fetch`. */
  ghost function HoldersOf(b: Holders, fetch: set<BlockRef>, author: nat, a: BlockRef): set<nat> {
    (if a in b then b[a] else {a.author}) + (if a in fetch then {author} else {})
  }

  /** `b` with `author` among the holders of every member of `fetch`, next to the member's own author. */
  ghost function AddHolders(b: Holders, fetch: set<BlockRef>, author: nat): (r: Holders)
    ensures r.Keys == b.Keys + fetch
  {
    map a | a in b.Keys + fetch :: HoldersOf(b, fetch, author, a)
  }

  lemma SuspendKeepsLinks(s: Suspended, m: Waiting, block: Block, missing: set<BlockRef>)
    requires Linked(s, m) && block.Ref() !in s
    ensures Linked(s[block.Ref() := SuspendedBlock(block, missing)], AddWaiting(m, missing, block.Ref()))
  {
    var r := block.Ref();
    var s', m' := s[r := SuspendedBlock(block, missing)], AddWaiting(m, missing, r);
    forall a, c ensures (a in m' && c in m'[a]) <==> (c in s' && a in s'[c].missing) {
      assert (a in m && c in m[a]) <==> (c in s && a in s[c].missing);
    }
  }

  lemma SuspendKeepsShape(s: Suspended, block: Block, missing: set<BlockRef>)
    requires WellSuspended(s) && missing != {}
    requires forall a :: a in missing ==> a in block.ancestors && a.round < block.round
    ensures WellSuspended(s[block.Ref() := SuspendedBlock(block, missing)])
  {
  }

  // ----- releasing blocks

  /** `c` can be released once `x` is there: everything it misses is `x` or can itself be released. */
  ghost predicate Releasable(s: Suspended, x: BlockRef, c: BlockRef)
    decreases c.round
  {
    c in s && forall a :: a in s[c].missing ==> a == x || (a.round < c.round && Releasable(s, x, a))
  }

  ghost function Released(s: Suspended, x: BlockRef): set<BlockRef> {
    set c | c in s && Releasable(s, x, c)
  }

  /** A block that misses only `x` is released with it. */
  lemma OnlyChildReleased(s: Suspended, x: BlockRef, c: BlockRef)
    requires c in s && s[c].missing == {x}
    ensures c in Released(s, x)
  {
  }

  /** The only set of blocks that contains a suspended block exactly when it contains or is given all it misses. */
  lemma {:induction false} ReleaseUnique(s: Suspended, x: BlockRef, released: set<BlockRef>, c: BlockRef)
    requires WellSuspended(s) && released <= s.Keys
    requires forall b :: b in s ==> (b in released <==> s[b].missing <= {x} + released)
    ensures c in released <==> Releasable(s, x, c)
    decreases c.round
  {
    if c in s {
      forall a | a in s[c].missing ensures a in released <==> Releasable(s, x, a) {
        ReleaseUnique(s, x, released, a);
      }
    }
  }

  /** What stays suspended, no longer missing `x` or anything released. */
  ghost function StillSuspended(s: Suspended, x: BlockRef, released: set<BlockRef>): (r: Suspended)
    ensures r.Keys == s.Keys - released
  {
    map c | c in s && c !in released :: SuspendedBlock(s[c].block, s[c].missing - ({x} + released))
  }

  lemma ReleaseKeepsShape(s: Suspended, x: BlockRef, released: set<BlockRef>)
    requires WellSuspended(s) && forall b :: b in s ==> (b in released <==> s[b].missing <= {x} + released)
    ensures WellSuspended(StillSuspended(s, x, released))
  {
    var s' := StillSuspended(s, x, released);
    forall c | c in s' ensures s'[c].missing != {} {
      assert !(s[c].missing <= {x} + released);
      var a :| a in s[c].missing && a !in {x} + released;
      assert a in s'[c].missing;
    }
  }

  lemma ReleaseKeepsLinks(s: Suspended, m: Waiting, x: BlockRef, released: set<BlockRef>)
    requires Linked(s, m)
    requires forall b :: b in s && b in released ==> s[b].missing <= {x} + released
    ensures Linked(StillSuspended(s, x, released), m - ({x} + released))
  {
    var s', m' := StillSuspended(s, x, released), m - ({x} + released);
    forall a, c ensures (a in m' && c in m'[a]) <==> (c in s' && a in s'[c].missing) {
      assert (a in m && c in m[a]) <==> (c in s && a in s[c].missing);
    }
  }

  /** References of a list of blocks. */
  ghost function Refs(blocks: seq<Block>): set<BlockRef> { set b | b in blocks :: b.Ref() }

  lemma SomeRef(blocks: seq<Block>)
    requires blocks != []
    ensures Refs(blocks) != {}
  {
    assert blocks[0] in blocks && blocks[0].Ref() in Refs(blocks);
  }

  lemma RefsAppend(blocks: seq<Block>, b: Block)
    ensures Refs(blocks + [b]) == Refs(blocks) + {b.Ref()}
  {
    assert forall c :: c in blocks + [b] <==> c in blocks || c == b;
  }

  /** In the list of released blocks, each comes after everything it was missing. */
  ghost predicate ReleaseOrder(s: Suspended, x: BlockRef, released: seq<Block>) {
    forall i :: 0 <= i < |released| ==>
      released[i].Ref() in s && s[released[i].Ref()].block == released[i]
      && s[released[i].Ref()].missing <= {x} + Refs(released[..i])
  }

  // ----- the release worklist

  ghost function Members(stack: seq<BlockRef>): set<BlockRef> { set r | r in stack }

  /**
   * The worklist: `done` have been popped, `stack` is still to do, and `out` lists what has been
   * released, each block after everything it was missing.
   */
  ghost predicate Listed(s0: Suspended, x: BlockRef, done: set<BlockRef>, stack: seq<BlockRef>, out: seq<Block>) {
    && done + Members(stack) == {x} + Refs(out) && done !! Members(stack) && x !in Refs(out)
    && (forall i, j :: 0 <= i < j < |stack| ==> stack[i] != stack[j])
    && DistinctRefs(out) && ReleaseOrder(s0, x, out)
    && (forall b :: b in out ==> s0[b.Ref()].missing <= done)
  }

  /**
   * The suspended blocks: what is not in `out` is still there and no longer misses `done`, except
   * that the blocks in `todo` still miss `y`, the last reference popped.
   */
  ghost predicate Trimmed(
    s0: Suspended, done: set<BlockRef>, y: BlockRef, todo: set<BlockRef>, out: seq<Block>, s: Suspended)
  {
    && s.Keys == s0.Keys - Refs(out)
    && (forall c :: c in s ==>
          s[c] == SuspendedBlock(s0[c].block, s0[c].missing - (if c in todo then done - {y} else done))
          && s[c].missing != {})
    && (forall c :: c in todo ==> c in s && y in s0[c].missing)
  }

  lemma WorklistStart(s0: Suspended, x: BlockRef, y: BlockRef)
    requires WellSuspended(s0)
    ensures Listed(s0, x, {}, [x], []) && Trimmed(s0, {}, y, {}, [], s0)
  {
    assert Members([x]) == {x};
  }

  lemma PopListed(s0: Suspended, x: BlockRef, done: set<BlockRef>, stack: seq<BlockRef>, out: seq<Block>)
    requires Listed(s0, x, done, stack, out) && stack != []
    ensures var n := |stack| - 1;
      stack[n] !in done && stack[n] in {x} + s0.Keys && Listed(s0, x, done + {stack[n]}, stack[..n], out)
  {
    hide ReleaseOrder, DistinctRefs;
    var n := |stack| - 1;
    var y, rest := stack[n], stack[..n];
    assert stack == rest + [y];
    assert Members(stack) == Members(rest) + {y};
    if y != x {
      ReleasedWereSuspended(s0, x, out, y);
    }
  }

  lemma ReleasedWereSuspended(s0: Suspended, x: BlockRef, out: seq<Block>, r: BlockRef)
    requires ReleaseOrder(s0, x, out) && r in Refs(out)
    ensures r in s0
  {
    var b :| b in out && b.Ref() == r;
    var i :| 0 <= i < |out| && out[i] == b;
  }

  /** The children of a reference that has not been popped before are all still suspended. */
  lemma ChildrenThere(s0: Suspended, m0: Waiting, x: BlockRef, done: set<BlockRef>, stack: seq<BlockRef>, y: BlockRef,
                      out: seq<Block>, c: BlockRef)
    requires Listed(s0, x, done, stack, out) && Linked(s0, m0) && y !in done && y in m0 && c in m0[y]
    ensures c in s0 && y in s0[c].missing && c !in Refs(out)
  {
    assert c in s0 && y in s0[c].missing;
  }

  /** Only the listed children miss `y`. */
  lemma OthersDoNotMiss(s0: Suspended, m0: Waiting, y: BlockRef, c: BlockRef)
    requires Linked(s0, m0) && c in s0 && !(y in m0 && c in m0[y])
    ensures y !in s0[c].missing
  {
  }

  lemma PopTrimmed(
    s0: Suspended, m0: Waiting, x: BlockRef, done: set<BlockRef>, stack: seq<BlockRef>,
    z: BlockRef, y: BlockRef, out: seq<Block>, s: Suspended)
    requires Listed(s0, x, done, stack, out) && Trimmed(s0, done, z, {}, out, s) && Linked(s0, m0) && y !in done
    ensures Trimmed(s0, done + {y}, y, if y in m0 then m0[y] else {}, out, s)
  {
    hide Linked, Listed, Refs;
    var todo := if y in m0 then m0[y] else {};
    forall c | c in todo ensures c in s && y in s0[c].missing {
      ChildrenThere(s0, m0, x, done, stack, y, out, c);
    }
    forall c | c in s
      ensures s[c].missing == s0[c].missing - (if c in todo then done + {y} - {y} else done + {y})
    {
      if c in todo {
        assert done + {y} - {y} == done;
      } else {
        OthersDoNotMiss(s0, m0, y, c);
      }
    }
  }

  /** A child that has nothing left to miss is appended to the list and to the stack. */
  lemma ServeListed(
    s0: Suspended, x: BlockRef, done: set<BlockRef>, stack: seq<BlockRef>, out: seq<Block>, b: Block)
    requires Listed(s0, x, done, stack, out) && b.Ref() !in Refs(out) && b.Ref() != x
    requires b.Ref() in s0 && s0[b.Ref()].block == b && s0[b.Ref()].missing <= done
    ensures Listed(s0, x, done, stack + [b.Ref()], out + [b])
  {
    hide ReleaseOrder, DistinctRefs;
    var r := b.Ref();
    RefsAppend(out, b);
    assert Members(stack + [r]) == Members(stack) + {r};
    assert r !in done + Members(stack);
    AppendOrdered(s0, x, out, b);
  }

  lemma AppendOrdered(s0: Suspended, x: BlockRef, out: seq<Block>, b: Block)
    requires ReleaseOrder(s0, x, out) && DistinctRefs(out) && b.Ref() !in Refs(out)
    requires b.Ref() in s0 && s0[b.Ref()].block == b && s0[b.Ref()].missing <= {x} + Refs(out)
    ensures ReleaseOrder(s0, x, out + [b]) && DistinctRefs(out + [b])
  {
    var all := out + [b];
    forall i | 0 <= i < |all|
      ensures all[i].Ref() in s0 && s0[all[i].Ref()].block == all[i] && s0[all[i].Ref()].missing <= {x} + Refs(all[..i])
    {
      assert all[..i] == if i < |out| then out[..i] else out;
    }
    forall i | 0 <= i < |out| ensures out[i].Ref() != b.Ref() {
      assert out[i] in out;
    }
  }

  /** A child of `y` is suspended and misses it; what it misses without `y` is what it missed at first without `done`. */
  lemma ServeMissing(
    s0: Suspended, done: set<BlockRef>, y: BlockRef, todo: set<BlockRef>, out: seq<Block>, s: Suspended, r: BlockRef)
    requires WellSuspended(s0) && Trimmed(s0, done, y, todo, out, s) && r in todo && y in done
    ensures r in s0 && r in s && y in s[r].missing && s[r].block == s0[r].block && s[r].block.Ref() == r
    ensures s[r].missing - {y} == s0[r].missing - done && r !in Refs(out)
    ensures s[r].missing - {y} == {} ==> s0[r].missing <= done
  {
    assert s0[r].missing <= done + (s0[r].missing - done);
  }

  lemma ServeTrimmed(
    s0: Suspended, done: set<BlockRef>, y: BlockRef, todo: set<BlockRef>, out: seq<Block>, s: Suspended, r: BlockRef)
    requires WellSuspended(s0) && Trimmed(s0, done, y, todo, out, s) && r in todo && y in done
    ensures r in s
    ensures var b, rest := s[r].block, s[r].missing - {y};
      if rest == {} then Trimmed(s0, done, y, todo - {r}, out + [b], s - {r})
      else Trimmed(s0, done, y, todo - {r}, out, s[r := SuspendedBlock(b, rest)])
  {
    ServeMissing(s0, done, y, todo, out, s, r);
    RefsAppend(out, s[r].block);
  }

  /** When the worklist is empty, exactly the releasable blocks have been released. */
  lemma WorklistEnd(s0: Suspended, x: BlockRef, done: set<BlockRef>, y: BlockRef, out: seq<Block>, s: Suspended)
    requires WellSuspended(s0) && Listed(s0, x, done, [], out) && Trimmed(s0, done, y, {}, out, s)
    ensures done == {x} + Refs(out) && Refs(out) <= s0.Keys
    ensures forall b :: b in s0 ==> (b in Refs(out) <==> s0[b].missing <= {x} + Refs(out))
    ensures Refs(out) == Released(s0, x) && s == StillSuspended(s0, x, Refs(out))
  {
    hide ReleaseOrder, DistinctRefs, Released, StillSuspended, WellSuspended, Refs;
    assert Members([]) == {};
    forall r | r in Refs(out) ensures r in s0 && s0[r].missing <= {x} + Refs(out) {
      ReleasedMissing(s0, x, done, out, r);
    }
    forall b | b in s0 && b !in Refs(out) ensures !(s0[b].missing <= {x} + Refs(out)) {
      assert s[b].missing == s0[b].missing - done;
    }
    ReleasedExactly(s0, x, Refs(out));
    TrimmedExactly(s0, x, done, y, out, s);
  }

  lemma ReleasedMissing(s0: Suspended, x: BlockRef, done: set<BlockRef>, out: seq<Block>, r: BlockRef)
    requires Listed(s0, x, done, [], out) && r in Refs(out)
    ensures r in s0 && s0[r].missing <= done
  {
    ReleasedWereSuspended(s0, x, out, r);
  }

  lemma ReleasedExactly(s: Suspended, x: BlockRef, released: set<BlockRef>)
    requires WellSuspended(s) && released <= s.Keys
    requires forall b :: b in s ==> (b in released <==> s[b].missing <= {x} + released)
    ensures released == Released(s, x)
  {
    forall c ensures c in released <==> c in Released(s, x) {
      ReleaseUnique(s, x, released, c);
    }
  }

  lemma TrimmedExactly(
    s0: Suspended, x: BlockRef, done: set<BlockRef>, y: BlockRef, out: seq<Block>, s: Suspended)
    requires Trimmed(s0, done, y, {}, out, s) && done == {x} + Refs(out)
    ensures s == StillSuspended(s0, x, Refs(out))
  {
  }

  // ----- removing a block without releasing others

  /** The index without the suspended block `r`; emptied entries stay. */
  ghost function Unlist(m: Waiting, missing: set<BlockRef>, r: BlockRef): Waiting {
    map a | a in m :: if a in missing then m[a] - {r} else m[a]
  }

  lemma RemoveKeepsLinks(s: Suspended, m: Waiting, r: BlockRef)
    requires Linked(s, m) && WellSuspended(s) && r in s
    ensures Linked(s - {r}, Unlist(m, s[r].missing, r)) && WellSuspended(s - {r})
  {
    var s', m' := s - {r}, Unlist(m, s[r].missing, r);
    forall a, c ensures (a in m' && c in m'[a]) <==> (c in s' && a in s'[c].missing) {
      assert (a in m && c in m[a]) <==> (c in s && a in s[c].missing);
    }
  }
}
