/** Answering a peer's request for blocks: the large commit-sync fetch and the small live one. */
module FetchBlocks {

  import opened Sequences
  import opened Committees
  import opened Blocks

  datatype FetchError = InvalidAuthorityIndex(index: nat) | UnexpectedGenesisBlockRequested

  predicate Keyed(m: BlockMap) {
    forall r :: r in m ==> m[r].Ref() == r
  }

  function Get(m: BlockMap, r: BlockRef): Option<Block> {
    if r in m then Some(m[r]) else None
  }

  /** The blocks that were found, in order. */
  function Present(answers: seq<Option<Block>>): seq<Block> {
    if answers == [] then []
    else (if answers[0].Some? then [answers[0].value] else []) + Present(answers[1..])
  }

  predicate Found(answer: Option<Block>) { answer.Some? }

  predicate AnswerOf(answer: Option<Block>, b: Block) { answer == Some(b) }

  /** All blocks that were found, in the order of the answers. */
  lemma {:induction false} PresentExact(answers: seq<Option<Block>>) returns (at: seq<nat>)
    ensures Selects(answers, Found, at) && Picks(answers, AnswerOf, at, Present(answers))
  {
    if answers == [] {
      at := [];
    } else {
      hide Selects, Picks, MovedUp;
      var rest := PresentExact(answers[1..]);
      var first := if answers[0].Some? then [answers[0].value] else [];
      SelectsOneMore(answers, Found, rest);
      PicksOneMore(answers, AnswerOf, rest, Present(answers[1..]), first);
      at := MovedUp(rest, answers[0].Some?);
    }
  }

  function Read(m: BlockMap, refs: seq<BlockRef>): (r: seq<Option<Block>>)
    ensures |r| == |refs| && forall i :: 0 <= i < |refs| ==> r[i] == Get(m, refs[i])
  {
    seq(|refs|, i requires 0 <= i < |refs| => Get(m, refs[i]))
  }

  function Min(a: nat, b: nat): nat { if a < b then a else b }

  /** The first `max` blocks. */
  function FirstOf(blocks: seq<Block>, max: nat): (r: seq<Block>)
    ensures r <= blocks && |r| <= max && (|r| < max ==> r == blocks)
  {
    blocks[..Min(max, |blocks|)]
  }

  // ----- validation

  predicate ValidRef(c: Committee, r: BlockRef) {
    c.IsValidIndex(r.author) && r.round != GENESIS_ROUND
  }

  /** The first unacceptable reference decides the error, the author being looked at first. */
  method Validate(c: Committee, refs: seq<BlockRef>) returns (e: Option<FetchError>)
    ensures e.None? <==> forall r :: r in refs ==> ValidRef(c, r)
    ensures e.Some? ==>
              exists i :: 0 <= i < |refs| && (forall k :: 0 <= k < i ==> ValidRef(c, refs[k])) &&
                e.value == if c.IsValidIndex(refs[i].author) then UnexpectedGenesisBlockRequested
                           else InvalidAuthorityIndex(refs[i].author)
  {
    for i := 0 to |refs|
      invariant forall k :: 0 <= k < i ==> ValidRef(c, refs[k])
    {
      assert refs[i] in refs;
      if !c.IsValidIndex(refs[i].author) {
        return Some(InvalidAuthorityIndex(refs[i].author));
      }
      if refs[i].round == GENESIS_ROUND {
        return Some(UnexpectedGenesisBlockRequested);
      }
    }
    return None;
  }

  // ----- commit sync

  /** Writes each answer to the position its reference came from. */
  method Scatter(slots: seq<Option<Block>>, indices: seq<nat>, answers: seq<Option<Block>>)
      returns (r: seq<Option<Block>>)
    requires |indices| == |answers| && forall k :: 0 <= k < |indices| ==> indices[k] < |slots|
    requires forall j, k :: 0 <= j < k < |indices| ==> indices[j] < indices[k]
    ensures |r| == |slots|
    ensures forall k :: 0 <= k < |indices| ==> r[indices[k]] == answers[k]
    ensures forall i :: 0 <= i < |slots| && i !in indices ==> r[i] == slots[i]
  {
    r := slots;
    for n := 0 to |indices|
      invariant |r| == |slots|
      invariant forall k :: 0 <= k < n ==> r[indices[k]] == answers[k]
      invariant forall i :: 0 <= i < |slots| && i !in indices[..n] ==> r[i] == slots[i]
    {
      r := r[indices[n] := answers[n]];
      assert forall i :: i in indices[..n] ==> i in indices[..n + 1];
      assert indices[n] in indices[..n + 1];
    }
    assert indices[..|indices|] == indices;
  }

  /** `indices` lists, in ascending order, the positions below `n` that are on one side of the GC round. */
  predicate Side(refs: seq<BlockRef>, n: nat, gcRound: nat, below: bool, indices: seq<nat>, side: seq<BlockRef>)
    requires n <= |refs|
  {
    && |indices| == |side|
    && (forall k :: 0 <= k < |indices| ==>
          && indices[k] < n && side[k] == refs[indices[k]]
          && (side[k].round < gcRound <==> below))
    && (forall j, k :: 0 <= j < k < |indices| ==> indices[j] < indices[k])
    && (forall i :: 0 <= i < n && (refs[i].round < gcRound <==> below) ==> i in indices)
  }

  /** One more position, on this side or the other. */
  lemma SideExtends(refs: seq<BlockRef>, n: nat, gcRound: nat, below: bool, indices: seq<nat>, side: seq<BlockRef>)
    requires n < |refs| && Side(refs, n, gcRound, below, indices, side)
    ensures if refs[n].round < gcRound <==> below then Side(refs, n + 1, gcRound, below, indices + [n], side + [refs[n]])
            else Side(refs, n + 1, gcRound, below, indices, side)
  {
    if refs[n].round < gcRound <==> below {
      assert n in indices + [n] && forall i :: i in indices ==> i in indices + [n];
    }
  }

  method Split(refs: seq<BlockRef>, gcRound: nat)
      returns (lowAt: seq<nat>, low: seq<BlockRef>, highAt: seq<nat>, high: seq<BlockRef>)
    ensures Side(refs, |refs|, gcRound, true, lowAt, low) && Side(refs, |refs|, gcRound, false, highAt, high)
  {
    lowAt, low, highAt, high := [], [], [], [];
    for i := 0 to |refs|
      invariant Side(refs, i, gcRound, true, lowAt, low) && Side(refs, i, gcRound, false, highAt, high)
    {
      hide Side;
      SideExtends(refs, i, gcRound, true, lowAt, low);
      SideExtends(refs, i, gcRound, false, highAt, high);
      if refs[i].round < gcRound {
        lowAt, low := lowAt + [i], low + [refs[i]];
      } else {
        highAt, high := highAt + [i], high + [refs[i]];
      }
    }
  }

  /**
   * Splitting by round, reading twice and scattering back is one lookup per reference, in request order:
   * in the store below the garbage-collection round, in the DAG from there on.
   */
  method FetchForCommitSync(requested: seq<BlockRef>, maxPerFetch: nat, gcRound: nat, store: BlockMap, dag: BlockMap)
      returns (blocks: seq<Block>)
    ensures var refs := requested[..Min(maxPerFetch, |requested|)];
            blocks == Present(seq(|refs|, i requires 0 <= i < |refs| =>
                        if refs[i].round < gcRound then Get(store, refs[i]) else Get(dag, refs[i])))
  {
    var refs := requested[..Min(maxPerFetch, |requested|)];
    var lowAt, low, highAt, high := Split(refs, gcRound);
    var slots: seq<Option<Block>> := seq(|refs|, _ => None);
    if low != [] {
      slots := Scatter(slots, lowAt, Read(store, low));
    }
    ghost var half := slots;
    if high != [] {
      slots := Scatter(slots, highAt, Read(dag, high));
    }
    forall i | 0 <= i < |refs|
      ensures slots[i] == if refs[i].round < gcRound then Get(store, refs[i]) else Get(dag, refs[i])
    {
      if refs[i].round < gcRound {
        var k :| 0 <= k < |lowAt| && lowAt[k] == i;
        assert low[k] == refs[i] && half[i] == Get(store, refs[i]);
        assert i !in highAt;
      } else {
        var k :| 0 <= k < |highAt| && highAt[k] == i;
        assert high[k] == refs[i];
      }
    }
    assert slots == seq(|refs|, i requires 0 <= i < |refs| =>
                      if refs[i].round < gcRound then Get(store, refs[i]) else Get(dag, refs[i]));
    blocks := Present(slots);
  }

  // ----- live sync: sorting and removing duplicates

  lemma RefsOrdered()
    ensures WeakOrder(RefBefore)
  {
  }

  /** Drops every reference that repeats the one before it. */
  function Dedup(s: seq<BlockRef>): (r: seq<BlockRef>)
    ensures |r| <= |s| && forall y :: y in r <==> y in s
  {
    if |s| < 2 then s
    else
      assert s == [s[0]] + s[1..];
      if s[0] == s[1] then Dedup(s[1..]) else [s[0]] + Dedup(s[1..])
  }

  /** Strictly ascending references. */
  ghost predicate RefsAscend(s: seq<BlockRef>) { forall i, j :: 0 <= i < j < |s| ==> s[i].Less(s[j]) }

  lemma {:induction false} DedupAscends(s: seq<BlockRef>)
    requires InOrder(RefBefore, s)
    ensures RefsAscend(Dedup(s)) && NoRepeats(Dedup(s))
  {
    if |s| < 2 {
    } else {
      DedupAscends(s[1..]);
      if s[0] != s[1] {
        forall k | 1 <= k < |s|
          ensures s[0].Less(s[k])
        {
          assert !s[1].Less(s[0]);
          Comparable(s[0], s[1]);
          Comparable(s[1], s[k]);
          assert k > 1 ==> !s[k].Less(s[1]);
        }
        forall x | x in Dedup(s[1..])
          ensures s[0].Less(x)
        {
          assert x in s[1..];
        }
        FirstIsLeast(s[0], Dedup(s[1..]));
      }
    }
  }

  lemma FirstIsLeast(r: BlockRef, s: seq<BlockRef>)
    requires RefsAscend(s) && NoRepeats(s) && forall x :: x in s ==> r.Less(x)
    ensures RefsAscend([r] + s) && NoRepeats([r] + s)
  {
    hide BlockRef.Less;
    assert !r.Less(r) by { NotLessItself(r); }
    forall k | 0 <= k < |s|
      ensures r.Less(s[k]) && r != s[k]
    {
      assert s[k] in s;
    }
  }

  lemma NotLessItself(r: BlockRef)
    ensures !r.Less(r)
  {
  }

  lemma PrependDistinct(b: Block, rest: seq<Block>)
    requires DistinctRefs(rest) && forall x :: x in rest ==> x.Ref() != b.Ref()
    ensures DistinctRefs([b] + rest)
  {
  }

  /** Reading distinct references gives distinct blocks. */
  lemma {:induction false} ReadDistinct(m: BlockMap, refs: seq<BlockRef>)
    requires Keyed(m) && NoRepeats(refs)
    ensures DistinctRefs(Present(Read(m, refs))) && |Present(Read(m, refs))| <= |refs|
    ensures forall b :: b in Present(Read(m, refs)) <==> b.Ref() in refs && b.Ref() in m && m[b.Ref()] == b
  {
    if refs == [] {
    } else {
      ReadDistinct(m, refs[1..]);
      var rest := Present(Read(m, refs[1..]));
      assert refs == [refs[0]] + refs[1..] && Read(m, refs)[1..] == Read(m, refs[1..]);
      if refs[0] in m {
        assert Present(Read(m, refs)) == [m[refs[0]]] + rest;
        PrependDistinct(m[refs[0]], rest);
      } else {
        assert Present(Read(m, refs)) == rest;
      }
    }
  }

  /** Reading ascending references gives ascending blocks. */
  lemma {:induction false} ReadAscends(m: BlockMap, refs: seq<BlockRef>)
    requires Keyed(m) && RefsAscend(refs)
    ensures var r := Present(Read(m, refs));
      forall i, j :: 0 <= i < j < |r| ==> r[i].Ref().Less(r[j].Ref())
  {
    if refs == [] {
    } else {
      ReadAscends(m, refs[1..]);
      AscendNoRepeats(refs[1..]);
      ReadDistinct(m, refs[1..]);
      var rest := Present(Read(m, refs[1..]));
      assert Read(m, refs)[1..] == Read(m, refs[1..]);
      forall k | 0 <= k < |rest|
        ensures refs[0].Less(rest[k].Ref())
      {
        assert rest[k] in rest;
      }
    }
  }

  lemma AscendNoRepeats(refs: seq<BlockRef>)
    requires RefsAscend(refs)
    ensures NoRepeats(refs)
  {
    forall i, j | 0 <= i < j < |refs|
      ensures refs[i] != refs[j]
    {
      assert refs[i].Less(refs[j]);
    }
  }

  // ----- live sync: additional blocks from the cache

  predicate Within(b: Block, start: nat, end: nat) { start <= b.round < end }

  /** The blocks with rounds in `[start, end)`, in order. */
  function InRange(recent: seq<Block>, start: nat, end: nat): seq<Block> {
    if recent == [] then []
    else
      var n := |recent| - 1;
      InRange(recent[..n], start, end) + if Within(recent[n], start, end) then [recent[n]] else []
  }

  lemma {:induction false} InRangeMembers(recent: seq<Block>, start: nat, end: nat)
    requires DistinctRefs(recent)
    ensures DistinctRefs(InRange(recent, start, end))
    ensures forall b :: b in InRange(recent, start, end) <==> b in recent && Within(b, start, end)
  {
    if recent == [] {
    } else {
      var n := |recent| - 1;
      assert recent == recent[..n] + [recent[n]];
      InRangeMembers(recent[..n], start, end);
      LastIsNew(recent, InRange(recent[..n], start, end));
    }
  }

  /** The last block of a distinct list can be appended to any distinct part of the rest. */
  lemma LastIsNew(recent: seq<Block>, part: seq<Block>)
    requires recent != [] && DistinctRefs(recent) && DistinctRefs(part)
    requires forall b :: b in part ==> b in recent[..|recent| - 1]
    ensures DistinctRefs(part + [recent[|recent| - 1]])
  {
    var n := |recent| - 1;
    forall k | 0 <= k < |part|
      ensures part[k].Ref() != recent[n].Ref()
    {
      assert part[k] in part;
      var m :| 0 <= m < n && recent[m] == part[k];
    }
  }

  function InWindow(start: nat, end: nat): Block -> bool { (b: Block) => start <= b.round < end }

  predicate Same(b: Block, c: Block) { b == c }

  /** All cached blocks in the range, in the order of the cache. */
  lemma {:induction false} InRangeExact(recent: seq<Block>, start: nat, end: nat) returns (at: seq<nat>)
    ensures Selects(recent, InWindow(start, end), at) && Picks(recent, Same, at, InRange(recent, start, end))
  {
    if recent == [] {
      at := [];
    } else {
      hide Selects, Picks;
      var n := |recent| - 1;
      var front := InRangeExact(recent[..n], start, end);
      var last := if Within(recent[n], start, end) then [recent[n]] else [];
      SelectsLast(recent, InWindow(start, end), front);
      PicksLast(recent, Same, front, InRange(recent[..n], start, end), last);
      at := if Within(recent[n], start, end) then front + [n] else front;
    }
  }

  lemma {:induction false} InRangePrefix(recent: seq<Block>, start: nat, end: nat, i: nat)
    requires i <= |recent|
    ensures InRange(recent[..i], start, end) <= InRange(recent, start, end)
  {
    if i == |recent| {
      assert recent[..i] == recent;
    } else {
      var n := |recent| - 1;
      InRangePrefix(recent[..n], start, end, i);
      assert recent[..n][..i] == recent[..i];
    }
  }

  lemma {:induction false} NoRange(recent: seq<Block>, start: nat, end: nat)
    requires start >= end
    ensures InRange(recent, start, end) == []
  {
    if recent == [] {
    } else {
      NoRange(recent[..|recent| - 1], start, end);
    }
  }

  /** The first `limit` cached blocks of one authority with rounds in `[start, end)`. */
  method CachedBlocksInRange(recent: seq<Block>, start: nat, end: nat, limit: nat) returns (blocks: seq<Block>)
    ensures var all := InRange(recent, start, end);
      blocks == all[..Min(limit, |all|)]
  {
    blocks := [];
    if start >= end || limit == 0 {
      if start >= end {
        NoRange(recent, start, end);
      }
      return;
    }
    for i := 0 to |recent|
      invariant |blocks| < limit && blocks == InRange(recent[..i], start, end)
    {
      assert recent[..i + 1][..i] == recent[..i];
      if Within(recent[i], start, end) {
        blocks := blocks + [recent[i]];
        if |blocks| >= limit {
          InRangePrefix(recent, start, end, i + 1);
          return;
        }
      }
    }
    assert recent[..|recent|] == recent;
  }

  /** For each author of a found block, the lowest round found. */
  ghost predicate IsLowest(found: seq<Block>, lowest: map<nat, nat>) {
    && (forall b :: b in found ==> b.author in lowest && lowest[b.author] <= b.round)
    && (forall a :: a in lowest ==> exists b :: b in found && b.author == a && b.round == lowest[a])
  }

  /** One more block lowers its author's entry, or makes one. */
  function Lowered(lowest: map<nat, nat>, b: Block): map<nat, nat> {
    lowest[b.author := if b.author in lowest then Min(lowest[b.author], b.round) else b.round]
  }

  function LowestOf(found: seq<Block>): map<nat, nat> {
    if found == [] then map[] else Lowered(LowestOf(found[..|found| - 1]), found[|found| - 1])
  }

  lemma LoweredIsLowest(found: seq<Block>, lowest: map<nat, nat>, b: Block)
    requires IsLowest(found, lowest)
    ensures IsLowest(found + [b], Lowered(lowest, b))
  {
    var after := Lowered(lowest, b);
    forall a | a in after
      ensures exists x :: x in found + [b] && x.author == a && x.round == after[a]
    {
      if a == b.author && after[a] == b.round {
        assert b in found + [b];
      } else {
        var x :| x in found && x.author == a && x.round == lowest[a];
        assert x in found + [b];
      }
    }
  }

  method LowestRounds(found: seq<Block>) returns (lowest: map<nat, nat>)
    ensures lowest == LowestOf(found) && IsLowest(found, lowest)
  {
    lowest := map[];
    for i := 0 to |found|
      invariant lowest == LowestOf(found[..i]) && IsLowest(found[..i], lowest)
    {
      hide IsLowest, Lowered;
      assert found[..i + 1] == found[..i] + [found[i]] && found[..i + 1][..i] == found[..i];
      LoweredIsLowest(found[..i], lowest, found[i]);
      lowest := Lowered(lowest, found[i]);
    }
    assert found[..|found|] == found;
  }

  /** The keys in ascending order, except that `own` comes first. */
  function OwnFirst(keys: set<nat>, own: nat, n: nat): (r: seq<nat>)
    ensures forall a :: a in r <==> a in keys && (a == own || a < n)
    ensures forall i, j :: 0 <= i < j < |r| && r[i] != own ==> r[i] < r[j]
    ensures NoRepeats(r)
    ensures own in keys ==> r != [] && r[0] == own
  {
    if n == 0 then if own in keys then [own] else []
    else
      var rest := OwnFirst(keys, own, n - 1);
      assert forall i :: 0 <= i < |rest| ==> rest[i] in rest;
      if n - 1 in keys && n - 1 != own then rest + [n - 1] else rest
  }

  /** What a live request sees: the peer's accepted rounds, the found blocks, and the cache. */
  datatype LiveRequest = LiveRequest(accepted: seq<nat>, lowest: map<nat, nat>, recent: seq<seq<Block>>) {

    /** The peer may lack blocks of `a` below the lowest one found. */
    predicate Open(a: nat) { a < |accepted| && a in lowest && accepted[a] < lowest[a] }

    /** Cached blocks of `a` between the peer's accepted round and the lowest round found, both exclusive. */
    function ExtrasOf(a: nat): seq<Block> {
      if Open(a) && a < |recent| then InRange(recent[a], accepted[a] + 1, lowest[a]) else []
    }
  }

  predicate Extra(l: LiveRequest, a: nat, b: Block) {
    l.Open(a) && a < |l.recent| && b in l.recent[a] && l.accepted[a] < b.round < l.lowest[a]
  }

  /** The extras of the authorities in `served`, one authority after the other. */
  ghost function Extras(l: LiveRequest, served: seq<nat>): seq<Block> {
    if served == [] then []
    else Extras(l, served[..|served| - 1]) + l.ExtrasOf(served[|served| - 1])
  }

  lemma {:induction false} ExtrasPrefix(l: LiveRequest, order: seq<nat>, k: nat)
    requires k <= |order|
    ensures Extras(l, order[..k]) <= Extras(l, order)
  {
    if k == |order| {
      assert order[..k] == order;
    } else {
      var n := |order| - 1;
      ExtrasPrefix(l, order[..n], k);
      assert order[..n][..k] == order[..k];
    }
  }

  /** After serving `served` the answer has not been cut off. */
  ghost predicate Room(l: LiveRequest, found: seq<Block>, max: nat, served: seq<nat>) {
    (exists a :: a in served && l.Open(a)) ==> |found| + |Extras(l, served)| < max
  }

  /** Serving more does not make room again. */
  lemma {:induction false} RoomShrinks(l: LiveRequest, found: seq<Block>, max: nat, order: seq<nat>, j: nat, k: nat)
    requires j <= k <= |order| && Room(l, found, max, order[..k])
    ensures Room(l, found, max, order[..j]) && |Extras(l, order[..j])| <= |Extras(l, order[..k])|
    decreases k - j
  {
    if j >= k {
    } else {
      assert order[..k][..k - 1] == order[..k - 1];
      assert forall a :: a in order[..k - 1] ==> a in order[..k];
      RoomShrinks(l, found, max, order, j, k - 1);
    }
  }

  /**
   * The request panics: it gets, before the answer is cut off, to an authority for which the peer has
   * sent no accepted round.
   */
  ghost predicate OutOfBounds(l: LiveRequest, found: seq<Block>, max: nat, order: seq<nat>) {
    exists k :: 0 <= k < |order| && order[k] >= |l.accepted| && Reaches(l, found, max, order, k)
  }

  ghost predicate Reaches(l: LiveRequest, found: seq<Block>, max: nat, order: seq<nat>, k: nat)
    requires k <= |order|
  {
    (forall j :: 0 <= j < k ==> order[j] < |l.accepted|) && Room(l, found, max, order[..k])
  }

  /** The cache lists distinct blocks of each authority. */
  ghost predicate CacheOk(recent: seq<seq<Block>>) {
    forall a :: 0 <= a < |recent| ==> DistinctRefs(recent[a]) && forall b :: b in recent[a] ==> b.author == a
  }

  /** `blocks` starts with what was found and goes on with distinct extras of the authorities in `served`. */
  ghost predicate Answer(l: LiveRequest, found: seq<Block>, served: seq<nat>, max: nat, blocks: seq<Block>) {
    && |found| <= |blocks| <= max && blocks[..|found|] == found && DistinctRefs(blocks)
    && (forall b :: b in blocks[|found|..] ==> b.author in served && Extra(l, b.author, b))
  }

  ghost predicate Exhausted(l: LiveRequest, a: nat, blocks: seq<Block>) {
    forall b :: Extra(l, a, b) ==> b in blocks
  }

  /** Appending extras of an authority not served before keeps the answer well formed. */
  lemma Extend(l: LiveRequest, found: seq<Block>, served: seq<nat>, max: nat, blocks: seq<Block>, a: nat, more: seq<Block>)
    requires Answer(l, found, served, max, blocks) && IsLowest(found, l.lowest)
    requires a !in served && DistinctRefs(more) && |blocks| + |more| <= max
    requires forall b :: b in more ==> b.author == a && Extra(l, a, b)
    ensures Answer(l, found, served + [a], max, blocks + more)
  {
    var all := blocks + more;
    assert all[|found|..] == blocks[|found|..] + more;
    forall i, j | 0 <= i < j < |all|
      ensures all[i].Ref() != all[j].Ref()
    {
      if i < |blocks| <= j {
        assert all[j] in more;
        if i < |found| {
          assert blocks[..|found|][i] in found;
        } else {
          assert blocks[|found|..][i - |found|] == blocks[i];
        }
      }
    }
  }

  /**
   * The live answer: everything requested that is known, then cached blocks the peer seems to lack, own
   * blocks first, up to the limit; and when the limit is not reached, all of them. `None` stands for the
   * index out of bounds that a list of accepted rounds shorter than the committee may lead to.
   */
  method FetchLive(c: Committee, own: nat, requested: seq<BlockRef>, accepted: seq<nat>, max: nat, dag: BlockMap,
                   recent: seq<seq<Block>>)
      returns (r: Option<seq<Block>>)
    requires own < c.Size() == |recent| && Keyed(dag) && CacheOk(recent)
    requires forall r :: r in requested ==> r.author < c.Size()
    ensures var found := FoundOf(requested, max, dag);
      var l := LiveRequest(accepted, LowestOf(found), recent);
      && IsLowest(found, l.lowest)
      && (r.None? <==> OutOfBounds(l, found, max, OwnFirst(l.lowest.Keys, own, c.Size())))
      && (r.Some? ==> IsLiveAnswer(l, own, found, max, r.value))
      && (r.Some? ==> r.value == FirstOf(found + Extras(l, OwnFirst(l.lowest.Keys, own, c.Size())), max))
  {
    var found := FoundOf(requested, max, dag);
    FoundMembers(requested, max, dag);
    var lowest := LowestRounds(found);
    var order := OwnFirst(lowest.Keys, own, c.Size());
    r := AddExtras(LiveRequest(accepted, lowest, recent), own, max, found, order);
  }

  /** The requested blocks that are known, by reference and without duplicates. */
  function FoundOf(requested: seq<BlockRef>, max: nat, dag: BlockMap): seq<Block> {
    Present(Read(dag, Dedup(Sort(RefBefore, requested[..Min(max, |requested|)]))))
  }

  lemma FoundMembers(requested: seq<BlockRef>, max: nat, dag: BlockMap)
    requires Keyed(dag)
    ensures var found := FoundOf(requested, max, dag);
      && DistinctRefs(found) && |found| <= max
      && (forall i, j :: 0 <= i < j < |found| ==> found[i].Ref().Less(found[j].Ref()))
      && forall b :: b in found <==> b.Ref() in requested[..Min(max, |requested|)] && b.Ref() in dag && dag[b.Ref()] == b
  {
    hide Dedup, Present, Read, Sort, DistinctRefs, NoRepeats, RefsAscend, InOrder;
    var refs := requested[..Min(max, |requested|)];
    var sorted := Sort(RefBefore, refs);
    RefsOrdered();
    SortInOrder(RefBefore, refs);
    SortKeeps(RefBefore, refs);
    DedupAscends(sorted);
    ReadDistinct(dag, Dedup(sorted));
    ReadAscends(dag, Dedup(sorted));
  }

  /** With a full list of accepted rounds there is no index out of bounds. */
  lemma FullListInBounds(l: LiveRequest, found: seq<Block>, max: nat, own: nat, size: nat)
    requires own < size == |l.accepted|
    ensures !OutOfBounds(l, found, max, OwnFirst(l.lowest.Keys, own, size))
  {
    var order := OwnFirst(l.lowest.Keys, own, size);
    assert forall k :: 0 <= k < |order| ==> order[k] in order;
  }

  /** What a live request is answered with. */
  ghost predicate IsLiveAnswer(l: LiveRequest, own: nat, found: seq<Block>, max: nat, blocks: seq<Block>) {
    && |found| <= |blocks| <= max && blocks[..|found|] == found && DistinctRefs(blocks)
    && (forall b :: b in blocks[|found|..] ==> Extra(l, b.author, b))
    && (|blocks| < max ==> forall a :: Exhausted(l, a, blocks))
    && ((exists b :: b in blocks[|found|..] && b.author != own) ==> Exhausted(l, own, blocks))
  }

  lemma NoneDistinct()
    ensures DistinctRefs([])
  {
  }

  lemma PrefixDistinct(blocks: seq<Block>, n: nat)
    requires DistinctRefs(blocks) && n <= |blocks|
    ensures DistinctRefs(blocks[..n]) && forall b :: b in blocks[..n] ==> b in blocks
  {
  }

  /** Adds what the peer lacks of one authority, as far as the limit allows. */
  method AddExtrasOf(l: LiveRequest, max: nat, found: seq<Block>, blocks: seq<Block>, ghost served: seq<nat>, a: nat)
      returns (all: seq<Block>)
    requires CacheOk(l.recent) && IsLowest(found, l.lowest)
    requires Answer(l, found, served, max, blocks) && a !in served && a in l.lowest && a < |l.accepted| && a < |l.recent|
    ensures Answer(l, found, served + [a], max, all) && blocks <= all
    ensures all == (blocks + l.ExtrasOf(a))[..Min(max, |blocks| + |l.ExtrasOf(a)|)]
    ensures |all| == |blocks| + |l.ExtrasOf(a)| ==> Exhausted(l, a, all)
  {
    hide DistinctRefs, IsLowest;
    NoneDistinct();
    var more := [];
    if l.accepted[a] < l.lowest[a] {
      more := CachedBlocksInRange(l.recent[a], l.accepted[a] + 1, l.lowest[a], max - |blocks|);
      InRangeMembers(l.recent[a], l.accepted[a] + 1, l.lowest[a]);
      PrefixDistinct(l.ExtrasOf(a), |more|);
    }
    Extend(l, found, served, max, blocks, a, more);
    all := blocks + more;
  }

  /** The authorities whose range is used up before the limit cuts the answer off. */
  ghost predicate AllExhausted(l: LiveRequest, served: seq<nat>, blocks: seq<Block>) {
    forall a :: a in served ==> Exhausted(l, a, blocks)
  }

  /** Own blocks come first: another authority's extras are only there when the own ones all are. */
  lemma OwnBeforeOthers(l: LiveRequest, own: nat, max: nat, found: seq<Block>, order: seq<nat>, k: nat, blocks: seq<Block>)
    requires k < |order| && (own in l.lowest ==> order[0] == own)
    requires Answer(l, found, order[..k + 1], max, blocks) && AllExhausted(l, order[..k], blocks)
    ensures (exists b :: b in blocks[|found|..] && b.author != own) ==> Exhausted(l, own, blocks)
  {
    if own in l.lowest {
      if k == 0 {
        assert order[..1] == [own];
      } else {
        assert order[..k][0] == own;
      }
    }
  }

  method AddExtras(l: LiveRequest, own: nat, max: nat, found: seq<Block>, order: seq<nat>) returns (r: Option<seq<Block>>)
    requires CacheOk(l.recent)
    requires |found| <= max && DistinctRefs(found) && IsLowest(found, l.lowest)
    requires forall a :: a in order <==> a in l.lowest
    requires forall a :: a in order ==> a < |l.recent|
    requires NoRepeats(order)
    requires own in l.lowest ==> order != [] && order[0] == own
    ensures r.None? <==> OutOfBounds(l, found, max, order)
    ensures r.Some? ==> IsLiveAnswer(l, own, found, max, r.value)
    ensures r.Some? ==> r.value == FirstOf(found + Extras(l, order), max)
  {
    hide IsLowest, CacheOk, LiveRequest.ExtrasOf, Extras, Room, DistinctRefs, Exhausted;
    var blocks := found;
    NothingServed(l, found, max);
    for k := 0 to |order|
      invariant Answer(l, found, order[..k], max, blocks) && blocks == found + Extras(l, order[..k])
      invariant AllExhausted(l, order[..k], blocks) && Reaches(l, found, max, order, k)
    {
      var a := order[k];
      assert a in order && order[..k] + [a] == order[..k + 1];
      if a >= |l.accepted| {
        return None;
      }
      var before := blocks;
      blocks := AddExtrasOf(l, max, found, before, order[..k], a);
      CountStep(l, found, max, order, k);
      StillExhausted(l, order[..k], before, blocks);
      if l.accepted[a] < l.lowest[a] && |blocks| >= max {
        OwnBeforeOthers(l, own, max, found, order, k, blocks);
        ExtrasPrefix(l, order, k + 1);
        CutAnswer(found, Extras(l, order[..k]), l.ExtrasOf(a), Extras(l, order), max, blocks);
        CutOff(l, found, max, order, k);
        return Some(blocks);
      }
    }
    assert order[..|order|] == order;
    AllServed(l, own, max, found, order, blocks);
    return Some(blocks);
  }

  /** A full answer is the start of what serving everybody would give. */
  lemma CutAnswer(
    found: seq<Block>, before: seq<Block>, here: seq<Block>, whole: seq<Block>, max: nat, blocks: seq<Block>)
    requires blocks == (found + before + here)[..Min(max, |found + before| + |here|)] && |blocks| >= max
    requires before + here <= whole
    ensures blocks == FirstOf(found + whole, max)
  {
    assert found + before + here == found + (before + here);
    assert found + (before + here) <= found + whole;
  }

  lemma NothingServed(l: LiveRequest, found: seq<Block>, max: nat)
    ensures Extras(l, []) == [] && Room(l, found, max, [])
  {
  }

  /** Counting the extras of one more authority. */
  lemma CountStep(l: LiveRequest, found: seq<Block>, max: nat, order: seq<nat>, k: nat)
    requires k < |order| && Room(l, found, max, order[..k])
    ensures Extras(l, order[..k + 1]) == Extras(l, order[..k]) + l.ExtrasOf(order[k])
    ensures !l.Open(order[k]) ==> l.ExtrasOf(order[k]) == [] && Room(l, found, max, order[..k + 1])
    ensures l.Open(order[k]) ==> (Room(l, found, max, order[..k + 1]) <==> |found| + |Extras(l, order[..k + 1])| < max)
  {
    assert order[..k + 1][..k] == order[..k] && order[..k + 1] == order[..k] + [order[k]];
  }

  /** Once the answer is cut off, no later authority is reached. */
  lemma CutOff(l: LiveRequest, found: seq<Block>, max: nat, order: seq<nat>, k: nat)
    requires k < |order| && (forall j :: 0 <= j <= k ==> order[j] < |l.accepted|) && !Room(l, found, max, order[..k + 1])
    ensures !OutOfBounds(l, found, max, order)
  {
    forall n | 0 <= n < |order| && order[n] >= |l.accepted|
      ensures !Room(l, found, max, order[..n])
    {
      if Room(l, found, max, order[..n]) {
        RoomShrinks(l, found, max, order, k + 1, n);
      }
    }
  }

  lemma AllServed(l: LiveRequest, own: nat, max: nat, found: seq<Block>, order: seq<nat>, blocks: seq<Block>)
    requires Answer(l, found, order, max, blocks) && AllExhausted(l, order, blocks) && forall a :: a in order <==> a in l.lowest
    ensures IsLiveAnswer(l, own, found, max, blocks)
  {
    forall a
      ensures Exhausted(l, a, blocks)
    {
      if a in l.lowest {
        assert a in order;
      }
    }
  }

  lemma StillExhausted(l: LiveRequest, served: seq<nat>, before: seq<Block>, after: seq<Block>)
    requires AllExhausted(l, served, before) && before <= after
    ensures AllExhausted(l, served, after)
  {
  }
}
