/** Block references, their order, and verified blocks. */
module Blocks {

  const GENESIS_ROUND: nat := 0

  datatype Slot = Slot(round: nat, authority: nat)

  /** A reference names one block; the digest stands for its whole content. */
  datatype BlockRef = BlockRef(round: nat, author: nat, digest: nat) {

    function ToSlot(): Slot { Slot(round, author) }

    /** The derived order: round first, then author, then digest. */
    predicate Less(other: BlockRef) {
      || round < other.round
      || (round == other.round && author < other.author)
      || (round == other.round && author == other.author && digest < other.digest)
    }
  }

  type BlockMap = map<BlockRef, Block>

  predicate RefBefore(a: BlockRef, b: BlockRef) { a.Less(b) }

  /** Blocks that name different references. */
  ghost predicate DistinctRefs(blocks: seq<Block>) {
    forall i, j :: 0 <= i < j < |blocks| ==> blocks[i].Ref() != blocks[j].Ref()
  }

  ghost function Authors(refs: seq<BlockRef>): set<nat> { set r | r in refs :: r.author }

  /** The order is total. */
  lemma Comparable(a: BlockRef, b: BlockRef)
    ensures a == b || a.Less(b) || b.Less(a)
  {
  }

  datatype Block = Block(
    epoch: nat,
    round: nat,
    author: nat,
    digest: nat,
    timestamp: nat,
    ancestors: seq<BlockRef>,
    commitVotes: seq<nat>)
  {
    function Ref(): BlockRef { BlockRef(round, author, digest) }
  }

  /** Every finite non-empty set of references has a least element. */
  lemma {:induction false} LeastExists(s: set<BlockRef>) returns (m: BlockRef)
    requires s != {}
    ensures m in s && forall x :: x in s ==> !x.Less(m)
    decreases |s|
  {
    m :| m in s;
    var first, rest := m, s - {m};
    assert forall x :: x in s ==> x == first || x in rest;
    if rest != {} {
      assert |rest| < |s|;
      var k := LeastExists(rest);
      if k.Less(m) {
        m := k;
      }
    }
  }
}
