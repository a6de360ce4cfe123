/** What commits the network has voted for: the highest vote of each authority and the quorum index. */
module CommitVotes {

  import opened Committees
  import opened Blocks
  import opened OrderStatistics

  const GENESIS_COMMIT_INDEX: nat := 0

  /** Whether `author` voted, in one of `blocks`, for commit `index` or a later one. */
  ghost predicate VotedFor(blocks: seq<Block>, author: nat, index: int) {
    exists b, v :: b in blocks && b.author == author && v in b.commitVotes && v >= index
  }

  /** The authorities that voted for commit `index`, directly or by voting for a later one. */
  ghost function VotersFor(c: Committee, blocks: seq<Block>, index: int): set<nat> {
    set a | 0 <= a < c.Size() && (index <= 0 || VotedFor(blocks, a, index))
  }

  class CommitVoteMonitor {
    const committee: Committee
    var highest: seq<nat>
    ghost var observed: seq<Block>

    /** Each entry is the highest vote among the observed blocks of that authority, or zero. */
    ghost predicate Valid()
      reads this
    {
      && committee.Valid() && |highest| == committee.Size()
      && forall a, index: int :: 0 <= a < |highest| && index > 0 ==>
           (highest[a] >= index <==> VotedFor(observed, a, index))
    }

    constructor (c: Committee)
      requires c.Valid()
      ensures Valid() && committee == c && observed == []
    {
      committee := c;
      highest := seq(|c.stakes|, _ => 0);
      observed := [];
    }

    /** Raises the author's entry to the highest vote in the block; no entry ever goes down. */
    method ObserveBlock(block: Block)
      requires Valid() && block.author < committee.Size()
      modifies this
      ensures Valid() && observed == old(observed) + [block]
      ensures forall a :: 0 <= a < |highest| ==> highest[a] >= old(highest[a])
    {
      var author := block.author;
      var i := 0;
      while i < |block.commitVotes|
        invariant 0 <= i <= |block.commitVotes|
        invariant |highest| == committee.Size() && observed == old(observed)
        invariant forall a :: 0 <= a < |highest| && a != author ==> highest[a] == old(highest[a])
        invariant highest[author] >= old(highest[author])
        invariant highest[author] == old(highest[author]) || highest[author] in block.commitVotes[..i]
        invariant forall v :: v in block.commitVotes[..i] ==> highest[author] >= v
      {
        if block.commitVotes[i] > highest[author] {
          highest := highest[author := block.commitVotes[i]];
        }
        assert block.commitVotes[..i + 1] == block.commitVotes[..i] + [block.commitVotes[i]];
        i := i + 1;
      }
      assert block.commitVotes[..i] == block.commitVotes;
      observed := observed + [block];
      forall a, index: int | 0 <= a < |highest| && index > 0
        ensures highest[a] >= index <==> VotedFor(observed, a, index)
      {
        VotedAppend(old(observed), block, a, index);
      }
    }

    static lemma VotedAppend(blocks: seq<Block>, block: Block, a: nat, index: int)
      ensures VotedFor(blocks + [block], a, index)
         <==> VotedFor(blocks, a, index)
              || (block.author == a && exists v :: v in block.commitVotes && v >= index)
    {
      if VotedFor(blocks, a, index) {
        var b, v :| b in blocks && b.author == a && v in b.commitVotes && v >= index;
        assert b in blocks + [block];
      }
      if block.author == a && exists v :: v in block.commitVotes && v >= index {
        assert block in blocks + [block];
      }
    }

    /** The highest commit index that a quorum has voted for, over everything observed. */
    method QuorumCommitIndex() returns (index: nat)
      requires Valid()
      ensures committee.IsQuorum(VotersFor(committee, observed, index))
      ensures forall later: int :: later > index ==> !committee.IsQuorum(VotersFor(committee, observed, later))
    {
      var point := QuorumPoint(committee, true, highest);
      index := GENESIS_COMMIT_INDEX;
      if point.Some? {
        index := point.value;
      }
      VotersAreReaching(index);
      forall later: int | later > index
        ensures !committee.IsQuorum(VotersFor(committee, observed, later))
      {
        VotersAreReaching(later);
        assert Ahead(true, later, index);
      }
    }

    lemma VotersAreReaching(index: int)
      requires Valid()
      ensures VotersFor(committee, observed, index) == Reaching(true, highest, index)
    {
    }
  }

  /** Observing more blocks never lowers the quorum index. */
  lemma QuorumIndexNeverDrops(c: Committee, seen: seq<Block>, more: seq<Block>, v: nat, w: nat)
    requires c.IsQuorum(VotersFor(c, seen, v))
    requires forall later: int :: later > w ==> !c.IsQuorum(VotersFor(c, seen + more, later))
    ensures v <= w
  {
    forall a | a in VotersFor(c, seen, v)
      ensures a in VotersFor(c, seen + more, v)
    {
      if v > 0 {
        var b, vote :| b in seen && b.author == a && vote in b.commitVotes && vote >= v;
        assert b in seen + more;
      }
    }
    QuorumMonotone(c, VotersFor(c, seen, v), VotersFor(c, seen + more, v));
  }
}
