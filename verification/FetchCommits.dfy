/** Answering a peer's request for commits: only as far as a quorum of votes certifies them. */
module FetchCommits {

  import opened Committees
  import opened Blocks
  import opened FetchBlocks

  /** What the store holds: commit indices, the blocks that vote for each, and blocks. */
  datatype Store = Store(commits: set<nat>, votes: map<nat, seq<BlockRef>>, blocks: BlockMap) {

    /** The blocks that vote for commit `index`. */
    function VotesFor(index: nat): seq<BlockRef> {
      if index in votes then votes[index] else []
    }

    /** The stored commits with indices in `[start, end]`, in ascending order. */
    function Scan(start: nat, end: int): (r: seq<nat>)
      ensures forall i :: i in r <==> start <= i <= end && i in commits
      ensures forall j, k :: 0 <= j < k < |r| ==> r[j] < r[k]
      decreases end - start
    {
      if start > end then []
      else
        var rest := Scan(start + 1, end);
        assert forall k :: 0 <= k < |rest| ==> rest[k] in rest;
        if start in commits then [start] + rest else rest
    }
  }

  /** Whether distinct authors of the blocks that vote for `index` hold a quorum. */
  ghost predicate Certified(c: Committee, s: Store, index: nat) {
    c.IsQuorum(Authors(s.VotesFor(index)))
  }

  method ReachesQuorum(c: Committee, votes: seq<BlockRef>) returns (reached: bool)
    requires c.Valid() && forall r :: r in votes ==> r.author < c.Size()
    ensures reached == c.IsQuorum(Authors(votes))
  {
    var aggregator := new StakeAggregator(c);
    reached := false;
    StakeEmpty(c.stakes, |c.stakes|);
    for i := 0 to |votes|
      invariant aggregator.Valid() && aggregator.committee == c && fresh(aggregator)
      invariant aggregator.votes == Authors(votes[..i])
      invariant reached == c.IsQuorum(aggregator.votes)
    {
      assert votes[..i + 1] == votes[..i] + [votes[i]];
      reached := aggregator.Add(votes[i].author);
    }
    assert votes[..|votes|] == votes;
  }

  /**
   * The answer is the longest run of stored commits from `start`, within the batch, that ends with a
   * certified commit, and the blocks that certify it.
   */
  method HandleFetchCommits(c: Committee, s: Store, start: nat, end: nat, batch: nat)
      returns (commits: seq<nat>, certifiers: seq<Block>)
    requires c.Valid() && start + batch > 0
    requires forall i, r :: i in s.votes && r in s.votes[i] ==> r.author < c.Size()
    ensures var last := if end < start + batch then end else start + batch - 1;
            && commits <= s.Scan(start, last)
            && (commits != [] ==> Certified(c, s, commits[|commits| - 1]))
            && (forall i :: i in s.Scan(start, last)[|commits|..] ==> !Certified(c, s, i))
    ensures certifiers == if commits == [] then [] else Present(Read(s.blocks, s.VotesFor(commits[|commits| - 1])))
  {
    var last := if end < start + batch then end else start + batch - 1;
    var scanned := s.Scan(start, last);
    commits := scanned;
    var votes := [];
    while commits != []
      invariant commits <= scanned && votes == []
      invariant forall i :: i in scanned[|commits|..] ==> !Certified(c, s, i)
    {
      var index := commits[|commits| - 1];
      var reached := ReachesQuorum(c, s.VotesFor(index));
      if reached {
        votes := s.VotesFor(index);
        break;
      }
      assert scanned[|commits| - 1..] == [index] + scanned[|commits|..];
      commits := commits[..|commits| - 1];
    }
    certifiers := Present(Read(s.blocks, votes));
  }
}
