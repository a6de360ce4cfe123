/** Verification of a block's own structure and of its timestamp against its ancestors. */
module BlockVerifier {
  import opened Committees
  import opened Blocks

  datatype Context = Context(committee: Committee, genesis: set<BlockRef>)

  datatype VerifyError =
    | WrongEpoch
    | UnexpectedGenesisBlock
    | InvalidAuthorityIndex
    | TooManyAncestors
    | InsufficientParentStakes(parentStakes: nat)
    | InvalidAncestorAuthorityIndex(author: nat)
    | InvalidAncestorPosition(position: nat)
    | InvalidAncestorRound(round: nat)
    | InvalidGenesisAncestor(ancestor: BlockRef)
    | DuplicatedAncestorsAuthority(author: nat)
    | InvalidBlockTimestamp(maxTimestamp: nat)

  datatype Result = Ok | Err(error: VerifyError)

  /** Authors of the ancestors among the first `n` that sit in the round just below the block. */
  ghost function ParentAuthors(b: Block, n: nat): set<nat>
    requires n <= |b.ancestors|
  {
    set k | 0 <= k < n && b.ancestors[k].round + 1 == b.round :: b.ancestors[k].author
  }

  /** Every authority appears at most once among the ancestors. */
  ghost predicate DistinctAuthors(b: Block) {
    forall i, j :: 0 <= i < j < |b.ancestors| ==> b.ancestors[i].author != b.ancestors[j].author
  }

  ghost predicate AncestorsInOrder(ctx: Context, b: Block) {
    forall a :: a in b.ancestors ==>
      && ctx.committee.IsValidIndex(a.author)
      && a.round < b.round
      && (a.round == GENESIS_ROUND ==> a in ctx.genesis)
  }

  /** The structure that the commit rule relies on. */
  ghost predicate WellFormed(ctx: Context, b: Block) {
    && b.epoch == ctx.committee.epoch
    && b.round > GENESIS_ROUND
    && ctx.committee.IsValidIndex(b.author)
    && 0 < |b.ancestors| <= ctx.committee.Size()
    && b.ancestors[0].author == b.author
    && DistinctAuthors(b)
    && AncestorsInOrder(ctx, b)
    && ctx.committee.IsQuorum(ParentAuthors(b, |b.ancestors|))
  }

  /** What is wrong with the ancestor at position `i`, if anything, in the order of the checks. */
  ghost function AncestorError(ctx: Context, b: Block, i: nat): (e: Option<VerifyError>)
    requires i < |b.ancestors|
  {
    var a := b.ancestors[i];
    if !ctx.committee.IsValidIndex(a.author) then Some(InvalidAncestorAuthorityIndex(a.author))
    else if (i == 0) != (a.author == b.author) then Some(InvalidAncestorPosition(i))
    else if a.round >= b.round then Some(InvalidAncestorRound(a.round))
    else if a.round == GENESIS_ROUND && a !in ctx.genesis then Some(InvalidGenesisAncestor(a))
    else if exists j :: 0 <= j < i && b.ancestors[j].author == a.author then Some(DuplicatedAncestorsAuthority(a.author))
    else None
  }

  /** No ancestor before position `n` is faulty. */
  ghost predicate CleanUpTo(ctx: Context, b: Block, n: nat)
    requires n <= |b.ancestors|
  {
    forall i :: 0 <= i < n ==> AncestorError(ctx, b, i) == None
  }

  /** The first fault found before the ancestors are looked at one by one. */
  ghost function HeaderError(ctx: Context, b: Block): Option<VerifyError> {
    if b.epoch != ctx.committee.epoch then Some(WrongEpoch)
    else if b.round == GENESIS_ROUND then Some(UnexpectedGenesisBlock)
    else if !ctx.committee.IsValidIndex(b.author) then Some(InvalidAuthorityIndex)
    else if |b.ancestors| > ctx.committee.Size() then Some(TooManyAncestors)
    else if b.ancestors == [] then Some(InsufficientParentStakes(0))
    else None
  }

  lemma CleanMeansWellFormed(ctx: Context, b: Block)
    requires HeaderError(ctx, b) == None
    ensures WellFormed(ctx, b) <==>
            CleanUpTo(ctx, b, |b.ancestors|) && ctx.committee.IsQuorum(ParentAuthors(b, |b.ancestors|))
  {
    if CleanUpTo(ctx, b, |b.ancestors|) {
      assert AncestorError(ctx, b, 0) == None;
      forall i, j | 0 <= i < j < |b.ancestors| ensures b.ancestors[i].author != b.ancestors[j].author {
        assert AncestorError(ctx, b, j) == None;
      }
      forall a | a in b.ancestors
        ensures ctx.committee.IsValidIndex(a.author) && a.round < b.round && (a.round == GENESIS_ROUND ==> a in ctx.genesis)
      {
        var k :| 0 <= k < |b.ancestors| && b.ancestors[k] == a;
        assert AncestorError(ctx, b, k) == None;
      }
    }
    if WellFormed(ctx, b) {
      forall i | 0 <= i < |b.ancestors| ensures AncestorError(ctx, b, i) == None {
        assert b.ancestors[i] in b.ancestors;
      }
    }
  }

  /** The stake counted for parents grows by one author's stake, since authors are distinct. */
  lemma ParentStakeStep(ctx: Context, b: Block, i: nat)
    requires i < |b.ancestors| && CleanUpTo(ctx, b, i + 1)
    ensures ctx.committee.IsValidIndex(b.ancestors[i].author)
    ensures ctx.committee.StakeOf(ParentAuthors(b, i + 1))
         == ctx.committee.StakeOf(ParentAuthors(b, i))
            + (if b.ancestors[i].round + 1 == b.round then ctx.committee.Stake(b.ancestors[i].author) else 0)
  {
    var a := b.ancestors[i];
    assert AncestorError(ctx, b, i) == None;
    if a.round + 1 == b.round {
      assert ParentAuthors(b, i + 1) == ParentAuthors(b, i) + {a.author};
      StakeInsert(ctx.committee, ParentAuthors(b, i), a.author);
    } else {
      assert ParentAuthors(b, i + 1) == ParentAuthors(b, i);
    }
  }

  /**
   * Accepts exactly the well-formed blocks. A block is refused for the first fault of its header; with
   * a sound header for its first faulty ancestor, and for its parents' stake only when none is faulty.
   */
  method Verify(ctx: Context, block: Block) returns (r: Result)
    ensures r.Ok? <==> WellFormed(ctx, block)
    ensures HeaderError(ctx, block).Some? ==> r == Err(HeaderError(ctx, block).value)
    ensures r.Err? && HeaderError(ctx, block) == None ==>
      || (exists i :: 0 <= i < |block.ancestors| && CleanUpTo(ctx, block, i) && AncestorError(ctx, block, i) == Some(r.error))
      || (CleanUpTo(ctx, block, |block.ancestors|)
          && r.error == InsufficientParentStakes(ctx.committee.StakeOf(ParentAuthors(block, |block.ancestors|))))
  {
    var committee := ctx.committee;
    if block.epoch != committee.epoch { return Err(WrongEpoch); }
    if block.round == 0 { return Err(UnexpectedGenesisBlock); }
    if !committee.IsValidIndex(block.author) { return Err(InvalidAuthorityIndex); }
    if |block.ancestors| > committee.Size() { return Err(TooManyAncestors); }
    if |block.ancestors| == 0 { return Err(InsufficientParentStakes(0)); }
    CleanMeansWellFormed(ctx, block);
    var seenAncestors := new bool[committee.Size()](_ => false);
    var parentStakes := 0;
    StakeEmpty(committee.stakes, |committee.stakes|);
    assert ParentAuthors(block, 0) == {};
    var i := 0;
    while i < |block.ancestors|
      invariant 0 <= i <= |block.ancestors|
      invariant CleanUpTo(ctx, block, i)
      invariant forall x :: 0 <= x < seenAncestors.Length ==>
        (seenAncestors[x] <==> exists j :: 0 <= j < i && block.ancestors[j].author == x)
      invariant parentStakes == committee.StakeOf(ParentAuthors(block, i))
    {
      var ancestor := block.ancestors[i];
      var e := None;
      if !committee.IsValidIndex(ancestor.author) {
        e := Some(InvalidAncestorAuthorityIndex(ancestor.author));
      } else if (i == 0 && ancestor.author != block.author) || (i > 0 && ancestor.author == block.author) {
        e := Some(InvalidAncestorPosition(i));
      } else if ancestor.round >= block.round {
        e := Some(InvalidAncestorRound(ancestor.round));
      } else if ancestor.round == GENESIS_ROUND && ancestor !in ctx.genesis {
        e := Some(InvalidGenesisAncestor(ancestor));
      } else if seenAncestors[ancestor.author] {
        e := Some(DuplicatedAncestorsAuthority(ancestor.author));
      }
      assert e == AncestorError(ctx, block, i);
      if e.Some? { return Err(e.value); }
      ParentStakeStep(ctx, block, i);
      seenAncestors[ancestor.author] := true;
      if ancestor.round == block.round - 1 {
        parentStakes := parentStakes + committee.Stake(ancestor.author);
      }
      i := i + 1;
    }
    if !committee.ReachedQuorum(parentStakes) {
      return Err(InsufficientParentStakes(parentStakes));
    }
    return Ok;
  }

  // ----- timestamps

  /** The ancestors that the timestamp check takes into account. */
  predicate Relevant(a: Option<Block>, gcEnabled: bool, gcRound: nat) {
    a.Some? && (gcEnabled ==> a.value.round > gcRound)
  }

  /** No relevant ancestor is later than the block. */
  ghost predicate TimestampOk(block: Block, ancestors: seq<Option<Block>>, gcEnabled: bool, gcRound: nat) {
    forall i :: 0 <= i < |ancestors| && Relevant(ancestors[i], gcEnabled, gcRound) ==>
      ancestors[i].value.timestamp <= block.timestamp
  }

  /** Without garbage collection every ancestor must be present and match its reference. */
  ghost predicate Matches(block: Block, ancestors: seq<Option<Block>>) {
    && |ancestors| == |block.ancestors|
    && forall i :: 0 <= i < |ancestors| ==> ancestors[i].Some? && ancestors[i].value.Ref() == block.ancestors[i]
  }

  /**
   * Accepts exactly when no relevant ancestor is later than the block. With garbage collection the first
   * late ancestor is reported, without it the latest one.
   */
  method CheckAncestors(block: Block, ancestors: seq<Option<Block>>, gcEnabled: bool, gcRound: nat)
    returns (r: Result)
    requires !gcEnabled ==> Matches(block, ancestors)
    ensures r.Ok? <==> TimestampOk(block, ancestors, gcEnabled, gcRound)
    ensures r.Err? ==>
      exists i ::
        && 0 <= i < |ancestors| && Relevant(ancestors[i], gcEnabled, gcRound)
        && ancestors[i].value.timestamp > block.timestamp
        && r.error == InvalidBlockTimestamp(ancestors[i].value.timestamp)
        && (forall j :: 0 <= j < (if gcEnabled then i else |ancestors|) && Relevant(ancestors[j], gcEnabled, gcRound) ==>
              ancestors[j].value.timestamp <= (if gcEnabled then block.timestamp else ancestors[i].value.timestamp))
  {
    var maxTimestamp := 0;
    ghost var at := -1;
    for i := 0 to |ancestors|
      invariant forall j :: 0 <= j < i && Relevant(ancestors[j], gcEnabled, gcRound) ==>
        ancestors[j].value.timestamp <= maxTimestamp
      invariant at == -1 ==> maxTimestamp == 0
      invariant at != -1 ==> 0 <= at < i && Relevant(ancestors[at], gcEnabled, gcRound)
                             && ancestors[at].value.timestamp == maxTimestamp
      invariant gcEnabled ==> maxTimestamp <= block.timestamp
    {
      if Relevant(ancestors[i], gcEnabled, gcRound) {
        if ancestors[i].value.timestamp > maxTimestamp {
          maxTimestamp := ancestors[i].value.timestamp;
          at := i;
        }
        if gcEnabled && maxTimestamp > block.timestamp {
          return Err(InvalidBlockTimestamp(maxTimestamp));
        }
      }
    }
    if maxTimestamp > block.timestamp {
      return Err(InvalidBlockTimestamp(maxTimestamp));
    }
    return Ok;
  }
}
