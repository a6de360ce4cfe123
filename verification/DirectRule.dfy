/** The direct commit rule in terms of links between blocks alone. */
module DirectRule {
  import opened Committees
  import opened Blocks
  import opened BlockVerifier
  import opened Dags
  import opened CommitRule
  import opened Agreement

  /** Authors of the ancestors of `cert` that link `leader` directly. */
  ghost function Linkers(d: Dag, cert: BlockRef, leader: BlockRef): set<nat>
    requires cert in d
  {
    set a | a in d[cert].ancestors && a in d && leader in d[a].ancestors :: a.author
  }

  /** A block of the voting round that links the leader votes for it, whatever else it links. */
  lemma LinkIsVote(ctx: Context, d: Dag, vote: BlockRef, leader: BlockRef)
    requires Verified(ctx, d) && vote in d && vote.round == leader.round + 1 && leader in d[vote].ancestors
    ensures IsVote(d, vote, leader)
  {
    hide WellFormed;
    assert InPast(d, vote, leader);
    FindSupportedExact(d, leader.ToSlot(), vote);
    var found := FindSupported(d, leader.ToSlot(), vote).value;
    var a :| a in d[vote].ancestors && a.round < vote.round && (a == found || InPast(d, a, found));
    if a != found {
      PastLower(d, a, found);
      assert false;
    }
    SameAncestor(ctx, d, vote, found, leader);
  }

  lemma SameAncestor(ctx: Context, d: Dag, x: BlockRef, a: BlockRef, b: BlockRef)
    requires Verified(ctx, d) && x in d && x.round > GENESIS_ROUND
    requires a in d[x].ancestors && b in d[x].ancestors && a.author == b.author
    ensures a == b
  {
    hide WellFormed, Closed;
    assert DistinctAuthors(d[x]) by { DistinctAncestorAuthors(ctx, d, x); }
    var i :| 0 <= i < |d[x].ancestors| && d[x].ancestors[i] == a;
    var j :| 0 <= j < |d[x].ancestors| && d[x].ancestors[j] == b;
  }

  lemma DistinctAncestorAuthors(ctx: Context, d: Dag, x: BlockRef)
    requires Verified(ctx, d) && x in d && x.round > GENESIS_ROUND
    ensures DistinctAuthors(d[x])
  {
    hide DistinctAuthors, AncestorsInOrder, ParentAuthors, Committee.IsQuorum, Closed;
    assert WellFormed(ctx, d[x]);
  }

  /** Two rounds above the leader, the voters are the ancestors that link the leader. */
  lemma VotersLink(ctx: Context, d: Dag, cert: BlockRef, leader: BlockRef)
    requires Verified(ctx, d) && cert in d && cert.round == leader.round + 2
    ensures Voters(d, cert, leader) == Linkers(d, cert, leader)
  {
    hide WellFormed, IsVote;
    forall a | a in d[cert].ancestors
      ensures IsVote(d, a, leader) <==> leader in d[a].ancestors
    {
      if leader in d[a].ancestors {
        LinkIsVote(ctx, d, a, leader);
      }
      if IsVote(d, a, leader) {
        VoteIsDirect(d, cert, a, leader);
      }
    }
  }

  /** Authors of blocks two rounds above `leader` that link a quorum of blocks that link `leader`. */
  ghost function Confirmers(c: Committee, d: Dag, leader: BlockRef): set<nat> {
    set r | r in d && r.round == leader.round + 2 && c.IsQuorum(Linkers(d, r, leader)) :: r.author
  }

  /** Authors of blocks just above `slot` that link no block of its authority. */
  ghost function Ignorers(d: Dag, slot: Slot): set<nat> {
    set r | r in d && r.round == slot.round + 1 && (forall a :: a in d[r].ancestors ==> a.author != slot.authority) :: r.author
  }

  lemma CertifiersConfirm(ctx: Context, d: Dag, leader: BlockRef)
    requires Verified(ctx, d)
    ensures Certifiers(ctx.committee, d, leader.round + 2, leader) == Confirmers(ctx.committee, d, leader)
  {
    hide WellFormed, Committee.IsQuorum, Voters, Linkers, Closed;
    forall r | r in d && r.round == leader.round + 2
      ensures Voters(d, r, leader) == Linkers(d, r, leader)
    {
      VotersLink(ctx, d, r, leader);
    }
  }

  /**
   * The direct rule, exactly. A slot is skipped when blocks of a quorum just above it link no block of its
   * authority. Otherwise its block is committed when blocks of a quorum two rounds above it link, each, a quorum
   * of blocks that link it. Otherwise the slot stays undecided.
   */
  lemma DirectDecideExact(ctx: Context, u: Dag, byzantine: set<nat>, v: Dag, slot: Slot)
    requires Universe(ctx, u, byzantine) && View(v, u)
    ensures Closed(v)
    ensures var c, status := ctx.committee, DirectDecide(ctx.committee, v, slot);
      && (status == Skip(slot) <==> c.IsQuorum(Ignorers(v, slot)))
      && (forall l :: status == Commit(l) <==>
            l in v && l.round > 0 && l.ToSlot() == slot && c.IsQuorum(Confirmers(c, v, l)))
      && (status.Undecided? ==> status == Undecided(slot))
  {
    hide WellFormed, Bft, Confirmers, Certifiers, Committee.IsQuorum, Closed;
    var c := ctx.committee;
    PartVerified(ctx, v, u);
    assert Ignorers(v, slot) == Blamers(v, slot.round + 1, slot.authority);
    forall l
      ensures DirectCommit(c, v, slot, l) <==>
        l in v && l.round > 0 && l.ToSlot() == slot && c.IsQuorum(Confirmers(c, v, l))
    {
      CertifiersConfirm(ctx, v, l);
    }
    forall l | DirectCommit(c, v, slot, l)
      ensures !DirectSkip(c, v, slot)
    {
      if DirectSkip(c, v, slot) {
        DirectSkipExcludesCommit(ctx, u, byzantine, v, v, slot, l);
      }
    }
    forall l, m | DirectCommit(c, v, slot, l) && DirectCommit(c, v, slot, m)
      ensures l == m
    {
      DirectCommitUnique(ctx, u, byzantine, v, v, slot, l, m);
    }
  }

  /** Below `anchor` there is a block two rounds above `l` that links a quorum of blocks that link `l`. */
  ghost predicate ConfirmedBelow(c: Committee, d: Dag, anchor: BlockRef, l: BlockRef) {
    exists cert :: cert in d && InPast(d, anchor, cert) && cert.round == l.round + 2 && c.IsQuorum(Linkers(d, cert, l))
  }

  /** From an anchor, the block of the slot that is confirmed below the anchor is committed; without one the slot is skipped. */
  lemma AnchorDecideExact(ctx: Context, u: Dag, byzantine: set<nat>, v: Dag, anchor: BlockRef, slot: Slot)
    requires Universe(ctx, u, byzantine) && View(v, u)
    ensures Closed(v)
    ensures var c, status := ctx.committee, DecideFromAnchor(ctx.committee, v, anchor, slot);
      && (forall l :: status == Commit(l) <==>
            l in v && l.round > 0 && l.ToSlot() == slot && ConfirmedBelow(c, v, anchor, l))
      && (!status.Commit? ==> status == Skip(slot))
  {
    hide WellFormed, Bft, Committee.IsQuorum, Closed, InPast, Linkers;
    var c := ctx.committee;
    PartVerified(ctx, v, u);
    forall l
      ensures CertifiedBelow(c, v, anchor, slot, l) <==>
        l in v && l.round > 0 && l.ToSlot() == slot && ConfirmedBelow(c, v, anchor, l)
    {
      ConfirmedIsCertified(ctx, v, anchor, slot, l);
    }
    forall l, m | CertifiedBelow(c, v, anchor, slot, l) && CertifiedBelow(c, v, anchor, slot, m)
      ensures l == m
    {
      CertifiedBelowUnique(ctx, u, byzantine, v, anchor, slot, l, m);
    }
  }

  lemma ConfirmedIsCertified(ctx: Context, v: Dag, anchor: BlockRef, slot: Slot, l: BlockRef)
    requires Verified(ctx, v)
    ensures CertifiedBelow(ctx.committee, v, anchor, slot, l) <==>
      l in v && l.round > 0 && l.ToSlot() == slot && ConfirmedBelow(ctx.committee, v, anchor, l)
  {
    hide WellFormed, Committee.IsQuorum, Closed, InPast, Voters, Linkers;
    forall cert | cert in v && cert.round == l.round + 2
      ensures Voters(v, cert, l) == Linkers(v, cert, l)
    {
      VotersLink(ctx, v, cert, l);
    }
  }
}
