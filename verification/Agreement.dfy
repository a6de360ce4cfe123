/** Agreement of the commit rule: any two views of one universe of blocks decide compatibly. */
module Agreement {
  import opened Committees
  import opened Blocks
  import opened BlockVerifier
  import opened Dags
  import opened CommitRule

  /**
   * The fault assumption: authorities outside `byzantine` never produce two blocks for one round,
   * and `byzantine` holds less than the validity threshold.
   */
  ghost predicate Bft(c: Committee, u: Dag, byzantine: set<nat>) {
    && !c.ReachedValidity(c.StakeOf(byzantine))
    && forall p, q ::
         (p in u && q in u && p.ToSlot() == q.ToSlot() && p.round > GENESIS_ROUND && p.author !in byzantine)
         ==> p == q
  }

  /** One universe of verified blocks under the fault assumption. */
  ghost predicate Universe(ctx: Context, u: Dag, byzantine: set<nat>) {
    Verified(ctx, u) && Bft(ctx.committee, u, byzantine)
  }

  // ----- votes and certificates

  /** At the decision round only blocks of the voting round can vote, and they link the leader directly. */
  lemma VoteIsDirect(u: Dag, cert: BlockRef, vote: BlockRef, leader: BlockRef)
    requires Closed(u) && cert in u && cert.round == leader.round + WAVE_LENGTH - 1
    requires vote in u[cert].ancestors && IsVote(u, vote, leader)
    ensures vote.round == leader.round + 1 && leader in u[vote].ancestors
  {
    FindSupportedSound(u, leader.ToSlot(), vote);
    PastLower(u, vote, leader);
    var a :| a in u[vote].ancestors && a.round < vote.round && (a == leader || InPast(u, a, leader));
    if a != leader {
      PastLower(u, a, leader);
      assert false;
    }
  }

  /** At most one block of a slot is certified anywhere in the universe. */
  lemma OneCertified(ctx: Context, u: Dag, byzantine: set<nat>, c1: BlockRef, l1: BlockRef, c2: BlockRef, l2: BlockRef)
    requires Universe(ctx, u, byzantine)
    requires c1 in u && c2 in u && l1.ToSlot() == l2.ToSlot()
    requires c1.round == c2.round == l1.round + WAVE_LENGTH - 1
    requires IsCertificate(ctx.committee, u, c1, l1) && IsCertificate(ctx.committee, u, c2, l2)
    ensures l1 == l2
  {
    var h := HonestInBoth(ctx.committee, Voters(u, c1, l1), Voters(u, c2, l2), byzantine);
    var v1 :| v1 in u[c1].ancestors && IsVote(u, v1, l1) && v1.author == h;
    var v2 :| v2 in u[c2].ancestors && IsVote(u, v2, l2) && v2.author == h;
    VoteIsDirect(u, c1, v1, l1);
    VoteIsDirect(u, c2, v2, l2);
    assert v1 == v2;
  }

  /** A quorum of blame at the voting round leaves no certificate for any block of the slot. */
  lemma SkipExcludesCertificate(ctx: Context, u: Dag, byzantine: set<nat>, v: Dag, slot: Slot, cert: BlockRef, l: BlockRef)
    requires Universe(ctx, u, byzantine) && View(v, u)
    requires DirectSkip(ctx.committee, v, slot)
    requires cert in u && l.ToSlot() == slot && cert.round == slot.round + WAVE_LENGTH - 1
    ensures !IsCertificate(ctx.committee, u, cert, l)
  {
    hide WellFormed;
    if IsCertificate(ctx.committee, u, cert, l) {
      var h := HonestInBoth(ctx.committee, Blamers(v, slot.round + 1, slot.authority), Voters(u, cert, l), byzantine);
      var b :| b in v && b.round == slot.round + 1 && IsBlame(v[b], slot.authority) && b.author == h;
      var vote :| vote in u[cert].ancestors && IsVote(u, vote, l) && vote.author == h;
      VoteIsDirect(u, cert, vote, l);
      assert false;
    }
  }

  /** Certificates are the same in a view and in the universe. */
  lemma CertificateLocal(c: Committee, v: Dag, u: Dag, cert: BlockRef, l: BlockRef)
    requires View(v, u) && Closed(u) && cert in v
    ensures IsCertificate(c, v, cert, l) <==> IsCertificate(c, u, cert, l)
  {
    forall a | a in v[cert].ancestors ensures IsVote(v, a, l) <==> IsVote(u, a, l) {
      FindSupportedLocal(v, u, l.ToSlot(), a);
    }
    assert Voters(v, cert, l) == Voters(u, cert, l);
  }

  /** A certified block is in every view that holds the certificate. */
  lemma CertifiedInView(ctx: Context, v: Dag, cert: BlockRef, l: BlockRef)
    requires Closed(v) && cert in v && cert.round == l.round + WAVE_LENGTH - 1
    requires IsCertificate(ctx.committee, v, cert, l)
    ensures l in v
  {
    var m := QuorumMember(ctx.committee, Voters(v, cert, l));
    var vote :| vote in v[cert].ancestors && IsVote(v, vote, l) && vote.author == m;
    VoteIsDirect(v, cert, vote, l);
  }

  // ----- inheritance of direct commits

  /** Authors of the parents of `x`, the ancestors in the round just below it. */
  ghost function Parents(u: Dag, x: BlockRef): set<nat>
    requires x in u
  {
    ParentAuthors(u[x], |u[x].ancestors|)
  }

  /** The parents of a verified block form a quorum. */
  lemma ParentsQuorum(ctx: Context, u: Dag, x: BlockRef)
    requires Verified(ctx, u) && x in u && x.round > GENESIS_ROUND
    ensures ctx.committee.IsQuorum(Parents(u, x))
  {
    assert WellFormed(ctx, u[x]);
  }

  lemma ParentBy(u: Dag, x: BlockRef, author: nat) returns (p: BlockRef)
    requires Closed(u) && x in u && author in Parents(u, x)
    ensures p in u[x].ancestors && p in u && p.round + 1 == x.round && p.author == author
  {
    var b := u[x];
    var k :| 0 <= k < |b.ancestors| && b.ancestors[k].round + 1 == b.round && b.ancestors[k].author == author;
    p := b.ancestors[k];
  }

  /** A block just above the decision round of a direct commit has a certificate among its parents. */
  lemma ParentCertifies(ctx: Context, u: Dag, byzantine: set<nat>, v: Dag, slot: Slot, l: BlockRef, x: BlockRef)
    returns (cert: BlockRef)
    requires Universe(ctx, u, byzantine) && View(v, u)
    requires DirectCommit(ctx.committee, v, slot, l)
    requires x in u && x.round == slot.round + WAVE_LENGTH
    ensures cert in u[x].ancestors && cert in u && cert.round + 1 == x.round
    ensures IsCertificate(ctx.committee, u, cert, l)
  {
    hide IsCertificate, WellFormed, Closed, Parents;
    var decision := slot.round + WAVE_LENGTH - 1;
    ParentsQuorum(ctx, u, x);
    var h := HonestInBoth(ctx.committee, Parents(u, x), Certifiers(ctx.committee, v, decision, l), byzantine);
    var r :| r in v && r.round == decision && IsCertificate(ctx.committee, v, r, l) && r.author == h;
    cert := ParentBy(u, x, h);
    assert cert.ToSlot() == r.ToSlot();
    CertificateLocal(ctx.committee, v, u, r, l);
  }

  /**
   * If some view has a quorum of certificates for `l`, every block of a later round, in any view,
   * has one of them in its causal history.
   */
  lemma {:induction false} DirectCommitInherited(
    ctx: Context, u: Dag, byzantine: set<nat>, v: Dag, slot: Slot, l: BlockRef, x: BlockRef)
    returns (cert: BlockRef)
    requires Universe(ctx, u, byzantine) && View(v, u)
    requires DirectCommit(ctx.committee, v, slot, l)
    requires x in u && x.round >= slot.round + WAVE_LENGTH
    ensures cert in u && InPast(u, x, cert) && cert.round == slot.round + WAVE_LENGTH - 1
    ensures IsCertificate(ctx.committee, u, cert, l)
    decreases x.round
  {
    hide DirectCommit, IsCertificate, Bft, WellFormed;
    if x.round == slot.round + WAVE_LENGTH {
      cert := ParentCertifies(ctx, u, byzantine, v, slot, l, x);
    } else {
      ParentsQuorum(ctx, u, x);
      var m := QuorumMember(ctx.committee, Parents(u, x));
      var p := ParentBy(u, x, m);
      cert := DirectCommitInherited(ctx, u, byzantine, v, slot, l, p);
    }
  }

  // ----- decisions from an anchor

  /** From one anchor, two views decide a slot alike. */
  lemma AnchorDecidesAlike(
    ctx: Context, u: Dag, byzantine: set<nat>, v: Dag, w: Dag, anchor: BlockRef, slot: Slot)
    requires Universe(ctx, u, byzantine) && View(v, u) && View(w, u)
    requires anchor in v && anchor in w
    ensures DecideFromAnchor(ctx.committee, v, anchor, slot) == DecideFromAnchor(ctx.committee, w, anchor, slot)
  {
    hide CertifiedBelow, Bft, WellFormed, Closed;
    forall l ensures CertifiedBelow(ctx.committee, v, anchor, slot, l) <==> CertifiedBelow(ctx.committee, w, anchor, slot, l) {
      CertifiedBelowLocal(ctx, v, u, anchor, slot, l);
      CertifiedBelowLocal(ctx, w, u, anchor, slot, l);
    }
    forall l1, l2 | CertifiedBelow(ctx.committee, v, anchor, slot, l1) && CertifiedBelow(ctx.committee, v, anchor, slot, l2)
      ensures l1 == l2
    {
      CertifiedBelowUnique(ctx, u, byzantine, v, anchor, slot, l1, l2);
    }
  }

  /** What is certified below an anchor does not depend on the view. */
  lemma CertifiedBelowLocal(ctx: Context, v: Dag, u: Dag, anchor: BlockRef, slot: Slot, l: BlockRef)
    requires View(v, u) && Closed(u) && anchor in v
    ensures CertifiedBelow(ctx.committee, v, anchor, slot, l) <==> CertifiedBelow(ctx.committee, u, anchor, slot, l)
  {
    var c := ctx.committee;
    if CertifiedBelow(c, v, anchor, slot, l) {
      var cert :| cert in v && InPast(v, anchor, cert) && cert.round == slot.round + WAVE_LENGTH - 1 && IsCertificate(c, v, cert, l);
      PastLocal(v, u, anchor, cert);
      CertificateLocal(c, v, u, cert, l);
    }
    if CertifiedBelow(c, u, anchor, slot, l) {
      var cert :| cert in u && InPast(u, anchor, cert) && cert.round == slot.round + WAVE_LENGTH - 1 && IsCertificate(c, u, cert, l);
      PastLocal(v, u, anchor, cert);
      PastLower(v, anchor, cert);
      CertificateLocal(c, v, u, cert, l);
      CertifiedInView(ctx, v, cert, l);
    }
  }

  /** At most one block of the slot is certified below an anchor, so the second panic is unreachable. */
  lemma CertifiedBelowUnique(
    ctx: Context, u: Dag, byzantine: set<nat>, v: Dag, anchor: BlockRef, slot: Slot, l1: BlockRef, l2: BlockRef)
    requires Universe(ctx, u, byzantine) && View(v, u)
    requires CertifiedBelow(ctx.committee, v, anchor, slot, l1) && CertifiedBelow(ctx.committee, v, anchor, slot, l2)
    ensures l1 == l2
  {
    var c := ctx.committee;
    var c1 :| c1 in v && InPast(v, anchor, c1) && c1.round == slot.round + WAVE_LENGTH - 1 && IsCertificate(c, v, c1, l1);
    var c2 :| c2 in v && InPast(v, anchor, c2) && c2.round == slot.round + WAVE_LENGTH - 1 && IsCertificate(c, v, c2, l2);
    CertificateLocal(c, v, u, c1, l1);
    CertificateLocal(c, v, u, c2, l2);
    OneCertified(ctx, u, byzantine, c1, l1, c2, l2);
  }

  /** A directly committed block is what every later anchor decides, in every view. */
  lemma AnchorFollowsDirectCommit(
    ctx: Context, u: Dag, byzantine: set<nat>, v: Dag, w: Dag, slot: Slot, l: BlockRef, anchor: BlockRef)
    requires Universe(ctx, u, byzantine) && View(v, u) && View(w, u)
    requires DirectCommit(ctx.committee, v, slot, l)
    requires anchor in w && anchor.round >= slot.round + WAVE_LENGTH
    ensures DecideFromAnchor(ctx.committee, w, anchor, slot) == Commit(l)
  {
    CommitCertifiedBelow(ctx, u, byzantine, v, slot, l, anchor);
    CertifiedBelowLocal(ctx, w, u, anchor, slot, l);
    forall l2 | CertifiedBelow(ctx.committee, w, anchor, slot, l2) ensures l2 == l {
      CertifiedBelowUnique(ctx, u, byzantine, w, anchor, slot, l, l2);
    }
    UniqueIsDecided(ctx.committee, w, anchor, slot, l);
  }

  lemma CommitCertifiedBelow(
    ctx: Context, u: Dag, byzantine: set<nat>, v: Dag, slot: Slot, l: BlockRef, anchor: BlockRef)
    requires Universe(ctx, u, byzantine) && View(v, u)
    requires DirectCommit(ctx.committee, v, slot, l)
    requires anchor in u && anchor.round >= slot.round + WAVE_LENGTH
    ensures CertifiedBelow(ctx.committee, u, anchor, slot, l)
  {
    var cert := DirectCommitInherited(ctx, u, byzantine, v, slot, l, anchor);
  }

  lemma UniqueIsDecided(c: Committee, d: Dag, anchor: BlockRef, slot: Slot, l: BlockRef)
    requires Closed(d) && CertifiedBelow(c, d, anchor, slot, l)
    requires forall m :: CertifiedBelow(c, d, anchor, slot, m) ==> m == l
    ensures DecideFromAnchor(c, d, anchor, slot) == Commit(l)
  {
  }

  /** A directly skipped slot is skipped by every anchor, in every view. */
  lemma AnchorFollowsDirectSkip(
    ctx: Context, u: Dag, byzantine: set<nat>, v: Dag, w: Dag, slot: Slot, anchor: BlockRef)
    requires Universe(ctx, u, byzantine) && View(v, u) && View(w, u)
    requires DirectSkip(ctx.committee, v, slot)
    ensures DecideFromAnchor(ctx.committee, w, anchor, slot) == Skip(slot)
  {
    forall l ensures !CertifiedBelow(ctx.committee, w, anchor, slot, l) {
      if CertifiedBelow(ctx.committee, w, anchor, slot, l) {
        var cert :| cert in w && InPast(w, anchor, cert) && cert.round == slot.round + WAVE_LENGTH - 1
                    && IsCertificate(ctx.committee, w, cert, l);
        CertificateLocal(ctx.committee, w, u, cert, l);
        SkipExcludesCertificate(ctx, u, byzantine, v, slot, cert, l);
        assert false;
      }
    }
  }

  // ----- direct decisions

  /** A certificate behind every direct commit. */
  lemma DirectCommitCertificate(ctx: Context, v: Dag, u: Dag, slot: Slot, l: BlockRef) returns (cert: BlockRef)
    requires View(v, u) && Closed(u) && DirectCommit(ctx.committee, v, slot, l)
    ensures cert in u && cert.round == slot.round + WAVE_LENGTH - 1 && IsCertificate(ctx.committee, u, cert, l)
  {
    var decision := slot.round + WAVE_LENGTH - 1;
    var m := QuorumMember(ctx.committee, Certifiers(ctx.committee, v, decision, l));
    cert :| cert in v && cert.round == decision && IsCertificate(ctx.committee, v, cert, l) && cert.author == m;
    CertificateLocal(ctx.committee, v, u, cert, l);
  }

  /** No two blocks of a slot are directly committed, even by different views: the first panic is unreachable. */
  lemma DirectCommitUnique(
    ctx: Context, u: Dag, byzantine: set<nat>, v: Dag, w: Dag, slot: Slot, l1: BlockRef, l2: BlockRef)
    requires Universe(ctx, u, byzantine) && View(v, u) && View(w, u)
    requires DirectCommit(ctx.committee, v, slot, l1) && DirectCommit(ctx.committee, w, slot, l2)
    ensures l1 == l2
  {
    var c1 := DirectCommitCertificate(ctx, v, u, slot, l1);
    var c2 := DirectCommitCertificate(ctx, w, u, slot, l2);
    OneCertified(ctx, u, byzantine, c1, l1, c2, l2);
  }

  /** A slot that one view skips directly is committed directly by no view. */
  lemma DirectSkipExcludesCommit(
    ctx: Context, u: Dag, byzantine: set<nat>, v: Dag, w: Dag, slot: Slot, l: BlockRef)
    requires Universe(ctx, u, byzantine) && View(v, u) && View(w, u)
    requires DirectSkip(ctx.committee, v, slot)
    ensures !DirectCommit(ctx.committee, w, slot, l)
  {
    if DirectCommit(ctx.committee, w, slot, l) {
      var cert := DirectCommitCertificate(ctx, w, u, slot, l);
      SkipExcludesCertificate(ctx, u, byzantine, v, slot, cert, l);
      assert false;
    }
  }

  /** Blame and support only grow with the view. */
  lemma DirectRuleGrows(c: Committee, v: Dag, w: Dag, slot: Slot, l: BlockRef)
    requires View(v, w) && Closed(w)
    ensures DirectSkip(c, v, slot) ==> DirectSkip(c, w, slot)
    ensures DirectCommit(c, v, slot, l) ==> DirectCommit(c, w, slot, l)
  {
    if DirectSkip(c, v, slot) {
      assert Blamers(v, slot.round + 1, slot.authority) <= Blamers(w, slot.round + 1, slot.authority);
      QuorumMonotone(c, Blamers(v, slot.round + 1, slot.authority), Blamers(w, slot.round + 1, slot.authority));
    }
    if DirectCommit(c, v, slot, l) {
      var decision := slot.round + WAVE_LENGTH - 1;
      forall r | r in v ensures IsCertificate(c, v, r, l) <==> IsCertificate(c, w, r, l) {
        CertificateLocal(c, v, w, r, l);
      }
      assert Certifiers(c, v, decision, l) <= Certifiers(c, w, decision, l);
      QuorumMonotone(c, Certifiers(c, v, decision, l), Certifiers(c, w, decision, l));
    }
  }

  /** Direct decisions are stable: a larger view repeats them, although it tests blame first. */
  lemma DirectDecideStable(ctx: Context, u: Dag, byzantine: set<nat>, v: Dag, w: Dag, slot: Slot)
    requires Universe(ctx, u, byzantine) && View(w, u) && View(v, w)
    requires !DirectDecide(ctx.committee, v, slot).Undecided?
    ensures DirectDecide(ctx.committee, w, slot) == DirectDecide(ctx.committee, v, slot)
  {
    hide DirectSkip, DirectCommit, Bft, WellFormed, Closed;
    var c := ctx.committee;
    var s := DirectDecide(c, v, slot);
    if s.Skip? {
      DirectRuleGrows(c, v, w, slot, BlockRef(0, 0, 0));
    } else {
      DirectRuleGrows(c, v, w, slot, s.block);
      if DirectSkip(c, w, slot) {
        DirectSkipExcludesCommit(ctx, u, byzantine, w, w, slot, s.block);
        assert false;
      }
      forall l | DirectCommit(c, w, slot, l) ensures l == s.block {
        DirectCommitUnique(ctx, u, byzantine, w, w, slot, l, s.block);
      }
    }
  }

  // ----- agreement over all slots

  /** Two statuses of one slot are compatible unless both are decided and differ. */
  predicate Compatible(s: LeaderStatus, t: LeaderStatus) {
    s.Undecided? || t.Undecided? || s == t
  }

  /** Statuses computed over view `v`: each speaks of its slot, and committed blocks are in the view. */
  ghost predicate Sound(v: Dag, slots: seq<Slot>, statuses: seq<LeaderStatus>) {
    && |slots| == |statuses|
    && forall i :: 0 <= i < |slots| ==>
         statuses[i].ToSlot() == slots[i] && (statuses[i].Commit? ==> statuses[i].block in v)
  }

  lemma {:induction false} DecideSound(c: Committee, v: Dag, slots: seq<Slot>)
    requires Closed(v)
    ensures Sound(v, slots, Decide(c, v, slots))
  {
    if slots == [] {
    } else {
      DecideSound(c, v, slots[1..]);
    }
  }

  /** The anchor is one of the committed statuses, and high enough. */
  lemma {:induction false} AnchorFound(v: Dag, slots: seq<Slot>, leaders: seq<LeaderStatus>, minRound: nat)
    requires Sound(v, slots, leaders)
    ensures FirstAnchor(leaders, minRound).Some? ==>
      FirstAnchor(leaders, minRound).value in v && FirstAnchor(leaders, minRound).value.round >= minRound
  {
    if leaders == [] {
    } else {
      AnchorFound(v, slots[1..], leaders[1..], minRound);
    }
  }

  /** Statuses at the same position speak of the same slot and are compatible. */
  ghost predicate PairwiseCompatible(s: seq<LeaderStatus>, t: seq<LeaderStatus>) {
    forall i :: 0 <= i < |s| && i < |t| ==> s[i].ToSlot() == t[i].ToSlot() && Compatible(s[i], t[i])
  }

  /** Two views that both find an anchor find the same one. */
  lemma {:induction false} SameAnchor(s: seq<LeaderStatus>, t: seq<LeaderStatus>, minRound: nat)
    requires PairwiseCompatible(s, t)
    requires FirstAnchor(s, minRound).Some? && FirstAnchor(t, minRound).Some?
    ensures FirstAnchor(s, minRound) == FirstAnchor(t, minRound)
  {
    assert s[0].ToSlot() == t[0].ToSlot() && Compatible(s[0], t[0]);
    forall i | 0 <= i < |s[1..]| && i < |t[1..]|
      ensures s[1..][i].ToSlot() == t[1..][i].ToSlot() && Compatible(s[1..][i], t[1..][i])
    {
      assert s[i + 1].ToSlot() == t[i + 1].ToSlot() && Compatible(s[i + 1], t[i + 1]);
    }
    if s[0].Round() < minRound || s[0].Skip? {
      SameAnchor(s[1..], t[1..], minRound);
    }
  }

  /** One slot, given compatible statuses of the later slots. */
  lemma SlotAgreement(
    ctx: Context, u: Dag, byzantine: set<nat>, v: Dag, w: Dag, slot: Slot,
    p: seq<Slot>, s: seq<LeaderStatus>, q: seq<Slot>, t: seq<LeaderStatus>)
    requires Universe(ctx, u, byzantine) && View(v, u) && View(w, u)
    requires Sound(v, p, s) && Sound(w, q, t) && PairwiseCompatible(s, t)
    ensures Compatible(DecideSlot(ctx.committee, v, slot, s), DecideSlot(ctx.committee, w, slot, t))
  {
    hide DirectDecide, DecideFromAnchor, Universe, Closed;
    var c := ctx.committee;
    var dv, dw := DirectDecide(c, v, slot), DirectDecide(c, w, slot);
    AnchorFound(v, p, s, slot.round + WAVE_LENGTH);
    AnchorFound(w, q, t, slot.round + WAVE_LENGTH);
    var av, aw := FirstAnchor(s, slot.round + WAVE_LENGTH), FirstAnchor(t, slot.round + WAVE_LENGTH);
    if !dv.Undecided? && !dw.Undecided? {
      DirectAgreement(ctx, u, byzantine, v, w, slot);
    } else if !dv.Undecided? {
      if aw.Some? {
        DirectVersusAnchor(ctx, u, byzantine, v, w, slot, aw.value);
      }
    } else if !dw.Undecided? {
      if av.Some? {
        DirectVersusAnchor(ctx, u, byzantine, w, v, slot, av.value);
      }
    } else if av.Some? && aw.Some? {
      SameAnchor(s, t, slot.round + WAVE_LENGTH);
      AnchorDecidesAlike(ctx, u, byzantine, v, w, av.value, slot);
    }
  }

  lemma DirectAgreement(ctx: Context, u: Dag, byzantine: set<nat>, v: Dag, w: Dag, slot: Slot)
    requires Universe(ctx, u, byzantine) && View(v, u) && View(w, u)
    ensures Compatible(DirectDecide(ctx.committee, v, slot), DirectDecide(ctx.committee, w, slot))
  {
    hide DirectSkip, DirectCommit, Bft, WellFormed, Closed;
    var dv, dw := DirectDecide(ctx.committee, v, slot), DirectDecide(ctx.committee, w, slot);
    if dv.Commit? && dw.Commit? {
      DirectCommitUnique(ctx, u, byzantine, v, w, slot, dv.block, dw.block);
    } else if dv.Skip? && dw.Commit? {
      DirectSkipExcludesCommit(ctx, u, byzantine, v, w, slot, dw.block);
    } else if dv.Commit? && dw.Skip? {
      DirectSkipExcludesCommit(ctx, u, byzantine, w, v, slot, dv.block);
    }
  }

  /** A direct decision of one view is what any anchor of another view decides. */
  lemma DirectVersusAnchor(
    ctx: Context, u: Dag, byzantine: set<nat>, v: Dag, w: Dag, slot: Slot, anchor: BlockRef)
    requires Universe(ctx, u, byzantine) && View(v, u) && View(w, u)
    requires !DirectDecide(ctx.committee, v, slot).Undecided?
    requires anchor in w && anchor.round >= slot.round + WAVE_LENGTH
    ensures DecideFromAnchor(ctx.committee, w, anchor, slot) == DirectDecide(ctx.committee, v, slot)
  {
    var dv := DirectDecide(ctx.committee, v, slot);
    if dv.Skip? {
      AnchorFollowsDirectSkip(ctx, u, byzantine, v, w, slot, anchor);
    } else {
      AnchorFollowsDirectCommit(ctx, u, byzantine, v, w, slot, dv.block, anchor);
    }
  }

  /**
   * Agreement. Two views decide their leader slots from the highest down; the slot lists share their
   * start and may end at different rounds. No slot is committed by one and skipped by the other, nor
   * committed with two different blocks.
   */
  lemma {:induction false} ViewsAgree(
    ctx: Context, u: Dag, byzantine: set<nat>, v: Dag, w: Dag, p: seq<Slot>, q: seq<Slot>)
    requires Universe(ctx, u, byzantine) && View(v, u) && View(w, u)
    requires p <= q || q <= p
    ensures PairwiseCompatible(Decide(ctx.committee, v, p), Decide(ctx.committee, w, q))
  {
    if p != [] && q != [] {
      var c := ctx.committee;
      var s, t := Decide(c, v, p[1..]), Decide(c, w, q[1..]);
      assert p[0] == q[0];
      ViewsAgree(ctx, u, byzantine, v, w, p[1..], q[1..]);
      DecideSound(c, v, p);
      DecideSound(c, w, q);
      DecideSound(c, v, p[1..]);
      DecideSound(c, w, q[1..]);
      SlotAgreement(ctx, u, byzantine, v, w, p[0], p[1..], s, q[1..], t);
      var ss, tt := Decide(c, v, p), Decide(c, w, q);
      forall i | 0 <= i < |ss| && i < |tt| ensures ss[i].ToSlot() == tt[i].ToSlot() && Compatible(ss[i], tt[i]) {
        if i > 0 {
          assert ss[i] == s[i - 1] && tt[i] == t[i - 1];
        }
      }
    }
  }
}
