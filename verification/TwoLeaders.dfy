/**
 * With two leaders per round runs may disagree: an authority that has decided the first leader of a
 * round never decides the second, while another decides both at once.
 */
module TwoLeaders {
  import opened Committees
  import opened Blocks
  import opened BlockVerifier
  import opened Dags
  import opened CommitRule
  import opened Agreement
  import opened BaseCommitter
  import opened UniversalCommitter
  import opened CommitRuns

  // Authority 2 and one other form a quorum.
  const COMMITTEE := Committee(0, [1, 1, 2])
  const G0 := Block(0, 0, 0, 0, 0, [], [])
  const G1 := Block(0, 0, 1, 0, 0, [], [])
  const G2 := Block(0, 0, 2, 0, 0, [], [])
  const A1 := Block(0, 1, 0, 0, 0, [G0.Ref(), G2.Ref()], [])
  const B1 := Block(0, 1, 1, 0, 0, [G1.Ref(), G2.Ref()], [])
  const C1 := Block(0, 1, 2, 0, 0, [G2.Ref(), G0.Ref()], [])
  const A2 := Block(0, 2, 0, 0, 0, [A1.Ref(), C1.Ref()], [])
  const B2 := Block(0, 2, 1, 0, 0, [B1.Ref(), C1.Ref()], [])
  const C2 := Block(0, 2, 2, 0, 0, [C1.Ref(), A1.Ref()], [])
  const A3 := Block(0, 3, 0, 0, 0, [A2.Ref(), C2.Ref()], [])
  const B3 := Block(0, 3, 1, 0, 0, [B2.Ref(), C2.Ref()], [])
  const C3 := Block(0, 3, 2, 0, 0, [C2.Ref(), A2.Ref()], [])
  const A4 := Block(0, 4, 0, 0, 0, [A3.Ref(), C3.Ref()], [])
  const C4 := Block(0, 4, 2, 0, 0, [C3.Ref(), A3.Ref()], [])

  ghost const GENESIS: set<BlockRef> := {G0.Ref(), G1.Ref(), G2.Ref()}
  ghost const CTX := Context(COMMITTEE, GENESIS)

  // Two committers lead round 1, first authority 2, then authority 0; a third leads round 2 with authority 2.
  const COMMITTERS := [Options(0, 1), Options(1, 1), Options(0, 2)]

  function Elect(round: nat, offset: nat): nat { if offset == 0 then 2 else 0 }

  const FIRST := Slot(1, 2)
  const SECOND := Slot(1, 0)
  const THIRD := Slot(2, 2)

  lemma Stakes()
    ensures COMMITTEE.Valid() && COMMITTEE.QuorumThreshold() == 3 && COMMITTEE.ValidityThreshold() == 2
    ensures COMMITTEE.StakeOf({2}) == 2 && COMMITTEE.StakeOf({1}) == 1 && COMMITTEE.StakeOf({}) == 0
    ensures COMMITTEE.StakeOf({0, 2}) == 3 && COMMITTEE.StakeOf({1, 2}) == 3
  {
    var s := COMMITTEE.stakes;
    assert SumTo(s, 1) == 1 && SumTo(s, 2) == 2 && SumTo(s, 3) == 4;
    StakeSingleton(s, 2, 3);
    StakeSingleton(s, 1, 3);
    StakeEmpty(s, 3);
    assert StakeBelow(s, {0, 2}, 1) == 1 && StakeBelow(s, {0, 2}, 2) == 1;
    assert StakeBelow(s, {1, 2}, 1) == 0 && StakeBelow(s, {1, 2}, 2) == 1;
  }

  /** Two parents, one of them by authority 2, make a block well-formed. */
  lemma TwoParents(b: Block)
    requires b.epoch == 0 && b.round > 0 && b.author < 3 && |b.ancestors| == 2 && b.ancestors[0].author == b.author
    requires b.ancestors[1].author < 3 && b.ancestors[1].author != b.author
    requires b.ancestors[0].author == 2 || b.ancestors[1].author == 2
    requires forall a :: a in b.ancestors ==> a.round + 1 == b.round && (a.round == 0 ==> a in GENESIS)
    ensures WellFormed(CTX, b)
  {
    Stakes();
    var p := ParentAuthors(b, 2);
    assert b.ancestors[0] in b.ancestors && b.ancestors[1] in b.ancestors;
    assert b.ancestors[0].author in p && b.ancestors[1].author in p;
    if 0 in p {
      QuorumMonotone(COMMITTEE, {0, 2}, p);
    } else {
      QuorumMonotone(COMMITTEE, {1, 2}, p);
    }
  }

  lemma LowerWellFormed()
    ensures WellFormed(CTX, A1) && WellFormed(CTX, B1) && WellFormed(CTX, C1)
    ensures WellFormed(CTX, A2) && WellFormed(CTX, B2) && WellFormed(CTX, C2)
  {
    hide WellFormed, CTX;
    TwoParents(A1);
    TwoParents(B1);
    TwoParents(C1);
    TwoParents(A2);
    TwoParents(B2);
    TwoParents(C2);
  }

  lemma UpperWellFormed()
    ensures WellFormed(CTX, A3) && WellFormed(CTX, B3) && WellFormed(CTX, C3) && WellFormed(CTX, A4) && WellFormed(CTX, C4)
  {
    hide WellFormed, CTX;
    TwoParents(A3);
    TwoParents(B3);
    TwoParents(C3);
    TwoParents(A4);
    TwoParents(C4);
  }

  // ----- the universe

  /** One block per authority and round. */
  ghost predicate Good(d: Dag) {
    Verified(CTX, d) && forall r :: r in d ==> r.digest == 0
  }

  ghost function AtRound(d: Dag, round: nat): set<BlockRef> { set r | r in d && r.round == round }

  ghost predicate Has(d: Dag, b: Block) { b.Ref() in d && d[b.Ref()] == b }

  lemma Add(d: Dag, b: Block) returns (e: Dag)
    requires Good(d) && b.digest == 0 && WellFormed(CTX, b) && b.Ref() !in AtRound(d, b.round)
    requires forall a :: a in b.ancestors ==> a in AtRound(d, b.round - 1)
    ensures Good(e) && Has(e, b) && forall x :: Has(d, x) ==> Has(e, x)
    ensures AtRound(e, b.round) == AtRound(d, b.round) + {b.Ref()}
    ensures forall k :: k != b.round ==> AtRound(e, k) == AtRound(d, k)
    ensures forall r :: r in d ==> r in e && e[r] == d[r]
  {
    hide WellFormed, CTX;
    e := d[b.Ref() := b];
  }

  function Start(): Dag { map[G0.Ref() := G0, G1.Ref() := G1, G2.Ref() := G2] }

  lemma StartGood()
    ensures Good(Start()) && AtRound(Start(), 0) == {G0.Ref(), G1.Ref(), G2.Ref()}
    ensures AtRound(Start(), 1) == {} && AtRound(Start(), 2) == {} && AtRound(Start(), 3) == {} && AtRound(Start(), 4) == {}
  {
    hide WellFormed, CTX;
  }

  /** What both views contain below round 3. */
  ghost predicate Base(d: Dag) {
    && Good(d) && Has(d, A2) && Has(d, B2) && Has(d, C2)
    && AtRound(d, 1) == {A1.Ref(), B1.Ref(), C1.Ref()} && AtRound(d, 2) == {A2.Ref(), B2.Ref(), C2.Ref()}
  }

  lemma FirstRound() returns (d: Dag)
    ensures Good(d) && AtRound(d, 1) == {A1.Ref(), B1.Ref(), C1.Ref()} && AtRound(d, 2) == {}
    ensures AtRound(d, 3) == {} && AtRound(d, 4) == {}
  {
    hide Good, WellFormed, CTX, AtRound, Has;
    StartGood();
    LowerWellFormed();
    d := Add(Start(), A1);
    d := Add(d, B1);
    d := Add(d, C1);
  }

  lemma SecondRound() returns (d: Dag)
    ensures Base(d) && AtRound(d, 3) == {} && AtRound(d, 4) == {}
  {
    hide Good, WellFormed, CTX, AtRound, Has;
    LowerWellFormed();
    d := FirstRound();
    d := Add(d, A2);
    d := Add(d, B2);
    d := Add(d, C2);
  }

  /** What the larger view contains above round 2. */
  ghost predicate Upper(d: Dag) {
    && Base(d) && Has(d, A3) && Has(d, B3) && Has(d, C3) && Has(d, A4) && Has(d, C4)
    && AtRound(d, 3) == {A3.Ref(), B3.Ref(), C3.Ref()}
  }

  /** The smaller view has `B3` and `C3` of round 3; the larger one has `A3` and round 4 as well. */
  lemma Views() returns (v: Dag, w: Dag)
    ensures Base(v) && Upper(w) && View(v, w) && Universe(CTX, w, {})
    ensures Has(v, B3) && Has(v, C3) && AtRound(v, 3) == {B3.Ref(), C3.Ref()}
  {
    hide Good, WellFormed, CTX, Universe, Closed, AtRound, Has;
    UpperWellFormed();
    v := SecondRound();
    v := Add(v, B3);
    v := Add(v, C3);
    w := Add(v, A3);
    w := Add(w, A4);
    w := Add(w, C4);
    GoodClosed(v);
    GoodIsUniverse(w);
  }

  lemma GoodClosed(d: Dag)
    requires Good(d)
    ensures Closed(d)
  {
  }

  lemma GoodIsUniverse(d: Dag)
    requires Good(d)
    ensures Universe(CTX, d, {})
  {
    hide WellFormed;
    Stakes();
  }

  // ----- votes and certificates

  /** What the blocks of round 2 support. */
  lemma Votes(d: Dag)
    requires Base(d)
    ensures Closed(d)
    ensures IsVote(d, A2.Ref(), C1.Ref()) && IsVote(d, B2.Ref(), C1.Ref()) && IsVote(d, C2.Ref(), C1.Ref())
    ensures IsVote(d, A2.Ref(), A1.Ref()) && IsVote(d, C2.Ref(), A1.Ref()) && !IsVote(d, B2.Ref(), A1.Ref())
  {
    hide Verified;
    GoodClosed(d);
    SupportOfTwo(d, A2, FIRST);
    SupportOfTwo(d, B2, FIRST);
    SupportOfTwo(d, C2, FIRST);
    SupportOfTwo(d, A2, SECOND);
    SupportOfTwo(d, B2, SECOND);
    SupportOfTwo(d, C2, SECOND);
  }

  /** A block supports the first of its two parents that is at the slot. */
  lemma SupportOfTwo(d: Dag, b: Block, slot: Slot)
    requires Closed(d) && Has(d, b) && |b.ancestors| == 2 && b.round == slot.round + 1
    requires b.ancestors[0].round == slot.round && b.ancestors[1].round == slot.round
    ensures FindSupported(d, slot, b.Ref())
         == if b.ancestors[0].ToSlot() == slot then Some(b.ancestors[0])
            else if b.ancestors[1].ToSlot() == slot then Some(b.ancestors[1])
            else None
  {
    var r := b.Ref();
    assert FindFrom(d, slot, r, 2) == None;
    assert FindFrom(d, slot, r, 1) == if b.ancestors[1].ToSlot() == slot then Some(b.ancestors[1]) else None;
  }

  lemma CertificateOf(d: Dag, cert: Block, leader: BlockRef)
    requires Closed(d) && Has(d, cert) && |cert.ancestors| == 2
    requires IsVote(d, cert.ancestors[0], leader) && IsVote(d, cert.ancestors[1], leader)
    requires {cert.ancestors[0].author, cert.ancestors[1].author} == {0, 2} || {cert.ancestors[0].author, cert.ancestors[1].author} == {1, 2}
    ensures IsCertificate(COMMITTEE, d, cert.Ref(), leader)
  {
    hide IsVote, Closed;
    Stakes();
    var voters := Voters(d, cert.Ref(), leader);
    assert cert.ancestors[0] in cert.ancestors && cert.ancestors[1] in cert.ancestors;
    assert cert.ancestors[0].author in voters && cert.ancestors[1].author in voters;
    QuorumMonotone(COMMITTEE, {cert.ancestors[0].author, cert.ancestors[1].author}, voters);
  }

  /** Nobody blames authority 2 in round 2, and only authority 1 blames authority 0. */
  lemma NotSkipped(d: Dag)
    requires Base(d)
    ensures !DirectSkip(COMMITTEE, d, FIRST) && !DirectSkip(COMMITTEE, d, SECOND)
  {
    hide Good;
    Stakes();
    forall r | r in d && r.round == 2
      ensures !IsBlame(d[r], 2) && (IsBlame(d[r], 0) ==> r.author == 1)
    {
      assert r in AtRound(d, 2);
      assert C1.Ref() in d[r].ancestors;
      assert r != B2.Ref() ==> A1.Ref() in d[r].ancestors;
    }
    assert Blamers(d, 2, 2) == {};
    StakeMonotone(COMMITTEE.stakes, Blamers(d, 2, 0), {1}, 3);
  }

  /** The only blocks at the two slots. */
  lemma Candidates(d: Dag, l: BlockRef)
    requires Base(d)
    ensures l in d ==> (l.ToSlot() == FIRST ==> l == C1.Ref()) && (l.ToSlot() == SECOND ==> l == A1.Ref())
    ensures A1.Ref() in d && C1.Ref() in d && Closed(d)
  {
    GoodClosed(d);
    hide Good;
    assert l in d && l.round == 1 ==> l in AtRound(d, 1);
    assert A1.Ref() in AtRound(d, 1) && C1.Ref() in AtRound(d, 1);
  }

  lemma BaseClosed(d: Dag)
    requires Base(d)
    ensures Closed(d)
  {
    hide Closed, Verified;
    GoodClosed(d);
  }

  /** The direct rule decides for the one candidate, or not at all. */
  lemma DirectFor(d: Dag, slot: Slot, l: BlockRef)
    requires Base(d) && ((slot == FIRST && l == C1.Ref()) || (slot == SECOND && l == A1.Ref()))
    ensures Closed(d)
    ensures DirectDecide(COMMITTEE, d, slot)
         == if COMMITTEE.IsQuorum(Certifiers(COMMITTEE, d, 3, l)) then Commit(l) else Undecided(slot)
  {
    hide Base, Certifiers, Closed, DirectSkip, Committee.IsQuorum;
    BaseClosed(d);
    NotSkipped(d);
    Candidates(d, l);
    forall k | DirectCommit(COMMITTEE, d, slot, k)
      ensures k == l
    {
      Candidates(d, k);
    }
    assert COMMITTEE.IsQuorum(Certifiers(COMMITTEE, d, 3, l)) ==> DirectCommit(COMMITTEE, d, slot, l);
  }

  /** `C1` is certified by authorities 1 and 2 wherever `B3` and `C3` are. */
  lemma FirstCommitted(d: Dag)
    requires Base(d) && Has(d, B3) && Has(d, C3)
    ensures Closed(d) && DirectDecide(COMMITTEE, d, FIRST) == Commit(C1.Ref())
  {
    Votes(d);
    hide Base, IsVote, IsCertificate, DirectDecide, Closed;
    Stakes();
    CertificateOf(d, B3, C1.Ref());
    CertificateOf(d, C3, C1.Ref());
    var certifiers := Certifiers(COMMITTEE, d, 3, C1.Ref());
    assert B3.Ref().author in certifiers && C3.Ref().author in certifiers;
    QuorumMonotone(COMMITTEE, {1, 2}, certifiers);
    DirectFor(d, FIRST, C1.Ref());
  }

  /** `A1` is certified by authorities 0 and 2 wherever `A3` and `C3` are. */
  lemma SecondCommitted(d: Dag)
    requires Base(d) && Has(d, A3) && Has(d, C3)
    ensures Closed(d) && DirectDecide(COMMITTEE, d, SECOND) == Commit(A1.Ref())
  {
    Votes(d);
    hide Base, IsVote, IsCertificate, DirectDecide, Closed;
    Stakes();
    CertificateOf(d, A3, A1.Ref());
    CertificateOf(d, C3, A1.Ref());
    var certifiers := Certifiers(COMMITTEE, d, 3, A1.Ref());
    assert A3.Ref().author in certifiers && C3.Ref().author in certifiers;
    QuorumMonotone(COMMITTEE, {0, 2}, certifiers);
    DirectFor(d, SECOND, A1.Ref());
  }

  /** `B2` does not vote for `A1`, so `B3` does not certify it. */
  lemma NoCertificate(d: Dag)
    requires Base(d) && Has(d, B3)
    ensures Closed(d) && !IsCertificate(COMMITTEE, d, B3.Ref(), A1.Ref())
  {
    hide Base, IsVote, Closed;
    BaseClosed(d);
    Votes(d);
    Stakes();
    var voters := Voters(d, B3.Ref(), A1.Ref());
    assert voters <= {2};
    StakeMonotone(COMMITTEE.stakes, voters, {2}, 3);
  }

  /** Without `A3` only authority 2 certifies `A1`. */
  lemma SecondUndecided(d: Dag)
    requires Base(d) && Has(d, B3) && AtRound(d, 3) == {B3.Ref(), C3.Ref()}
    ensures Closed(d) && DirectDecide(COMMITTEE, d, SECOND) == Undecided(SECOND)
  {
    hide Base, DirectDecide, Closed, IsCertificate;
    BaseClosed(d);
    NoCertificate(d);
    Stakes();
    var certifiers := Certifiers(COMMITTEE, d, 3, A1.Ref());
    forall r | r in d && r.round == 3 && IsCertificate(COMMITTEE, d, r, A1.Ref())
      ensures r.author == 2
    {
      assert r in AtRound(d, 3);
    }
    assert certifiers <= {2};
    StakeMonotone(COMMITTEE.stakes, certifiers, {2}, 3);
    DirectFor(d, SECOND, A1.Ref());
  }

  /** `C2` is certified by authorities 0 and 2 in round 4. */
  lemma ThirdCommitted(d: Dag)
    requires Upper(d)
    ensures Closed(d) && DirectDecide(COMMITTEE, d, THIRD) == Commit(C2.Ref())
  {
    hide Base, IsVote, IsCertificate, DirectCommit, DirectSkip, Closed, AtRound, Committee.IsQuorum;
    BaseClosed(d);
    ThirdCertified(d);
    ThirdNotSkipped(d);
    forall k | DirectCommit(COMMITTEE, d, THIRD, k)
      ensures k == C2.Ref()
    {
      ThirdCandidate(d, k);
    }
  }

  lemma ThirdCertified(d: Dag)
    requires Upper(d)
    ensures Closed(d) && DirectCommit(COMMITTEE, d, THIRD, C2.Ref())
  {
    hide Base, AtRound, Closed, FindSupported, IsCertificate;
    BaseClosed(d);
    BaseHas(d);
    Stakes();
    SupportOfTwo(d, A3, THIRD);
    SupportOfTwo(d, C3, THIRD);
    CertificateOf(d, A4, C2.Ref());
    CertificateOf(d, C4, C2.Ref());
    var certifiers := Certifiers(COMMITTEE, d, 4, C2.Ref());
    assert A4.Ref().author in certifiers && C4.Ref().author in certifiers;
    QuorumMonotone(COMMITTEE, {0, 2}, certifiers);
  }

  lemma BaseHas(d: Dag)
    requires Base(d)
    ensures Has(d, C2)
  {
    hide Good;
  }

  /** Every block of round 3 links `C2`. */
  lemma ThirdNotSkipped(d: Dag)
    requires Upper(d)
    ensures !DirectSkip(COMMITTEE, d, THIRD)
  {
    hide Base;
    Stakes();
    forall r | r in d && r.round == 3
      ensures !IsBlame(d[r], 2)
    {
      assert r in AtRound(d, 3);
      assert C2.Ref() in d[r].ancestors;
    }
    assert Blamers(d, 3, 2) == {};
  }

  lemma ThirdCandidate(d: Dag, l: BlockRef)
    requires Base(d) && Closed(d) && DirectCommit(COMMITTEE, d, THIRD, l)
    ensures l == C2.Ref()
  {
    hide Good, Closed, Certifiers;
    assert l in AtRound(d, 2);
  }

  // ----- the runs

  lemma TheSlots()
    ensures Slots(COMMITTERS, Elect, 1, 2) == [FIRST, SECOND] && Slots(COMMITTERS, Elect, 2, 3) == [THIRD]
    ensures Slots(COMMITTERS, Elect, 1, 3) == [FIRST, SECOND, THIRD]
  {
    assert COMMITTERS[0].Leads(1) && COMMITTERS[1].Leads(1) && !COMMITTERS[2].Leads(1);
    assert !COMMITTERS[0].Leads(2) && !COMMITTERS[1].Leads(2) && COMMITTERS[2].Leads(2);
    assert SlotsOfRound(COMMITTERS, Elect, 1, 2) == [] && SlotsOfRound(COMMITTERS, Elect, 1, 1) == [SECOND];
    assert SlotsOfRound(COMMITTERS, Elect, 1, 0) == [FIRST] + [SECOND];
    assert SlotsOfRound(COMMITTERS, Elect, 2, 2) == [THIRD] && SlotsOfRound(COMMITTERS, Elect, 2, 1) == [THIRD];
    assert SlotsOfRound(COMMITTERS, Elect, 2, 0) == [THIRD];
    assert Slots(COMMITTERS, Elect, 3, 3) == [] && Slots(COMMITTERS, Elect, 2, 2) == [];
  }

  /** The direct statuses of slots are their statuses, when none of them has an anchor above it. */
  lemma {:induction false} DecideDirect(d: Dag, slots: seq<Slot>, statuses: seq<LeaderStatus>)
    requires Closed(d) && |slots| == |statuses|
    requires forall i :: 0 <= i < |slots| ==> statuses[i] == DirectDecide(COMMITTEE, d, slots[i]) && slots[i].round <= 2
    requires forall i :: 0 <= i < |slots| ==> statuses[i].Round() == slots[i].round
    ensures Decide(COMMITTEE, d, slots) == statuses
  {
    if slots == [] {
    } else {
      hide Closed, DirectDecide;
      DecideDirect(d, slots[1..], statuses[1..]);
      NoAnchor(statuses[1..], slots[0].round + WAVE_LENGTH);
      assert statuses == [statuses[0]] + statuses[1..];
    }
  }

  lemma {:induction false} NoAnchor(statuses: seq<LeaderStatus>, minRound: nat)
    requires forall i :: 0 <= i < |statuses| ==> statuses[i].Round() < minRound
    ensures FirstAnchor(statuses, minRound) == None
  {
    if statuses == [] {
    } else {
      NoAnchor(statuses[1..], minRound);
    }
  }

  lemma {:induction false} AllCommitted(statuses: seq<LeaderStatus>)
    requires forall i :: 0 <= i < |statuses| ==> statuses[i].Commit? && statuses[i].Round() > GENESIS_ROUND
    ensures DecidedPrefix(statuses) == statuses
  {
    if statuses == [] {
    } else {
      AllCommitted(statuses[1..]);
    }
  }

  /** A run never goes back to the round of the slot it starts from. */
  lemma {:induction false} LaterRounds(c: Committee, calls: seq<Call>, committers: seq<Options>, schedule: Schedule, last: Slot, s: LeaderStatus)
    requires (forall i :: 0 <= i < |calls| ==> Closed(calls[i].view)) && s in Decisions(c, calls, committers, schedule, last)
    ensures s.Round() > last.round
    decreases |calls|
  {
    hide Closed, DecidedLeaders;
    var call := calls[0];
    var all := DecidedLeaders(c, call.view, committers, schedule, last, call.highest);
    var p := Taken(c, call, committers, schedule, last);
    assert p <= all;
    if s in p {
      CallRounds(c, call.view, committers, schedule, last, call.highest, s);
    } else {
      LaterRounds(c, calls[1..], committers, schedule, LastOf(last, p), s);
      if p != [] {
        CallRounds(c, call.view, committers, schedule, last, call.highest, p[|p| - 1]);
      }
    }
  }

  lemma CallRounds(c: Committee, v: Dag, committers: seq<Options>, schedule: Schedule, last: Slot, highest: nat, s: LeaderStatus)
    requires Closed(v) && s in DecidedLeaders(c, v, committers, schedule, last, highest)
    ensures s.Round() > last.round
  {
    hide Closed, Decide, DecidedPrefix, Slots;
    var slots := Slots(committers, schedule, last.round + 1, EndRound(highest));
    DecidedSlots(c, v, slots, s);
    SlotsRounds(committers, schedule, last.round + 1, EndRound(highest), s.ToSlot());
  }

  /** However the run goes on, it has committed the first leader of round 1 and never commits the second. */
  ghost predicate NeverSecond(calls: seq<Call>) {
    forall more: seq<Call> :: (forall i :: 0 <= i < |calls + more| ==> Closed((calls + more)[i].view)) ==>
      var s := Decisions(COMMITTEE, calls + more, COMMITTERS, Elect, Slot(0, 0));
      s != [] && s[0] == Commit(C1.Ref()) && Commit(A1.Ref()) !in s
  }

  /**
   * Two runs over the same universe, without any faulty authority, that part. One sees everything in one
   * call and commits both leaders of round 1. The other first sees a part and commits the first leader;
   * when it sees everything it goes on with round 2, and never commits the second.
   */
  lemma RunsPart() returns (u: Dag, one: seq<Call>, two: seq<Call>)
    ensures Universe(CTX, u, {}) && Growing(u, one) && Growing(u, two)
    ensures (forall i :: 0 <= i < |one| ==> Closed(one[i].view)) && (forall i :: 0 <= i < |two| ==> Closed(two[i].view))
    ensures var s := Decisions(COMMITTEE, one, COMMITTERS, Elect, Slot(0, 0));
      var t := Decisions(COMMITTEE, two, COMMITTERS, Elect, Slot(0, 0));
      && s == [Commit(C1.Ref()), Commit(A1.Ref()), Commit(C2.Ref())] && t == [Commit(C1.Ref()), Commit(C2.Ref())]
      && !(s <= t) && !(t <= s)
    ensures NeverSecond(two[..1])
  {
    hide Closed, Universe, DecidedLeaders, NeverSecond, View;
    var v, w := Decided();
    u, one, two := w, [Call(w, 4, 9)], [Call(v, 3, 9), Call(w, 4, 9)];
    ViewOfItself(w);
    assert View(two[0].view, w) && View(two[1].view, w);
    assert one[1..] == [] && two[1..] == one && two[..1] == [Call(v, 3, 9)];
    FirstOnly(v);
    SingleCall(Call(w, 4, 9), Slot(0, 0));
    SingleCall(Call(w, 4, 9), FIRST);
    var s, t := Decisions(COMMITTEE, one, COMMITTERS, Elect, Slot(0, 0)), Decisions(COMMITTEE, two, COMMITTERS, Elect, Slot(0, 0));
    assert t == [Commit(C1.Ref())] + Decisions(COMMITTEE, one, COMMITTERS, Elect, FIRST);
    assert s[1] != t[1];
  }

  lemma SingleCall(call: Call, last: Slot)
    requires Closed(call.view)
    ensures Decisions(COMMITTEE, [call], COMMITTERS, Elect, last) == Taken(COMMITTEE, call, COMMITTERS, Elect, last)
  {
    hide Closed, Taken;
    assert [call][1..] == [];
  }

  lemma FirstOnly(v: Dag)
    requires Closed(v) && DecidedLeaders(COMMITTEE, v, COMMITTERS, Elect, Slot(0, 0), 3) == [Commit(C1.Ref())]
    ensures NeverSecond([Call(v, 3, 9)])
  {
    hide Closed, DecidedLeaders, Decisions;
    var calls := [Call(v, 3, 9)];
    forall more: seq<Call> | forall i :: 0 <= i < |calls + more| ==> Closed((calls + more)[i].view)
      ensures var s := Decisions(COMMITTEE, calls + more, COMMITTERS, Elect, Slot(0, 0));
        s != [] && s[0] == Commit(C1.Ref()) && Commit(A1.Ref()) !in s
    {
      forall i | 0 <= i < |more|
        ensures Closed(more[i].view)
      {
        assert (calls + more)[i + 1] == more[i];
      }
      GoesOn(v, more);
    }
  }

  /** What the two views decide in one call, and what the larger one decides after `C1`. */
  lemma Decided() returns (v: Dag, w: Dag)
    ensures Universe(CTX, w, {}) && View(v, w) && Closed(v) && Closed(w)
    ensures DecidedLeaders(COMMITTEE, v, COMMITTERS, Elect, Slot(0, 0), 3) == [Commit(C1.Ref())]
    ensures DecidedLeaders(COMMITTEE, w, COMMITTERS, Elect, Slot(0, 0), 4)
         == [Commit(C1.Ref()), Commit(A1.Ref()), Commit(C2.Ref())]
    ensures DecidedLeaders(COMMITTEE, w, COMMITTERS, Elect, FIRST, 4) == [Commit(C2.Ref())]
  {
    hide Closed, DirectDecide, DecidedLeaders, Base, Has, AtRound, Universe;
    v, w := Views();
    SmallerDecides(v);
    LargerDecides(w);
  }

  lemma SmallerDecides(v: Dag)
    requires Base(v) && Has(v, B3) && Has(v, C3) && AtRound(v, 3) == {B3.Ref(), C3.Ref()}
    ensures Closed(v) && DecidedLeaders(COMMITTEE, v, COMMITTERS, Elect, Slot(0, 0), 3) == [Commit(C1.Ref())]
  {
    hide Closed, DirectDecide, Base, Has, AtRound, Decide, Slots;
    FirstCommitted(v);
    SecondUndecided(v);
    TheSlots();
    var statuses := [Commit(C1.Ref()), Undecided(SECOND)];
    DecideDirect(v, [FIRST, SECOND], statuses);
    assert statuses[1..] == [Undecided(SECOND)];
    assert DecidedPrefix([Undecided(SECOND)]) == [];
    assert DecidedPrefix(statuses) == [statuses[0]] + DecidedPrefix(statuses[1..]);
  }

  lemma LargerDecides(w: Dag)
    requires Upper(w)
    ensures Closed(w)
    ensures DecidedLeaders(COMMITTEE, w, COMMITTERS, Elect, Slot(0, 0), 4)
         == [Commit(C1.Ref()), Commit(A1.Ref()), Commit(C2.Ref())]
    ensures DecidedLeaders(COMMITTEE, w, COMMITTERS, Elect, FIRST, 4) == [Commit(C2.Ref())]
  {
    hide Closed, DirectDecide, Base, Has, AtRound, Decide, Slots, DecidedPrefix;
    FirstCommitted(w);
    SecondCommitted(w);
    ThirdCommitted(w);
    TheSlots();
    DecideDirect(w, [FIRST, SECOND, THIRD], [Commit(C1.Ref()), Commit(A1.Ref()), Commit(C2.Ref())]);
    AllCommitted([Commit(C1.Ref()), Commit(A1.Ref()), Commit(C2.Ref())]);
    DecideDirect(w, [THIRD], [Commit(C2.Ref())]);
    AllCommitted([Commit(C2.Ref())]);
  }

  /** Having decided the first leader of round 1, a run never decides the second. */
  lemma GoesOn(v: Dag, more: seq<Call>)
    requires Closed(v) && forall i :: 0 <= i < |more| ==> Closed(more[i].view)
    requires DecidedLeaders(COMMITTEE, v, COMMITTERS, Elect, Slot(0, 0), 3) == [Commit(C1.Ref())]
    ensures forall i :: 0 <= i < |[Call(v, 3, 9)] + more| ==> Closed(([Call(v, 3, 9)] + more)[i].view)
    ensures var s := Decisions(COMMITTEE, [Call(v, 3, 9)] + more, COMMITTERS, Elect, Slot(0, 0));
      s != [] && s[0] == Commit(C1.Ref()) && Commit(A1.Ref()) !in s
  {
    hide Closed, DecidedLeaders;
    var calls := [Call(v, 3, 9)] + more;
    assert calls[1..] == more && calls[0] == Call(v, 3, 9);
    forall x | x in Decisions(COMMITTEE, more, COMMITTERS, Elect, FIRST)
      ensures x != Commit(A1.Ref())
    {
      LaterRounds(COMMITTEE, more, COMMITTERS, Elect, FIRST, x);
    }
  }
}
