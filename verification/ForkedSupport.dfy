/**
 * Support is kept along a chain of own blocks, and no further: a block that includes an earlier block of
 * its author through other authors' blocks may support another block at the same slot.
 */
module ForkedSupport {
  import opened Committees
  import opened Blocks
  import opened BlockVerifier
  import opened Dags
  import opened Agreement
  import opened HeavyAuthority

  // Authority 1 makes two blocks in round 1; the others make one a round.
  const L := Block(0, 1, 1, 0, 0, [G1.Ref(), G3.Ref()], [])
  const FORK := Block(0, 1, 1, 1, 0, [G1.Ref(), G3.Ref()], [])
  const A := Block(0, 2, 0, 0, 0, [G0.Ref(), L.Ref(), H1.Ref()], [])
  const V := Block(0, 2, 2, 0, 0, [G2.Ref(), FORK.Ref(), H1.Ref()], [])
  const K := Block(0, 3, 3, 0, 0, [H2.Ref(), A.Ref()], [])
  const B := Block(0, 4, 0, 0, 0, [G0.Ref(), V.Ref(), K.Ref()], [])

  /** Blocks of one authority and round differ only for authority 1. */
  ghost predicate Good(d: Dag) {
    Verified(CTX, d) && forall r :: r in d ==> r.author == 1 || r.digest == 0
  }

  lemma Add(d: Dag, b: Block) returns (e: Dag)
    requires Good(d) && b.Ref() !in d && (b.author == 1 || b.digest == 0) && WellFormed(CTX, b)
    requires forall a :: a in b.ancestors ==> a in d && a.round < b.round
    ensures e == d[b.Ref() := b] && Good(e)
  {
    hide WellFormed, CTX;
    e := d[b.Ref() := b];
  }

  lemma AllWellFormed()
    ensures WellFormed(CTX, L) && WellFormed(CTX, FORK) && WellFormed(CTX, H1) && WellFormed(CTX, H2)
    ensures WellFormed(CTX, A) && WellFormed(CTX, V) && WellFormed(CTX, K) && WellFormed(CTX, B)
  {
    hide WellFormed, CTX;
    ChainWellFormed();
    FirstWellFormed();
    WithHeavyParent(V, 2);
    WithHeavyParent(K, 0);
    WithHeavyParent(B, 2);
  }

  lemma FirstWellFormed()
    ensures WellFormed(CTX, L) && WellFormed(CTX, FORK) && WellFormed(CTX, A)
  {
    hide WellFormed, CTX;
    WithHeavyParent(L, 1);
    WithHeavyParent(FORK, 1);
    WithHeavyParent(A, 2);
  }

  function Start(): Dag {
    map[G0.Ref() := G0, G1.Ref() := G1, G2.Ref() := G2, G3.Ref() := G3]
  }

  lemma StartGood()
    ensures Good(Start())
  {
    hide WellFormed, CTX;
  }

  lemma BuildFirstRound() returns (u: Dag)
    ensures Good(u) && forall r :: r in u ==> r.round <= 1
    ensures G0.Ref() in u && G2.Ref() in u && L.Ref() in u && FORK.Ref() in u && H1.Ref() in u
  {
    hide Good, WellFormed, CTX;
    AllWellFormed();
    StartGood();
    u := Add(Start(), L);
    u := Add(u, FORK);
    u := Add(u, H1);
  }

  lemma BuildSecondRound() returns (u: Dag)
    ensures Good(u) && forall r :: r in u ==> r.round <= 2
    ensures G0.Ref() in u && A.Ref() in u && V.Ref() in u && H2.Ref() in u && u[A.Ref()] == A && u[V.Ref()] == V
  {
    hide Good, WellFormed, CTX;
    AllWellFormed();
    u := BuildFirstRound();
    u := Add(u, H2);
    u := Add(u, A);
    u := Add(u, V);
  }

  /** The whole universe, round by round. */
  lemma Build() returns (u: Dag)
    ensures Universe(CTX, u, {1})
    ensures A.Ref() in u && V.Ref() in u && K.Ref() in u && B.Ref() in u
    ensures u[A.Ref()] == A && u[V.Ref()] == V && u[K.Ref()] == K && u[B.Ref()] == B
  {
    hide Good, WellFormed, CTX, Universe;
    AllWellFormed();
    u := BuildSecondRound();
    u := Add(u, K);
    u := Add(u, B);
    GoodIsUniverse(u);
  }

  lemma GoodIsUniverse(u: Dag)
    requires Good(u)
    ensures Universe(CTX, u, {1})
  {
    hide WellFormed;
    HeavyQuorum();
  }

  /** What a block supports, when the first ancestor above the slot's round decides it. */
  lemma SupportAt(d: Dag, slot: Slot, from: BlockRef)
    requires Closed(d) && from in d && from.round > slot.round && |d[from].ancestors| > 1
    requires d[from].ancestors[0].round < slot.round
    ensures var a := d[from].ancestors[1];
            && (a.ToSlot() == slot ==> FindSupported(d, slot, from) == Some(a))
            && (a.round > slot.round ==> a in d)
            && (a.round > slot.round && FindSupported(d, slot, a).Some? ==>
                  FindSupported(d, slot, from) == FindSupported(d, slot, a))
  {
    var a := d[from].ancestors[1];
    assert d[from].ancestors[0] in d[from].ancestors && a in d[from].ancestors;
    assert FindFrom(d, slot, from, 0) == FindFrom(d, slot, from, 1);
  }

  /**
   * `A` and `B` are verified blocks of one authority that makes one block a round, and `B` has `A` in its
   * causal history; yet `A` supports one block of the slot and `B` the other.
   */
  lemma SupportNotKeptOffTheChain() returns (u: Dag, slot: Slot, a: BlockRef, b: BlockRef)
    ensures Universe(CTX, u, {1}) && a in u && b in u && a.author == b.author != 1 && InPast(u, b, a)
    ensures FindSupported(u, slot, a).Some? && FindSupported(u, slot, b).Some?
    ensures FindSupported(u, slot, a) != FindSupported(u, slot, b)
  {
    hide WellFormed, Bft;
    u := Build();
    slot, a, b := Slot(1, 1), A.Ref(), B.Ref();
    SupportAt(u, slot, a);
    SupportAt(u, slot, V.Ref());
    SupportAt(u, slot, b);
    assert K.Ref() in u[b].ancestors && a in u[K.Ref()].ancestors;
    assert InPast(u, K.Ref(), a);
  }
}
