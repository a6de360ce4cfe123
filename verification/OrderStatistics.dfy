/** Weighted order statistics: the point of a list of (value, stake) pairs at which a quorum is reached. */
module OrderStatistics {

  import opened Sequences
  import opened Committees

  type Weighted = (nat, nat)

  /** Value first, then stake. */
  predicate Smaller(a: Weighted, b: Weighted) {
    a.0 < b.0 || (a.0 == b.0 && a.1 < b.1)
  }

  predicate Larger(a: Weighted, b: Weighted) { Smaller(b, a) }

  function Before(descending: bool): (Weighted, Weighted) -> bool {
    if descending then Larger else Smaller
  }

  lemma BeforeIsOrder(descending: bool)
    ensures WeakOrder(Before(descending))
  {
  }

  /** Whether a value is on the side of `bound` that is counted first. */
  predicate Reaches(descending: bool, value: nat, bound: int) {
    if descending then value >= bound else value <= bound
  }

  /** The stake behind the values that reach `bound`. */
  function Weight(descending: bool, s: seq<Weighted>, bound: int): nat {
    if s == [] then 0
    else (if Reaches(descending, s[0].0, bound) then s[0].1 else 0) + Weight(descending, s[1..], bound)
  }

  lemma {:induction false} InsertWeight(descending: bool, x: Weighted, s: seq<Weighted>, bound: int)
    ensures Weight(descending, Insert(Before(descending), x, s), bound)
         == (if Reaches(descending, x.0, bound) then x.1 else 0) + Weight(descending, s, bound)
  {
    if s == [] {
      assert [x][1..] == [];
    } else if !Before(descending)(s[0], x) {
      assert ([x] + s)[1..] == s;
    } else {
      InsertWeight(descending, x, s[1..], bound);
      var rest := Insert(Before(descending), x, s[1..]);
      assert ([s[0]] + rest)[1..] == rest;
    }
  }

  /** Sorting moves no stake across any bound. */
  lemma {:induction false} SortWeight(descending: bool, s: seq<Weighted>, bound: int)
    ensures Weight(descending, Sort(Before(descending), s), bound) == Weight(descending, s, bound)
  {
    if s == [] {
    } else {
      SortWeight(descending, s[1..], bound);
      InsertWeight(descending, s[0], Sort(Before(descending), s[1..]), bound);
    }
  }

  function Total(s: seq<Weighted>): nat {
    if s == [] then 0 else s[0].1 + Total(s[1..])
  }

  lemma {:induction false} TotalAppend(s: seq<Weighted>, x: Weighted)
    ensures Total(s + [x]) == Total(s) + x.1
  {
    if s == [] {
      assert ([] + [x])[1..] == [];
    } else {
      assert (s + [x])[1..] == s[1..] + [x];
      TotalAppend(s[1..], x);
    }
  }

  lemma {:induction false} WeightAppend(descending: bool, s: seq<Weighted>, t: seq<Weighted>, bound: int)
    ensures Weight(descending, s + t, bound) == Weight(descending, s, bound) + Weight(descending, t, bound)
  {
    if s == [] {
      assert s + t == t;
    } else {
      assert (s + t)[1..] == s[1..] + t;
      WeightAppend(descending, s[1..], t, bound);
    }
  }

  lemma {:induction false} AllReach(descending: bool, s: seq<Weighted>, bound: int)
    ensures Weight(descending, s, bound) <= Total(s)
    ensures (forall x :: x in s ==> Reaches(descending, x.0, bound)) ==> Weight(descending, s, bound) == Total(s)
    ensures (forall x :: x in s ==> !Reaches(descending, x.0, bound)) ==> Weight(descending, s, bound) == 0
  {
    if s == [] {
    } else {
      AllReach(descending, s[1..], bound);
    }
  }

  /** A bound strictly ahead of `v`: larger when descending, smaller when ascending. */
  predicate Ahead(descending: bool, bound: int, v: nat) {
    if descending then bound > v else bound < v
  }

  /** `v` reaches the threshold, and nothing ahead of `v` does. */
  ghost predicate IsQuorumPoint(descending: bool, s: seq<Weighted>, threshold: nat, v: nat) {
    && Weight(descending, s, v) >= threshold
    && forall bound: int :: Ahead(descending, bound, v) ==> Weight(descending, s, bound) < threshold
  }

  lemma SortedSides(descending: bool, s: seq<Weighted>, i: nat)
    requires InOrder(Before(descending), s) && i < |s|
    ensures forall x :: x in s[..i + 1] ==> Reaches(descending, x.0, s[i].0)
    ensures forall x :: x in s[i..] ==> Reaches(!descending, x.0, s[i].0)
  {
    forall k | 0 <= k <= i
      ensures Reaches(descending, s[k].0, s[i].0)
    {
      assert k == i || !Before(descending)(s[i], s[k]);
    }
    forall k | i <= k < |s|
      ensures Reaches(!descending, s[k].0, s[i].0)
    {
      assert k == i || !Before(descending)(s[k], s[i]);
    }
  }

  /** In a sorted list, the first position whose running total reaches the threshold is that point. */
  lemma RunningTotal(descending: bool, s: seq<Weighted>, i: nat, threshold: nat)
    requires InOrder(Before(descending), s) && i < |s| && Total(s[..i]) < threshold <= Total(s[..i + 1])
    ensures IsQuorumPoint(descending, s, threshold, s[i].0)
  {
    hide InOrder, Before, Weight, Total;
    var v := s[i].0;
    SortedSides(descending, s, i);
    assert s == s[..i + 1] + s[i + 1..] && s == s[..i] + s[i..];
    WeightAppend(descending, s[..i + 1], s[i + 1..], v);
    AllReach(descending, s[..i + 1], v);
    forall bound: int | Ahead(descending, bound, v)
      ensures Weight(descending, s, bound) < threshold
    {
      WeightAppend(descending, s[..i], s[i..], bound);
      AllReach(descending, s[..i], bound);
      AllReach(descending, s[i..], bound);
    }
  }

  /** Sorts, then adds up stake until the threshold is reached; `None` when it never is. */
  method FindQuorumPoint(descending: bool, pairs: seq<Weighted>, threshold: nat) returns (r: Option<nat>)
    requires threshold > 0
    ensures r.Some? ==> IsQuorumPoint(descending, pairs, threshold, r.value)
    ensures r.None? ==> Total(pairs) < threshold
  {
    var sorted := Sort(Before(descending), pairs);
    BeforeIsOrder(descending);
    SortInOrder(Before(descending), pairs);
    var total := 0;
    for i := 0 to |sorted|
      invariant total == Total(sorted[..i]) < threshold
    {
      TotalAppend(sorted[..i], sorted[i]);
      assert sorted[..i + 1] == sorted[..i] + [sorted[i]];
      total := total + sorted[i].1;
      if total >= threshold {
        RunningTotal(descending, sorted, i, threshold);
        PointOfSorted(descending, pairs, threshold, sorted[i].0);
        return Some(sorted[i].0);
      }
    }
    assert sorted[..|sorted|] == sorted;
    SortTotal(descending, pairs);
    return None;
  }

  lemma PointOfSorted(descending: bool, s: seq<Weighted>, threshold: nat, v: nat)
    requires IsQuorumPoint(descending, Sort(Before(descending), s), threshold, v)
    ensures IsQuorumPoint(descending, s, threshold, v)
  {
    SortWeight(descending, s, v);
    forall bound: int | Ahead(descending, bound, v)
      ensures Weight(descending, s, bound) < threshold
    {
      SortWeight(descending, s, bound);
    }
  }

  /** Everything reaches a low enough bound, so sorting keeps the total as well. */
  lemma SortTotal(descending: bool, s: seq<Weighted>)
    ensures Total(Sort(Before(descending), s)) == Total(s)
  {
    var bound := if descending then 0 else Greatest(s);
    SortKeeps(Before(descending), s);
    AllReach(descending, s, bound);
    AllReach(descending, Sort(Before(descending), s), bound);
    SortWeight(descending, s, bound);
  }

  function Greatest(s: seq<Weighted>): (g: nat)
    ensures forall x :: x in s ==> x.0 <= g
  {
    if s == [] then 0
    else
      var rest := Greatest(s[1..]);
      if s[0].0 > rest then s[0].0 else rest
  }

  // ----- pairs taken from a committee

  function Zip(c: Committee, values: seq<nat>): seq<Weighted>
    requires |values| == c.Size()
  {
    seq(|values|, i requires 0 <= i < |values| => (values[i], c.Stake(i)))
  }

  /** The authorities whose value reaches `bound`. */
  function Reaching(descending: bool, values: seq<nat>, bound: int): set<nat> {
    set a | 0 <= a < |values| && Reaches(descending, values[a], bound)
  }

  lemma {:induction false} WeightIsStakeBelow(c: Committee, descending: bool, values: seq<nat>, bound: int, n: nat)
    requires |values| == c.Size() && n <= c.Size()
    ensures Weight(descending, Zip(c, values)[..n], bound)
         == StakeBelow(c.stakes, Reaching(descending, values, bound), n)
  {
    if n == 0 {
    } else {
      var z := Zip(c, values);
      WeightIsStakeBelow(c, descending, values, bound, n - 1);
      var last: seq<Weighted> := [z[n - 1]];
      assert z[..n] == z[..n - 1] + last;
      WeightAppend(descending, z[..n - 1], last, bound);
      assert last[1..] == [];
    }
  }

  lemma WeightIsStake(c: Committee, descending: bool, values: seq<nat>, bound: int)
    requires |values| == c.Size()
    ensures Weight(descending, Zip(c, values), bound) == c.StakeOf(Reaching(descending, values, bound))
  {
    WeightIsStakeBelow(c, descending, values, bound, c.Size());
    assert Zip(c, values)[..c.Size()] == Zip(c, values);
  }

  /** The authorities that reach `v` are a quorum, and those that reach anything ahead of `v` are not. */
  ghost predicate QuorumAt(c: Committee, descending: bool, values: seq<nat>, v: nat) {
    && c.IsQuorum(Reaching(descending, values, v))
    && forall bound: int :: Ahead(descending, bound, v) ==> !c.IsQuorum(Reaching(descending, values, bound))
  }

  /** A committee always has such a point, because all of it together is a quorum. */
  method QuorumPoint(c: Committee, descending: bool, values: seq<nat>) returns (r: Option<nat>)
    requires c.Valid() && |values| == c.Size()
    ensures r.Some? && QuorumAt(c, descending, values, r.value)
  {
    ZipTotal(c, values, c.Size());
    assert Zip(c, values)[..c.Size()] == Zip(c, values);
    r := FindQuorumPoint(descending, Zip(c, values), c.QuorumThreshold());
    WeightIsStake(c, descending, values, r.value);
    forall bound: int | Ahead(descending, bound, r.value)
      ensures !c.IsQuorum(Reaching(descending, values, bound))
    {
      WeightIsStake(c, descending, values, bound);
    }
  }

  lemma {:induction false} ZipTotal(c: Committee, values: seq<nat>, n: nat)
    requires |values| == c.Size() && n <= c.Size()
    ensures Total(Zip(c, values)[..n]) == SumTo(c.stakes, n)
  {
    if n == 0 {
    } else {
      var z := Zip(c, values);
      ZipTotal(c, values, n - 1);
      assert z[..n] == z[..n - 1] + [z[n - 1]];
      TotalAppend(z[..n - 1], z[n - 1]);
    }
  }
}
