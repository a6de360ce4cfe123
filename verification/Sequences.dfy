/** Lists without repetitions, stable sorting, and concatenation of lists of lists. */
module Sequences {

  ghost predicate NoRepeats<T>(s: seq<T>) {
    forall i, j :: 0 <= i < j < |s| ==> s[i] != s[j]
  }

  /** Positions in a list of `n` elements, ascending. */
  ghost predicate Positions(at: seq<nat>, n: nat) {
    && (forall k :: 0 <= k < |at| ==> at[k] < n)
    && (forall j, k :: 0 <= j < k < |at| ==> at[j] < at[k])
  }

  /** Positions in a tail, as positions in the whole; the first position may be among them. */
  function MovedUp(at: seq<nat>, first: bool): seq<nat> {
    (if first then [0] else []) + seq(|at|, k requires 0 <= k < |at| => at[k] + 1)
  }

  lemma MovedUpPositions(at: seq<nat>, n: nat, first: bool)
    requires Positions(at, n)
    ensures Positions(MovedUp(at, first), n + 1)
  {
    var r, d := MovedUp(at, first), if first then 1 else 0;
    forall j, k | 0 <= j < k < |r|
      ensures r[j] < r[k]
    {
      assert r[k] == at[k - d] + 1;
      assert j >= d ==> r[j] == at[j - d] + 1;
    }
  }

  lemma MovedUpAt(at: seq<nat>, first: bool, k: nat)
    requires k < |MovedUp(at, first)|
    ensures if first && k == 0 then MovedUp(at, first)[k] == 0
            else MovedUp(at, first)[k] == at[if first then k - 1 else k] + 1
  {
  }

  lemma MovedUpMembers(at: seq<nat>, first: bool, i: nat)
    ensures i in MovedUp(at, first) <==> (i == 0 && first) || (i > 0 && i - 1 in at)
  {
    var r, d := MovedUp(at, first), if first then 1 else 0;
    if i in r {
      var k :| 0 <= k < |r| && r[k] == i;
      MovedUpAt(at, first, k);
    }
    if i > 0 && i - 1 in at {
      var k :| 0 <= k < |at| && at[k] == i - 1;
      assert r[k + d] == i;
    }
    assert first ==> r[0] == 0;
  }

  /** `at` lists the positions of the wanted elements, all of them. */
  ghost predicate Selects<T>(s: seq<T>, wanted: T -> bool, at: seq<nat>) {
    Positions(at, |s|) && forall i: nat :: i < |s| ==> (wanted(s[i]) <==> i in at)
  }

  lemma SelectsOneMore<T>(s: seq<T>, wanted: T -> bool, at: seq<nat>)
    requires s != [] && Selects(s[1..], wanted, at)
    ensures Selects(s, wanted, MovedUp(at, wanted(s[0])))
  {
    hide MovedUp, Positions;
    MovedUpPositions(at, |s| - 1, wanted(s[0]));
    forall i: nat | i < |s|
      ensures wanted(s[i]) <==> i in MovedUp(at, wanted(s[0]))
    {
      MovedUpMembers(at, wanted(s[0]), i);
      assert i > 0 ==> s[i] == s[1..][i - 1];
    }
  }

  /** The element at each of the positions is one for the value at the same place in `values`. */
  ghost predicate Picks<T, U>(s: seq<T>, stands: (T, U) -> bool, at: seq<nat>, values: seq<U>) {
    |at| == |values| && forall k :: 0 <= k < |at| ==> at[k] < |s| && stands(s[at[k]], values[k])
  }

  lemma PicksOneMore<T, U>(s: seq<T>, stands: (T, U) -> bool, at: seq<nat>, values: seq<U>, first: seq<U>)
    requires s != [] && Picks(s[1..], stands, at, values) && |first| <= 1 && (first != [] ==> stands(s[0], first[0]))
    ensures Picks(s, stands, MovedUp(at, first != []), first + values)
  {
    hide MovedUp;
    var all := MovedUp(at, first != []);
    assert |all| == |first| + |at| by { MovedUpLength(at, first != []); }
    forall k | 0 <= k < |all|
      ensures all[k] < |s| && stands(s[all[k]], (first + values)[k])
    {
      MovedUpAt(at, first != [], k);
    }
  }

  lemma MovedUpLength(at: seq<nat>, first: bool)
    ensures |MovedUp(at, first)| == (if first then 1 else 0) + |at|
  {
  }

  lemma PicksLast<T, U>(s: seq<T>, stands: (T, U) -> bool, at: seq<nat>, values: seq<U>, last: seq<U>)
    requires s != [] && Picks(s[..|s| - 1], stands, at, values) && |last| <= 1 && (last != [] ==> stands(s[|s| - 1], last[0]))
    ensures Picks(s, stands, if last != [] then at + [|s| - 1] else at, values + last)
  {
    var n := |s| - 1;
    var all := if last != [] then at + [n] else at;
    forall k | 0 <= k < |all|
      ensures all[k] < |s| && stands(s[all[k]], (values + last)[k])
    {
      if k < |at| {
        assert all[k] == at[k] && (values + last)[k] == values[k] && s[..n][at[k]] == s[at[k]];
      } else {
        assert all[k] == n && (values + last)[k] == last[0];
      }
    }
  }

  lemma SelectsLast<T>(s: seq<T>, wanted: T -> bool, at: seq<nat>)
    requires s != [] && Selects(s[..|s| - 1], wanted, at)
    ensures Selects(s, wanted, if wanted(s[|s| - 1]) then at + [|s| - 1] else at)
  {
    var n := |s| - 1;
    var all := if wanted(s[n]) then at + [n] else at;
    forall i: nat | i < |s|
      ensures wanted(s[i]) <==> i in all
    {
      assert i < n ==> s[i] == s[..n][i];
    }
  }

  /** Nothing stands after something that it comes strictly before. */
  ghost predicate InOrder<T>(before: (T, T) -> bool, s: seq<T>) {
    forall i, j :: 0 <= i < j < |s| ==> !before(s[j], s[i])
  }

  /** A strict order up to ties. */
  ghost predicate WeakOrder<T(!new)>(before: (T, T) -> bool) {
    && (forall x, y :: before(x, y) ==> !before(y, x))
    && (forall x, y, z :: before(x, y) ==> before(x, z) || before(z, y))
  }

  function Insert<T>(before: (T, T) -> bool, x: T, s: seq<T>): (r: seq<T>)
    ensures multiset(r) == multiset{x} + multiset(s)
  {
    if s == [] || !before(s[0], x) then [x] + s
    else
      assert s == [s[0]] + s[1..];
      [s[0]] + Insert(before, x, s[1..])
  }

  /** A stable sort: ties keep their order. */
  function Sort<T>(before: (T, T) -> bool, s: seq<T>): (r: seq<T>)
    ensures multiset(r) == multiset(s)
  {
    if s == [] then []
    else
      assert s == [s[0]] + s[1..];
      Insert(before, s[0], Sort(before, s[1..]))
  }

  lemma {:induction false} InsertInOrder<T(!new)>(before: (T, T) -> bool, x: T, s: seq<T>)
    requires WeakOrder(before) && InOrder(before, s)
    ensures InOrder(before, Insert(before, x, s))
  {
    if s != [] && before(s[0], x) {
      InsertInOrder(before, x, s[1..]);
      var rest := Insert(before, x, s[1..]);
      forall y | y in rest
        ensures !before(y, s[0])
      {
        assert y in multiset(rest);
        assert y == x || y in s[1..];
      }
    } else {
      forall y | y in s
        ensures !before(y, x)
      {
        assert y == s[0] || !before(y, s[0]);
      }
    }
  }

  lemma {:induction false} SortInOrder<T(!new)>(before: (T, T) -> bool, s: seq<T>)
    requires WeakOrder(before)
    ensures InOrder(before, Sort(before, s))
  {
    if s == [] {
    } else {
      SortInOrder(before, s[1..]);
      InsertInOrder(before, s[0], Sort(before, s[1..]));
    }
  }

  predicate Tied<T>(before: (T, T) -> bool, x: T, y: T) { !before(x, y) && !before(y, x) }

  /** `x` alone, if it is tied with `k`. */
  function IfTied<T>(before: (T, T) -> bool, k: T, x: T): seq<T> { if Tied(before, k, x) then [x] else [] }

  /** The elements tied with `k`, in order. */
  function Ties<T>(before: (T, T) -> bool, k: T, s: seq<T>): seq<T> {
    if s == [] then [] else IfTied(before, k, s[0]) + Ties(before, k, s[1..])
  }

  lemma TiesPrepend<T>(before: (T, T) -> bool, k: T, x: T, s: seq<T>)
    ensures Ties(before, k, [x] + s) == IfTied(before, k, x) + Ties(before, k, s)
  {
    assert ([x] + s)[1..] == s;
  }

  /** Of two elements one of which comes before the other, at most one is tied with `k`. */
  lemma NotBothTied<T(!new)>(before: (T, T) -> bool, k: T, e: T, x: T)
    requires WeakOrder(before) && before(e, x)
    ensures IfTied(before, k, e) == [] || IfTied(before, k, x) == []
  {
  }

  lemma {:induction false} InsertStable<T(!new)>(before: (T, T) -> bool, k: T, x: T, s: seq<T>)
    requires WeakOrder(before)
    ensures Ties(before, k, Insert(before, x, s)) == IfTied(before, k, x) + Ties(before, k, s)
  {
    hide WeakOrder, Ties, IfTied;
    if s == [] || !before(s[0], x) {
      TiesPrepend(before, k, x, s);
    } else {
      InsertStable(before, k, x, s[1..]);
      TiesPrepend(before, k, s[0], Insert(before, x, s[1..]));
      TiesPrepend(before, k, s[0], s[1..]);
      assert s == [s[0]] + s[1..];
      NotBothTied(before, k, s[0], x);
      var e, h, t := IfTied(before, k, s[0]), IfTied(before, k, x), Ties(before, k, s[1..]);
      assert e + (h + t) == h + (e + t);
    }
  }

  /** Sorting is stable: tied elements keep their order. */
  lemma {:induction false} SortStable<T(!new)>(before: (T, T) -> bool, k: T, s: seq<T>)
    requires WeakOrder(before)
    ensures Ties(before, k, Sort(before, s)) == Ties(before, k, s)
  {
    if s == [] {
    } else {
      SortStable(before, k, s[1..]);
      InsertStable(before, k, s[0], Sort(before, s[1..]));
    }
  }

  lemma {:induction false} OnceEach<T(!new)>(s: seq<T>)
    ensures NoRepeats(s) <==> forall x :: multiset(s)[x] <= 1
  {
    if s == [] {
    } else {
      OnceEach(s[1..]);
      assert s == [s[0]] + s[1..];
      assert forall x :: multiset(s)[x] == multiset{s[0]}[x] + multiset(s[1..])[x];
      assert s[0] in s[1..] <==> multiset(s[1..])[s[0]] > 0;
      if NoRepeats(s) {
        assert NoRepeats(s[1..]) && s[0] !in s[1..];
      } else if NoRepeats(s[1..]) {
        assert s[0] in s[1..];
      }
    }
  }

  /** Sorting keeps the elements, each as often as before. */
  lemma SortKeeps<T(!new)>(before: (T, T) -> bool, s: seq<T>)
    ensures |Sort(before, s)| == |s| && (NoRepeats(s) ==> NoRepeats(Sort(before, s)))
    ensures forall x :: x in Sort(before, s) <==> x in s
  {
    var r := Sort(before, s);
    OnceEach(s);
    OnceEach(r);
    assert forall x :: x in r <==> x in multiset(r);
    assert |multiset(r)| == |r| && |multiset(s)| == |s|;
  }

  lemma AppendNoRepeats<T>(s: seq<T>, t: seq<T>)
    requires NoRepeats(s) && NoRepeats(t) && forall x :: x in t ==> x !in s
    ensures NoRepeats(s + t)
  {
    forall i, j | 0 <= i < j < |s + t|
      ensures (s + t)[i] != (s + t)[j]
    {
      if i < |s| <= j {
        assert t[j - |s|] in t;
      }
    }
  }

  /** All elements of all lists, in order. */
  function Flatten<T>(lists: seq<seq<T>>): seq<T> {
    if lists == [] then [] else lists[0] + Flatten(lists[1..])
  }

  lemma {:induction false} FlattenAppend<T>(lists: seq<seq<T>>, last: seq<T>)
    ensures Flatten(lists + [last]) == Flatten(lists) + last
  {
    if lists == [] {
      assert ([] + [last])[1..] == [];
    } else {
      assert (lists + [last])[1..] == lists[1..] + [last];
      FlattenAppend(lists[1..], last);
    }
  }

  lemma {:induction false} InFlatten<T>(lists: seq<seq<T>>, i: nat, x: T)
    requires i < |lists| && x in lists[i]
    ensures x in Flatten(lists)
  {
    if i == 0 {
    } else {
      InFlatten(lists[1..], i - 1, x);
    }
  }
}
