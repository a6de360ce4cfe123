/** What block managers accept is what the commit rule works on. */
module EndToEnd {
  import opened Blocks
  import opened BlockVerifier
  import opened Dags
  import opened Agreement
  import opened BaseCommitter
  import opened Linearizers
  import opened CommitRuns
  import opened TotalOrder
  import opened TimestampPass
  import opened ManagerState
  import opened ManagerSteps
  import opened Batches
  import opened BlockManagers

  /** Without garbage collection, a causally complete DAG of a block manager is a view of its world. */
  lemma AcceptedIsView(w: World, t: Snapshot)
    requires Inv(w, t) && Complete(t, {}) && !t.gc.enabled
    ensures View(t.dag, w.universe)
  {
    hide SuspensionOk, HoldersOk;
  }

  /** A DAG that started as a view has stayed one. */
  lemma StartedClosed(w: World, t: Snapshot, stored: Store)
    requires Inv(w, t) && Complete(t, stored.Keys) && !t.gc.enabled && stored.Keys <= t.dag.Keys && View(stored, w.universe)
    ensures Complete(t, {}) && View(t.dag, w.universe)
  {
    hide SuspensionOk, HoldersOk, World.Ok;
    forall r, a | r in t.dag && a in t.dag[r].ancestors
      ensures a in t.dag
    {
      if r in stored {
        assert stored[r] == t.dag[r] && a in stored;
      }
    }
    AcceptedIsView(w, t);
  }

  /** The states of one block manager over time: sound, causally complete, and storing more and more. */
  ghost predicate History(w: World, states: seq<Snapshot>) {
    && (forall i :: 0 <= i < |states| ==> Inv(w, states[i]) && Complete(states[i], {}) && !states[i].gc.enabled)
    && (forall i, j :: 0 <= i < j < |states| ==> states[i].dag.Keys <= states[j].dag.Keys)
  }

  /** A call to the committer on each of these states. */
  ghost predicate CallsOn(states: seq<Snapshot>, calls: seq<Call>) {
    && |calls| == |states|
    && (forall i :: 0 <= i < |calls| ==> calls[i].view == states[i].dag)
    && (forall i, j :: 0 <= i < j < |calls| ==> calls[i].highest <= calls[j].highest)
  }

  /** One more state, storing at least what the last one did. */
  lemma HistoryExtends(w: World, states: seq<Snapshot>, t: Snapshot)
    requires History(w, states) && Inv(w, t) && Complete(t, {}) && !t.gc.enabled
    requires states != [] ==> states[|states| - 1].dag.Keys <= t.dag.Keys
    ensures History(w, states + [t])
  {
    hide Inv, Complete;
    var longer := states + [t];
    forall i, j | 0 <= i < j < |longer|
      ensures longer[i].dag.Keys <= longer[j].dag.Keys
    {
      assert i < |states| - 1 ==> states[i].dag.Keys <= states[|states| - 1].dag.Keys;
    }
  }

  /**
   * A block manager without garbage collection, fed with batches in whatever order, goes through a
   * history; it takes all the batches unless the timestamp check panics, which it does not when nothing
   * can be rejected; then each batch adds exactly its blocks to those known.
   */
  method Receiving(median: bool, stored: Store, ghost w: World, batches: seq<seq<Block>>)
      returns (taken: nat, ghost states: seq<Snapshot>)
    requires w.Ok() && w.genesis <= stored.Keys && View(stored, w.universe)
    requires forall i, b :: 0 <= i < |batches| && b in batches[i] ==> w.Has(b) && b.round > GENESIS_ROUND
    ensures taken <= |batches| && (Calm(w, median) ==> taken == |batches|)
    ensures taken < |batches| ==> 0 < |states| && BatchPanics(w, median, states[|states| - 1], batches[taken])
    ensures |states| == taken + 1 && History(w, states) && states[0].dag == stored && Known(states[0]) == stored.Keys
    ensures Calm(w, median) ==>
      forall i :: 0 <= i < taken ==> Known(states[i + 1]) == Known(states[i]) + Fresh(Gc(false, 0), batches[i])
  {
    hide World.Ok, Inv, Complete, History, Grounded, WellTimed, World.Has, Progress, Known, Fresh, IsTrail, View;
    ViewStored(stored, w);
    var m := new BlockManager(false, median, stored, w);
    FreshManager(w, median, stored, m.Snap());
    StartedClosed(w, m.Snap(), stored);
    states := [];
    NoHistory(w);
    HistoryExtends(w, states, m.Snap());
    states := states + [m.Snap()];
    taken := 0;
    while taken < |batches|
      invariant 0 <= taken <= |batches| && fresh(m) && m.Valid() && m.world == w && m.medianTimestamps == median
      invariant !m.gcEnabled && Complete(m.Snap(), {}) && |states| == taken + 1 && History(w, states)
      invariant states[taken] == m.Snap() && states[0].dag == stored && Known(states[0]) == stored.Keys
      invariant m.Snap().gc == Gc(false, 0)
      invariant Calm(w, median) ==>
        forall i :: 0 <= i < taken ==> Known(states[i + 1]) == Known(states[i]) + Fresh(Gc(false, 0), batches[i])
    {
      var o, trail := m.TryAcceptBlocks(batches[taken], {});
      if o.Panic? {
        break;
      }
      ProgressGrows(states[taken], o.accepted, m.Snap());
      HistoryExtends(w, states, m.Snap());
      states := states + [m.Snap()];
      taken := taken + 1;
    }
  }

  lemma ViewStored(stored: Store, w: World)
    requires View(stored, w.universe)
    ensures forall r :: r in stored ==> r in w.universe && stored[r] == w.universe[r]
  {
  }

  lemma FreshManager(w: World, median: bool, stored: Store, t: Snapshot)
    requires Steady(w, median, t) && t == Snapshot(Gc(false, 0), stored, map[], map[], map[])
    ensures Inv(w, t) && Complete(t, stored.Keys) && !t.gc.enabled && Known(t) == stored.Keys
  {
  }

  lemma NoHistory(w: World)
    ensures History(w, [])
  {
  }

  lemma HistoryGrows(w: World, states: seq<Snapshot>, calls: seq<Call>)
    requires History(w, states) && CallsOn(states, calls)
    ensures Growing(w.universe, calls)
  {
    hide Inv, Complete, Closed;
    forall i | 0 <= i < |calls|
      ensures View(calls[i].view, w.universe)
    {
      AcceptedIsView(w, states[i]);
    }
    forall i, j | 0 <= i < j < |calls|
      ensures View(calls[i].view, calls[j].view)
    {
      assert states[i].dag.Keys <= states[j].dag.Keys;
    }
  }

  /**
   * End to end. Two authorities receive blocks of one verified universe in whatever order, run the
   * committer whenever they like, and linearize what it decides: with one leader per round the
   * sub-DAGs they commit are prefixes of one another.
   */
  lemma AuthoritiesCommitAlike(
    ctx: Context, w: World, byzantine: set<nat>, s: seq<Snapshot>, p: seq<Call>, t: seq<Snapshot>, q: seq<Call>,
    committers: seq<Options>, schedule: Schedule, last: Slot, depth: nat, st: CommitState)
    requires Universe(ctx, w.universe, byzantine) && OneLeader(committers, schedule)
    requires History(w, s) && CallsOn(s, p) && History(w, t) && CallsOn(t, q)
    ensures (forall i :: 0 <= i < |p| ==> Closed(p[i].view)) && (forall i :: 0 <= i < |q| ==> Closed(q[i].view))
    ensures var a := Commits(ctx.committee, p, committers, schedule, last, depth, st);
      var b := Commits(ctx.committee, q, committers, schedule, last, depth, st);
      a <= b || b <= a
  {
    hide Universe, OneLeader, History, CallsOn, Closed, Commits, Growing;
    HistoryGrows(w, s, p);
    HistoryGrows(w, t, q);
    RunsCommitAlike(ctx, w.universe, byzantine, p, q, committers, schedule, last, depth, st);
  }
}
