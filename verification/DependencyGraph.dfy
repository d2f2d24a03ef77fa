/** Dependency graphs over indices: walks, cycles and longest chains, and the iterative
    traversal that decides them. */
module DependencyGraph {
  import Counting

  /** deps[i] are the nodes that node i depends on. */
  type Graph = seq<set<nat>>

  ghost predicate WellFormed(g: Graph) {
    forall i, j :: 0 <= i < |g| && j in g[i] ==> j < |g|
  }

  /** A chain from a node to one of its dependencies, and so on. */
  ghost predicate Walk(g: Graph, w: seq<nat>) {
    && w != [] && (forall k :: 0 <= k < |w| ==> w[k] < |g|)
    && forall k :: 0 <= k < |w| - 1 ==> w[k + 1] in g[w[k]]
  }

  ghost predicate WalkFrom(g: Graph, w: seq<nat>, i: nat) {
    Walk(g, w) && w[0] == i
  }

  /** No walk of two or more nodes comes back to where it started. */
  ghost predicate Acyclic(g: Graph) {
    forall w :: Walk(g, w) && |w| > 1 ==> w[0] != w[|w| - 1]
  }

  /** The longest chain starting at i has d nodes. */
  ghost predicate Longest(g: Graph, i: nat, d: nat) {
    && (exists w :: WalkFrom(g, w, i) && |w| == d)
    && forall w :: WalkFrom(g, w, i) ==> |w| <= d
  }

  /** Every chain has at most d nodes. */
  ghost predicate Bounded(g: Graph, d: nat) {
    forall w :: Walk(g, w) ==> |w| <= d
  }

  /** The longest chain of the whole graph has d nodes. */
  ghost predicate Depth(g: Graph, d: nat) {
    Bounded(g, d) && exists w :: Walk(g, w) && |w| == d
  }

  ghost predicate Reached(g: Graph, roots: set<nat>, i: nat) {
    exists w :: WalkBetween(g, roots, w, i)
  }

  ghost predicate WalkBetween(g: Graph, roots: set<nat>, w: seq<nat>, i: nat) {
    Walk(g, w) && w[0] in roots && w[|w| - 1] == i
  }

  // ---------------------------------------------------------------- walks and cycles

  lemma {:induction false} Prepend(g: Graph, i: nat, w: seq<nat>)
    requires i < |g| && Walk(g, w) && w[0] in g[i]
    ensures WalkFrom(g, [i] + w, i)
  {
    var longer := [i] + w;
    assert forall k :: 1 <= k < |longer| ==> longer[k] == w[k - 1];
  }

  lemma {:induction false} Tail(g: Graph, w: seq<nat>)
    requires Walk(g, w) && |w| > 1
    ensures WalkFrom(g, w[1..], w[1]) && w[1] in g[w[0]]
  {
    assert forall k :: 0 <= k < |w| - 1 ==> w[1..][k] == w[k + 1];
    assert w[0 + 1] in g[w[0]];
  }

  lemma {:induction false} Segment(g: Graph, w: seq<nat>, a: nat, b: nat)
    requires Walk(g, w) && a < b <= |w|
    ensures Walk(g, w[a..b])
  {
    var s := w[a..b];
    assert forall k :: 0 <= k < |s| ==> s[k] == w[a + k];
    forall k | 0 <= k < |s| - 1
      ensures s[k + 1] in g[s[k]]
    {
      assert w[(a + k) + 1] in g[w[a + k]];
    }
  }

  /** Two walks that meet join. */
  lemma {:induction false} Join(g: Graph, v: seq<nat>, w: seq<nat>)
    requires Walk(g, v) && Walk(g, w) && v[|v| - 1] == w[0]
    ensures Walk(g, v + w[1..])
    ensures (v + w[1..])[0] == v[0] && |v + w[1..]| == |v| + |w| - 1
  {
    var s := v + w[1..];
    forall k | 0 <= k < |s| - 1
      ensures s[k + 1] in g[s[k]]
    {
      if k < |v| - 1 {
        assert v[k + 1] in g[v[k]];
      } else {
        var m := k - (|v| - 1);
        assert s[k] == w[m] && s[k + 1] == w[m + 1];
        assert w[m + 1] in g[w[m]];
      }
    }
  }

  /** A longest chain rules out a cycle through its start: going round makes it longer. */
  lemma {:induction false} LongestNoCycle(g: Graph, c: seq<nat>, d: nat)
    requires Walk(g, c) && |c| > 1 && Longest(g, c[0], d)
    ensures c[0] != c[|c| - 1]
  {
    if c[0] == c[|c| - 1] {
      var w :| WalkFrom(g, w, c[0]) && |w| == d;
      Join(g, c, w);
      assert WalkFrom(g, c + w[1..], c[0]);
    }
  }

  lemma {:induction false} AllLongestAcyclic(g: Graph, depth: seq<nat>)
    requires |depth| == |g| && forall i :: 0 <= i < |g| ==> Longest(g, i, depth[i])
    ensures Acyclic(g)
  {
    forall w | Walk(g, w) && |w| > 1
      ensures w[0] != w[|w| - 1]
    {
      LongestNoCycle(g, w, depth[w[0]]);
    }
  }

  ghost predicate Repeats(w: seq<nat>, a: nat, b: nat) {
    a < b < |w| && w[a] == w[b]
  }

  function Values(w: seq<nat>): set<nat> {
    set x | x in w
  }

  /** More nodes than indices repeat one. */
  lemma {:induction false} Pigeonhole(w: seq<nat>, n: nat)
    requires |w| > n && forall k :: 0 <= k < |w| ==> w[k] < n
    ensures exists a: nat, b: nat :: Repeats(w, a, b)
  {
    if forall a: nat, b: nat :: !Repeats(w, a, b) {
      DistinctCount(w);
      Counting.FullCount(Values(w), n);
    }
  }

  lemma {:induction false} DistinctCount(w: seq<nat>)
    requires forall a: nat, b: nat :: !Repeats(w, a, b)
    ensures |Values(w)| == |w|
  {
    if w != [] {
      var n := |w| - 1;
      var front := w[..n];
      forall a: nat, b: nat
        ensures !Repeats(front, a, b)
      {
        assert !Repeats(w, a, b);
      }
      DistinctCount(front);
      forall k | 0 <= k < n
        ensures w[k] != w[n]
      {
        assert !Repeats(w, k, n);
      }
      assert w == front + [w[n]];
      assert w[n] !in Values(front) && Values(w) == Values(front) + {w[n]};
    }
  }

  /** In a set of nodes each of which depends on another of the set, walks go on for ever. */
  lemma {:induction false} EndlessWalk(g: Graph, stuck: set<nat>, i: nat, len: nat) returns (w: seq<nat>)
    requires len > 0 && i in stuck && forall x :: x in stuck ==> x < |g| && g[x] * stuck != {}
    ensures WalkFrom(g, w, i) && |w| == len
    decreases len
  {
    if len == 1 {
      w := [i];
    } else {
      var j :| j in g[i] * stuck;
      var rest := EndlessWalk(g, stuck, j, len - 1);
      Prepend(g, i, rest);
      w := [i] + rest;
    }
  }

  lemma {:induction false} StuckIsCyclic(g: Graph, stuck: set<nat>)
    requires stuck != {} && forall x :: x in stuck ==> x < |g| && g[x] * stuck != {}
    ensures !Acyclic(g)
  {
    var i :| i in stuck;
    var w := EndlessWalk(g, stuck, i, |g| + 1);
    Pigeonhole(w, |g|);
    var a: nat, b: nat :| Repeats(w, a, b);
    Segment(g, w, a, b + 1);
    assert w[a..b + 1][0] == w[a] && w[a..b + 1][b - a] == w[b];
  }

  // ------------------------------------------------------------------ longest chains

  /** d is one more than the largest depth recorded for a node of S, or one. */
  ghost predicate OneMore(depth: seq<nat>, S: set<nat>, d: nat) {
    && d >= 1 && (forall j :: j in S ==> j < |depth| && depth[j] + 1 <= d)
    && (d == 1 || exists j :: j in S && depth[j] + 1 == d)
  }

  /** The longest chain of a node is one more than the longest of its dependencies. */
  lemma {:induction false} LongestStep(g: Graph, i: nat, depth: seq<nat>, d: nat)
    requires i < |g| && OneMore(depth, g[i], d)
    requires forall j :: j in g[i] ==> Longest(g, j, depth[j])
    ensures Longest(g, i, d)
  {
    assert WalkFrom(g, [i], i);
    if d > 1 {
      var j :| j in g[i] && depth[j] + 1 == d;
      var w :| WalkFrom(g, w, j) && |w| == depth[j];
      Prepend(g, i, w);
      assert |[i] + w| == d;
    }
    forall w | WalkFrom(g, w, i)
      ensures |w| <= d
    {
      if |w| > 1 {
        Tail(g, w);
        assert Longest(g, w[1], depth[w[1]]);
      }
    }
  }

  // ------------------------------------------------------------ the traversal's state

  ghost predicate Counts(g: Graph, done: set<nat>, remaining: seq<nat>) {
    |remaining| == |g| && forall i :: 0 <= i < |g| ==> remaining[i] == |g[i] - done|
  }

  /** Exactly the nodes without unmet dependencies are done or waiting, and they wait once. */
  ghost predicate Queued(g: Graph, done: set<nat>, remaining: seq<nat>, queue: seq<nat>)
    requires |remaining| == |g|
  {
    && (forall i: nat :: i < |g| ==> (i in done || i in queue <==> remaining[i] == 0))
    && (forall i :: i in queue ==> i < |g| && i !in done)
    && (forall k, m :: 0 <= k < m < |queue| ==> queue[k] != queue[m])
  }

  ghost predicate DepthAt(g: Graph, done: set<nat>, depth: seq<nat>, i: nat)
    requires i < |g| == |depth|
  {
    OneMore(depth, g[i] * done, depth[i])
  }

  ghost predicate Depths(g: Graph, done: set<nat>, depth: seq<nat>) {
    |depth| == |g| && forall i {:trigger DepthAt(g, done, depth, i)} :: 0 <= i < |g| ==> DepthAt(g, done, depth, i)
  }

  /** The depth of every node done is its longest chain. */
  ghost predicate Recorded(g: Graph, done: set<nat>, depth: seq<nat>) {
    |depth| == |g| && forall i :: i in done ==> i < |g| && Longest(g, i, depth[i])
  }

  /** Everything popped is `done`; what waits in the queue has only done dependencies. */
  ghost predicate Traversing(g: Graph, done: set<nat>, remaining: seq<nat>, depth: seq<nat>, queue: seq<nat>) {
    Counts(g, done, remaining) && Queued(g, done, remaining, queue) && Depths(g, done, depth) && Recorded(g, done, depth)
  }

  /** The nodes that depend on i, each listed once. */
  ghost predicate ListsDependents(g: Graph, i: nat, ds: seq<nat>) {
    && (forall j: nat :: j in ds <==> j < |g| && i in g[j])
    && forall k, m :: 0 <= k < m < |ds| ==> ds[k] != ds[m]
  }

  /** What visiting a node of depth d does: its dependents have one less to wait for, and are
      at least one deeper; those with nothing left to wait for join the queue. */
  ghost predicate CountedDown(ds: seq<nat>, remaining: seq<nat>, remaining': seq<nat>) {
    |remaining'| == |remaining| && forall j: nat :: j < |remaining| ==> remaining[j] == remaining'[j] + if j in ds then 1 else 0
  }

  ghost predicate Deepened(ds: seq<nat>, d: nat, depth: seq<nat>, depth': seq<nat>) {
    |depth'| == |depth| && forall j: nat :: j < |depth| ==> depth'[j] == if j in ds && d + 1 > depth[j] then d + 1 else depth[j]
  }

  ghost predicate Enqueued(ds: seq<nat>, remaining': seq<nat>, queue: seq<nat>, queue': seq<nat>) {
    && (forall j: nat :: j in queue' <==> j in queue || (j in ds && j < |remaining'| && remaining'[j] == 0))
    && (forall k, m :: 0 <= k < m < |queue'| ==> queue'[k] != queue'[m])
  }

  lemma {:induction false} NothingLeft(S: set<nat>, done: set<nat>)
    requires |S - done| == 0
    ensures S <= done && S * done == S
  {
    assert S - done == {};
    assert forall x :: x in S && x !in done ==> x in S - done;
  }

  /** The node at the head of the queue has its longest chain recorded. */
  lemma {:induction false} HeadIsLongest(g: Graph, done: set<nat>, remaining: seq<nat>, depth: seq<nat>, queue: seq<nat>)
    requires queue != [] && Traversing(g, done, remaining, depth, queue)
    ensures queue[0] < |g| && Longest(g, queue[0], depth[queue[0]])
  {
    var i := queue[0];
    assert i in queue;
    NothingLeft(g[i], done);
    assert DepthAt(g, done, depth, i);
    LongestStep(g, i, depth, depth[i]);
  }

  lemma {:induction false} CountStep(S: set<nat>, done: set<nat>, i: nat)
    requires i !in done
    ensures |S - done| == |S - (done + {i})| + if i in S then 1 else 0
  {
    if i in S {
      assert S - done == (S - (done + {i})) + {i};
    } else {
      assert S - done == S - (done + {i});
    }
  }

  /** A node that still lists i is neither done nor waiting. */
  lemma {:induction false} DependentsWait(
      g: Graph, done: set<nat>, remaining: seq<nat>, queue: seq<nat>, i: nat, ds: seq<nat>)
    requires Counts(g, done, remaining) && Queued(g, done, remaining, queue) && i !in done && ListsDependents(g, i, ds)
    ensures forall j :: j in ds ==> j < |g| && j !in done && j !in queue && remaining[j] > 0
  {
    forall j | j in ds
      ensures j < |g| && j !in done && j !in queue && remaining[j] > 0
    {
      assert i in g[j] - done;
      assert |g[j] - done| > 0;
    }
  }

  lemma {:induction false} StepCounts(g: Graph, done: set<nat>, i: nat, ds: seq<nat>, remaining: seq<nat>, remaining': seq<nat>)
    requires Counts(g, done, remaining) && i !in done && ListsDependents(g, i, ds) && CountedDown(ds, remaining, remaining')
    ensures Counts(g, done + {i}, remaining')
  {
    forall j | 0 <= j < |g|
      ensures remaining'[j] == |g[j] - (done + {i})|
    {
      CountStep(g[j], done, i);
    }
  }

  lemma {:induction false} StepDepthAt(g: Graph, done: set<nat>, depth: seq<nat>, i: nat, ds: seq<nat>, depth': seq<nat>, j: nat)
    requires |depth| == |depth'| == |g| && j < |g| && DepthAt(g, done, depth, j)
    requires i < |g| && i !in done && ListsDependents(g, i, ds) && Deepened(ds, depth[i], depth, depth')
    requires forall x :: x in done + {i} ==> x < |g| && depth'[x] == depth[x]
    ensures DepthAt(g, done + {i}, depth', j)
  {
    var before, after := g[j] * done, g[j] * (done + {i});
    assert forall x :: x in after <==> x in before || (x == i && i in g[j]);
    if depth'[j] > 1 {
      if depth'[j] == depth[j] {
        var x :| x in before && depth[x] + 1 == depth[j];
        assert x in after && depth'[x] + 1 == depth'[j];
      } else {
        assert i in after && depth'[i] + 1 == depth'[j];
      }
    }
  }

  lemma {:induction false} StepDepths(g: Graph, done: set<nat>, depth: seq<nat>, i: nat, ds: seq<nat>, depth': seq<nat>)
    requires Depths(g, done, depth) && Recorded(g, done, depth) && i < |g| && i !in done && Longest(g, i, depth[i])
    requires ListsDependents(g, i, ds) && Deepened(ds, depth[i], depth, depth')
    requires forall j :: j in ds ==> j !in done && j != i
    ensures Depths(g, done + {i}, depth') && Recorded(g, done + {i}, depth')
  {
    forall j | 0 <= j < |g|
      ensures DepthAt(g, done + {i}, depth', j)
    {
      assert DepthAt(g, done, depth, j);
      StepDepthAt(g, done, depth, i, ds, depth', j);
    }
  }

  lemma {:induction false} StepQueued(
      g: Graph, done: set<nat>, remaining: seq<nat>, queue: seq<nat>, ds: seq<nat>, remaining': seq<nat>, queue': seq<nat>)
    requires queue != [] && |remaining| == |remaining'| == |g| && Queued(g, done, remaining, queue)
    requires forall j :: j in ds ==> j < |g| && j !in done && j !in queue && remaining[j] > 0
    requires CountedDown(ds, remaining, remaining') && Enqueued(ds, remaining', queue[1..], queue')
    ensures Queued(g, done + {queue[0]}, remaining', queue')
  {
    var i := queue[0];
    assert queue == [i] + queue[1..];
    assert forall j :: j in queue <==> j == i || j in queue[1..];
    assert i !in queue[1..];
  }

  /** One visit keeps the state of the traversal. */
  lemma {:induction false} VisitStep(
      g: Graph, done: set<nat>, remaining: seq<nat>, depth: seq<nat>, queue: seq<nat>, ds: seq<nat>,
      remaining': seq<nat>, depth': seq<nat>, queue': seq<nat>)
    requires queue != [] && Traversing(g, done, remaining, depth, queue)
    requires queue[0] < |depth| && ListsDependents(g, queue[0], ds)
    requires CountedDown(ds, remaining, remaining') && Deepened(ds, depth[queue[0]], depth, depth')
    requires Enqueued(ds, remaining', queue[1..], queue')
    ensures Traversing(g, done + {queue[0]}, remaining', depth', queue')
  {
    var i := queue[0];
    assert i in queue;
    HeadIsLongest(g, done, remaining, depth, queue);
    DependentsWait(g, done, remaining, queue, i, ds);
    StepCounts(g, done, i, ds, remaining, remaining');
    StepDepths(g, done, depth, i, ds, depth');
    StepQueued(g, done, remaining, queue, ds, remaining', queue');
  }

  /** At the end the nodes are all done exactly when the graph has no cycle. */
  lemma {:induction false} TraversalDecides(g: Graph, done: set<nat>, remaining: seq<nat>, depth: seq<nat>)
    requires WellFormed(g) && Traversing(g, done, remaining, depth, [])
    ensures |done| == |g| <==> Acyclic(g)
  {
    Counting.FullCount(done, |g|);
    if |done| == |g| {
      AllLongestAcyclic(g, depth);
    } else {
      LeftoverIsCyclic(g, done, remaining);
    }
  }

  lemma {:induction false} LeftoverIsCyclic(g: Graph, done: set<nat>, remaining: seq<nat>)
    requires WellFormed(g) && Counts(g, done, remaining) && Queued(g, done, remaining, [])
    requires exists i: nat :: i < |g| && i !in done
    ensures !Acyclic(g)
  {
    Counting.UpToMembers(|g|);
    var stuck := Counting.UpTo(|g|) - done;
    var i: nat :| i < |g| && i !in done;
    assert i in stuck;
    forall x | x in stuck
      ensures x < |g| && g[x] * stuck != {}
    {
      var y := UnmetDependency(g, done, remaining, x);
      assert y in g[x] * stuck;
    }
    StuckIsCyclic(g, stuck);
  }

  lemma {:induction false} UnmetDependency(g: Graph, done: set<nat>, remaining: seq<nat>, x: nat) returns (y: nat)
    requires WellFormed(g) && Counts(g, done, remaining) && x < |g| && remaining[x] != 0
    ensures y in g[x] && y < |g| && y !in done
  {
    assert g[x] - done != {};
    y :| y in g[x] - done;
  }

  /** With every node done the largest recorded depth is the depth of the graph. */
  lemma {:induction false} DepthOfGraph(g: Graph, depth: seq<nat>, d: nat)
    requires |depth| == |g| && forall i :: 0 <= i < |g| ==> Longest(g, i, depth[i])
    requires d in depth && forall i :: 0 <= i < |g| ==> depth[i] <= d
    ensures Depth(g, d)
  {
    forall w | Walk(g, w)
      ensures |w| <= d
    {
      assert WalkFrom(g, w, w[0]) && Longest(g, w[0], depth[w[0]]);
    }
    var i :| 0 <= i < |depth| && depth[i] == d;
    assert Longest(g, i, d);
    var w :| WalkFrom(g, w, i) && |w| == d;
  }
}
