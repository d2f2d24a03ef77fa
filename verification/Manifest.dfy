/** Structural validation of a bundle inventory: per-blob checks, then the dependency graph. */
module Manifest {
  import opened Prelude
  import opened DependencyGraph
  import Counting

  datatype BlobKind =
    | Genesis | Head | Checkpoint | Block | Handoff | Evidence | Consensus
    | Program | Replayer | Rules | BuildInputs | Toolchain | RuntimeDependency

  datatype Blob = Blob(id: Hash32, bytes: nat, roles: seq<BlobKind>, dependencies: seq<Hash32>)

  datatype Limits = Limits(
    manifestBytes: nat, blobBytes: nat, totalBytes: nat, nodes: nat, edges: nat, dependencyDepth: nat, sessions: nat, blocks: nat)

  /** Every limit is positive and within its ceiling. */
  predicate ValidLimits(l: Limits) {
    && 0 < l.manifestBytes <= 32 * 1024 * 1024 && 0 < l.blobBytes <= 512 * 1024 * 1024
    && 0 < l.totalBytes <= 64 * 1024 * 1024 * 1024 && 0 < l.nodes <= 262_144 && 0 < l.edges <= 1_048_576
    && 0 < l.dependencyDepth <= 262_144 && 0 < l.sessions <= 4096 && 0 < l.blocks <= l.nodes
  }

  datatype InventoryError = Limit | Format | MissingDependency | DependencyCycle

  datatype Summary = Summary(blobs: nat, bytes: nat, edges: nat, dependencyDepth: nat)

  // ------------------------------------------------------------------- definitions

  ghost predicate SortedIds(blobs: seq<Blob>) {
    forall i, j :: 0 <= i < j < |blobs| ==> blobs[i].id < blobs[j].id
  }

  ghost predicate Ascending(s: seq<Hash32>) {
    forall i, j :: 0 <= i < j < |s| ==> s[i] < s[j]
  }

  ghost predicate DistinctRoles(s: seq<BlobKind>) {
    forall i, j :: 0 <= i < j < |s| ==> s[i] != s[j]
  }

  predicate Contains(blobs: seq<Blob>, id: Hash32) {
    exists j :: 0 <= j < |blobs| && blobs[j].id == id
  }

  ghost function TotalBytes(blobs: seq<Blob>): nat {
    if blobs == [] then 0 else TotalBytes(blobs[..|blobs| - 1]) + blobs[|blobs| - 1].bytes
  }

  ghost function TotalEdges(blobs: seq<Blob>): nat {
    if blobs == [] then 0 else TotalEdges(blobs[..|blobs| - 1]) + |blobs[|blobs| - 1].dependencies|
  }

  /** The first complaint about blob i, given the totals up to and including it. */
  ghost function BlobError(blobs: seq<Blob>, limits: Limits, i: nat): Option<InventoryError>
    requires i < |blobs|
  {
    var b, bytes, edges := blobs[i], TotalBytes(blobs[..i + 1]), TotalEdges(blobs[..i + 1]);
    if b.bytes == 0 || b.bytes > limits.blobBytes || b.roles == [] || |b.roles| > 14 then Some(Limit)
    else if !DistinctRoles(b.roles) || bytes >= U64_LIMIT || edges >= U64_LIMIT then Some(Format)
    else if bytes > limits.totalBytes || edges > limits.edges then Some(Limit)
    else if !Ascending(b.dependencies) then Some(Format)
    else if exists d :: d in b.dependencies && !Contains(blobs, d) then Some(MissingDependency)
    else None
  }

  /** What each complaint says is true of the blob or of the totals up to it. */
  lemma {:induction false} BlobComplaints(blobs: seq<Blob>, limits: Limits, i: nat)
    requires i < |blobs| && BlobError(blobs, limits, i).Some?
    ensures var b, bytes, edges := blobs[i], TotalBytes(blobs[..i + 1]), TotalEdges(blobs[..i + 1]);
      match BlobError(blobs, limits, i).value
      case Limit =>
        !(0 < b.bytes <= limits.blobBytes) || !(0 < |b.roles| <= 14) || bytes > limits.totalBytes || edges > limits.edges
      case Format =>
        || (exists j, k :: 0 <= j < k < |b.roles| && b.roles[j] == b.roles[k])
        || (exists j, k :: 0 <= j < k < |b.dependencies| && b.dependencies[j] >= b.dependencies[k])
        || bytes >= U64_LIMIT || edges >= U64_LIMIT
      case MissingDependency =>
        exists d :: d in b.dependencies && forall j :: 0 <= j < |blobs| ==> blobs[j].id != d
      case DependencyCycle => false
  {
  }

  /** The first complaint among the first n blobs. */
  ghost function InventoryCheck(blobs: seq<Blob>, limits: Limits, n: nat): Option<InventoryError>
    requires n <= |blobs|
  {
    if n == 0 then None else
      var earlier := InventoryCheck(blobs, limits, n - 1);
      if earlier.Some? then earlier else BlobError(blobs, limits, n - 1)
  }

  /** Blob i depends on blob j. */
  predicate DependsOn(blobs: seq<Blob>, i: nat, j: nat)
    requires i < |blobs| && j < |blobs|
  {
    blobs[j].id in blobs[i].dependencies
  }

  ghost function Dependencies(blobs: seq<Blob>, i: nat): set<nat>
    requires i < |blobs|
  {
    set j: nat | j < |blobs| && DependsOn(blobs, i, j)
  }

  ghost function GraphOf(blobs: seq<Blob>): Graph {
    seq(|blobs|, i requires 0 <= i < |blobs| => Dependencies(blobs, i))
  }

  /** Every blob is named by a session role or is a dependency, at some remove, of one that is. */
  ghost predicate AllReferenced(g: Graph, used: set<nat>) {
    forall i: nat :: i < |g| ==> Reached(g, used, i)
  }

  ghost predicate Accepted(blobs: seq<Blob>, used: set<nat>, limits: Limits) {
    && InventoryCheck(blobs, limits, |blobs|).None?
    && Acyclic(GraphOf(blobs)) && Bounded(GraphOf(blobs), limits.dependencyDepth)
    && AllReferenced(GraphOf(blobs), used)
  }

  // ----------------------------------------------------------------- building blocks

  method SortedUnique(values: seq<Hash32>) returns (sorted: bool)
    ensures sorted <==> Ascending(values)
  {
    for i := 0 to |values|
      invariant forall a, b :: 0 <= a < b < i ==> values[a] < values[b]
    {
      if i > 0 {
        if values[i - 1] >= values[i] {
          return false;
        }
        assert forall a :: 0 <= a < i ==> values[a] <= values[i - 1];
      }
    }
    sorted := true;
  }

  method NoDuplicateRole(roles: seq<BlobKind>) returns (distinct: bool)
    ensures distinct <==> DistinctRoles(roles)
  {
    for j := 0 to |roles|
      invariant forall a, b :: 0 <= a < b < j ==> roles[a] != roles[b]
    {
      if roles[j] in roles[..j] {
        var k :| 0 <= k < j && roles[..j][k] == roles[j];
        assert roles[k] == roles[j];
        return false;
      }
      assert forall k :: 0 <= k < j ==> roles[k] in roles[..j];
    }
    distinct := true;
  }

  ghost predicate Indexes(index: map<Hash32, nat>, blobs: seq<Blob>) {
    && (forall i: nat :: i < |blobs| ==> blobs[i].id in index && index[blobs[i].id] == i)
    && (forall id :: id in index ==> index[id] < |blobs| && blobs[index[id]].id == id)
  }

  method BuildIndex(blobs: seq<Blob>) returns (index: map<Hash32, nat>)
    requires SortedIds(blobs)
    ensures Indexes(index, blobs)
  {
    index := map[];
    for i := 0 to |blobs|
      invariant Indexes(index, blobs[..i])
    {
      assert blobs[i].id !in index;
      index := index[blobs[i].id := i];
      assert blobs[..i + 1] == blobs[..i] + [blobs[i]];
    }
    assert blobs[..|blobs|] == blobs;
  }

  // ------------------------------------------------------------------ reverse edges

  /** The blobs among the first n that depend on blob j, in order. */
  ghost function DependentsUpTo(blobs: seq<Blob>, j: nat, n: nat): seq<nat>
    requires j < |blobs| && n <= |blobs|
  {
    if n == 0 then [] else DependentsUpTo(blobs, j, n - 1) + if DependsOn(blobs, n - 1, j) then [n - 1] else []
  }

  lemma {:induction false} DependentsListed(blobs: seq<Blob>, j: nat, n: nat)
    requires j < |blobs| && n <= |blobs|
    ensures var ds := DependentsUpTo(blobs, j, n);
      && (forall i: nat :: i in ds <==> i < n && DependsOn(blobs, i, j))
      && forall k, m :: 0 <= k < m < |ds| ==> ds[k] != ds[m]
  {
    if n > 0 {
      DependentsListed(blobs, j, n - 1);
      var before := DependentsUpTo(blobs, j, n - 1);
      assert forall k :: 0 <= k < |before| ==> before[k] in before;
    }
  }

  /** Append i to the list of everything it depends on; stop at a dependency that is absent. */
  method RecordDependents(blobs: seq<Blob>, index: map<Hash32, nat>, lists: seq<seq<nat>>, i: nat)
    returns (lists': seq<seq<nat>>, missing: bool)
    requires Indexes(index, blobs) && |lists| == |blobs| && i < |blobs| && Ascending(blobs[i].dependencies)
    ensures missing <==> exists d :: d in blobs[i].dependencies && !Contains(blobs, d)
    ensures !missing ==> |lists'| == |lists| && forall j: nat :: j < |lists| ==>
      lists'[j] == lists[j] + if DependsOn(blobs, i, j) then [i] else []
  {
    var ds := blobs[i].dependencies;
    lists' := lists;
    for k := 0 to |ds|
      invariant |lists'| == |lists| && forall m :: 0 <= m < k ==> ds[m] in index
      invariant forall j: nat :: j < |lists| ==> lists'[j] == lists[j] + if blobs[j].id in ds[..k] then [i] else []
    {
      if ds[k] !in index {
        assert ds[k] in ds && !Contains(blobs, ds[k]);
        return lists', true;
      }
      var j := index[ds[k]];
      assert ds[k] !in ds[..k];
      lists' := lists'[j := lists'[j] + [i]];
      assert ds[..k + 1] == ds[..k] + [ds[k]];
    }
    assert ds[..|ds|] == ds;
    missing := false;
    forall d | d in ds
      ensures Contains(blobs, d)
    {
      assert d in index && blobs[index[d]].id == d;
    }
  }

  /** Sorted dependencies that are all present name as many blobs as there are of them. */
  lemma {:induction false} DependencyCount(blobs: seq<Blob>, index: map<Hash32, nat>, ds: seq<Hash32>)
    requires Indexes(index, blobs) && Ascending(ds) && forall d :: d in ds ==> d in index
    ensures |set j: nat | j < |blobs| && blobs[j].id in ds| == |ds|
  {
    if ds == [] {
      assert (set j: nat | j < |blobs| && blobs[j].id in ds) == {};
    } else {
      var n := |ds| - 1;
      var front := ds[..n];
      assert ds == front + [ds[n]];
      DependencyCount(blobs, index, front);
      var some := set j: nat | j < |blobs| && blobs[j].id in front;
      var last := index[ds[n]];
      assert ds[n] !in front;
      assert last !in some;
      assert (set j: nat | j < |blobs| && blobs[j].id in ds) == some + {last};
    }
  }

  // ---------------------------------------------------------------- the blob checks

  /** The checks of one blob, and its reverse edges. */
  method CheckBlob(
      blobs: seq<Blob>, limits: Limits, index: map<Hash32, nat>, i: nat, bytesBefore: nat, edgesBefore: nat, lists: seq<seq<nat>>)
    returns (error: Option<InventoryError>, bytes: nat, edges: nat, lists': seq<seq<nat>>)
    requires Indexes(index, blobs) && i < |blobs| && |lists| == |blobs|
    requires bytesBefore == TotalBytes(blobs[..i]) && edgesBefore == TotalEdges(blobs[..i])
    ensures error == BlobError(blobs, limits, i)
    ensures error.None? ==> bytes == TotalBytes(blobs[..i + 1]) && edges == TotalEdges(blobs[..i + 1])
    ensures error.None? ==> |lists'| == |lists| && forall j: nat :: j < |lists| ==>
      lists'[j] == lists[j] + if DependsOn(blobs, i, j) then [i] else []
  {
    var b := blobs[i];
    lists' := lists;
    bytes, edges := bytesBefore + b.bytes, edgesBefore + |b.dependencies|;
    assert blobs[..i + 1][..i] == blobs[..i];
    assert bytes == TotalBytes(blobs[..i + 1]) && edges == TotalEdges(blobs[..i + 1]);
    if b.bytes == 0 || b.bytes > limits.blobBytes || b.roles == [] || |b.roles| > 14 {
      return Some(Limit), bytes, edges, lists';
    }
    var distinct := NoDuplicateRole(b.roles);
    if !distinct || bytes >= U64_LIMIT || edges >= U64_LIMIT {
      return Some(Format), bytes, edges, lists';
    }
    if bytes > limits.totalBytes || edges > limits.edges {
      return Some(Limit), bytes, edges, lists';
    }
    var sorted := SortedUnique(b.dependencies);
    if !sorted {
      return Some(Format), bytes, edges, lists';
    }
    var missing;
    lists', missing := RecordDependents(blobs, index, lists, i);
    error := if missing then Some(MissingDependency) else None;
  }

  lemma {:induction false} FirstErrorStays(blobs: seq<Blob>, limits: Limits, m: nat, n: nat)
    requires m <= n <= |blobs| && InventoryCheck(blobs, limits, m).Some?
    ensures InventoryCheck(blobs, limits, n) == InventoryCheck(blobs, limits, m)
    decreases n
  {
    if m < n { FirstErrorStays(blobs, limits, m, n - 1); }
  }

  method CheckInventory(blobs: seq<Blob>, limits: Limits, index: map<Hash32, nat>)
    returns (error: Option<InventoryError>, bytes: nat, edges: nat, remaining: seq<nat>, lists: seq<seq<nat>>)
    requires Indexes(index, blobs)
    ensures error == InventoryCheck(blobs, limits, |blobs|)
    ensures error.None? ==> bytes == TotalBytes(blobs) && edges == TotalEdges(blobs)
    ensures error.None? ==> |remaining| == |blobs| && forall i :: 0 <= i < |blobs| ==> remaining[i] == |blobs[i].dependencies|
    ensures error.None? ==> |lists| == |blobs| && forall j: nat :: j < |blobs| ==> lists[j] == DependentsUpTo(blobs, j, |blobs|)
  {
    bytes, edges, remaining, lists := 0, 0, [], seq(|blobs|, _ => []);
    for i := 0 to |blobs|
      invariant InventoryCheck(blobs, limits, i).None?
      invariant bytes == TotalBytes(blobs[..i]) && edges == TotalEdges(blobs[..i])
      invariant |remaining| == i && forall k :: 0 <= k < i ==> remaining[k] == |blobs[k].dependencies|
      invariant |lists| == |blobs| && forall j: nat :: j < |blobs| ==> lists[j] == DependentsUpTo(blobs, j, i)
    {
      error, bytes, edges, lists := CheckBlob(blobs, limits, index, i, bytes, edges, lists);
      if error.Some? {
        FirstErrorStays(blobs, limits, i + 1, |blobs|);
        return;
      }
      remaining := remaining + [|blobs[i].dependencies|];
    }
    error := None;
    assert blobs[..|blobs|] == blobs;
  }

  lemma {:induction false} CountAt(blobs: seq<Blob>, limits: Limits, index: map<Hash32, nat>, i: nat)
    requires Indexes(index, blobs) && InventoryCheck(blobs, limits, |blobs|).None? && i < |blobs|
    ensures |Dependencies(blobs, i) - {}| == |blobs[i].dependencies|
  {
    NoErrorBefore(blobs, limits, i, |blobs|);
    InventoryCount(blobs, index, limits, i);
    assert Dependencies(blobs, i) - {} == Dependencies(blobs, i);
  }

  /** The blob checks leave exact counters of unmet dependencies ... */
  lemma {:induction false} GraphCounts(blobs: seq<Blob>, limits: Limits, index: map<Hash32, nat>, remaining: seq<nat>)
    requires Indexes(index, blobs) && InventoryCheck(blobs, limits, |blobs|).None?
    requires |remaining| == |blobs| && forall i :: 0 <= i < |blobs| ==> remaining[i] == |blobs[i].dependencies|
    ensures Counts(GraphOf(blobs), {}, remaining)
  {
    var g := GraphOf(blobs);
    forall i: nat | i < |g|
      ensures remaining[i] == |g[i] - {}|
    {
      CountAt(blobs, limits, index, i);
    }
  }

  lemma {:induction false} GraphWellFormed(blobs: seq<Blob>)
    ensures WellFormed(GraphOf(blobs))
  {
  }

  /** ... and exact reverse edges. */
  lemma {:induction false} GraphLists(blobs: seq<Blob>, lists: seq<seq<nat>>)
    requires |lists| == |blobs| && forall j: nat :: j < |blobs| ==> lists[j] == DependentsUpTo(blobs, j, |blobs|)
    ensures forall j: nat :: j < |blobs| ==> ListsDependents(GraphOf(blobs), j, lists[j])
  {
    var g := GraphOf(blobs);
    forall j: nat | j < |blobs|
      ensures ListsDependents(g, j, lists[j])
    {
      DependentsListed(blobs, j, |blobs|);
    }
  }

  lemma {:induction false} NoErrorBefore(blobs: seq<Blob>, limits: Limits, i: nat, n: nat)
    requires i < n <= |blobs| && InventoryCheck(blobs, limits, n).None?
    ensures BlobError(blobs, limits, i).None?
    decreases n
  {
    if i < n - 1 { NoErrorBefore(blobs, limits, i, n - 1); }
  }

  lemma {:induction false} InventoryCount(blobs: seq<Blob>, index: map<Hash32, nat>, limits: Limits, i: nat)
    requires Indexes(index, blobs) && i < |blobs| && BlobError(blobs, limits, i).None?
    ensures |Dependencies(blobs, i)| == |blobs[i].dependencies|
  {
    forall d | d in blobs[i].dependencies
      ensures d in index
    {
      assert Contains(blobs, d);
    }
    DependencyCount(blobs, index, blobs[i].dependencies);
    assert Dependencies(blobs, i) == set j: nat | j < |blobs| && blobs[j].id in blobs[i].dependencies;
  }

  // ------------------------------------------------------------------ the traversal

  /** Visit one node: count its dependents down, deepen them, queue the ready ones. */
  method Visit(ds: seq<nat>, d: nat, remaining: seq<nat>, depth: seq<nat>, queue: seq<nat>)
    returns (remaining': seq<nat>, depth': seq<nat>, queue': seq<nat>)
    requires |remaining| == |depth|
    requires forall k, m :: 0 <= k < m < |ds| ==> ds[k] != ds[m]
    requires forall j :: j in ds ==> j < |remaining| && remaining[j] > 0 && j !in queue
    requires forall k, m :: 0 <= k < m < |queue| ==> queue[k] != queue[m]
    ensures CountedDown(ds, remaining, remaining') && Deepened(ds, d, depth, depth')
    ensures Enqueued(ds, remaining', queue, queue')
  {
    remaining', depth', queue' := remaining, depth, queue;
    for k := 0 to |ds|
      invariant CountedDown(ds[..k], remaining, remaining') && Deepened(ds[..k], d, depth, depth')
      invariant Enqueued(ds[..k], remaining', queue, queue')
    {
      var j := ds[k];
      assert ds[..k + 1] == ds[..k] + [j];
      assert j !in ds[..k] && j in ds;
      assert j !in queue';
      depth' := depth'[j := if d + 1 > depth'[j] then d + 1 else depth'[j]];
      remaining' := remaining'[j := remaining'[j] - 1];
      if remaining'[j] == 0 {
        queue' := queue' + [j];
      }
    }
    assert ds[..|ds|] == ds;
  }

  /** The nodes that wait for nothing, in order. */
  method Ready(remaining: seq<nat>) returns (queue: seq<nat>)
    ensures forall i: nat :: i in queue <==> i < |remaining| && remaining[i] == 0
    ensures forall k, m :: 0 <= k < m < |queue| ==> queue[k] != queue[m]
  {
    queue := [];
    for i := 0 to |remaining|
      invariant forall k: nat :: k in queue <==> k < i && remaining[k] == 0
      invariant forall k, m :: 0 <= k < m < |queue| ==> queue[k] != queue[m]
    {
      if remaining[i] == 0 {
        assert i !in queue;
        queue := queue + [i];
      }
    }
  }

  lemma {:induction false} TraversalStart(g: Graph, remaining: seq<nat>, queue: seq<nat>, depth: seq<nat>)
    requires Counts(g, {}, remaining) && |depth| == |g| && forall i :: 0 <= i < |g| ==> depth[i] == 1
    requires forall i: nat :: i in queue <==> i < |remaining| && remaining[i] == 0
    requires forall k, m :: 0 <= k < m < |queue| ==> queue[k] != queue[m]
    ensures Traversing(g, {}, remaining, depth, queue)
  {
    forall i | 0 <= i < |g|
      ensures DepthAt(g, {}, depth, i)
    {
      assert g[i] * {} == {};
    }
  }

  /** Every node done so far is within the depth limit. */
  ghost predicate WithinLimit(done: set<nat>, depth: seq<nat>, limit: nat) {
    forall i :: i in done ==> i < |depth| && depth[i] <= limit
  }

  /** The verdict of the traversal. */
  ghost predicate Decided(g: Graph, limit: nat, visited: nat, depth: seq<nat>, tooDeep: bool) {
    if tooDeep then !Bounded(g, limit)
    else
      && (visited == |g| <==> Acyclic(g))
      && (visited == |g| ==> |depth| == |g| && forall i: nat :: i < |g| ==> Longest(g, i, depth[i]) && depth[i] <= limit)
  }

  lemma {:induction false} TraversalEnd(g: Graph, done: set<nat>, remaining: seq<nat>, depth: seq<nat>, limit: nat)
    requires WellFormed(g) && Traversing(g, done, remaining, depth, []) && WithinLimit(done, depth, limit)
    ensures Decided(g, limit, |done|, depth, false)
  {
    TraversalDecides(g, done, remaining, depth);
    Counting.FullCount(done, |g|);
  }

  method Traverse(ghost g: Graph, counters: seq<nat>, lists: seq<seq<nat>>, limit: nat)
    returns (visited: nat, depth: seq<nat>, tooDeep: bool)
    requires WellFormed(g) && Counts(g, {}, counters)
    requires |lists| == |g| && forall j: nat :: j < |g| ==> ListsDependents(g, j, lists[j])
    ensures Decided(g, limit, visited, depth, tooDeep)
  {
    var remaining := counters;
    var queue := Ready(remaining);
    depth := seq(|counters|, _ => 1);
    visited, tooDeep := 0, false;
    ghost var done: set<nat> := {};
    TraversalStart(g, remaining, queue, depth);
    while queue != []
      invariant Traversing(g, done, remaining, depth, queue)
      invariant visited == |done| <= |g| && WithinLimit(done, depth, limit)
      decreases |g| - |done|
    {
      HeadIsLongest(g, done, remaining, depth, queue);
      var i := queue[0];
      visited := visited + 1;
      if depth[i] > limit {
        LongIsUnbounded(g, i, depth[i], limit);
        return visited, depth, true;
      }
      remaining, depth, queue := VisitHead(g, done, lists[i], remaining, depth, queue, limit);
      done := done + {i};
    }
    TraversalEnd(g, done, remaining, depth, limit);
  }

  lemma {:induction false} LongIsUnbounded(g: Graph, i: nat, d: nat, limit: nat)
    requires Longest(g, i, d) && d > limit
    ensures !Bounded(g, limit)
  {
    var w :| WalkFrom(g, w, i) && |w| == d;
    assert Walk(g, w);
  }

  /** Visiting changes no depth already settled. */
  lemma {:induction false} SettledDepths(ds: seq<nat>, done: set<nat>, i: nat, depth: seq<nat>, depth': seq<nat>, limit: nat)
    requires Deepened(ds, if i < |depth| then depth[i] else 0, depth, depth') && i < |depth| && depth[i] <= limit
    requires WithinLimit(done, depth, limit) && i !in ds && forall j :: j in ds ==> j !in done
    ensures WithinLimit(done + {i}, depth', limit)
  {
  }

  lemma {:induction false} OneMoreDone(g: Graph, done: set<nat>, i: nat)
    requires i < |g| && i !in done && forall x :: x in done ==> x < |g|
    ensures |done + {i}| == |done| + 1 <= |g|
  {
    Counting.FullCount(done + {i}, |g|);
  }

  method VisitHead(
      ghost g: Graph, ghost done: set<nat>, ds: seq<nat>, remaining: seq<nat>, depth: seq<nat>, queue: seq<nat>, ghost limit: nat)
    returns (remaining': seq<nat>, depth': seq<nat>, queue': seq<nat>)
    requires queue != [] && Traversing(g, done, remaining, depth, queue) && ListsDependents(g, queue[0], ds)
    requires queue[0] < |depth| && depth[queue[0]] <= limit && WithinLimit(done, depth, limit)
    ensures Traversing(g, done + {queue[0]}, remaining', depth', queue')
    ensures WithinLimit(done + {queue[0]}, depth', limit)
    ensures |done + {queue[0]}| == |done| + 1 <= |g|
  {
    var i := queue[0];
    assert i in queue;
    DependentsWait(g, done, remaining, queue, i, ds);
    RestOfQueue(queue);
    remaining', depth', queue' := Visit(ds, depth[i], remaining, depth, queue[1..]);
    VisitStep(g, done, remaining, depth, queue, ds, remaining', depth', queue');
    SettledDepths(ds, done, i, depth, depth', limit);
    OneMoreDone(g, done, i);
  }

  lemma {:induction false} RestOfQueue(queue: seq<nat>)
    requires queue != [] && forall k, m :: 0 <= k < m < |queue| ==> queue[k] != queue[m]
    ensures forall j :: j in queue[1..] ==> j in queue
    ensures forall k, m :: 0 <= k < m < |queue[1..]| ==> queue[1..][k] != queue[1..][m]
  {
  }

  // ---------------------------------------------------------------- reachability

  /** Everything found is reached from the roots, and is waiting or has its dependencies found. */
  ghost predicate Spreading(g: Graph, roots: set<nat>, used: set<nat>, frontier: seq<nat>) {
    && roots <= used && (forall i :: i in used ==> i < |g| && Reached(g, roots, i))
    && (forall i :: i in frontier ==> i in used)
    && (forall i, j :: i in used && i !in frontier && i < |g| && j in g[i] ==> j in used)
  }

  lemma {:induction false} ReachedNext(g: Graph, roots: set<nat>, i: nat, j: nat)
    requires WellFormed(g) && Reached(g, roots, i) && i < |g| && j in g[i]
    ensures j < |g| && Reached(g, roots, j)
  {
    var w :| WalkBetween(g, roots, w, i);
    var longer := w + [j];
    forall k | 0 <= k < |longer| - 1
      ensures longer[k + 1] in g[longer[k]]
    {
      if k < |w| - 1 { assert w[k + 1] in g[w[k]]; }
    }
    assert WalkBetween(g, roots, longer, j);
  }

  lemma {:induction false} RootsReached(g: Graph, roots: set<nat>)
    requires forall i :: i in roots ==> i < |g|
    ensures forall i :: i in roots ==> Reached(g, roots, i)
  {
    forall i | i in roots
      ensures Reached(g, roots, i)
    {
      assert WalkBetween(g, roots, [i], i);
    }
  }

  lemma {:induction false} SpreadHoldsWalk(g: Graph, used: set<nat>, w: seq<nat>)
    requires Walk(g, w) && w[0] in used
    requires forall i, j :: i in used && i < |g| && j in g[i] ==> j in used
    ensures w[|w| - 1] in used
    decreases |w|
  {
    if |w| > 1 {
      Tail(g, w);
      SpreadHoldsWalk(g, used, w[1..]);
    }
  }

  lemma {:induction false} SpreadDone(g: Graph, roots: set<nat>, used: set<nat>)
    requires Spreading(g, roots, used, [])
    ensures |used| == |g| <==> AllReferenced(g, roots)
  {
    Counting.FullCount(used, |g|);
    forall i: nat | i < |g| && Reached(g, roots, i)
      ensures i in used
    {
      var w :| WalkBetween(g, roots, w, i);
      SpreadHoldsWalk(g, used, w);
    }
  }

  /** Add the dependencies of one node that are not used yet, and push them. */
  method Spread(ghost g: Graph, ghost roots: set<nat>, i: nat, dependencies: seq<nat>, seen: set<nat>, waiting: seq<nat>)
    returns (used: set<nat>, frontier: seq<nat>)
    requires WellFormed(g) && i < |g| && (forall j :: j in dependencies <==> j in g[i])
    requires Spreading(g, roots, seen, waiting + [i])
    ensures Spreading(g, roots, used, frontier) && seen <= used
    ensures (used == seen && frontier == waiting) || seen < used
  {
    used, frontier := seen, waiting;
    assert i in waiting + [i];
    for k := 0 to |dependencies|
      invariant Grown(g, roots, seen, waiting, used, frontier)
      invariant forall m :: 0 <= m < k ==> dependencies[m] in used
      invariant (used == seen && frontier == waiting) || seen < used
    {
      var j := dependencies[k];
      assert j in dependencies;
      if j !in used {
        GrowBy(g, roots, seen, waiting, used, frontier, i, j);
        used := used + {j};
        frontier := frontier + [j];
      }
    }
    assert forall j :: j in g[i] ==> j in used;
    SpreadStep(g, roots, i, seen, waiting, used, frontier);
  }

  /** What was found since: all of it is reached from the roots and waits in the frontier. */
  ghost predicate Grown(g: Graph, roots: set<nat>, seen: set<nat>, waiting: seq<nat>, used: set<nat>, frontier: seq<nat>) {
    && seen <= used && (forall x :: x in used ==> x < |g| && Reached(g, roots, x))
    && (forall x :: x in frontier ==> x in used)
    && (forall x :: x in waiting || (x in used && x !in seen) ==> x in frontier)
  }

  lemma {:induction false} GrowBy(
      g: Graph, roots: set<nat>, seen: set<nat>, waiting: seq<nat>, used: set<nat>, frontier: seq<nat>, i: nat, j: nat)
    requires WellFormed(g) && Grown(g, roots, seen, waiting, used, frontier) && i in seen && i < |g| && j in g[i]
    ensures Grown(g, roots, seen, waiting, used + {j}, frontier + [j])
  {
    ReachedNext(g, roots, i, j);
  }

  lemma {:induction false} SpreadStep(
      g: Graph, roots: set<nat>, i: nat, seen: set<nat>, waiting: seq<nat>, used: set<nat>, frontier: seq<nat>)
    requires Spreading(g, roots, seen, waiting + [i]) && Grown(g, roots, seen, waiting, used, frontier)
    requires i < |g| && forall j :: j in g[i] ==> j in used
    ensures Spreading(g, roots, used, frontier)
  {
    forall x, j | x in used && x !in frontier && x < |g| && j in g[x]
      ensures j in used
    {
      if x != i { assert x in seen && x !in waiting + [i]; }
    }
  }

  /** The positions of a blob's dependencies. */
  method Positions(blobs: seq<Blob>, index: map<Hash32, nat>, i: nat) returns (positions: seq<nat>)
    requires Indexes(index, blobs) && i < |blobs| && forall d :: d in blobs[i].dependencies ==> d in index
    ensures forall j :: j in positions <==> j in Dependencies(blobs, i)
  {
    positions := [];
    var ds := blobs[i].dependencies;
    for k := 0 to |ds|
      invariant forall j: nat :: j in positions <==> j < |blobs| && blobs[j].id in ds[..k]
    {
      assert ds[k] in ds;
      positions := positions + [index[ds[k]]];
      assert ds[..k + 1] == ds[..k] + [ds[k]];
    }
    assert ds[..|ds|] == ds;
  }

  method Referenced(blobs: seq<Blob>, index: map<Hash32, nat>, roots: set<nat>) returns (used: set<nat>)
    requires Indexes(index, blobs) && (forall i :: i in roots ==> i < |blobs|)
    requires forall i, d :: 0 <= i < |blobs| && d in blobs[i].dependencies ==> d in index
    ensures |used| == |blobs| <==> AllReferenced(GraphOf(blobs), roots)
  {
    ghost var g := GraphOf(blobs);
    GraphWellFormed(blobs);
    used := roots;
    var frontier := ListOf(roots);
    RootsReached(g, roots);
    Counting.FullCount(used, |g|);
    while frontier != []
      invariant Spreading(g, roots, used, frontier) && |used| <= |g|
      decreases |g| - |used|, |frontier|
    {
      var last := |frontier| - 1;
      var i := frontier[last];
      assert frontier == frontier[..last] + [i] && i in frontier;
      var positions := Positions(blobs, index, i);
      ghost var before := used;
      used, frontier := Spread(g, roots, i, positions, used, frontier[..last]);
      Counting.FullCount(used, |g|);
      Grew(before, used);
    }
    SpreadDone(g, roots, used);
  }

  lemma {:induction false} Grew(before: set<nat>, after: set<nat>)
    requires before <= after
    ensures |before| <= |after| && (before < after ==> |before| < |after|)
  {
    assert after == before + (after - before);
    if before < after {
      var x :| x in after && x !in before;
      assert x in after - before;
    }
  }

  method ListOf(s: set<nat>) returns (list: seq<nat>)
    ensures forall x :: x in list <==> x in s
  {
    list := [];
    var left := s;
    while left != {}
      invariant left <= s && forall x :: x in list <==> x in s - left
      decreases left
    {
      var x :| x in left;
      list := list + [x];
      left := left - {x};
    }
  }

  // ------------------------------------------------------------------- validation

  method MaxDepth(depth: seq<nat>) returns (d: nat)
    ensures depth == [] ==> d == 0
    ensures depth != [] ==> d in depth
    ensures forall i :: 0 <= i < |depth| ==> depth[i] <= d
  {
    d := 0;
    for i := 0 to |depth|
      invariant i == 0 ==> d == 0
      invariant i > 0 ==> d in depth[..i]
      invariant forall k :: 0 <= k < i ==> depth[k] <= d
    {
      if i == 0 || depth[i] > d {
        d := depth[i];
      }
      assert depth[..i + 1] == depth[..i] + [depth[i]];
    }
    assert depth[..|depth|] == depth;
  }

  /** The graph part of the validation, given blobs sorted by id and the positions named by
      session roles: accepted exactly when the checks pass, the graph has no cycle and no chain
      beyond the limit, and every blob is referenced. */
  method ValidateGraph(blobs: seq<Blob>, roots: set<nat>, limits: Limits) returns (r: Result<Summary, InventoryError>)
    requires SortedIds(blobs) && blobs != [] && forall i :: i in roots ==> i < |blobs|
    ensures r.Ok? <==> Accepted(blobs, roots, limits)
    ensures r.Ok? ==> Depth(GraphOf(blobs), r.value.dependencyDepth)
    ensures r.Ok? ==> r.value.blobs == |blobs| && r.value.bytes == TotalBytes(blobs) && r.value.edges == TotalEdges(blobs)
    ensures var first := InventoryCheck(blobs, limits, |blobs|); first.Some? ==> r == Err(first.value)
    ensures r == Err(DependencyCycle) ==> !Acyclic(GraphOf(blobs))
    ensures InventoryCheck(blobs, limits, |blobs|).None? && r == Err(Limit) ==> !Bounded(GraphOf(blobs), limits.dependencyDepth)
    ensures InventoryCheck(blobs, limits, |blobs|).None? && r == Err(Format) ==>
      && Acyclic(GraphOf(blobs)) && Bounded(GraphOf(blobs), limits.dependencyDepth)
      && !AllReferenced(GraphOf(blobs), roots)
    ensures InventoryCheck(blobs, limits, |blobs|).None? ==> r != Err(MissingDependency)
  {
    var index := BuildIndex(blobs);
    var error, bytes, edges, remaining, lists := CheckInventory(blobs, limits, index);
    NoStructuralError(blobs, limits, |blobs|);
    if error.Some? {
      return Err(error.value);
    }
    GraphWellFormed(blobs);
    GraphCounts(blobs, limits, index, remaining);
    GraphLists(blobs, lists);
    var visited, depth, tooDeep := Traverse(GraphOf(blobs), remaining, lists, limits.dependencyDepth);
    if tooDeep {
      return Err(Limit);
    }
    if visited != |blobs| {
      return Err(DependencyCycle);
    }
    var d := MaxDepth(depth);
    DepthOfGraph(GraphOf(blobs), depth, d);
    AllPresent(blobs, limits, index);
    var used := Referenced(blobs, index, roots);
    if |used| != |blobs| {
      return Err(Format);
    }
    r := Ok(Summary(|blobs|, bytes, edges, d));
  }

  lemma {:induction false} NoStructuralError(blobs: seq<Blob>, limits: Limits, n: nat)
    requires n <= |blobs|
    ensures InventoryCheck(blobs, limits, n) != Some(DependencyCycle)
  {
    if n > 0 { NoStructuralError(blobs, limits, n - 1); }
  }

  lemma {:induction false} AllPresent(blobs: seq<Blob>, limits: Limits, index: map<Hash32, nat>)
    requires Indexes(index, blobs) && InventoryCheck(blobs, limits, |blobs|).None?
    ensures forall i, d :: 0 <= i < |blobs| && d in blobs[i].dependencies ==> d in index
  {
    forall i, d | 0 <= i < |blobs| && d in blobs[i].dependencies
      ensures d in index
    {
      NoErrorBefore(blobs, limits, i, |blobs|);
      assert Contains(blobs, d);
    }
  }
}
