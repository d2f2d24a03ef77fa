/** The pool as the program runs it: worklists, loops over ordered sets, and a state that is
    copied, edited and swapped in. */
module CellPoolMachine {
  import opened Prelude
  import opened PoolModel = CellPool
  import opened CellPoolMeaning
  import CellPoolRuns

  // ------------------------------------------------------------------- ordered sets

  ghost predicate IsMin(s: set<TxId>, m: TxId) {
    m in s && forall x :: x in s ==> m <= x
  }

  lemma {:induction false} MinExists(s: set<TxId>)
    requires s != {}
    ensures exists m :: IsMin(s, m)
    decreases s
  {
    var y :| y in s;
    var rest := s - {y};
    if rest == {} {
      assert s == {y};
      assert IsMin(s, y);
    } else {
      MinExists(rest);
      var m :| IsMin(rest, m);
      assert s == {y} + rest;
      assert IsMin(s, if y <= m then y else m);
    }
  }

  /** The first id in iteration order. */
  function MinOf(s: set<TxId>): (m: TxId)
    requires s != {}
    ensures m in s && forall x :: x in s ==> m <= x
  {
    MinExists(s);
    assert forall m :: IsMin(s, m) ==> m in s && forall x :: x in s ==> m <= x;
    var m :| m in s && forall x :: x in s ==> m <= x;
    m
  }

  /** The members of a set in iteration order. */
  ghost function Ordered(ids: set<TxId>): (s: seq<TxId>)
    ensures forall id :: id in s <==> id in ids
  {
    if ids == {} then [] else [MinOf(ids)] + Ordered(ids - {MinOf(ids)})
  }

  ghost predicate Rising(s: seq<TxId>) {
    forall i, j :: 0 <= i < j < |s| ==> s[i] < s[j]
  }

  lemma {:induction false} RisingFrom(m: TxId, s: seq<TxId>)
    requires Rising(s) && forall id :: id in s ==> m < id
    ensures Rising([m] + s)
  {
    assert forall j :: 0 <= j < |s| ==> s[j] in s;
  }

  lemma {:induction false} OrderedRises(ids: set<TxId>)
    ensures Rising(Ordered(ids))
  {
    if ids != {} {
      var rest := ids - {MinOf(ids)};
      OrderedRises(rest);
      RisingFrom(MinOf(ids), Ordered(rest));
    }
  }

  lemma {:induction false} NextInOrder(before: seq<TxId>, left: set<TxId>)
    requires left != {}
    ensures before + [MinOf(left)] + Ordered(left - {MinOf(left)}) == before + Ordered(left)
  {
    assert Ordered(left) == [MinOf(left)] + Ordered(left - {MinOf(left)});
  }

  method InOrder(ids: set<TxId>) returns (s: seq<TxId>)
    ensures s == Ordered(ids)
  {
    s := [];
    var left := ids;
    while left != {}
      invariant s + Ordered(left) == Ordered(ids)
      decreases left
    {
      NextInOrder(s, left);
      s, left := s + [MinOf(left)], left - {MinOf(left)};
    }
  }

  /** The transactions of a list of entries. */
  function TxsOf(s: seq<TxId>, txs: map<TxId, Entry>): seq<Tx>
    requires Elements(s) <= txs.Keys
  {
    seq(|s|, i requires 0 <= i < |s| => assert s[i] in Elements(s); txs[s[i]].tx)
  }

  function Elements(s: seq<TxId>): set<TxId> {
    set id | id in s
  }

  // ------------------------------------------------------------------- descendants

  ghost function Mentioned(txs: map<TxId, Entry>): set<TxId> {
    set id, c | id in txs && c in txs[id].dependents :: c
  }

  /** Everything found descends from the roots, and is waiting or has its children found. */
  ghost predicate Searching(txs: map<TxId, Entry>, roots: set<TxId>, result: set<TxId>, queue: seq<TxId>) {
    && roots <= result <= roots + Mentioned(txs)
    && (forall id :: id in queue ==> id in result)
    && (forall id :: id in result ==> Descends(txs, roots, id))
    && (forall id, child :: id in result && id !in queue && IsChild(txs, id, child) ==> child in result)
  }

  lemma {:induction false} SearchStart(txs: map<TxId, Entry>, roots: set<TxId>, queue: seq<TxId>)
    requires forall id :: id in queue <==> id in roots
    ensures Searching(txs, roots, roots, queue)
  {
    forall id | id in roots
      ensures Descends(txs, roots, id)
    {
      RootDescends(txs, roots, id);
    }
  }

  lemma {:induction false} SearchDone(txs: map<TxId, Entry>, roots: set<TxId>, result: set<TxId>)
    requires Searching(txs, roots, result, [])
    ensures IsDescendants(txs, roots, result)
  {
    forall id | Descends(txs, roots, id)
      ensures id in result
    {
      ClosedHoldsDescendants(txs, roots, result, id);
    }
  }

  /** An id that is not pooled has no children to find. */
  lemma {:induction false} SkipUnpooled(txs: map<TxId, Entry>, roots: set<TxId>, result: set<TxId>, queue: seq<TxId>)
    requires queue != [] && queue[0] !in txs && Searching(txs, roots, result, queue)
    ensures Searching(txs, roots, result, queue[1..])
  {
    assert queue == [queue[0]] + queue[1..];
  }

  /** Take the first id off the queue and queue its unseen children. */
  method SearchNext(txs: map<TxId, Entry>, ghost roots: set<TxId>, seen: set<TxId>, queued: seq<TxId>)
    returns (result: set<TxId>, queue: seq<TxId>)
    requires queued != [] && Searching(txs, roots, seen, queued)
    ensures Searching(txs, roots, result, queue)
    ensures (result == seen && |queue| < |queued|) || seen < result
  {
    assert queued == [queued[0]] + queued[1..];
    if queued[0] in txs {
      result, queue := Expand(txs, roots, queued[0], seen, queued[1..]);
    } else {
      SkipUnpooled(txs, roots, seen, queued);
      result, queue := seen, queued[1..];
    }
  }

  method DescendantsIncluding(txs: map<TxId, Entry>, roots: set<TxId>) returns (result: set<TxId>)
    ensures IsDescendants(txs, roots, result)
  {
    result := roots;
    var queue := InOrder(roots);
    SearchStart(txs, roots, queue);
    ghost var universe := roots + Mentioned(txs);
    while queue != []
      invariant Searching(txs, roots, result, queue)
      decreases |universe - result|, |queue|
    {
      ghost var before := result;
      result, queue := SearchNext(txs, roots, result, queue);
      if before < result { Shrinks(universe, before, result); }
    }
    SearchDone(txs, roots, result);
  }

  lemma {:induction false} Shrinks(universe: set<TxId>, before: set<TxId>, after: set<TxId>)
    requires before < after <= universe
    ensures |universe - after| < |universe - before|
  {
    var x :| x in after && x !in before;
    assert universe - before == (universe - after) + (after - before);
    assert x in after - before;
  }

  /** Queue the children not seen before. */
  method Expand(txs: map<TxId, Entry>, ghost roots: set<TxId>, txid: TxId, seen: set<TxId>, queued: seq<TxId>)
    returns (result: set<TxId>, queue: seq<TxId>)
    requires txid in txs && Searching(txs, roots, seen, [txid] + queued)
    ensures Searching(txs, roots, result, queue) && seen <= result
    ensures (result == seen && queue == queued) || seen < result
  {
    result, queue := seen, queued;
    var children := txs[txid].dependents;
    assert txid in [txid] + queued;
    while children != {}
      invariant children <= txs[txid].dependents && txs[txid].dependents - children <= result
      invariant Found(txs, roots, seen, queued, result, queue)
      invariant (result == seen && queue == queued) || seen < result
      decreases children
    {
      var child := MinOf(children);
      children := children - {child};
      if child !in result {
        FindChild(txs, roots, seen, queued, result, queue, txid, child);
        result := result + {child};
        queue := queue + [child];
      }
    }
    assert forall child :: IsChild(txs, txid, child) ==> child in result;
  }

  /** What was found since: all of it descends from the roots and waits in the queue. */
  ghost predicate Found(txs: map<TxId, Entry>, roots: set<TxId>, seen: set<TxId>, queued: seq<TxId>, result: set<TxId>, queue: seq<TxId>) {
    && seen <= result <= roots + Mentioned(txs)
    && (forall id :: id in queue ==> id in result)
    && (forall id :: id in queued || (id in result && id !in seen) ==> id in queue)
    && (forall id :: id in result ==> Descends(txs, roots, id))
  }

  lemma {:induction false} FindChild(
      txs: map<TxId, Entry>, roots: set<TxId>, seen: set<TxId>, queued: seq<TxId>, result: set<TxId>, queue: seq<TxId>,
      txid: TxId, child: TxId)
    requires Found(txs, roots, seen, queued, result, queue) && txid in seen && IsChild(txs, txid, child)
    ensures Found(txs, roots, seen, queued, result + {child}, queue + [child])
  {
    ChildDescends(txs, roots, txid, child);
    assert child in Mentioned(txs);
  }

  // ---------------------------------------------------------------------- removal

  /** One entry out of the edited copy; nothing when a total would go below zero. */
  method RemoveEntry(p: Pool, id: TxId) returns (next: Option<Pool>, removed: Option<Tx>)
    ensures next == RemoveOne(p, id)
    ensures next.Some? ==> removed == if id in p.txs then Some(p.txs[id].tx) else None
  {
    if id !in p.txs {
      return Some(p), None;
    }
    var e := p.txs[id];
    var spent := p.spent;
    for i := 0 to |e.tx.inputs|
      invariant spent == StrikeSpends(p.spent, e.tx.inputs[..i], id)
    {
      var o := e.tx.inputs[i];
      if o in spent && spent[o] == id {
        spent := spent - {o};
      }
      assert forall x :: x in e.tx.inputs[..i + 1] <==> x in e.tx.inputs[..i] || x == o;
    }
    assert e.tx.inputs[..|e.tx.inputs|] == e.tx.inputs;
    var txs := UnlinkParents(p.txs - {id}, id, e.dependencies);
    assert txs == StrikeTx(p.txs, id, e.dependencies);
    var stats := StrikeStats(p.stats, e.tx.size, e.fee);
    if stats.None? {
      return None, None;
    }
    next := Some(Pool(Keep(p.order, {id}), txs, spent, stats.value));
    removed := Some(e.tx);
  }

  function Unlinked(txs: map<TxId, Entry>, id: TxId, parents: set<TxId>): map<TxId, Entry> {
    map q | q in txs :: if q in parents then txs[q].(dependents := txs[q].dependents - {id}) else txs[q]
  }

  method UnlinkParents(txs: map<TxId, Entry>, id: TxId, parents: set<TxId>) returns (next: map<TxId, Entry>)
    ensures next == Unlinked(txs, id, parents)
  {
    next := txs;
    var left := parents;
    while left != {}
      invariant left <= parents && next == Unlinked(txs, id, parents - left)
      decreases left
    {
      var parent := MinOf(left);
      left := left - {parent};
      if parent in next {
        next := next[parent := next[parent].(dependents := next[parent].dependents - {id})];
      }
    }
    assert parents - {} == parents;
  }

  /** One removal after the other; nothing once one of them panics. */
  ghost function RemoveEach(p: Pool, s: seq<TxId>): Option<Pool> {
    if s == [] then Some(p) else
      var q := RemoveEach(p, s[..|s| - 1]);
      if q.None? then None else RemoveOne(q.value, s[|s| - 1])
  }

  lemma {:induction false} AffordsParts(p: Pool, R: set<TxId>, S: set<TxId>)
    requires R <= S && Affords(p, S)
    ensures Affords(p, R)
  {
    TotalSplit(S * p.txs.Keys, R * p.txs.Keys, Fees(p.txs));
  }

  ghost function Together(p: Pool, R: set<TxId>): Option<Pool> {
    if Affords(p, R) then Some(Without(p, R)) else None
  }

  lemma {:induction false} OneMore(p: Pool, R: set<TxId>, id: TxId)
    requires SpendsIndexed(p.spent, p.txs) && Linked(p.txs) && id in p.txs && id !in R
    ensures Together(p, R + {id}) == if Together(p, R).None? then None else RemoveOne(Together(p, R).value, id)
  {
    if Affords(p, R) {
      RemoveStep(p, R, id);
    } else if Affords(p, R + {id}) {
      AffordsParts(p, R, R + {id});
    }
  }

  lemma {:induction false} LastElement(s: seq<TxId>)
    requires s != [] && Distinct(s)
    ensures var front, id := s[..|s| - 1], s[|s| - 1];
      Distinct(front) && id !in Elements(front) && Elements(s) == Elements(front) + {id}
  {
    assert s == s[..|s| - 1] + [s[|s| - 1]];
  }

  /** Whatever the order, one of the removals panics exactly when the running fee total does not
      cover them together; otherwise what remains is the pool without all of them. */
  lemma {:induction false} RemoveEachTogether(p: Pool, s: seq<TxId>)
    requires Counted(p.stats, p.txs) && SpendsIndexed(p.spent, p.txs) && Linked(p.txs)
    requires Distinct(s) && Elements(s) <= p.txs.Keys
    ensures RemoveEach(p, s) == if Affords(p, Elements(s)) then Some(Without(p, Elements(s))) else None
  {
    if s == [] {
      WithoutNothing(p);
      assert Elements(s) == {};
    } else {
      LastElement(s);
      RemoveEachTogether(p, s[..|s| - 1]);
      OneMore(p, Elements(s[..|s| - 1]), s[|s| - 1]);
    }
  }

  lemma {:induction false} PanicIsFinal(p: Pool, s: seq<TxId>, n: nat)
    requires n <= |s| && RemoveEach(p, s[..n]) == None
    ensures RemoveEach(p, s) == None
    decreases |s|
  {
    if n < |s| {
      assert s[..|s| - 1][..n] == s[..n];
      PanicIsFinal(p, s[..|s| - 1], n);
    } else {
      assert s[..n] == s;
    }
  }

  lemma {:induction false} NotYetRemoved(p: Pool, s: seq<TxId>, n: nat, current: Pool)
    requires Counted(p.stats, p.txs) && SpendsIndexed(p.spent, p.txs) && Linked(p.txs)
    requires Distinct(s) && Elements(s) <= p.txs.Keys && n < |s| && RemoveEach(p, s[..n]) == Some(current)
    ensures s[n] in current.txs && s[n] in p.txs && current.txs[s[n]].tx == p.txs[s[n]].tx
  {
    assert s[n] in Elements(s) && Elements(s[..n]) <= Elements(s);
    RemoveEachTogether(p, s[..n]);
    assert s[n] !in Elements(s[..n]);
  }

  /** Entries leave one by one in id order. */
  method RemoveAll(p: Pool, ids: set<TxId>) returns (next: Option<Pool>, removed: seq<Tx>)
    requires Counted(p.stats, p.txs) && SpendsIndexed(p.spent, p.txs) && Linked(p.txs) && ids <= p.txs.Keys
    ensures next == if Affords(p, ids) then Some(Without(p, ids)) else None
    ensures Elements(Ordered(ids)) == ids && (next.Some? ==> removed == TxsOf(Ordered(ids), p.txs))
  {
    var order := InOrder(ids);
    OrderedRises(ids);
    assert Elements(order) == ids;
    RemoveEachTogether(p, order);
    next, removed := RemoveInTurn(p, order);
  }

  method RemoveInTurn(p: Pool, order: seq<TxId>) returns (next: Option<Pool>, removed: seq<Tx>)
    requires Counted(p.stats, p.txs) && SpendsIndexed(p.spent, p.txs) && Linked(p.txs)
    requires Distinct(order) && Elements(order) <= p.txs.Keys
    ensures next == RemoveEach(p, order)
    ensures next.Some? ==> removed == TxsOf(order, p.txs)
  {
    var current := p;
    removed := [];
    for i := 0 to |order|
      invariant RemoveEach(p, order[..i]) == Some(current)
      invariant Elements(order[..i]) <= Elements(order) && removed == TxsOf(order[..i], p.txs)
    {
      NotYetRemoved(p, order, i, current);
      assert order[..i + 1][..i] == order[..i];
      var tx;
      next, tx := RemoveEntry(current, order[i]);
      if next.None? {
        PanicIsFinal(p, order, i + 1);
        return;
      }
      current := next.value;
      removed := removed + [tx.value];
    }
    assert order[..|order|] == order;
    next := Some(current);
  }

  // -------------------------------------------------------------------- admission

  lemma {:induction false} DistinctBySize(s: seq<OutPoint>)
    ensures |set o | o in s| <= |s|
    ensures |set o | o in s| == |s| <==> Distinct(s)
  {
    if s != [] {
      var n := |s| - 1;
      var front, last := s[..n], s[n];
      DistinctBySize(front);
      assert s == front + [last];
      var all, some := set o | o in s, set o | o in front;
      assert all == some + {last};
      if last in front {
        assert all == some;
      } else {
        assert forall i :: 0 <= i < n ==> front[i] == s[i] && s[i] in front;
      }
      if Distinct(s) {
        assert Distinct(front);
        assert last !in front;
      }
    }
  }

  method DistinctInputs(inputs: seq<OutPoint>) returns (distinct: bool)
    ensures distinct <==> Distinct(inputs)
  {
    DistinctBySize(inputs);
    distinct := |set o | o in inputs| == |inputs|;
  }

  lemma {:induction false} PartialTotal(part: set<TxId>, id: TxId, whole: set<TxId>, amount: map<TxId, nat>)
    requires part <= whole && whole <= amount.Keys && id in whole && id !in part
    ensures Total(part + {id}, amount) == Total(part, amount) + amount[id] <= Total(whole, amount)
  {
    TotalRemove(part + {id}, id, amount);
    assert part + {id} - {id} == part;
    TotalSplit(whole, part + {id}, amount);
  }

  /** The sums over the evicted package, or nothing when one of them leaves 64 bits. */
  method PackageTotals(p: Pool, evicted: set<TxId>) returns (totals: Option<(U64, U64)>)
    requires evicted <= p.txs.Keys
    ensures var fee, size := Total(evicted, Fees(p.txs)), Total(evicted, EffectiveSizes(p.txs));
      if fee < U64_LIMIT && size < U64_LIMIT then totals.Some? && totals.value.0 == fee && totals.value.1 == size else totals.None?
  {
    var oldFee: U64, oldSize: U64 := 0, 0;
    var left := evicted;
    ghost var done: set<TxId> := {};
    while left != {}
      invariant done + left == evicted && done !! left
      invariant oldFee == Total(done, Fees(p.txs)) && oldSize == Total(done, EffectiveSizes(p.txs))
      decreases left
    {
      var id := MinOf(left);
      PartialTotal(done, id, evicted, Fees(p.txs));
      PartialTotal(done, id, evicted, EffectiveSizes(p.txs));
      var fee := oldFee + p.txs[id].fee;
      if fee >= U64_LIMIT {
        return None;
      }
      var size := oldSize + EffectiveSize(p.txs[id].tx.size, p.txs[id].cycles);
      if size >= U64_LIMIT {
        return None;
      }
      oldFee, oldSize := fee, size;
      left := left - {id};
      done := done + {id};
    }
    assert done == evicted;
    totals := Some((oldFee, oldSize));
  }

  method ValidateReplacement(p: Pool, a: Admitted, evicted: set<TxId>) returns (ok: bool)
    requires evicted <= p.txs.Keys
    ensures ok <==> PaysMore(p, a, evicted)
  {
    var totals := PackageTotals(p, evicted);
    if totals.None? {
      return false;
    }
    var (oldFee, oldSize) := totals.value;
    var newSize := EffectiveSize(a.tx.size, a.cycles);
    ok := a.fee > oldFee && Denser(a.fee, newSize, oldFee, oldSize);
  }

  /** The first entry in insertion order with the given id that is not being evicted. */
  method FindParent(p: Pool, evicted: set<TxId>, txHash: TxId) returns (parent: Option<TxId>)
    requires Keyed(p.txs) && Enumerates(p.order, p.txs)
    ensures parent == if txHash in p.txs && txHash !in evicted then Some(txHash) else None
  {
    for i := 0 to |p.order|
      invariant forall k :: 0 <= k < i ==> p.order[k] in evicted || p.order[k] != txHash
    {
      var id := p.order[i];
      assert id in p.order;
      if id !in evicted && p.txs[id].txid == txHash {
        return Some(id);
      }
    }
    parent := None;
    assert txHash in p.txs ==> txHash in p.order;
  }

  method CollectParents(p: Pool, evicted: set<TxId>, tx: Tx) returns (parents: set<TxId>)
    requires Keyed(p.txs) && Enumerates(p.order, p.txs)
    ensures parents == Parents(p, evicted, tx)
  {
    parents := {};
    for i := 0 to |tx.inputs|
      invariant parents == Parents(p, evicted, tx.(inputs := tx.inputs[..i]))
    {
      var found := FindParent(p, evicted, tx.inputs[i].txHash);
      if found.Some? {
        parents := parents + {found.value};
      }
      assert tx.inputs[..i + 1] == tx.inputs[..i] + [tx.inputs[i]];
    }
    assert tx.inputs[..|tx.inputs|] == tx.inputs;
  }

  method CollectConflicts(p: Pool, tx: Tx) returns (conflicts: set<TxId>)
    ensures conflicts == Conflicts(p, tx)
  {
    conflicts := {};
    for i := 0 to |tx.inputs|
      invariant conflicts == Conflicts(p, tx.(inputs := tx.inputs[..i]))
    {
      var o := tx.inputs[i];
      if o in p.spent {
        conflicts := conflicts + {p.spent[o]};
      }
      assert tx.inputs[..i + 1] == tx.inputs[..i] + [o];
    }
    assert tx.inputs[..|tx.inputs|] == tx.inputs;
  }

  /** Record the spends, link below the parents and insert; the size total is added with a check. */
  method Insert(q: Pool, a: Admitted, parents: set<TxId>, replacing: bool) returns (next: Option<Pool>)
    ensures next == if q.stats.totalSize + a.tx.size < U64_LIMIT then Some(Admit(q, a, parents, replacing)) else None
  {
    var spent := q.spent;
    for i := 0 to |a.tx.inputs|
      invariant spent == q.spent + map o | o in a.tx.inputs[..i] :: a.txid
    {
      spent := spent[a.tx.inputs[i] := a.txid];
      assert a.tx.inputs[..i + 1] == a.tx.inputs[..i] + [a.tx.inputs[i]];
    }
    assert a.tx.inputs[..|a.tx.inputs|] == a.tx.inputs;
    var linked := LinkBelow(q.txs, parents, a.txid);
    if q.stats.totalSize + a.tx.size >= U64_LIMIT {
      return None;
    }
    next := Some(Pool(q.order + [a.txid], linked[a.txid := NewEntry(a, parents)], spent, AdmitStats(q.stats, a, replacing)));
  }

  method LinkBelow(txs: map<TxId, Entry>, parents: set<TxId>, id: TxId) returns (next: map<TxId, Entry>)
    ensures next == LinkParents(txs, parents, id)
  {
    next := txs;
    var left := parents;
    while left != {}
      invariant left <= parents && next == LinkParents(txs, parents - left, id)
      decreases left
    {
      var parent := MinOf(left);
      left := left - {parent};
      if parent in next {
        next := next[parent := next[parent].(dependents := next[parent].dependents + {id})];
      }
    }
    assert parents - {} == parents;
  }

  method FindEvicted(p: Pool, tx: Tx) returns (evicted: set<TxId>)
    requires SpendsIndexed(p.spent, p.txs) && Linked(p.txs)
    ensures evicted == Evicted(p, tx) && evicted <= p.txs.Keys
  {
    EvictedFacts(p, tx);
    var conflicts := CollectConflicts(p, tx);
    evicted := DescendantsIncluding(p.txs, conflicts);
  }

  method CheckPackage(p: Pool, maxSize: nat, base: Hash32, a: Admitted, evicted: set<TxId>)
    returns (error: Option<PoolError>, parents: set<TxId>)
    requires evicted <= p.txs.Keys && Keyed(p.txs) && Enumerates(p.order, p.txs)
    ensures error == PackageError(p, maxSize, base, a, evicted)
    ensures error.None? ==> parents == Parents(p, evicted, a.tx)
  {
    parents := {};
    if |p.txs| - |evicted| >= maxSize {
      return Some(PoolFull), parents;
    }
    if evicted != {} {
      var ok := ValidateReplacement(p, a, evicted);
      if !ok {
        return Some(ReplacementFailed), parents;
      }
    }
    parents := CollectParents(p, evicted, a.tx);
    error := CheckRoot(p, parents, a, base);
  }

  /** All the checks of an admission, in order. */
  method CheckAdmission(p: Pool, maxSize: nat, base: Hash32, a: Admitted)
    returns (error: Option<PoolError>, evicted: set<TxId>, parents: set<TxId>)
    requires Keyed(p.txs) && Enumerates(p.order, p.txs) && SpendsIndexed(p.spent, p.txs) && Linked(p.txs)
    ensures error == AddError(p, maxSize, base, a)
    ensures error.None? ==> evicted == Evicted(p, a.tx) && parents == Parents(p, evicted, a.tx)
  {
    evicted, parents := {}, {};
    var distinct := DistinctInputs(a.tx.inputs);
    if a.tx.id != a.txid || !distinct {
      return Some(InvalidTx), evicted, parents;
    }
    if a.txid in p.txs {
      return Some(TxExists), evicted, parents;
    }
    evicted := FindEvicted(p, a.tx);
    error, parents := CheckPackage(p, maxSize, base, a, evicted);
  }

  method CheckRoot(p: Pool, parents: set<TxId>, a: Admitted, base: Hash32) returns (error: Option<PoolError>)
    requires parents <= p.txs.Keys
    ensures error == RootError(p, parents, a, base)
  {
    if parents == {} {
      error := if a.root != base then Some(InvalidTx) else None;
    } else if |parents| == 1 {
      var parent := MinOf(parents);
      assert forall d :: d in parents ==> d == parent by {
        forall d | d in parents ensures d == parent { CellPoolRuns.OnlyOne(parents, d, parent); }
      }
      error := if a.root != p.txs[parent].resultingRoot then Some(InvalidTx) else None;
    } else {
      error := Some(InvalidTx);
    }
  }

  class CellPool {
    var inner: Pool
    const maxSize: nat
    const baseStateRoot: Hash32

    ghost predicate Valid()
      reads this
    {
      Inv(inner, maxSize, baseStateRoot)
    }

    constructor (maxSize: nat, baseStateRoot: Hash32)
      ensures Valid() && inner == EMPTY
      ensures this.maxSize == maxSize && this.baseStateRoot == baseStateRoot
    {
      this.maxSize, this.baseStateRoot := maxSize, baseStateRoot;
      inner := EMPTY;
      new;
      EmptyInv(maxSize, baseStateRoot);
    }

    /** The new pool and the answer for every admission; a panic leaves the pool as it was. */
    method Add(a: Admitted) returns (r: Response<TxId>)
      requires Valid()
      modifies this
      ensures Valid()
      ensures inner == AddResult(old(inner), maxSize, baseStateRoot, a)
      ensures r == AddResponse(old(inner), maxSize, baseStateRoot, a)
      ensures if r.Done? then Exchanged(old(inner), inner, Evicted(old(inner), a.tx), a) else inner == old(inner)
    {
      AddKeepsInv(inner, maxSize, baseStateRoot, a);
      if AddResponse(inner, maxSize, baseStateRoot, a).Done? { AdmissionRecords(inner, maxSize, baseStateRoot, a); }
      var error, evicted, parents := CheckAdmission(inner, maxSize, baseStateRoot, a);
      if error.Some? {
        return Refused(error.value);
      }
      var next := Exchange(inner, evicted, a, parents);
      if next.None? {
        return Panicked;
      }
      inner := next.value;
      r := Done(a.txid);
    }

    method RemovePackage(txid: TxId) returns (r: Response<seq<Tx>>)
      requires Valid()
      modifies this
      ensures Valid()
      ensures inner == CellPoolRuns.RemoveResult(old(inner), txid)
      ensures r == if txid !in old(inner.txs) then Refused(TxNotFound)
                   else if CellPoolRuns.RemovePanics(old(inner), txid) then Panicked
                   else Done(TxsOf(Ordered(Package(old(inner.txs), txid)), old(inner.txs)))
    {
      CellPoolRuns.RemoveKeepsInv(inner, maxSize, baseStateRoot, txid);
      if txid !in inner.txs {
        return Refused(TxNotFound);
      }
      var next, removed := TakePackage(inner, txid);
      if next.None? {
        return Panicked;
      }
      inner := next.value;
      r := Done(removed);
    }
  }

  /** Evict and insert on a copy of the pool. */
  method Exchange(p: Pool, evicted: set<TxId>, a: Admitted, parents: set<TxId>) returns (next: Option<Pool>)
    requires Counted(p.stats, p.txs) && SpendsIndexed(p.spent, p.txs) && Linked(p.txs)
    requires evicted == Evicted(p, a.tx) && parents == Parents(p, evicted, a.tx)
    ensures next == if AddPanics(p, a) then None else Some(Admit(Without(p, evicted), a, parents, evicted != {}))
  {
    EvictedFacts(p, a.tx);
    var copy, removed := RemoveAll(p, evicted);
    if copy.None? {
      return None;
    }
    next := Insert(copy.value, a, parents, evicted != {});
  }

  /** A pooled transaction and everything that descends from it. */
  ghost function Package(txs: map<TxId, Entry>, txid: TxId): (ids: set<TxId>)
    ensures ids <= txs.Keys
  {
    Descendants(txs, {txid}) * txs.Keys
  }

  method TakePackage(p: Pool, txid: TxId) returns (next: Option<Pool>, removed: seq<Tx>)
    requires Counted(p.stats, p.txs) && SpendsIndexed(p.spent, p.txs) && Linked(p.txs) && txid in p.txs
    ensures next == if CellPoolRuns.RemovePanics(p, txid) then None else Some(CellPoolRuns.RemoveResult(p, txid))
    ensures next.Some? ==> removed == TxsOf(Ordered(Package(p.txs, txid)), p.txs)
  {
    DescendantsFacts(p.txs, {txid});
    var package := DescendantsIncluding(p.txs, {txid});
    assert package == Descendants(p.txs, {txid}) == Package(p.txs, txid);
    next, removed := RemoveAll(p, package);
  }
}
