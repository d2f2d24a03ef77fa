/** The transaction pool: its records, what each operation does to them, and what every
    sequence of operations keeps. */
module CellPool {
  import opened Prelude

  type TxId = Hash32
  type U64 = x: nat | x < 0x1_0000_0000_0000_0000

  datatype OutPoint = OutPoint(txHash: TxId, index: nat)

  /** A transaction: the id its content hashes to, what it spends, its serialized size. */
  datatype Tx = Tx(id: TxId, inputs: seq<OutPoint>, size: U64)

  /** The proof that a transaction was verified in context. */
  datatype Admitted = Admitted(tx: Tx, txid: TxId, fee: U64, cycles: U64, root: Hash32, rootAfter: Hash32)

  /** The two link lists are kept sorted and without repetition, so they are sets here. */
  datatype Entry = Entry(
    tx: Tx, txid: TxId, fee: U64, cycles: U64, admittedRoot: Hash32, resultingRoot: Hash32,
    dependencies: set<TxId>, dependents: set<TxId>)

  datatype Stats = Stats(totalTxs: nat, totalSize: nat, totalFee: nat, txsAdded: nat, txsRemoved: nat, rbfCount: nat)

  /** `order` is the insertion order of the keys of `txs`. */
  datatype Pool = Pool(order: seq<TxId>, txs: map<TxId, Entry>, spent: map<OutPoint, TxId>, stats: Stats)

  datatype PoolError = InvalidTx | TxExists | PoolFull | ReplacementFailed | TxNotFound

  const EMPTY: Pool := Pool([], map[], map[], Stats(0, 0, 0, 0, 0, 0))

  // ------------------------------------------------------------------------ totals

  /** Sum of amounts over a set of ids. */
  ghost function Total(ids: set<TxId>, amount: map<TxId, nat>): nat
    requires ids <= amount.Keys
  {
    if ids == {} then 0 else
      var x :| x in ids;
      amount[x] + Total(ids - {x}, amount)
  }

  /** Any element may be taken out first. */
  lemma {:induction false} TotalRemove(ids: set<TxId>, x: TxId, amount: map<TxId, nat>)
    requires x in ids && ids <= amount.Keys
    ensures Total(ids, amount) == amount[x] + Total(ids - {x}, amount)
    decreases ids
  {
    var y :| y in ids && Total(ids, amount) == amount[y] + Total(ids - {y}, amount);
    if x != y {
      TotalRemove(ids - {y}, x, amount);
      TotalRemove(ids - {x}, y, amount);
      assert ids - {y} - {x} == ids - {x} - {y};
    }
  }

  lemma {:induction false} TotalAgree(ids: set<TxId>, m: map<TxId, nat>, m': map<TxId, nat>)
    requires ids <= m.Keys && ids <= m'.Keys && forall x :: x in ids ==> m[x] == m'[x]
    ensures Total(ids, m) == Total(ids, m')
    decreases ids
  {
    if ids != {} {
      var x :| x in ids;
      TotalRemove(ids, x, m);
      TotalRemove(ids, x, m');
      TotalAgree(ids - {x}, m, m');
    }
  }

  lemma {:induction false} TotalSplit(ids: set<TxId>, part: set<TxId>, amount: map<TxId, nat>)
    requires part <= ids <= amount.Keys
    ensures Total(ids, amount) == Total(part, amount) + Total(ids - part, amount)
    decreases part
  {
    if part == {} {
      assert ids - part == ids;
    } else {
      var x :| x in part;
      TotalRemove(ids, x, amount);
      TotalRemove(part, x, amount);
      TotalSplit(ids - {x}, part - {x}, amount);
      assert ids - {x} - (part - {x}) == ids - part;
    }
  }

  lemma {:induction false} TotalAdd(ids: set<TxId>, x: TxId, m: map<TxId, nat>, m': map<TxId, nat>)
    requires x !in ids && ids <= m.Keys && x in m' && ids <= m'.Keys
    requires forall y :: y in ids ==> m[y] == m'[y]
    ensures Total(ids + {x}, m') == Total(ids, m) + m'[x]
  {
    TotalRemove(ids + {x}, x, m');
    assert ids + {x} - {x} == ids;
    TotalAgree(ids, m, m');
  }

  function Fees(txs: map<TxId, Entry>): map<TxId, nat> {
    map id | id in txs :: txs[id].fee
  }

  function Sizes(txs: map<TxId, Entry>): map<TxId, nat> {
    map id | id in txs :: txs[id].tx.size
  }

  const CYCLES_PER_BYTE: nat := 100

  /** The larger of the byte weight, saturated, and the cycles. */
  function EffectiveSize(size: U64, cycles: U64): U64 {
    var weight: U64 := if size * CYCLES_PER_BYTE < 0x1_0000_0000_0000_0000 then size * CYCLES_PER_BYTE else 0xFFFF_FFFF_FFFF_FFFF;
    if weight >= cycles then weight else cycles
  }

  function EffectiveSizes(txs: map<TxId, Entry>): map<TxId, nat> {
    map id | id in txs :: EffectiveSize(txs[id].tx.size, txs[id].cycles)
  }

  // ------------------------------------------------------------------- descendants

  ghost predicate LinkAt(txs: map<TxId, Entry>, path: seq<TxId>, i: nat)
    requires i < |path| - 1
  {
    IsChild(txs, path[i], path[i + 1])
  }

  /** A chain of recorded child links. */
  ghost predicate Path(txs: map<TxId, Entry>, path: seq<TxId>) {
    path != [] && forall i: nat :: i < |path| - 1 ==> LinkAt(txs, path, i)
  }

  ghost predicate PathTo(txs: map<TxId, Entry>, roots: set<TxId>, path: seq<TxId>, id: TxId) {
    Path(txs, path) && path[0] in roots && path[|path| - 1] == id
  }

  /** id is a root or is reached from one through child links. */
  ghost predicate Descends(txs: map<TxId, Entry>, roots: set<TxId>, id: TxId) {
    exists path :: PathTo(txs, roots, path, id)
  }

  ghost predicate Closed(txs: map<TxId, Entry>, ids: set<TxId>) {
    forall id, child :: id in ids && IsChild(txs, id, child) ==> child in ids
  }

  lemma {:induction false} RootDescends(txs: map<TxId, Entry>, roots: set<TxId>, id: TxId)
    requires id in roots
    ensures Descends(txs, roots, id)
  {
    assert PathTo(txs, roots, [id], id);
  }

  lemma {:induction false} ChildDescends(txs: map<TxId, Entry>, roots: set<TxId>, id: TxId, child: TxId)
    requires Descends(txs, roots, id) && IsChild(txs, id, child)
    ensures Descends(txs, roots, child)
  {
    var path :| PathTo(txs, roots, path, id);
    var longer := path + [child];
    forall i: nat | i < |longer| - 1
      ensures LinkAt(txs, longer, i)
    {
      if i < |path| - 1 { assert LinkAt(txs, path, i); }
    }
    assert PathTo(txs, roots, longer, child);
  }

  /** A closed set holding the roots holds everything that descends from them. */
  lemma {:induction false} ClosedHoldsPath(txs: map<TxId, Entry>, ids: set<TxId>, path: seq<TxId>)
    requires Closed(txs, ids) && Path(txs, path) && path[0] in ids
    ensures path[|path| - 1] in ids
    decreases |path|
  {
    if |path| > 1 {
      var shorter := path[..|path| - 1];
      forall i: nat | i < |shorter| - 1
        ensures LinkAt(txs, shorter, i)
      {
        assert LinkAt(txs, path, i);
      }
      ClosedHoldsPath(txs, ids, shorter);
      assert LinkAt(txs, path, |path| - 2);
    }
  }

  lemma {:induction false} ClosedHoldsDescendants(txs: map<TxId, Entry>, roots: set<TxId>, ids: set<TxId>, id: TxId)
    requires Closed(txs, ids) && roots <= ids && Descends(txs, roots, id)
    ensures id in ids
  {
    var path :| PathTo(txs, roots, path, id);
    ClosedHoldsPath(txs, ids, path);
  }

  /** S is exactly the descendants of the roots, roots included. */
  ghost predicate IsDescendants(txs: map<TxId, Entry>, roots: set<TxId>, S: set<TxId>) {
    forall id :: id in S <==> Descends(txs, roots, id)
  }

  ghost function Descendants(txs: map<TxId, Entry>, roots: set<TxId>): set<TxId> {
    set id | id in txs.Keys + roots && Descends(txs, roots, id)
  }

  /** Where links stay inside the pool, the descendants of pooled roots are pooled and closed. */
  lemma {:induction false} DescendantsFacts(txs: map<TxId, Entry>, roots: set<TxId>)
    requires roots <= txs.Keys && Linked(txs)
    ensures IsDescendants(txs, roots, Descendants(txs, roots))
    ensures Descendants(txs, roots) <= txs.Keys && roots <= Descendants(txs, roots) && Closed(txs, Descendants(txs, roots))
  {
    var S := Descendants(txs, roots);
    assert Closed(txs, txs.Keys) by {
      forall id, child | IsChild(txs, id, child)
        ensures child in txs
      {
        assert IsParent(txs, id, child);
      }
    }
    forall id | Descends(txs, roots, id)
      ensures id in txs
    {
      ClosedHoldsDescendants(txs, roots, txs.Keys, id);
    }
    forall id | id in roots
      ensures id in S
    {
      RootDescends(txs, roots, id);
    }
    forall id, child | id in S && IsChild(txs, id, child)
      ensures child in S
    {
      ChildDescends(txs, roots, id, child);
    }
  }

  // ------------------------------------------------------------------- the invariant

  ghost predicate Distinct<T>(s: seq<T>) {
    forall i, j :: 0 <= i < j < |s| ==> s[i] != s[j]
  }

  /** The order lists every id once. */
  ghost predicate Enumerates(order: seq<TxId>, txs: map<TxId, Entry>) {
    Distinct(order) && forall id :: id in order <==> id in txs
  }

  ghost predicate AfterParents(order: seq<TxId>, txs: map<TxId, Entry>, i: nat)
    requires i < |order|
  {
    order[i] in txs && forall d :: d in txs[order[i]].dependencies ==> d in order[..i]
  }

  /** Parents were inserted before their children. */
  ghost predicate Topological(order: seq<TxId>, txs: map<TxId, Entry>) {
    forall i :: 0 <= i < |order| ==> AfterParents(order, txs, i)
  }

  ghost predicate Keyed(txs: map<TxId, Entry>) {
    forall id :: id in txs ==> txs[id].txid == id && txs[id].tx.id == id
  }

  ghost predicate Spends(txs: map<TxId, Entry>, id: TxId, o: OutPoint) {
    id in txs && o in txs[id].tx.inputs
  }

  /** The spend index maps every pooled input to its one spender, and nothing else. */
  ghost predicate SpendsIndexed(spent: map<OutPoint, TxId>, txs: map<TxId, Entry>) {
    && (forall id, o :: Spends(txs, id, o) ==> o in spent && spent[o] == id)
    && (forall o :: o in spent ==> Spends(txs, spent[o], o))
  }

  ghost predicate IsParent(txs: map<TxId, Entry>, parent: TxId, id: TxId) {
    id in txs && parent in txs[id].dependencies
  }

  ghost predicate IsChild(txs: map<TxId, Entry>, parent: TxId, id: TxId) {
    parent in txs && id in txs[parent].dependents
  }

  /** Parent and child links are inverse relations over pooled ids. */
  ghost predicate Linked(txs: map<TxId, Entry>) {
    forall parent, id :: IsParent(txs, parent, id) <==> IsChild(txs, parent, id)
  }

  /** Entry id spends from its recorded parent, of which it has at most one, and was admitted
      against the base root or that parent's resulting root. */
  ghost predicate RootedAt(txs: map<TxId, Entry>, id: TxId, base: Hash32)
    requires id in txs
  {
    var e := txs[id];
    && |e.dependencies| <= 1
    && (e.dependencies == {} ==> e.admittedRoot == base)
    && (forall d :: d in e.dependencies ==> d in txs && e.admittedRoot == txs[d].resultingRoot)
    && (forall d :: d in e.dependencies ==> SpendsFrom(e.tx, d))
  }

  ghost predicate SpendsFrom(tx: Tx, parent: TxId) {
    exists o :: o in tx.inputs && o.txHash == parent
  }

  ghost predicate Rooted(txs: map<TxId, Entry>, base: Hash32) {
    forall id {:trigger RootedAt(txs, id, base)} :: id in txs ==> RootedAt(txs, id, base)
  }

  ghost predicate Counted(stats: Stats, txs: map<TxId, Entry>) {
    stats.totalTxs == |txs| && stats.totalSize == Total(txs.Keys, Sizes(txs)) < U64_LIMIT
  }

  ghost predicate Shape(p: Pool, maxSize: nat, base: Hash32) {
    && Keyed(p.txs) && Enumerates(p.order, p.txs) && Topological(p.order, p.txs)
    && SpendsIndexed(p.spent, p.txs) && Linked(p.txs) && Rooted(p.txs, base)
    && Counted(p.stats, p.txs) && |p.txs| <= maxSize
  }

  ghost function FeeSum(txs: map<TxId, Entry>): nat {
    Total(txs.Keys, Fees(txs))
  }

  /** The running fee total is the sum of the pooled fees. */
  ghost predicate FeeExact(p: Pool) {
    p.stats.totalFee == FeeSum(p.txs)
  }

  /** It saturates, so in general it is only not above the sum. */
  ghost predicate FeeBelow(p: Pool) {
    p.stats.totalFee <= FeeSum(p.txs) && p.stats.totalFee < U64_LIMIT
  }

  ghost predicate Inv(p: Pool, maxSize: nat, base: Hash32) {
    Shape(p, maxSize, base) && FeeBelow(p)
  }

  lemma {:induction false} EmptyInv(maxSize: nat, base: Hash32)
    ensures Inv(EMPTY, maxSize, base) && FeeExact(EMPTY)
  {
  }

  // --------------------------------------------------------------------- removal

  /** `order` without the ids in R. */
  function Keep(order: seq<TxId>, R: set<TxId>): seq<TxId> {
    if order == [] then [] else
      var n := |order| - 1;
      Keep(order[..n], R) + if order[n] in R then [] else [order[n]]
  }

  /** The other entries, the removed one struck from its parents' child lists. */
  function StrikeTx(txs: map<TxId, Entry>, id: TxId, parents: set<TxId>): map<TxId, Entry> {
    map q | q in txs && q != id ::
      if q in parents then txs[q].(dependents := txs[q].dependents - {id}) else txs[q]
  }

  /** The spend index without the outputs that id spends. */
  function StrikeSpends(spent: map<OutPoint, TxId>, inputs: seq<OutPoint>, id: TxId): map<OutPoint, TxId> {
    map o | o in spent && !(o in inputs && spent[o] == id) :: spent[o]
  }

  /** The totals less one entry; nothing when a subtraction would go below zero, which panics. */
  function StrikeStats(stats: Stats, size: U64, fee: U64): Option<Stats> {
    if stats.totalTxs < 1 || stats.totalSize < size || stats.totalFee < fee then None
    else Some(stats.(
      totalTxs := stats.totalTxs - 1,
      totalSize := stats.totalSize - size,
      totalFee := stats.totalFee - fee,
      txsRemoved := stats.txsRemoved + 1))
  }

  /** Removal of one entry; nothing when it panics. */
  function RemoveOne(p: Pool, id: TxId): Option<Pool> {
    if id !in p.txs then Some(p) else
      var e := p.txs[id];
      var stats := StrikeStats(p.stats, e.tx.size, e.fee);
      if stats.None? then None
      else Some(Pool(Keep(p.order, {id}), StrikeTx(p.txs, id, e.dependencies),
                     StrikeSpends(p.spent, e.tx.inputs, id), stats.value))
  }

  ghost function TxsWithout(txs: map<TxId, Entry>, R: set<TxId>): map<TxId, Entry> {
    map q | q in txs && q !in R :: txs[q].(dependents := txs[q].dependents - R)
  }

  ghost function SpentWithout(spent: map<OutPoint, TxId>, R: set<TxId>): map<OutPoint, TxId> {
    map o | o in spent && spent[o] !in R :: spent[o]
  }

  ghost function PackageFee(txs: map<TxId, Entry>, R: set<TxId>): nat {
    Total(R * txs.Keys, Fees(txs))
  }

  /** The running fee total covers the fees of R, so they can be subtracted from it. */
  ghost predicate Affords(p: Pool, R: set<TxId>) {
    PackageFee(p.txs, R) <= p.stats.totalFee
  }

  ghost function StatsWithout(stats: Stats, txs: map<TxId, Entry>, R: set<TxId>): Stats {
    var left, fee := txs.Keys - R, PackageFee(txs, R);
    stats.(totalTxs := |left|, totalSize := Total(left, Sizes(txs)),
           totalFee := if fee <= stats.totalFee then stats.totalFee - fee else 0,
           txsRemoved := stats.txsRemoved + |R|)
  }

  /** The pool without the entries of R and without any mention of them as a child or spender;
      reached only when the pool affords R. */
  ghost function Without(p: Pool, R: set<TxId>): Pool {
    Pool(Keep(p.order, R), TxsWithout(p.txs, R), SpentWithout(p.spent, R), StatsWithout(p.stats, p.txs, R))
  }

  lemma {:induction false} KeepMembers(order: seq<TxId>, R: set<TxId>)
    ensures forall id :: id in Keep(order, R) <==> id in order && id !in R
  {
    if order != [] {
      var n := |order| - 1;
      KeepMembers(order[..n], R);
      assert order == order[..n] + [order[n]];
    }
  }

  lemma {:induction false} KeepNothing(order: seq<TxId>)
    ensures Keep(order, {}) == order
  {
    if order != [] {
      KeepNothing(order[..|order| - 1]);
    }
  }

  lemma {:induction false} KeepTwice(order: seq<TxId>, R: set<TxId>, id: TxId)
    ensures Keep(Keep(order, R), {id}) == Keep(order, R + {id})
  {
    if order != [] {
      var n := |order| - 1;
      var rest := Keep(order[..n], R);
      KeepTwice(order[..n], R, id);
      if order[n] !in R {
        assert (rest + [order[n]])[..|rest|] == rest;
      } else {
        assert rest + [] == rest;
      }
    }
  }

  lemma {:induction false} FeeStep(txs: map<TxId, Entry>, R: set<TxId>, id: TxId)
    requires id in txs && id !in R
    ensures PackageFee(txs, R + {id}) == PackageFee(txs, R) + txs[id].fee
  {
    assert (R + {id}) * txs.Keys - {id} == R * txs.Keys;
    TotalRemove((R + {id}) * txs.Keys, id, Fees(txs));
  }

  lemma {:induction false} SizeStep(txs: map<TxId, Entry>, R: set<TxId>, id: TxId)
    requires id in txs && id !in R
    ensures |txs.Keys - (R + {id})| == |txs.Keys - R| - 1 && |R + {id}| == |R| + 1
    ensures Total(txs.Keys - (R + {id}), Sizes(txs)) == Total(txs.Keys - R, Sizes(txs)) - txs[id].tx.size
  {
    var left := txs.Keys - R;
    assert txs.Keys - (R + {id}) == left - {id};
    TotalRemove(left, id, Sizes(txs));
  }

  lemma {:induction false} StatsStep(stats: Stats, txs: map<TxId, Entry>, R: set<TxId>, id: TxId)
    requires id in txs && id !in R && PackageFee(txs, R) <= stats.totalFee
    ensures StrikeStats(StatsWithout(stats, txs, R), txs[id].tx.size, txs[id].fee)
         == if PackageFee(txs, R + {id}) <= stats.totalFee then Some(StatsWithout(stats, txs, R + {id})) else None
  {
    SizeStep(txs, R, id);
    FeeStep(txs, R, id);
  }

  lemma {:induction false} TxsStep(txs: map<TxId, Entry>, R: set<TxId>, id: TxId)
    requires Linked(txs) && id in txs && id !in R
    ensures StrikeTx(TxsWithout(txs, R), id, txs[id].dependencies) == TxsWithout(txs, R + {id})
  {
    var a, b := StrikeTx(TxsWithout(txs, R), id, txs[id].dependencies), TxsWithout(txs, R + {id});
    forall q | q in b
      ensures q in a && a[q] == b[q]
    {
      var children := txs[q].dependents;
      assert children - R - {id} == children - (R + {id});
      if q !in txs[id].dependencies {
        assert !IsParent(txs, q, id);
        assert !IsChild(txs, q, id);
        assert children - R == children - (R + {id});
      }
    }
    assert a.Keys == b.Keys;
  }

  lemma {:induction false} SpentStep(spent: map<OutPoint, TxId>, txs: map<TxId, Entry>, R: set<TxId>, id: TxId)
    requires SpendsIndexed(spent, txs) && id in txs
    ensures StrikeSpends(SpentWithout(spent, R), txs[id].tx.inputs, id) == SpentWithout(spent, R + {id})
  {
  }

  /** Removing one more entry extends the removed set by it, or panics exactly when the running
      total does not cover the extended set. */
  lemma {:induction false} RemoveStep(p: Pool, R: set<TxId>, id: TxId)
    requires SpendsIndexed(p.spent, p.txs) && Linked(p.txs) && id in p.txs && id !in R && Affords(p, R)
    ensures RemoveOne(Without(p, R), id) == if Affords(p, R + {id}) then Some(Without(p, R + {id})) else None
  {
    StatsStep(p.stats, p.txs, R, id);
    KeepTwice(p.order, R, id);
    TxsStep(p.txs, R, id);
    SpentStep(p.spent, p.txs, R, id);
  }

  lemma {:induction false} WithoutNothing(p: Pool)
    requires Counted(p.stats, p.txs)
    ensures Affords(p, {}) && Without(p, {}) == p
  {
    KeepNothing(p.order);
    assert {} * p.txs.Keys == {};
    assert p.txs.Keys - {} == p.txs.Keys;
    var q := Without(p, {});
    assert q.txs.Keys == p.txs.Keys;
    forall id | id in p.txs
      ensures q.txs[id] == p.txs[id]
    {
      assert p.txs[id].dependents - {} == p.txs[id].dependents;
    }
    assert q.spent == p.spent;
  }

  lemma {:induction false} KeepDistinct(order: seq<TxId>, R: set<TxId>)
    requires Distinct(order)
    ensures Distinct(Keep(order, R))
  {
    if order != [] {
      var n := |order| - 1;
      KeepDistinct(order[..n], R);
      KeepMembers(order[..n], R);
      assert order[n] !in order[..n];
    }
  }

  /** A kept entry still comes after its parents, which are kept with it. */
  lemma {:induction false} KeepTopological(order: seq<TxId>, txs: map<TxId, Entry>, R: set<TxId>)
    requires Topological(order, txs) && Linked(txs) && Closed(txs, R)
    ensures Topological(Keep(order, R), TxsWithout(txs, R))
  {
    if order != [] {
      var n := |order| - 1;
      var front, id := order[..n], order[n];
      forall i | 0 <= i < n
        ensures AfterParents(front, txs, i)
      {
        assert AfterParents(order, txs, i) && front[..i] == order[..i];
      }
      assert order == front + [id] && AfterParents(order, txs, n);
      KeepTopological(front, txs, R);
      if id !in R {
        KeepLast(front, id, txs, R);
        AppendTopological(Keep(front, R), id, TxsWithout(txs, R));
      } else {
        assert Keep(order, R) == Keep(front, R);
      }
    }
  }

  lemma {:induction false} KeepLast(front: seq<TxId>, id: TxId, txs: map<TxId, Entry>, R: set<TxId>)
    requires AfterParents(front + [id], txs, |front|) && Linked(txs) && Closed(txs, R) && id !in R
    ensures id in TxsWithout(txs, R) && forall d :: d in TxsWithout(txs, R)[id].dependencies ==> d in Keep(front, R)
  {
    assert (front + [id])[..|front|] == front;
    KeepMembers(front, R);
    forall d | d in txs[id].dependencies
      ensures d in Keep(front, R)
    {
      assert IsParent(txs, d, id);
      assert IsChild(txs, d, id);
    }
  }

  lemma {:induction false} AppendTopological(order: seq<TxId>, id: TxId, txs: map<TxId, Entry>)
    requires Topological(order, txs) && id in txs && forall d :: d in txs[id].dependencies ==> d in order
    ensures Topological(order + [id], txs)
  {
    var longer := order + [id];
    forall i | 0 <= i < |longer|
      ensures AfterParents(longer, txs, i)
    {
      if i < |order| {
        assert AfterParents(order, txs, i);
        assert longer[..i] == order[..i];
      } else {
        assert longer[..i] == order;
      }
    }
  }

  /** Taking out a set closed under children leaves a pool with no dangling link. */
  lemma {:induction false} WithoutShape(p: Pool, R: set<TxId>, maxSize: nat, base: Hash32)
    requires Shape(p, maxSize, base) && Closed(p.txs, R)
    ensures Shape(Without(p, R), maxSize, base)
  {
    KeepDistinct(p.order, R);
    KeepMembers(p.order, R);
    KeepTopological(p.order, p.txs, R);
    WithoutSpends(p.spent, p.txs, R);
    WithoutLinked(p.txs, R);
    WithoutRooted(p.txs, R, base);
    WithoutCounted(p, R);
  }

  /** Removal of any closed set keeps the pool's invariant, and a removal that goes through
      leaves the fee total as far behind as it was. */
  lemma {:induction false} WithoutInv(p: Pool, R: set<TxId>, maxSize: nat, base: Hash32)
    requires Inv(p, maxSize, base) && Closed(p.txs, R)
    ensures Inv(Without(p, R), maxSize, base)
    ensures Affords(p, R) ==> Deficit(Without(p, R)) == Deficit(p)
  {
    WithoutShape(p, R, maxSize, base);
    WithoutFees(p, R);
  }

  lemma {:induction false} WithoutSpends(spent: map<OutPoint, TxId>, txs: map<TxId, Entry>, R: set<TxId>)
    requires SpendsIndexed(spent, txs)
    ensures SpendsIndexed(SpentWithout(spent, R), TxsWithout(txs, R))
  {
    var left := TxsWithout(txs, R);
    assert forall id, o :: Spends(left, id, o) <==> Spends(txs, id, o) && id !in R;
  }

  lemma {:induction false} WithoutLinked(txs: map<TxId, Entry>, R: set<TxId>)
    requires Linked(txs) && Closed(txs, R)
    ensures Linked(TxsWithout(txs, R))
  {
    var left := TxsWithout(txs, R);
    forall parent, id
      ensures IsParent(left, parent, id) <==> IsChild(left, parent, id)
    {
      assert IsParent(txs, parent, id) <==> IsChild(txs, parent, id);
    }
  }

  lemma {:induction false} WithoutSize(txs: map<TxId, Entry>, R: set<TxId>)
    requires R <= txs.Keys
    ensures |TxsWithout(txs, R)| == |txs| - |R|
  {
    var left := TxsWithout(txs, R);
    assert left.Keys == txs.Keys - R;
    assert txs.Keys == left.Keys + R;
  }

  lemma {:induction false} WithoutCounted(p: Pool, R: set<TxId>)
    requires Counted(p.stats, p.txs)
    ensures var q := Without(p, R);
      Counted(q.stats, q.txs) && |q.txs| <= |p.txs|
  {
    var q := Without(p, R);
    assert q.txs.Keys == p.txs.Keys - R;
    TotalAgree(q.txs.Keys, Sizes(p.txs), Sizes(q.txs));
    TotalSplit(p.txs.Keys, q.txs.Keys, Sizes(p.txs));
    CardinalitySubset(q.txs.Keys, p.txs.Keys);
  }

  /** The fees that stay and the fees that go make up the sum. */
  lemma {:induction false} WithoutFees(p: Pool, R: set<TxId>)
    ensures FeeSum(p.txs) == FeeSum(Without(p, R).txs) + PackageFee(p.txs, R)
  {
    var q := Without(p, R);
    assert q.txs.Keys == p.txs.Keys - R * p.txs.Keys;
    TotalAgree(q.txs.Keys, Fees(p.txs), Fees(q.txs));
    TotalSplit(p.txs.Keys, R * p.txs.Keys, Fees(p.txs));
  }

  /** How far the running total has fallen behind the sum. */
  ghost function Deficit(p: Pool): int {
    FeeSum(p.txs) - p.stats.totalFee
  }

  lemma {:induction false} WithoutRooted(txs: map<TxId, Entry>, R: set<TxId>, base: Hash32)
    requires Rooted(txs, base) && Linked(txs) && Closed(txs, R)
    ensures Rooted(TxsWithout(txs, R), base)
  {
    var left := TxsWithout(txs, R);
    forall id | id in left
      ensures RootedAt(left, id, base)
    {
      assert RootedAt(txs, id, base);
      forall d | d in left[id].dependencies
        ensures d in left
      {
        assert IsParent(txs, d, id);
        assert IsChild(txs, d, id);
      }
    }
  }

  lemma {:induction false} CardinalitySubset(a: set<TxId>, b: set<TxId>)
    requires a <= b
    ensures |a| <= |b|
  {
    assert b == a + (b - a);
  }

  // -------------------------------------------------------------------- admission

  /** The ids that already spend one of the inputs. */
  function Conflicts(p: Pool, tx: Tx): set<TxId> {
    set o | o in tx.inputs && o in p.spent :: p.spent[o]
  }

  ghost function Evicted(p: Pool, tx: Tx): set<TxId> {
    Descendants(p.txs, Conflicts(p, tx))
  }

  /** The pooled transactions, other than the evicted, whose outputs are spent. */
  function Parents(p: Pool, evicted: set<TxId>, tx: Tx): set<TxId> {
    set o | o in tx.inputs && o.txHash in p.txs && o.txHash !in evicted :: o.txHash
  }

  /** fee per size against fee' per size', cross-multiplied. */
  predicate Denser(fee: nat, size: nat, fee': nat, size': nat) {
    fee * size' > fee' * size
  }

  /** The replacement pays strictly more, in total and per unit of effective size, than the whole package. */
  ghost predicate PaysMore(p: Pool, a: Admitted, evicted: set<TxId>)
    requires evicted <= p.txs.Keys
  {
    var oldFee, oldSize := Total(evicted, Fees(p.txs)), Total(evicted, EffectiveSizes(p.txs));
    && oldFee < U64_LIMIT && oldSize < U64_LIMIT
    && a.fee > oldFee && Denser(a.fee, EffectiveSize(a.tx.size, a.cycles), oldFee, oldSize)
  }

  function RootError(p: Pool, parents: set<TxId>, a: Admitted, base: Hash32): Option<PoolError>
    requires parents <= p.txs.Keys
  {
    if parents == {} then
      if a.root != base then Some(InvalidTx) else None
    else if |parents| == 1 then
      if exists d :: d in parents && a.root != p.txs[d].resultingRoot then Some(InvalidTx) else None
    else Some(InvalidTx)
  }

  /** Why an admission that would evict the given package is refused. */
  ghost function PackageError(p: Pool, maxSize: nat, base: Hash32, a: Admitted, evicted: set<TxId>): Option<PoolError> {
    if |p.txs| - |evicted| >= maxSize then Some(PoolFull)
    else if !(evicted <= p.txs.Keys) then Some(TxNotFound)
    else if evicted != {} && !PaysMore(p, a, evicted) then Some(ReplacementFailed)
    else RootError(p, Parents(p, evicted, a.tx), a, base)
  }

  /** Why an admission is refused, checks in the order they are made. */
  ghost function AddError(p: Pool, maxSize: nat, base: Hash32, a: Admitted): Option<PoolError> {
    if a.tx.id != a.txid || !Distinct(a.tx.inputs) then Some(InvalidTx)
    else if a.txid in p.txs then Some(TxExists)
    else PackageError(p, maxSize, base, a, Evicted(p, a.tx))
  }

  function LinkParents(txs: map<TxId, Entry>, parents: set<TxId>, id: TxId): map<TxId, Entry> {
    map q | q in txs :: if q in parents then txs[q].(dependents := txs[q].dependents + {id}) else txs[q]
  }

  function NewEntry(a: Admitted, parents: set<TxId>): Entry {
    Entry(a.tx, a.txid, a.fee, a.cycles, a.root, a.rootAfter, parents, {})
  }

  function SaturatingAdd(a: nat, b: nat): nat {
    if a + b < 0x1_0000_0000_0000_0000 then a + b else 0xFFFF_FFFF_FFFF_FFFF
  }

  function AdmitStats(stats: Stats, a: Admitted, replacing: bool): Stats {
    stats.(
      totalTxs := stats.totalTxs + 1,
      totalSize := stats.totalSize + a.tx.size,
      totalFee := SaturatingAdd(stats.totalFee, a.fee),
      txsAdded := stats.txsAdded + 1,
      rbfCount := stats.rbfCount + if replacing then 1 else 0)
  }

  /** The pool with the transaction inserted last, linked below its parents. */
  function Admit(p: Pool, a: Admitted, parents: set<TxId>, replacing: bool): Pool {
    Pool(
      p.order + [a.txid],
      AdmitTxs(p.txs, a, parents),
      p.spent + map o | o in a.tx.inputs :: a.txid,
      AdmitStats(p.stats, a, replacing))
  }

  /** What a caller sees; a panic unwinds before the edited copy is swapped in. */
  datatype Response<+T> = Done(value: T) | Refused(error: PoolError) | Panicked

  /** An admission that passes every check still panics when the running fee total does not cover
      the evicted package, or when the size total would leave 64 bits. */
  ghost predicate AddPanics(p: Pool, a: Admitted) {
    var evicted := Evicted(p, a.tx);
    !Affords(p, evicted) || Total(p.txs.Keys - evicted, Sizes(p.txs)) + a.tx.size >= U64_LIMIT
  }

  ghost function AddResponse(p: Pool, maxSize: nat, base: Hash32, a: Admitted): Response<TxId> {
    var error := AddError(p, maxSize, base, a);
    if error.Some? then Refused(error.value) else if AddPanics(p, a) then Panicked else Done(a.txid)
  }

  /** The pool after an admission attempt: changed only when it is done. */
  ghost function AddResult(p: Pool, maxSize: nat, base: Hash32, a: Admitted): Pool {
    var evicted := Evicted(p, a.tx);
    if !AddResponse(p, maxSize, base, a).Done? then p
    else Admit(Without(p, evicted), a, Parents(p, evicted, a.tx), evicted != {})
  }

  lemma {:induction false} EvictedFacts(p: Pool, tx: Tx)
    requires SpendsIndexed(p.spent, p.txs) && Linked(p.txs)
    ensures IsDescendants(p.txs, Conflicts(p, tx), Evicted(p, tx)) && Evicted(p, tx) <= p.txs.Keys
    ensures Conflicts(p, tx) <= Evicted(p, tx) && Closed(p.txs, Evicted(p, tx))
  {
    DescendantsFacts(p.txs, Conflicts(p, tx));
  }

  // ------------------------------------------------------- admission keeps the shape

  ghost predicate MayAdmit(q: Pool, a: Admitted, parents: set<TxId>, base: Hash32) {
    && a.tx.id == a.txid && a.txid !in q.txs && parents <= q.txs.Keys
    && (forall o :: o in a.tx.inputs ==> o !in q.spent)
    && RootError(q, parents, a, base) == None
    && (forall d :: d in parents ==> SpendsFrom(a.tx, d))
  }

  function AdmitTxs(txs: map<TxId, Entry>, a: Admitted, parents: set<TxId>): map<TxId, Entry> {
    LinkParents(txs, parents, a.txid)[a.txid := NewEntry(a, parents)]
  }

  lemma {:induction false} AdmitKeyed(txs: map<TxId, Entry>, a: Admitted, parents: set<TxId>)
    requires Keyed(txs) && a.tx.id == a.txid
    ensures Keyed(AdmitTxs(txs, a, parents))
  {
  }

  lemma {:induction false} AdmitOrdered(order: seq<TxId>, txs: map<TxId, Entry>, a: Admitted, parents: set<TxId>)
    requires Enumerates(order, txs) && Topological(order, txs) && a.txid !in txs && parents <= txs.Keys
    ensures Enumerates(order + [a.txid], AdmitTxs(txs, a, parents))
    ensures Topological(order + [a.txid], AdmitTxs(txs, a, parents))
  {
    var more := AdmitTxs(txs, a, parents);
    assert a.txid !in order;
    forall i | 0 <= i < |order|
      ensures AfterParents(order, more, i)
    {
      assert AfterParents(order, txs, i);
    }
    AppendTopological(order, a.txid, more);
  }

  lemma {:induction false} AdmitSpends(spent: map<OutPoint, TxId>, txs: map<TxId, Entry>, a: Admitted, parents: set<TxId>)
    requires SpendsIndexed(spent, txs) && a.txid !in txs && forall o :: o in a.tx.inputs ==> o !in spent
    ensures SpendsIndexed(spent + map o | o in a.tx.inputs :: a.txid, AdmitTxs(txs, a, parents))
  {
    var more := AdmitTxs(txs, a, parents);
    assert forall id, o :: Spends(more, id, o) <==> Spends(txs, id, o) || (id == a.txid && o in a.tx.inputs);
  }

  lemma {:induction false} AdmitLinked(txs: map<TxId, Entry>, a: Admitted, parents: set<TxId>)
    requires Linked(txs) && a.txid !in txs && parents <= txs.Keys
    ensures Linked(AdmitTxs(txs, a, parents))
  {
    var more := AdmitTxs(txs, a, parents);
    forall parent, id
      ensures IsParent(more, parent, id) <==> IsChild(more, parent, id)
    {
      assert IsParent(txs, parent, id) <==> IsChild(txs, parent, id);
    }
  }

  lemma {:induction false} AdmitRooted(q: Pool, a: Admitted, parents: set<TxId>, base: Hash32)
    requires Rooted(q.txs, base) && MayAdmit(q, a, parents, base)
    ensures Rooted(AdmitTxs(q.txs, a, parents), base)
  {
    var more := AdmitTxs(q.txs, a, parents);
    forall id | id in more
      ensures RootedAt(more, id, base)
    {
      if id != a.txid { assert RootedAt(q.txs, id, base); }
    }
  }

  lemma {:induction false} AdmitCount(txs: map<TxId, Entry>, a: Admitted, parents: set<TxId>)
    requires a.txid !in txs
    ensures AdmitTxs(txs, a, parents).Keys == txs.Keys + {a.txid} && |AdmitTxs(txs, a, parents)| == |txs| + 1
  {
    var more := AdmitTxs(txs, a, parents);
    assert more.Keys == txs.Keys + {a.txid};
  }

  lemma {:induction false} AdmitFees(txs: map<TxId, Entry>, a: Admitted, parents: set<TxId>)
    requires a.txid !in txs
    ensures FeeSum(AdmitTxs(txs, a, parents)) == FeeSum(txs) + a.fee
  {
    var more := AdmitTxs(txs, a, parents);
    AdmitCount(txs, a, parents);
    assert Fees(more).Keys == more.Keys;
    TotalAdd(txs.Keys, a.txid, Fees(txs), Fees(more));
  }

  lemma {:induction false} AdmitSizes(txs: map<TxId, Entry>, a: Admitted, parents: set<TxId>)
    requires a.txid !in txs
    ensures var more := AdmitTxs(txs, a, parents);
      Total(more.Keys, Sizes(more)) == Total(txs.Keys, Sizes(txs)) + a.tx.size
  {
    var more := AdmitTxs(txs, a, parents);
    AdmitCount(txs, a, parents);
    assert Sizes(more).Keys == more.Keys;
    TotalAdd(txs.Keys, a.txid, Sizes(txs), Sizes(more));
  }

  lemma {:induction false} AdmitCounted(stats: Stats, txs: map<TxId, Entry>, a: Admitted, parents: set<TxId>, replacing: bool)
    requires Counted(stats, txs) && a.txid !in txs && stats.totalSize + a.tx.size < U64_LIMIT
    ensures Counted(AdmitStats(stats, a, replacing), AdmitTxs(txs, a, parents))
    ensures |AdmitTxs(txs, a, parents)| == |txs| + 1
  {
    AdmitCount(txs, a, parents);
    AdmitSizes(txs, a, parents);
  }

  /** What saturation keeps out of the running total. */
  function Lost(total: nat, fee: nat): nat {
    if total + fee < 0x1_0000_0000_0000_0000 then 0 else total + fee - 0xFFFF_FFFF_FFFF_FFFF
  }

  lemma {:induction false} AdmitShape(q: Pool, a: Admitted, parents: set<TxId>, replacing: bool, maxSize: nat, base: Hash32)
    requires Shape(q, maxSize, base) && MayAdmit(q, a, parents, base) && |q.txs| < maxSize
    requires q.stats.totalSize + a.tx.size < U64_LIMIT
    ensures Shape(Admit(q, a, parents, replacing), maxSize, base)
  {
    AdmitKeyed(q.txs, a, parents);
    AdmitOrdered(q.order, q.txs, a, parents);
    AdmitSpends(q.spent, q.txs, a, parents);
    AdmitLinked(q.txs, a, parents);
    AdmitRooted(q, a, parents, base);
    AdmitCounted(q.stats, q.txs, a, parents, replacing);
  }

  lemma {:induction false} AdmitDeficit(q: Pool, a: Admitted, parents: set<TxId>, replacing: bool)
    requires FeeBelow(q) && a.txid !in q.txs
    ensures var r := Admit(q, a, parents, replacing);
      FeeBelow(r) && Deficit(r) == Deficit(q) + Lost(q.stats.totalFee, a.fee)
  {
    AdmitFees(q.txs, a, parents);
  }

  /** After the eviction nothing conflicts, and the parents are still there with their roots. */
  lemma {:induction false} EvictionClears(p: Pool, maxSize: nat, base: Hash32, a: Admitted)
    requires Shape(p, maxSize, base) && AddError(p, maxSize, base, a) == None
    ensures var evicted := Evicted(p, a.tx);
      MayAdmit(Without(p, evicted), a, Parents(p, evicted, a.tx), base)
  {
    EvictedFacts(p, a.tx);
    var evicted := Evicted(p, a.tx);
    NoConflictLeft(p, a.tx, evicted);
    SameRoots(p, evicted, a, base);
  }

  lemma {:induction false} NoConflictLeft(p: Pool, tx: Tx, evicted: set<TxId>)
    requires Conflicts(p, tx) <= evicted
    ensures forall o :: o in tx.inputs ==> o !in SpentWithout(p.spent, evicted)
  {
    forall o | o in tx.inputs && o in p.spent
      ensures p.spent[o] in evicted
    {
      assert p.spent[o] in Conflicts(p, tx);
    }
  }

  lemma {:induction false} SameRoots(p: Pool, evicted: set<TxId>, a: Admitted, base: Hash32)
    ensures var q, parents := Without(p, evicted), Parents(p, evicted, a.tx);
      && parents <= q.txs.Keys && RootError(q, parents, a, base) == RootError(p, parents, a, base)
      && (forall d :: d in parents ==> SpendsFrom(a.tx, d))
  {
    var parents := Parents(p, evicted, a.tx);
    forall d | d in parents
      ensures d in TxsWithout(p.txs, evicted) && TxsWithout(p.txs, evicted)[d].resultingRoot == p.txs[d].resultingRoot
      ensures SpendsFrom(a.tx, d)
    {
    }
  }

  lemma {:induction false} Accepted(p: Pool, maxSize: nat, base: Hash32, a: Admitted)
    requires SpendsIndexed(p.spent, p.txs) && Linked(p.txs) && AddResponse(p, maxSize, base, a).Done?
    ensures var evicted := Evicted(p, a.tx);
      && AddError(p, maxSize, base, a).None? && Affords(p, evicted)
      && Total(p.txs.Keys - evicted, Sizes(p.txs)) + a.tx.size < U64_LIMIT
      && Closed(p.txs, evicted) && |p.txs| - |evicted| < maxSize
      && a.txid !in p.txs && evicted <= p.txs.Keys && (evicted != {} ==> PaysMore(p, a, evicted))
      && AddResult(p, maxSize, base, a) == Admit(Without(p, evicted), a, Parents(p, evicted, a.tx), evicted != {})
  {
    EvictedFacts(p, a.tx);
  }

  lemma {:induction false} ExchangeKeepsShape(
      p: Pool, evicted: set<TxId>, a: Admitted, parents: set<TxId>, replacing: bool, maxSize: nat, base: Hash32)
    requires Shape(p, maxSize, base) && evicted <= p.txs.Keys && Closed(p.txs, evicted) && |p.txs| - |evicted| < maxSize
    requires Total(p.txs.Keys - evicted, Sizes(p.txs)) + a.tx.size < U64_LIMIT
    requires MayAdmit(Without(p, evicted), a, parents, base)
    ensures Shape(Admit(Without(p, evicted), a, parents, replacing), maxSize, base)
  {
    WithoutShape(p, evicted, maxSize, base);
    WithoutSize(p.txs, evicted);
    AdmitShape(Without(p, evicted), a, parents, replacing, maxSize, base);
  }

  lemma {:induction false} ExchangeDeficit(p: Pool, evicted: set<TxId>, a: Admitted, parents: set<TxId>, replacing: bool)
    requires FeeBelow(p) && Affords(p, evicted) && a.txid !in p.txs
    ensures var r := Admit(Without(p, evicted), a, parents, replacing);
      && FeeBelow(r)
      && Deficit(r) == Deficit(p) + Lost(p.stats.totalFee - PackageFee(p.txs, evicted), a.fee)
  {
    WithoutFees(p, evicted);
    AdmitDeficit(Without(p, evicted), a, parents, replacing);
  }

  /** What this admission would lose to saturation. */
  ghost function LostTo(p: Pool, a: Admitted): nat
    requires Affords(p, Evicted(p, a.tx))
  {
    Lost(p.stats.totalFee - PackageFee(p.txs, Evicted(p, a.tx)), a.fee)
  }

  lemma {:induction false} AdmissionKeepsShape(p: Pool, maxSize: nat, base: Hash32, a: Admitted)
    requires Shape(p, maxSize, base) && AddResponse(p, maxSize, base, a).Done?
    ensures Shape(AddResult(p, maxSize, base, a), maxSize, base)
  {
    var evicted := Evicted(p, a.tx);
    Accepted(p, maxSize, base, a);
    assert MayAdmit(Without(p, evicted), a, Parents(p, evicted, a.tx), base) by {
      EvictionClears(p, maxSize, base, a);
    }
    ExchangeKeepsShape(p, evicted, a, Parents(p, evicted, a.tx), evicted != {}, maxSize, base);
  }

  lemma {:induction false} AdmissionDeficit(p: Pool, maxSize: nat, base: Hash32, a: Admitted)
    requires SpendsIndexed(p.spent, p.txs) && Linked(p.txs) && FeeBelow(p) && AddResponse(p, maxSize, base, a).Done?
    ensures Affords(p, Evicted(p, a.tx)) && FeeBelow(AddResult(p, maxSize, base, a))
    ensures Deficit(AddResult(p, maxSize, base, a)) == Deficit(p) + LostTo(p, a)
  {
    var evicted := Evicted(p, a.tx);
    Accepted(p, maxSize, base, a);
    ExchangeDeficit(p, evicted, a, Parents(p, evicted, a.tx), evicted != {});
  }

  /** Every admission attempt, done, refused or panicking, on every pool: indexes, links, order,
      roots, count and size total stay exact, and the fee total falls behind the sum by exactly
      what saturation keeps out of it. */
  lemma {:induction false} AddKeepsInv(p: Pool, maxSize: nat, base: Hash32, a: Admitted)
    requires Inv(p, maxSize, base)
    ensures var r := AddResult(p, maxSize, base, a);
      && Inv(r, maxSize, base)
      && (if AddResponse(p, maxSize, base, a).Done?
          then Affords(p, Evicted(p, a.tx)) && Deficit(r) == Deficit(p) + LostTo(p, a) else r == p)
  {
    if AddResponse(p, maxSize, base, a).Done? {
      AdmissionKeepsShape(p, maxSize, base, a);
      AdmissionDeficit(p, maxSize, base, a);
    }
  }

  /** While the fee total is exact it covers every package, so no removal panics. */
  lemma {:induction false} ExactTotalsNeverUnderflow(p: Pool, R: set<TxId>)
    requires FeeExact(p)
    ensures Affords(p, R)
  {
    WithoutFees(p, R);
  }
}
