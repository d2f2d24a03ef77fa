/** What the pool holds and when it says yes, in terms of the transactions themselves. */
module CellPoolMeaning {
  import opened Prelude
  import opened CellPool
  import opened CellPoolRuns

  // ------------------------------------------------------- conflicts and parents

  /** Two transactions spend a common output. */
  ghost predicate Clashes(tx: Tx, other: Tx) {
    exists o :: o in tx.inputs && o in other.inputs
  }

  ghost predicate ClashesWith(txs: map<TxId, Entry>, tx: Tx, id: TxId) {
    id in txs && Clashes(tx, txs[id].tx)
  }

  /** A pooled transaction that is not evicted and whose outputs are spent. */
  ghost predicate ParentOf(txs: map<TxId, Entry>, evicted: set<TxId>, tx: Tx, id: TxId) {
    id in txs && id !in evicted && SpendsFrom(tx, id)
  }

  /** The conflicts are exactly the pooled transactions that spend one of the same outputs. */
  lemma {:induction false} ConflictsExactly(p: Pool, tx: Tx, id: TxId)
    requires SpendsIndexed(p.spent, p.txs)
    ensures id in Conflicts(p, tx) <==> ClashesWith(p.txs, tx, id)
  {
    if id in Conflicts(p, tx) {
      var o :| o in tx.inputs && o in p.spent && p.spent[o] == id;
      assert Spends(p.txs, id, o);
    }
    if ClashesWith(p.txs, tx, id) {
      var o :| o in tx.inputs && o in p.txs[id].tx.inputs;
      assert Spends(p.txs, id, o);
    }
  }

  lemma {:induction false} ParentsExactly(p: Pool, evicted: set<TxId>, tx: Tx, id: TxId)
    ensures id in Parents(p, evicted, tx) <==> ParentOf(p.txs, evicted, tx, id)
  {
    if ParentOf(p.txs, evicted, tx, id) {
      var o :| o in tx.inputs && o.txHash == id;
    }
  }

  /** The effective size is the larger of the cycles and a hundred per byte, held at the largest word. */
  lemma {:induction false} EffectiveSizeExactly(size: U64, cycles: U64)
    ensures var e := EffectiveSize(size, cycles);
      && e >= cycles && (e >= 100 * size || e == 0xFFFF_FFFF_FFFF_FFFF)
      && (e == cycles || e == 100 * size || (e == 0xFFFF_FFFF_FFFF_FFFF && 100 * size > e))
  {
  }

  // ------------------------------------------------------------ what is recorded

  /** The entry holds what the admission brought. */
  ghost predicate Records(e: Entry, a: Admitted) {
    && e.tx == a.tx && e.txid == a.txid && e.fee == a.fee && e.cycles == a.cycles
    && e.admittedRoot == a.root && e.resultingRoot == a.rootAfter
  }

  ghost function NewChildren(a: Admitted, id: TxId): set<TxId> {
    if SpendsFrom(a.tx, id) then {a.txid} else {}
  }

  lemma {:induction false} ExchangeRecords(txs: map<TxId, Entry>, evicted: set<TxId>, a: Admitted, parents: set<TxId>)
    requires a.txid !in txs
    ensures var r := AdmitTxs(TxsWithout(txs, evicted), a, parents);
      && r.Keys == txs.Keys - evicted + {a.txid}
      && Records(r[a.txid], a) && r[a.txid].dependents == {} && r[a.txid].dependencies == parents
      && (forall q :: q in txs && q !in evicted ==>
            r[q] == txs[q].(dependents := txs[q].dependents - evicted + if q in parents then {a.txid} else {}))
  {
    var left := TxsWithout(txs, evicted);
    var r := AdmitTxs(left, a, parents);
    forall q | q in txs && q !in evicted
      ensures r[q] == txs[q].(dependents := txs[q].dependents - evicted + if q in parents then {a.txid} else {})
    {
      assert left[q].dependents == txs[q].dependents - evicted;
    }
  }

  /** After an admission the pool is what it was less the package, with the newcomer last: its entry
      is the admission's, its parents are the pooled transactions it spends from, and every other
      entry is untouched but for its child list. */
  ghost predicate Exchanged(p: Pool, r: Pool, evicted: set<TxId>, a: Admitted) {
    && r.order == Keep(p.order, evicted) + [a.txid]
    && r.txs.Keys == p.txs.Keys - evicted + {a.txid}
    && Records(r.txs[a.txid], a) && r.txs[a.txid].dependents == {}
    && (forall d :: d in r.txs[a.txid].dependencies <==> ParentOf(p.txs, evicted, a.tx, d))
    && (forall q :: q in p.txs && q !in evicted ==>
          r.txs[q] == p.txs[q].(dependents := p.txs[q].dependents - evicted + NewChildren(a, q)))
  }

  lemma {:induction false} SurvivorsByParent(
      txs: map<TxId, Entry>, r: map<TxId, Entry>, evicted: set<TxId>, a: Admitted, parents: set<TxId>)
    requires forall d :: d in parents <==> ParentOf(txs, evicted, a.tx, d)
    requires forall q :: q in txs && q !in evicted ==>
      q in r && r[q] == txs[q].(dependents := txs[q].dependents - evicted + if q in parents then {a.txid} else {})
    ensures forall q :: q in txs && q !in evicted ==>
      r[q] == txs[q].(dependents := txs[q].dependents - evicted + NewChildren(a, q))
  {
  }

  lemma {:induction false} ExchangesPool(p: Pool, evicted: set<TxId>, a: Admitted)
    requires a.txid !in p.txs
    ensures Exchanged(p, Admit(Without(p, evicted), a, Parents(p, evicted, a.tx), evicted != {}), evicted, a)
  {
    var parents := Parents(p, evicted, a.tx);
    forall d
      ensures d in parents <==> ParentOf(p.txs, evicted, a.tx, d)
    {
      ParentsExactly(p, evicted, a.tx, d);
    }
    var txs := AdmitTxs(TxsWithout(p.txs, evicted), a, parents);
    ExchangeRecords(p.txs, evicted, a, parents);
    SurvivorsByParent(p.txs, txs, evicted, a, parents);
    ExchangedParts(p, Admit(Without(p, evicted), a, parents, evicted != {}), evicted, a, txs, parents);
  }

  lemma {:induction false} ExchangedParts(
      p: Pool, r: Pool, evicted: set<TxId>, a: Admitted, txs: map<TxId, Entry>, parents: set<TxId>)
    requires r.txs == txs && r.order == Keep(p.order, evicted) + [a.txid]
    requires txs.Keys == p.txs.Keys - evicted + {a.txid}
    requires Records(txs[a.txid], a) && txs[a.txid].dependents == {} && txs[a.txid].dependencies == parents
    requires forall d :: d in parents <==> ParentOf(p.txs, evicted, a.tx, d)
    requires forall q :: q in p.txs && q !in evicted ==>
      txs[q] == p.txs[q].(dependents := p.txs[q].dependents - evicted + NewChildren(a, q))
    ensures Exchanged(p, r, evicted, a)
  {
  }

  lemma {:induction false} AdmissionRecords(p: Pool, maxSize: nat, base: Hash32, a: Admitted)
    requires SpendsIndexed(p.spent, p.txs) && Linked(p.txs) && AddResponse(p, maxSize, base, a).Done?
    ensures AddResponse(p, maxSize, base, a) == Done(a.txid)
    ensures Exchanged(p, AddResult(p, maxSize, base, a), Evicted(p, a.tx), a)
  {
    Accepted(p, maxSize, base, a);
    ExchangesPool(p, Evicted(p, a.tx), a);
  }

  lemma {:induction false} AdmissionCounts(p: Pool, maxSize: nat, base: Hash32, a: Admitted)
    requires SpendsIndexed(p.spent, p.txs) && Linked(p.txs) && AddResponse(p, maxSize, base, a).Done?
    ensures var evicted, r := Evicted(p, a.tx), AddResult(p, maxSize, base, a);
      && r.stats.txsAdded == p.stats.txsAdded + 1
      && r.stats.txsRemoved == p.stats.txsRemoved + |evicted|
      && r.stats.rbfCount == p.stats.rbfCount + (if exists id :: ClashesWith(p.txs, a.tx, id) then 1 else 0)
  {
    var evicted := Evicted(p, a.tx);
    Accepted(p, maxSize, base, a);
    EvictedExactly(p, a.tx);
  }

  /** Nothing is evicted exactly when nothing clashes. */
  lemma {:induction false} EvictedExactly(p: Pool, tx: Tx)
    requires SpendsIndexed(p.spent, p.txs) && Linked(p.txs)
    ensures Evicted(p, tx) == {} <==> !exists id :: ClashesWith(p.txs, tx, id)
  {
    EvictedFacts(p, tx);
    if id :| ClashesWith(p.txs, tx, id) {
      ConflictsExactly(p, tx, id);
    } else {
      forall id
        ensures id !in Conflicts(p, tx)
      {
        ConflictsExactly(p, tx, id);
      }
      assert Conflicts(p, tx) == {};
      NothingDescends(p.txs);
    }
  }

  // -------------------------------------------------------------------- over runs

  /** The operation took id in, and it has been pooled ever since. */
  ghost predicate PooledSince(maxSize: nat, base: Hash32, ops: seq<Op>, k: nat, id: TxId) {
    && k < |ops| && ops[k].Add? && ops[k].admitted.txid == id && !NotDone(maxSize, base, ops, k)
    && forall j: nat :: k < j <= |ops| ==> PooledAt(maxSize, base, ops, j, id)
  }

  ghost predicate PooledAt(maxSize: nat, base: Hash32, ops: seq<Op>, j: nat, id: TxId)
    requires j <= |ops|
  {
    id in Run(maxSize, base, ops[..j]).txs
  }

  lemma {:induction false} ExchangedEntry(p: Pool, r: Pool, evicted: set<TxId>, a: Admitted, id: TxId)
    requires Exchanged(p, r, evicted, a) && a.txid !in p.txs && id in r.txs
    ensures if id in p.txs then r.txs[id] == p.txs[id].(dependents := r.txs[id].dependents)
      else id == a.txid && Records(r.txs[id], a)
  {
  }

  lemma {:induction false} AdmissionEntry(p: Pool, maxSize: nat, base: Hash32, a: Admitted, id: TxId)
    requires Inv(p, maxSize, base) && id in AddResult(p, maxSize, base, a).txs
    ensures var e := AddResult(p, maxSize, base, a).txs[id];
      if id in p.txs then e == p.txs[id].(dependents := e.dependents)
      else a.txid == id && AddResponse(p, maxSize, base, a).Done? && Records(e, a)
  {
    if AddResponse(p, maxSize, base, a).Done? {
      AdmissionRecords(p, maxSize, base, a);
      ExchangedEntry(p, AddResult(p, maxSize, base, a), Evicted(p, a.tx), a, id);
    }
  }

  lemma {:induction false} RemovalEntry(p: Pool, other: TxId, id: TxId)
    requires id in RemoveResult(p, other).txs
    ensures id in p.txs && RemoveResult(p, other).txs[id] == p.txs[id].(dependents := RemoveResult(p, other).txs[id].dependents)
  {
  }

  /** One operation: a pooled id is the newcomer, with the newcomer's record, or was pooled before
      with the same record. */
  lemma {:induction false} StepRecords(p: Pool, maxSize: nat, base: Hash32, op: Op, id: TxId)
    requires Inv(p, maxSize, base) && id in Step(p, maxSize, base, op).txs
    ensures var e := Step(p, maxSize, base, op).txs[id];
      if id in p.txs then e == p.txs[id].(dependents := e.dependents)
      else op.Add? && op.admitted.txid == id && AddResponse(p, maxSize, base, op.admitted).Done? && Records(e, op.admitted)
  {
    match op
    case Add(a) => AdmissionEntry(p, maxSize, base, a, id);
    case RemovePackage(other) => RemovalEntry(p, other, id);
  }

  lemma {:induction false} DoneInFront(maxSize: nat, base: Hash32, ops: seq<Op>, n: nat, k: nat)
    requires k < n <= |ops| && ops[k].Add?
    ensures ops[..n][k] == ops[k] && (NotDone(maxSize, base, ops[..n], k) <==> NotDone(maxSize, base, ops, k))
  {
    assert ops[..n][..k] == ops[..k];
  }

  lemma {:induction false} PooledInFront(maxSize: nat, base: Hash32, ops: seq<Op>, n: nat, j: nat, id: TxId)
    requires j <= n <= |ops|
    ensures PooledAt(maxSize, base, ops[..n], j, id) <==> PooledAt(maxSize, base, ops, j, id)
  {
    assert ops[..n][..j] == ops[..j];
  }

  lemma {:induction false} SinceExtends(maxSize: nat, base: Hash32, ops: seq<Op>, k: nat, id: TxId)
    requires ops != [] && PooledSince(maxSize, base, ops[..|ops| - 1], k, id)
    requires PooledAt(maxSize, base, ops, |ops|, id)
    ensures PooledSince(maxSize, base, ops, k, id) && ops[k] == ops[..|ops| - 1][k]
  {
    var n := |ops| - 1;
    DoneInFront(maxSize, base, ops, n, k);
    PooledOneLonger(maxSize, base, ops[..n], ops, k, id);
  }

  lemma {:induction false} PooledOneLonger(maxSize: nat, base: Hash32, front: seq<Op>, ops: seq<Op>, k: nat, id: TxId)
    requires ops != [] && front == ops[..|ops| - 1] && PooledAt(maxSize, base, ops, |ops|, id)
    requires forall j: nat :: k < j <= |front| ==> PooledAt(maxSize, base, front, j, id)
    ensures forall j: nat :: k < j <= |ops| ==> PooledAt(maxSize, base, ops, j, id)
  {
    var n := |ops| - 1;
    forall j: nat | k < j <= |ops|
      ensures PooledAt(maxSize, base, ops, j, id)
    {
      if j <= n { PooledInFront(maxSize, base, ops, n, j, id); }
    }
  }

  lemma {:induction false} SinceStarts(maxSize: nat, base: Hash32, ops: seq<Op>, k: nat, id: TxId)
    requires k + 1 == |ops| && ops[k].Add? && ops[k].admitted.txid == id && !NotDone(maxSize, base, ops, k)
    requires PooledAt(maxSize, base, ops, |ops|, id)
    ensures PooledSince(maxSize, base, ops, k, id)
  {
    forall j: nat | k < j <= |ops|
      ensures PooledAt(maxSize, base, ops, j, id)
    {
      assert j == |ops|;
    }
  }

  lemma {:induction false} LastStepRecords(maxSize: nat, base: Hash32, ops: seq<Op>, id: TxId)
    requires ops != [] && id in Run(maxSize, base, ops).txs
    ensures var n := |ops| - 1;
      var p, e := Run(maxSize, base, ops[..n]), Run(maxSize, base, ops).txs[id];
      if id in p.txs then e == p.txs[id].(dependents := e.dependents)
      else ops[n].Add? && ops[n].admitted.txid == id && !NotDone(maxSize, base, ops, n) && Records(e, ops[n].admitted)
  {
    RunInv(maxSize, base, ops[..|ops| - 1]);
    StepRecords(Run(maxSize, base, ops[..|ops| - 1]), maxSize, base, ops[|ops| - 1], id);
  }

  /** THE POOL HOLDS WHAT WAS ADMITTED.  After any run, every pooled entry is, but for its links,
      the record of the admission that took it in, and it has been pooled ever since. */
  lemma {:induction false} PooledWasAdmitted(maxSize: nat, base: Hash32, ops: seq<Op>, id: TxId) returns (k: nat)
    requires id in Run(maxSize, base, ops).txs
    ensures PooledSince(maxSize, base, ops, k, id)
    ensures Records(Run(maxSize, base, ops).txs[id], ops[k].admitted)
    decreases |ops|
  {
    var n := |ops| - 1;
    assert PooledAt(maxSize, base, ops, |ops|, id) by { assert ops[..|ops|] == ops; }
    LastStepRecords(maxSize, base, ops, id);
    if id in Run(maxSize, base, ops[..n]).txs {
      k := PooledWasAdmitted(maxSize, base, ops[..n], id);
      SinceExtends(maxSize, base, ops, k, id);
    } else {
      k := n;
      SinceStarts(maxSize, base, ops, k, id);
    }
  }

  /** Only one admission can have taken a pooled id in. */
  lemma {:induction false} PooledSinceOnce(maxSize: nat, base: Hash32, ops: seq<Op>, k: nat, m: nat, id: TxId)
    requires PooledSince(maxSize, base, ops, k, id) && PooledSince(maxSize, base, ops, m, id)
    ensures k == m
  {
    if k < m {
      assert PooledAt(maxSize, base, ops, m, id);
      AdmittedWasAbsent(maxSize, base, ops, m);
    }
    if m < k {
      assert PooledAt(maxSize, base, ops, k, id);
      AdmittedWasAbsent(maxSize, base, ops, k);
    }
  }

  lemma {:induction false} AdmittedWasAbsent(maxSize: nat, base: Hash32, ops: seq<Op>, k: nat)
    requires k < |ops| && ops[k].Add? && !NotDone(maxSize, base, ops, k)
    ensures !PooledAt(maxSize, base, ops, k, ops[k].admitted.txid)
  {
  }

  /** Whatever was taken in and is still pooled is recorded as it was admitted. */
  lemma {:induction false} StillRecorded(maxSize: nat, base: Hash32, ops: seq<Op>, k: nat, id: TxId)
    requires PooledSince(maxSize, base, ops, k, id)
    ensures id in Run(maxSize, base, ops).txs && Records(Run(maxSize, base, ops).txs[id], ops[k].admitted)
  {
    assert PooledAt(maxSize, base, ops, |ops|, id) && ops[..|ops|] == ops;
    var m := PooledWasAdmitted(maxSize, base, ops, id);
    PooledSinceOnce(maxSize, base, ops, k, m, id);
  }

  // ------------------------------------------------------------------ when it says yes

  /** The replacement test, written out. */
  ghost predicate Outbids(p: Pool, a: Admitted, evicted: set<TxId>)
    requires evicted <= p.txs.Keys
  {
    var fee, size := Total(evicted, Fees(p.txs)), Total(evicted, EffectiveSizes(p.txs));
    && fee < U64_LIMIT && size < U64_LIMIT && fee < a.fee
    && a.fee * size > fee * EffectiveSize(a.tx.size, a.cycles)
  }

  /** The transaction was verified against the state it would run on: the base without a pooled
      parent, the result of its parent with one, and no state at all with more. */
  ghost predicate OnItsState(txs: map<TxId, Entry>, evicted: set<TxId>, base: Hash32, a: Admitted) {
    && (forall d, e :: ParentOf(txs, evicted, a.tx, d) && ParentOf(txs, evicted, a.tx, e) ==> d == e)
    && (forall d :: ParentOf(txs, evicted, a.tx, d) ==> a.root == txs[d].resultingRoot)
    && ((forall d :: !ParentOf(txs, evicted, a.tx, d)) ==> a.root == base)
  }

  lemma {:induction false} RootsExactly(p: Pool, evicted: set<TxId>, base: Hash32, a: Admitted)
    ensures RootError(p, Parents(p, evicted, a.tx), a, base).None? <==> OnItsState(p.txs, evicted, base, a)
    ensures RootError(p, Parents(p, evicted, a.tx), a, base) in {None, Some(InvalidTx)}
  {
    var parents := Parents(p, evicted, a.tx);
    forall d
      ensures d in parents <==> ParentOf(p.txs, evicted, a.tx, d)
    {
      ParentsExactly(p, evicted, a.tx, d);
    }
    if d :| d in parents { AloneExactly(parents, d); }
  }

  lemma {:induction false} AloneExactly(s: set<TxId>, x: TxId)
    requires x in s
    ensures |s| == 1 <==> forall y :: y in s ==> y == x
  {
    if |s| == 1 {
      forall y | y in s
        ensures y == x
      {
        OnlyOne(s, y, x);
      }
    } else {
      var others := s - {x};
      assert |others| == |s| - 1;
    }
  }

  lemma {:induction false} PackageExactly(p: Pool, maxSize: nat, base: Hash32, a: Admitted, evicted: set<TxId>)
    requires evicted <= p.txs.Keys
    ensures PackageError(p, maxSize, base, a, evicted).None? <==>
      |p.txs| - |evicted| < maxSize && (evicted != {} ==> Outbids(p, a, evicted)) && OnItsState(p.txs, evicted, base, a)
  {
    RootsExactly(p, evicted, base, a);
    assert PaysMore(p, a, evicted) <==> Outbids(p, a, evicted);
  }

  /** An admission goes through exactly when the id is its content's, no input is listed twice, it
      is not pooled, there is room once its conflicts and their descendants are gone, it outbids
      them, it was verified on the state it would run on, and the totals can take it. */
  lemma {:induction false} AdmittedExactly(p: Pool, maxSize: nat, base: Hash32, a: Admitted)
    requires SpendsIndexed(p.spent, p.txs) && Linked(p.txs)
    ensures var evicted := Evicted(p, a.tx);
      && evicted <= p.txs.Keys
      && (AddResponse(p, maxSize, base, a) == Done(a.txid) <==>
            && a.tx.id == a.txid && Distinct(a.tx.inputs) && a.txid !in p.txs
            && |p.txs| - |evicted| < maxSize && (evicted != {} ==> Outbids(p, a, evicted))
            && OnItsState(p.txs, evicted, base, a)
            && Affords(p, evicted) && Total(p.txs.Keys - evicted, Sizes(p.txs)) + a.tx.size < U64_LIMIT)
  {
    var evicted := Evicted(p, a.tx);
    EvictedFacts(p, a.tx);
    PackageExactly(p, maxSize, base, a, evicted);
  }

  lemma {:induction false} PackageRefusals(p: Pool, maxSize: nat, base: Hash32, a: Admitted, evicted: set<TxId>)
    requires evicted <= p.txs.Keys && PackageError(p, maxSize, base, a, evicted).Some?
    ensures match PackageError(p, maxSize, base, a, evicted).value
      case PoolFull => |p.txs| - |evicted| >= maxSize
      case ReplacementFailed => evicted != {} && !Outbids(p, a, evicted)
      case InvalidTx => !OnItsState(p.txs, evicted, base, a)
      case _ => false
  {
    RootsExactly(p, evicted, base, a);
    assert PaysMore(p, a, evicted) <==> Outbids(p, a, evicted);
  }

  /** What each refusal says is true of the admission. */
  lemma {:induction false} AdmissionRefusals(p: Pool, maxSize: nat, base: Hash32, a: Admitted)
    requires SpendsIndexed(p.spent, p.txs) && Linked(p.txs) && AddResponse(p, maxSize, base, a).Refused?
    ensures var evicted := Evicted(p, a.tx);
      evicted <= p.txs.Keys &&
      match AddResponse(p, maxSize, base, a).error
      case InvalidTx => a.tx.id != a.txid || !Distinct(a.tx.inputs) || !OnItsState(p.txs, evicted, base, a)
      case TxExists => a.txid in p.txs
      case PoolFull => |p.txs| - |evicted| >= maxSize
      case ReplacementFailed => evicted != {} && !Outbids(p, a, evicted)
      case TxNotFound => false
  {
    EvictedFacts(p, a.tx);
    if a.tx.id == a.txid && Distinct(a.tx.inputs) && a.txid !in p.txs {
      PackageRefusals(p, maxSize, base, a, Evicted(p, a.tx));
    }
  }

  /** Where nothing clashes, being on its state is all that is asked beside form, room and size. */
  lemma {:induction false} UncontestedExactly(p: Pool, maxSize: nat, base: Hash32, a: Admitted)
    requires SpendsIndexed(p.spent, p.txs) && Linked(p.txs) && Counted(p.stats, p.txs)
    requires forall id :: !ClashesWith(p.txs, a.tx, id)
    ensures AddResponse(p, maxSize, base, a) == Done(a.txid) <==>
        && a.tx.id == a.txid && Distinct(a.tx.inputs) && a.txid !in p.txs
        && |p.txs| < maxSize && p.stats.totalSize + a.tx.size < U64_LIMIT
        && OnItsState(p.txs, {}, base, a)
  {
    EvictedExactly(p, a.tx);
    AdmittedExactly(p, maxSize, base, a);
    assert p.txs.Keys - {} == p.txs.Keys;
    assert {} * p.txs.Keys == {};
  }

  lemma {:induction false} ChildOnItsState(txs: map<TxId, Entry>, base: Hash32, a: Admitted, parent: TxId)
    requires parent in txs && forall id :: ParentOf(txs, {}, a.tx, id) <==> id == parent
    ensures OnItsState(txs, {}, base, a) <==> a.root == txs[parent].resultingRoot
  {
    assert ParentOf(txs, {}, a.tx, parent);
  }

  /** A CHILD IS ADMITTED ON ITS PARENT'S RESULT.  After any run, an admission that clashes with
      nothing and spends from exactly one pooled transaction goes through exactly when it is well
      formed and new, there is room, its size fits, and it was verified against the root its parent
      was admitted as resulting in. */
  lemma {:induction false} ChildAdmittedExactly(maxSize: nat, base: Hash32, ops: seq<Op>, k: nat, parent: TxId, a: Admitted)
    requires PooledSince(maxSize, base, ops, k, parent)
    requires var txs := Run(maxSize, base, ops).txs;
      && (forall id :: !ClashesWith(txs, a.tx, id))
      && (forall id :: ParentOf(txs, {}, a.tx, id) <==> id == parent)
    ensures var p := Run(maxSize, base, ops);
      AddResponse(p, maxSize, base, a) == Done(a.txid) <==>
        && a.tx.id == a.txid && Distinct(a.tx.inputs) && a.txid !in p.txs
        && |p.txs| < maxSize && p.stats.totalSize + a.tx.size < U64_LIMIT
        && a.root == ops[k].admitted.rootAfter
  {
    var p := Run(maxSize, base, ops);
    RunInv(maxSize, base, ops);
    StillRecorded(maxSize, base, ops, k, parent);
    UncontestedExactly(p, maxSize, base, a);
    ChildOnItsState(p.txs, base, a, parent);
  }

  // ------------------------------------------------------------------ the counters

  lemma {:induction false} RemovalCounts(p: Pool, maxSize: nat, base: Hash32, id: TxId)
    requires Inv(p, maxSize, base)
    ensures var r := RemoveResult(p, id);
      && r.stats.txsAdded == p.stats.txsAdded && r.stats.rbfCount == p.stats.rbfCount
      && r.stats.txsRemoved + |r.txs| == p.stats.txsRemoved + |p.txs|
  {
    if id in p.txs && !RemovePanics(p, id) {
      DescendantsFacts(p.txs, {id});
      WithoutSize(p.txs, Descendants(p.txs, {id}));
    }
  }

  lemma {:induction false} AdmissionBalances(p: Pool, maxSize: nat, base: Hash32, a: Admitted)
    requires Inv(p, maxSize, base) && AddResponse(p, maxSize, base, a).Done?
    ensures var r := AddResult(p, maxSize, base, a);
      r.stats.txsRemoved + |r.txs| == p.stats.txsRemoved + |p.txs| + 1
  {
    AdmissionCounts(p, maxSize, base, a);
    AdmissionFees(p, maxSize, base, a);
  }

  ghost predicate GoesThrough(p: Pool, maxSize: nat, base: Hash32, op: Op) {
    op.Add? && AddResponse(p, maxSize, base, op.admitted).Done?
  }

  ghost predicate ReplacesOnAdmission(p: Pool, maxSize: nat, base: Hash32, op: Op) {
    GoesThrough(p, maxSize, base, op) && exists id :: ClashesWith(p.txs, op.admitted.tx, id)
  }

  lemma {:induction false} StepCounts(p: Pool, maxSize: nat, base: Hash32, op: Op)
    requires Inv(p, maxSize, base)
    ensures var r := Step(p, maxSize, base, op);
      var one := if GoesThrough(p, maxSize, base, op) then 1 else 0;
      && r.stats.txsAdded == p.stats.txsAdded + one
      && r.stats.rbfCount == p.stats.rbfCount + (if ReplacesOnAdmission(p, maxSize, base, op) then 1 else 0)
      && r.stats.txsRemoved + |r.txs| == p.stats.txsRemoved + |p.txs| + one
  {
    match op
    case Add(a) =>
      if AddResponse(p, maxSize, base, a).Done? {
        AdmissionCounts(p, maxSize, base, a);
        AdmissionBalances(p, maxSize, base, a);
      }
    case RemovePackage(id) => RemovalCounts(p, maxSize, base, id);
  }

  /** How many of the run's admissions went through, and how many of those replaced something. */
  ghost function Admissions(maxSize: nat, base: Hash32, ops: seq<Op>): nat {
    if ops == [] then 0 else
      var n := |ops| - 1;
      Admissions(maxSize, base, ops[..n]) + if GoesThrough(Run(maxSize, base, ops[..n]), maxSize, base, ops[n]) then 1 else 0
  }

  ghost function Replacements(maxSize: nat, base: Hash32, ops: seq<Op>): nat {
    if ops == [] then 0 else
      var n := |ops| - 1;
      Replacements(maxSize, base, ops[..n])
      + if ReplacesOnAdmission(Run(maxSize, base, ops[..n]), maxSize, base, ops[n]) then 1 else 0
  }

  /** After any run the counters are the admissions and the replacements that went through, and
      everything ever admitted is either still pooled or counted as removed. */
  lemma {:induction false} CountersExact(maxSize: nat, base: Hash32, ops: seq<Op>)
    ensures var p := Run(maxSize, base, ops);
      && p.stats.txsAdded == Admissions(maxSize, base, ops)
      && p.stats.rbfCount == Replacements(maxSize, base, ops)
      && p.stats.txsAdded == p.stats.txsRemoved + |p.txs| && p.stats.totalTxs == |p.txs|
    decreases |ops|
  {
    if ops != [] {
      var n := |ops| - 1;
      CountersExact(maxSize, base, ops[..n]);
      RunInv(maxSize, base, ops[..n]);
      StepCounts(Run(maxSize, base, ops[..n]), maxSize, base, ops[n]);
    }
    CountsPooled(maxSize, base, ops);
  }

  lemma {:induction false} CountsPooled(maxSize: nat, base: Hash32, ops: seq<Op>)
    ensures Run(maxSize, base, ops).stats.totalTxs == |Run(maxSize, base, ops).txs|
  {
    RunInv(maxSize, base, ops);
  }
}
