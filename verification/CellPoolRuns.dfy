/** What every sequence of pool operations keeps, and that replacement makes progress. */
module CellPoolRuns {
  import opened Prelude
  import opened CellPool

  datatype Op = Add(admitted: Admitted) | RemovePackage(txid: TxId)

  /** The removal of a package panics when the running fee total does not cover its fees. */
  ghost predicate RemovePanics(p: Pool, id: TxId) {
    id in p.txs && !Affords(p, Descendants(p.txs, {id}))
  }

  /** The pool after the removal of a transaction with everything that descends from it. */
  ghost function RemoveResult(p: Pool, id: TxId): Pool {
    if id in p.txs && !RemovePanics(p, id) then Without(p, Descendants(p.txs, {id})) else p
  }

  lemma {:induction false} RemoveKeepsInv(p: Pool, maxSize: nat, base: Hash32, id: TxId)
    requires Inv(p, maxSize, base)
    ensures Inv(RemoveResult(p, id), maxSize, base) && Deficit(RemoveResult(p, id)) == Deficit(p)
  {
    if id in p.txs {
      DescendantsFacts(p.txs, {id});
      WithoutInv(p, Descendants(p.txs, {id}), maxSize, base);
    }
  }

  /** A removal panics exactly when more has been lost to saturation than would stay in the pool. */
  lemma {:induction false} RemovalPanicsExactly(p: Pool, id: TxId)
    requires id in p.txs
    ensures RemovePanics(p, id) <==> FeeSum(TxsWithout(p.txs, Descendants(p.txs, {id}))) < Deficit(p)
  {
    AffordsExactly(p, Descendants(p.txs, {id}));
  }

  lemma {:induction false} SizesLeft(txs: map<TxId, Entry>, R: set<TxId>)
    ensures var left := TxsWithout(txs, R);
      Total(left.Keys, Sizes(left)) == Total(txs.Keys - R, Sizes(txs))
  {
    var left := TxsWithout(txs, R);
    assert left.Keys == txs.Keys - R;
    TotalAgree(left.Keys, Sizes(txs), Sizes(left));
  }

  lemma {:induction false} AffordsExactly(p: Pool, R: set<TxId>)
    ensures Affords(p, R) <==> FeeSum(TxsWithout(p.txs, R)) >= Deficit(p)
  {
    WithoutFees(p, R);
  }

  /** So does an admission that passes every check, with the package it evicts; or its size leaves 64 bits. */
  lemma {:induction false} AdmissionPanicsExactly(p: Pool, maxSize: nat, base: Hash32, a: Admitted)
    requires AddError(p, maxSize, base, a).None?
    ensures var left := TxsWithout(p.txs, Evicted(p, a.tx));
      AddResponse(p, maxSize, base, a) == Panicked
      <==> FeeSum(left) < Deficit(p) || Total(left.Keys, Sizes(left)) + a.tx.size >= U64_LIMIT
  {
    AffordsExactly(p, Evicted(p, a.tx));
    SizesLeft(p.txs, Evicted(p, a.tx));
  }

  /** Removing the whole package leaves every other entry as it was, up to the child list
      of the root's own parent. */
  lemma {:induction false} RemovalLeavesTheRest(p: Pool, maxSize: nat, base: Hash32, id: TxId, q: TxId)
    requires Shape(p, maxSize, base) && id in p.txs && q in p.txs && !RemovePanics(p, id)
    ensures var r := RemoveResult(p, id);
      && (q in r.txs <==> !Descends(p.txs, {id}, q))
      && (q in r.txs ==> r.txs[q] == p.txs[q].(dependents := p.txs[q].dependents - {id}))
  {
    var package := Descendants(p.txs, {id});
    DescendantsFacts(p.txs, {id});
    assert id in package;
    if q !in package {
      ChildrenOutside(p.txs, base, id, q, package);
    }
  }

  lemma {:induction false} ChildrenOutside(txs: map<TxId, Entry>, base: Hash32, id: TxId, q: TxId, package: set<TxId>)
    requires Linked(txs) && Rooted(txs, base) && IsDescendants(txs, {id}, package)
    requires id in package && q in txs && q !in package
    ensures txs[q].dependents - package == txs[q].dependents - {id}
  {
    forall c | c in txs[q].dependents && c in package
      ensures c == id
    {
      if c != id { OnlyParentInside(txs, base, id, q, c); }
    }
  }

  /** A descendant other than the root has its one parent inside the package. */
  lemma {:induction false} OnlyParentInside(txs: map<TxId, Entry>, base: Hash32, id: TxId, q: TxId, c: TxId)
    requires Linked(txs) && Rooted(txs, base)
    requires q in txs && c in txs[q].dependents && c != id && Descends(txs, {id}, c)
    ensures Descends(txs, {id}, q)
  {
    var path :| PathTo(txs, {id}, path, c);
    var n := |path| - 1;
    assert n > 0 && LinkAt(txs, path, n - 1);
    assert IsChild(txs, q, c) && IsParent(txs, q, c) && IsParent(txs, path[n - 1], c);
    assert RootedAt(txs, c, base);
    OnlyOne(txs[c].dependencies, q, path[n - 1]);
    var shorter := path[..n];
    forall i: nat | i < n - 1
      ensures LinkAt(txs, shorter, i)
    {
      assert LinkAt(txs, path, i);
    }
    assert PathTo(txs, {id}, shorter, q);
  }

  lemma {:induction false} OnlyOne(s: set<TxId>, x: TxId, y: TxId)
    requires |s| <= 1 && x in s && y in s
    ensures x == y
  {
    if x != y {
      CardinalitySubset({x, y}, s);
    }
  }

  // -------------------------------------------------------------------------- runs

  ghost function Step(p: Pool, maxSize: nat, base: Hash32, op: Op): Pool {
    match op
    case Add(a) => AddResult(p, maxSize, base, a)
    case RemovePackage(id) => RemoveResult(p, id)
  }

  /** The pool after any sequence of operations, done, refused or panicking. */
  ghost function Run(maxSize: nat, base: Hash32, ops: seq<Op>): Pool {
    if ops == [] then EMPTY else Step(Run(maxSize, base, ops[..|ops| - 1]), maxSize, base, ops[|ops| - 1])
  }

  /** After any sequence of operations every index, link, order, root, count and size total of the
      pool is exact, and the fee total is not above the fees. */
  lemma {:induction false} RunInv(maxSize: nat, base: Hash32, ops: seq<Op>)
    ensures Inv(Run(maxSize, base, ops), maxSize, base)
    decreases |ops|
  {
    if ops == [] {
      EmptyInv(maxSize, base);
    } else {
      var n := |ops| - 1;
      RunInv(maxSize, base, ops[..n]);
      var p := Run(maxSize, base, ops[..n]);
      match ops[n]
      case Add(a) => AddKeepsInv(p, maxSize, base, a);
      case RemovePackage(id) => RemoveKeepsInv(p, maxSize, base, id);
    }
  }

  lemma {:induction false} RunStep(maxSize: nat, base: Hash32, ops: seq<Op>, k: nat)
    requires k < |ops|
    ensures Run(maxSize, base, ops[..k + 1]) == Step(Run(maxSize, base, ops[..k]), maxSize, base, ops[k])
  {
    assert ops[..k + 1][..k] == ops[..k];
  }

  // ---------------------------------------------------------------------- progress

  /** Evicting and admitting exchanges the package's fees for the newcomer's. */
  lemma {:induction false} ExchangeFees(p: Pool, evicted: set<TxId>, a: Admitted, parents: set<TxId>, replacing: bool)
    requires evicted <= p.txs.Keys && a.txid !in p.txs
    ensures var r := Admit(Without(p, evicted), a, parents, replacing);
      && FeeSum(r.txs) + Total(evicted, Fees(p.txs)) == FeeSum(p.txs) + a.fee
      && |r.txs| == |p.txs| - |evicted| + 1
  {
    var q := Without(p, evicted);
    assert evicted * p.txs.Keys == evicted;
    WithoutFees(p, evicted);
    WithoutSize(p.txs, evicted);
    assert a.txid !in q.txs;
    AdmitFees(q.txs, a, parents);
    AdmitCount(q.txs, a, parents);
  }

  /** An accepted replacement strictly raises the total fee and pays strictly more per unit of
      effective size than the whole package it evicts. */
  lemma {:induction false} AdmissionFees(p: Pool, maxSize: nat, base: Hash32, a: Admitted)
    requires SpendsIndexed(p.spent, p.txs) && Linked(p.txs) && AddResponse(p, maxSize, base, a).Done?
    ensures var evicted, r := Evicted(p, a.tx), AddResult(p, maxSize, base, a);
      && evicted <= p.txs.Keys
      && FeeSum(r.txs) + Total(evicted, Fees(p.txs)) == FeeSum(p.txs) + a.fee
      && |r.txs| == |p.txs| - |evicted| + 1
      && (evicted != {} ==>
            && FeeSum(r.txs) > FeeSum(p.txs) && a.fee > Total(evicted, Fees(p.txs))
            && a.fee * Total(evicted, EffectiveSizes(p.txs)) > Total(evicted, Fees(p.txs)) * EffectiveSize(a.tx.size, a.cycles))
  {
    var evicted := Evicted(p, a.tx);
    Accepted(p, maxSize, base, a);
    ExchangeFees(p, evicted, a, Parents(p, evicted, a.tx), evicted != {});
  }

  /** Total fee first, number of transactions second. */
  ghost predicate NotBelow(p: Pool, q: Pool) {
    FeeSum(p.txs) < FeeSum(q.txs) || (FeeSum(p.txs) == FeeSum(q.txs) && |p.txs| <= |q.txs|)
  }

  ghost predicate Below(p: Pool, q: Pool) {
    FeeSum(p.txs) < FeeSum(q.txs) || (FeeSum(p.txs) == FeeSum(q.txs) && |p.txs| < |q.txs|)
  }

  lemma {:induction false} AdmissionRises(p: Pool, maxSize: nat, base: Hash32, a: Admitted)
    requires SpendsIndexed(p.spent, p.txs) && Linked(p.txs) && AddResponse(p, maxSize, base, a).Done?
    ensures Below(p, AddResult(p, maxSize, base, a))
  {
    AdmissionFees(p, maxSize, base, a);
    var evicted := Evicted(p, a.tx);
    if evicted == {} {
      assert Total({}, Fees(p.txs)) == 0;
    }
  }

  ghost predicate OnlyAdds(ops: seq<Op>) {
    forall k :: 0 <= k < |ops| ==> ops[k].Add?
  }

  /** Admission k of the run did not go through: it was refused, or it panicked. */
  ghost predicate NotDone(maxSize: nat, base: Hash32, ops: seq<Op>, k: nat)
    requires k < |ops| && ops[k].Add?
  {
    !AddResponse(Run(maxSize, base, ops[..k]), maxSize, base, ops[k].admitted).Done?
  }

  /** One admission: the same pool when it did not go through, a higher one when it did. */
  lemma {:induction false} StepRises(maxSize: nat, base: Hash32, ops: seq<Op>, k: nat)
    requires k < |ops| && ops[k].Add?
    ensures var p, q := Run(maxSize, base, ops[..k]), Run(maxSize, base, ops[..k + 1]);
      if NotDone(maxSize, base, ops, k) then p == q else Below(p, q)
  {
    RunStep(maxSize, base, ops, k);
    RunInv(maxSize, base, ops[..k]);
    if !NotDone(maxSize, base, ops, k) {
      AdmissionRises(Run(maxSize, base, ops[..k]), maxSize, base, ops[k].admitted);
    }
  }

  /** Along admissions the pool never falls in (fee, count). */
  lemma {:induction false} NeverFalls(maxSize: nat, base: Hash32, ops: seq<Op>, i: nat, j: nat)
    requires OnlyAdds(ops) && i <= j <= |ops|
    ensures NotBelow(Run(maxSize, base, ops[..i]), Run(maxSize, base, ops[..j]))
    decreases j
  {
    if i < j {
      NeverFalls(maxSize, base, ops, i, j - 1);
      StepRises(maxSize, base, ops, j - 1);
    }
  }

  lemma {:induction false} RisesPast(maxSize: nat, base: Hash32, ops: seq<Op>, i: nat, k: nat, j: nat)
    requires OnlyAdds(ops) && i <= k < j <= |ops|
    requires !NotDone(maxSize, base, ops, k)
    ensures Below(Run(maxSize, base, ops[..i]), Run(maxSize, base, ops[..j]))
  {
    NeverFalls(maxSize, base, ops, i, k);
    StepRises(maxSize, base, ops, k);
    NeverFalls(maxSize, base, ops, k + 1, j);
  }

  /** Along any sequence of admissions the pooled fee never decreases, and the pool holds the
      same transactions at two times only if no admission in between went through. */
  lemma {:induction false} NoReturn(maxSize: nat, base: Hash32, ops: seq<Op>, i: nat, j: nat)
    requires OnlyAdds(ops) && i <= j <= |ops|
    ensures FeeSum(Run(maxSize, base, ops[..i]).txs) <= FeeSum(Run(maxSize, base, ops[..j]).txs)
    ensures Fees(Run(maxSize, base, ops[..i]).txs) == Fees(Run(maxSize, base, ops[..j]).txs)
        ==> forall k: nat :: i <= k < j ==> NotDone(maxSize, base, ops, k)
  {
    NeverFalls(maxSize, base, ops, i, j);
    if Fees(Run(maxSize, base, ops[..i]).txs) == Fees(Run(maxSize, base, ops[..j]).txs) {
      forall k: nat | i <= k < j
        ensures NotDone(maxSize, base, ops, k)
      {
        if !NotDone(maxSize, base, ops, k) {
          RisesPast(maxSize, base, ops, i, k, j);
          SameRank(Run(maxSize, base, ops[..i]), Run(maxSize, base, ops[..j]));
        }
      }
    }
  }

  lemma {:induction false} SameRank(p: Pool, q: Pool)
    requires Fees(p.txs) == Fees(q.txs)
    ensures FeeSum(p.txs) == FeeSum(q.txs) && |p.txs| == |q.txs|
  {
    assert p.txs.Keys == Fees(p.txs).Keys == Fees(q.txs).Keys == q.txs.Keys;
    assert |p.txs| == |p.txs.Keys| && |q.txs| == |q.txs.Keys|;
  }

  // -------------------------------------------------------------------- saturation

  /** What operation k keeps out of the running fee total. */
  ghost function LostAt(maxSize: nat, base: Hash32, ops: seq<Op>, k: nat): nat
    requires k < |ops|
  {
    var p := Run(maxSize, base, ops[..k]);
    if ops[k].Add? && AddResponse(p, maxSize, base, ops[k].admitted).Done?
    then LostTo(p, ops[k].admitted) else 0
  }

  ghost function Losses(maxSize: nat, base: Hash32, ops: seq<Op>): (s: seq<nat>)
    ensures |s| == |ops| && forall k: nat :: k < |ops| ==> s[k] == LostAt(maxSize, base, ops, k)
  {
    seq(|ops|, k requires 0 <= k < |ops| => LostAt(maxSize, base, ops, k))
  }

  ghost function SumOf(s: seq<nat>, n: nat): nat
    requires n <= |s|
  {
    if n == 0 then 0 else SumOf(s, n - 1) + s[n - 1]
  }

  lemma {:induction false} SumIsZero(s: seq<nat>, n: nat)
    requires n <= |s|
    ensures SumOf(s, n) == 0 <==> forall k :: 0 <= k < n ==> s[k] == 0
  {
    if n > 0 { SumIsZero(s, n - 1); }
  }

  lemma {:induction false} StepDeficit(maxSize: nat, base: Hash32, ops: seq<Op>, k: nat)
    requires k < |ops|
    ensures var p := Run(maxSize, base, ops[..k]);
      Deficit(Step(p, maxSize, base, ops[k])) == Deficit(p) + LostAt(maxSize, base, ops, k)
  {
    var p := Run(maxSize, base, ops[..k]);
    RunInv(maxSize, base, ops[..k]);
    match ops[k]
    case Add(a) => AddKeepsInv(p, maxSize, base, a);
    case RemovePackage(id) => RemoveKeepsInv(p, maxSize, base, id);
  }

  /** After any run the fee total is the sum of the pooled fees less everything that saturation
      ever kept out of it: no later removal or replacement makes up for a loss. */
  lemma {:induction false} FeeTotalIsSumLessLosses(maxSize: nat, base: Hash32, ops: seq<Op>, n: nat)
    requires n <= |ops|
    ensures var p := Run(maxSize, base, ops[..n]);
      p.stats.totalFee == FeeSum(p.txs) - SumOf(Losses(maxSize, base, ops), n)
    decreases n
  {
    if n > 0 {
      FeeTotalIsSumLessLosses(maxSize, base, ops, n - 1);
      RunStep(maxSize, base, ops, n - 1);
      StepDeficit(maxSize, base, ops, n - 1);
    }
  }

  /** The fee total is exact after a run if and only if no admission of the run saturated it. */
  lemma {:induction false} FeeTotalExactly(maxSize: nat, base: Hash32, ops: seq<Op>)
    ensures FeeExact(Run(maxSize, base, ops)) <==> forall k :: 0 <= k < |ops| ==> Losses(maxSize, base, ops)[k] == 0
  {
    FeeTotalIsSumLessLosses(maxSize, base, ops, |ops|);
    SumIsZero(Losses(maxSize, base, ops), |ops|);
    assert ops[..|ops|] == ops;
  }

  lemma {:induction false} FeesAfterExchange(p: Pool, evicted: set<TxId>, a: Admitted, parents: set<TxId>, replacing: bool)
    requires a.txid !in p.txs
    ensures FeeSum(Admit(Without(p, evicted), a, parents, replacing).txs) == FeeSum(p.txs) - PackageFee(p.txs, evicted) + a.fee
  {
    WithoutFees(p, evicted);
    AdmitFees(Without(p, evicted).txs, a, parents);
  }

  lemma {:induction false} FeesAfterAdmission(p: Pool, maxSize: nat, base: Hash32, a: Admitted)
    requires SpendsIndexed(p.spent, p.txs) && Linked(p.txs) && AddResponse(p, maxSize, base, a).Done?
    ensures Affords(p, Evicted(p, a.tx))
    ensures FeeSum(AddResult(p, maxSize, base, a).txs) == FeeSum(p.txs) - PackageFee(p.txs, Evicted(p, a.tx)) + a.fee
  {
    var evicted := Evicted(p, a.tx);
    Accepted(p, maxSize, base, a);
    FeesAfterExchange(p, evicted, a, Parents(p, evicted, a.tx), evicted != {});
  }

  /** An exact pool that loses part of a fee then holds more fees than a word can count. */
  lemma {:induction false} LossLeavesTheWord(p: Pool, maxSize: nat, base: Hash32, a: Admitted)
    requires SpendsIndexed(p.spent, p.txs) && Linked(p.txs) && FeeExact(p) && AddResponse(p, maxSize, base, a).Done?
    ensures Affords(p, Evicted(p, a.tx)) && (LostTo(p, a) > 0 ==> FeeSum(AddResult(p, maxSize, base, a).txs) >= U64_LIMIT)
  {
    FeesAfterAdmission(p, maxSize, base, a);
  }

  /** After every prefix of the run the pooled fees fit a word. */
  ghost predicate FeesFit(maxSize: nat, base: Hash32, ops: seq<Op>, n: nat)
    requires n <= |ops|
  {
    forall k: nat :: k <= n ==> FeesFitAt(maxSize, base, ops, k)
  }

  ghost predicate FeesFitAt(maxSize: nat, base: Hash32, ops: seq<Op>, k: nat)
    requires k <= |ops|
  {
    FeeSum(Run(maxSize, base, ops[..k]).txs) < U64_LIMIT
  }

  /** After every prefix of the run the fee total is exact. */
  ghost predicate ExactThrough(maxSize: nat, base: Hash32, ops: seq<Op>, n: nat)
    requires n <= |ops|
  {
    forall k: nat :: k <= n ==> ExactAt(maxSize, base, ops, k)
  }

  ghost predicate ExactAt(maxSize: nat, base: Hash32, ops: seq<Op>, k: nat)
    requires k <= |ops|
  {
    FeeExact(Run(maxSize, base, ops[..k]))
  }

  lemma {:induction false} FittingLosesNothing(maxSize: nat, base: Hash32, ops: seq<Op>, k: nat)
    requires k < |ops| && ExactAt(maxSize, base, ops, k) && FeesFitAt(maxSize, base, ops, k + 1)
    ensures LostAt(maxSize, base, ops, k) == 0
  {
    var p := Run(maxSize, base, ops[..k]);
    if ops[k].Add? && AddResponse(p, maxSize, base, ops[k].admitted).Done? {
      assert SpendsIndexed(p.spent, p.txs) && Linked(p.txs) by { RunInv(maxSize, base, ops[..k]); }
      LossLeavesTheWord(p, maxSize, base, ops[k].admitted);
      RunStep(maxSize, base, ops, k);
    }
  }

  lemma {:induction false} NoLossStaysExact(maxSize: nat, base: Hash32, ops: seq<Op>, k: nat)
    requires k < |ops| && ExactAt(maxSize, base, ops, k) && LostAt(maxSize, base, ops, k) == 0
    ensures ExactAt(maxSize, base, ops, k + 1)
  {
    RunStep(maxSize, base, ops, k);
    StepDeficit(maxSize, base, ops, k);
  }

  lemma {:induction false} FittingStaysExact(maxSize: nat, base: Hash32, ops: seq<Op>, k: nat)
    requires k <= |ops| && FeesFit(maxSize, base, ops, k)
    ensures ExactAt(maxSize, base, ops, k)
  {
    if k == 0 {
      EmptyInv(maxSize, base);
    } else {
      FittingStaysExact(maxSize, base, ops, k - 1);
      assert FeesFitAt(maxSize, base, ops, k);
      FittingLosesNothing(maxSize, base, ops, k - 1);
      NoLossStaysExact(maxSize, base, ops, k - 1);
    }
  }

  lemma {:induction false} ExactFits(maxSize: nat, base: Hash32, ops: seq<Op>, k: nat)
    requires k <= |ops| && ExactAt(maxSize, base, ops, k)
    ensures FeesFitAt(maxSize, base, ops, k)
  {
    RunInv(maxSize, base, ops[..k]);
  }

  /** In terms of contents: the total is exact all along a run if and only if the pooled fees fit a
      word all along it. */
  lemma {:induction false} ExactWhileFeesFit(maxSize: nat, base: Hash32, ops: seq<Op>, n: nat)
    requires n <= |ops|
    ensures ExactThrough(maxSize, base, ops, n) <==> FeesFit(maxSize, base, ops, n)
  {
    if FeesFit(maxSize, base, ops, n) {
      forall k: nat | k <= n
        ensures ExactAt(maxSize, base, ops, k)
      {
        FittingStaysExact(maxSize, base, ops, k);
      }
    }
    if ExactThrough(maxSize, base, ops, n) {
      forall k: nat | k <= n
        ensures FeesFitAt(maxSize, base, ops, k)
      {
        assert ExactAt(maxSize, base, ops, k);
        ExactFits(maxSize, base, ops, k);
      }
    }
  }

  /** Until an admission saturates the fee total, no removal panics and no replacement panics on fees. */
  lemma {:induction false} NoLossNoPanic(maxSize: nat, base: Hash32, ops: seq<Op>, id: TxId, a: Admitted)
    requires forall k :: 0 <= k < |ops| ==> Losses(maxSize, base, ops)[k] == 0
    ensures var p := Run(maxSize, base, ops);
      !RemovePanics(p, id) && Affords(p, Evicted(p, a.tx))
  {
    var p := Run(maxSize, base, ops);
    FeeTotalExactly(maxSize, base, ops);
    ExactTotalsNeverUnderflow(p, Descendants(p.txs, {id}));
    ExactTotalsNeverUnderflow(p, Evicted(p, a.tx));
  }

  /** A pool that lost part of a fee to saturation is never empty again. */
  lemma {:induction false} NeverEmptyAgain(maxSize: nat, base: Hash32, ops: seq<Op>, k: nat, n: nat)
    requires k < n <= |ops| && Losses(maxSize, base, ops)[k] > 0
    ensures Run(maxSize, base, ops[..n]).txs != map[]
  {
    FeeTotalIsSumLessLosses(maxSize, base, ops, n);
    SumIsZero(Losses(maxSize, base, ops), n);
  }

  /** An admission that touches nothing in the pool and is based on the pool's root. */
  ghost predicate Independent(p: Pool, maxSize: nat, base: Hash32, a: Admitted) {
    && a.tx.id == a.txid && Distinct(a.tx.inputs) && a.txid !in p.txs && |p.txs| < maxSize && a.root == base
    && (forall o :: o in a.tx.inputs ==> o !in p.spent && o.txHash !in p.txs)
    && p.stats.totalSize + a.tx.size < U64_LIMIT
  }

  lemma {:induction false} IndependentStandsAlone(p: Pool, maxSize: nat, base: Hash32, a: Admitted)
    requires Linked(p.txs) && Independent(p, maxSize, base, a)
    ensures Evicted(p, a.tx) == {} && Parents(p, {}, a.tx) == {}
  {
    assert Conflicts(p, a.tx) == {};
    NothingDescends(p.txs);
  }

  lemma {:induction false} IndependentIsAdmitted(p: Pool, maxSize: nat, base: Hash32, a: Admitted)
    requires Counted(p.stats, p.txs) && Linked(p.txs) && Independent(p, maxSize, base, a)
    ensures AddResponse(p, maxSize, base, a) == Done(a.txid)
    ensures Evicted(p, a.tx) == {} && AddResult(p, maxSize, base, a) == Admit(p, a, {}, false)
  {
    IndependentStandsAlone(p, maxSize, base, a);
    WithoutNothing(p);
    assert p.txs.Keys - {} == p.txs.Keys;
  }

  lemma {:induction false} NothingDescends(txs: map<TxId, Entry>)
    requires Linked(txs)
    ensures Descendants(txs, {}) == {}
  {
    DescendantsFacts(txs, {});
  }

  lemma {:induction false} ChildlessPackage(txs: map<TxId, Entry>, id: TxId)
    requires Linked(txs) && id in txs && txs[id].dependents == {}
    ensures Descendants(txs, {id}) == {id}
  {
    DescendantsFacts(txs, {id});
    forall d | d in Descendants(txs, {id})
      ensures d in {id}
    {
      ClosedHoldsDescendants(txs, {id}, {id}, d);
    }
  }

  lemma {:induction false} NewestPackage(txs: map<TxId, Entry>, b: Admitted)
    requires b.txid !in txs && Linked(AdmitTxs(txs, b, {}))
    ensures var more := AdmitTxs(txs, b, {});
      Descendants(more, {b.txid}) == {b.txid} && PackageFee(more, {b.txid}) == b.fee
  {
    var more := AdmitTxs(txs, b, {});
    ChildlessPackage(more, b.txid);
    FeeStep(more, {}, b.txid);
    assert {} + {b.txid} == {b.txid} && {} * more.Keys == {};
  }

  lemma {:induction false} RemovesAlone(p: Pool, id: TxId)
    requires id in p.txs && Descendants(p.txs, {id}) == {id} && Affords(p, {id})
    ensures RemoveResult(p, id) == Without(p, {id})
  {
  }

  /** Taking out the newcomer again subtracts its whole fee from a total it may have saturated. */
  lemma {:induction false} RemoveNewest(p: Pool, others: set<TxId>, id: TxId, fee: nat)
    requires p.txs.Keys == others + {id} && id !in others && PackageFee(p.txs, {id}) == fee <= p.stats.totalFee
    requires Descendants(p.txs, {id}) == {id}
    ensures var r := RemoveResult(p, id);
      && r.txs.Keys == others && FeeSum(r.txs) == FeeSum(p.txs) - fee && r.stats.totalFee == p.stats.totalFee - fee
  {
    RemovesAlone(p, id);
    WithoutFees(p, {id});
    assert TxsWithout(p.txs, {id}).Keys == others;
  }

  lemma {:induction false} LastRemovalPanics(r: Pool, id: TxId)
    requires Linked(r.txs) && r.txs.Keys == {id} && r.stats.totalFee < FeeSum(r.txs)
    ensures RemovePanics(r, id)
  {
    DescendantsFacts(r.txs, {id});
    RemovalPanicsExactly(r, id);
    assert TxsWithout(r.txs, Descendants(r.txs, {id})).Keys == {};
  }

  lemma {:induction false} RunOfThree(maxSize: nat, base: Hash32, x: Op, y: Op, z: Op)
    ensures Run(maxSize, base, [x, y, z])
         == Step(Step(Step(EMPTY, maxSize, base, x), maxSize, base, y), maxSize, base, z)
  {
    var ops := [x, y, z];
    RunStep(maxSize, base, ops, 0);
    RunStep(maxSize, base, ops, 1);
    RunStep(maxSize, base, ops, 2);
    assert ops[..3] == ops;
  }

  lemma {:induction false} StepIndependent(maxSize: nat, base: Hash32, p: Pool, a: Admitted)
    requires Inv(p, maxSize, base) && Independent(p, maxSize, base, a)
    ensures Step(p, maxSize, base, Add(a)) == Admit(p, a, {}, false) && Inv(Admit(p, a, {}, false), maxSize, base)
  {
    IndependentIsAdmitted(p, maxSize, base, a);
    AddKeepsInv(p, maxSize, base, a);
  }

  lemma {:induction false} FirstIsStranded(maxSize: nat, base: Hash32, one: Pool, id: TxId, fee: U64, b: Admitted)
    requires one.txs.Keys == {id} && FeeSum(one.txs) == one.stats.totalFee == fee && fee + b.fee >= U64_LIMIT
    requires b.txid !in one.txs && Inv(Admit(one, b, {}, false), maxSize, base)
    ensures var r := RemoveResult(Admit(one, b, {}, false), b.txid);
      && r.txs.Keys == {id} && FeeSum(r.txs) == fee && r.stats.totalFee == 0xFFFF_FFFF_FFFF_FFFF - b.fee < fee
      && RemovePanics(r, id)
  {
    var two := Admit(one, b, {}, false);
    NewestPackage(one.txs, b);
    AdmitFees(one.txs, b, {});
    AdmitCount(one.txs, b, {});
    RemoveNewest(two, {id}, b.txid, b.fee);
    RemoveKeepsInv(two, maxSize, base, b.txid);
    LastRemovalPanics(RemoveResult(two, b.txid), id);
  }

  lemma {:induction false} FirstAdmitted(p: Pool, a: Admitted)
    requires p.txs.Keys == {} && p.stats.totalFee == 0
    ensures var one := Admit(p, a, {}, false);
      one.txs.Keys == {a.txid} && FeeSum(one.txs) == one.stats.totalFee == a.fee
  {
    assert FeeSum(p.txs) == 0;
    AdmitFees(p.txs, a, {});
    AdmitCount(p.txs, a, {});
  }

  lemma {:induction false} ThreeSteps(maxSize: nat, base: Hash32, p: Pool, a: Admitted, b: Admitted, one: Pool, two: Pool)
    requires Inv(p, maxSize, base) && one == Admit(p, a, {}, false) && two == Admit(one, b, {}, false)
    requires Independent(p, maxSize, base, a) && Independent(one, maxSize, base, b)
    ensures Inv(two, maxSize, base)
    ensures Step(Step(Step(p, maxSize, base, Add(a)), maxSize, base, Add(b)), maxSize, base, RemovePackage(b.txid))
         == RemoveResult(two, b.txid)
  {
    StepIndependent(maxSize, base, p, a);
    StepIndependent(maxSize, base, one, b);
  }

  /** Two independent transactions whose fees together leave a word: after both are admitted and
      the second is removed, the first one's fee is no longer covered and its removal panics. */
  lemma {:induction false} SaturatedTotalIsLost(maxSize: nat, base: Hash32, a: Admitted, b: Admitted)
    requires Independent(EMPTY, maxSize, base, a) && Independent(Admit(EMPTY, a, {}, false), maxSize, base, b)
    requires a.fee + b.fee >= U64_LIMIT
    ensures var r := Run(maxSize, base, [Add(a), Add(b), RemovePackage(b.txid)]);
      && r.txs.Keys == {a.txid} && FeeSum(r.txs) == a.fee
      && r.stats.totalFee == 0xFFFF_FFFF_FFFF_FFFF - b.fee < a.fee && RemovePanics(r, a.txid)
  {
    EmptyInv(maxSize, base);
    var one := Admit(EMPTY, a, {}, false);
    FirstAdmitted(EMPTY, a);
    ThreeSteps(maxSize, base, EMPTY, a, b, one, Admit(one, b, {}, false));
    FirstIsStranded(maxSize, base, one, a.txid, a.fee, b);
    RunOfThree(maxSize, base, Add(a), Add(b), RemovePackage(b.txid));
  }

  /** The largest fee twice, whatever the sizes: a run that ends with a transaction nobody can remove. */
  lemma {:induction false} LargestFeesSaturate(base: Hash32, size: U64, other: U64)
    requires size + other < U64_LIMIT
    ensures var a := Admitted(Tx(1, [OutPoint(9, 0)], size), 1, 0xFFFF_FFFF_FFFF_FFFF, 0, base, base);
      var b := Admitted(Tx(2, [OutPoint(9, 1)], other), 2, 0xFFFF_FFFF_FFFF_FFFF, 0, base, base);
      var r := Run(2, base, [Add(a), Add(b), RemovePackage(2)]);
      r.stats.totalFee == 0 && FeeSum(r.txs) == 0xFFFF_FFFF_FFFF_FFFF && RemovePanics(r, 1)
  {
    var a := Admitted(Tx(1, [OutPoint(9, 0)], size), 1, 0xFFFF_FFFF_FFFF_FFFF, 0, base, base);
    var b := Admitted(Tx(2, [OutPoint(9, 1)], other), 2, 0xFFFF_FFFF_FFFF_FFFF, 0, base, base);
    AdmitCount(EMPTY.txs, a, {});
    SaturatedTotalIsLost(2, base, a, b);
  }
}
