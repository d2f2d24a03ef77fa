/** Counting by cardinality: a set of indices below n is full exactly when it has n members. */
module Counting {

  function UpTo(n: nat): set<nat> {
    if n == 0 then {} else UpTo(n - 1) + {n - 1}
  }

  lemma {:induction false} UpToMembers(n: nat)
    ensures |UpTo(n)| == n
    ensures forall i: nat :: i in UpTo(n) <==> i < n
  {
    if n > 0 { UpToMembers(n - 1); }
  }

  lemma SubsetOfSameSize<T>(a: set<T>, b: set<T>)
    requires a <= b && |a| == |b|
    ensures a == b
  {
    assert b == a + (b - a);
  }

  lemma FullCount(used: set<nat>, n: nat)
    requires forall i :: i in used ==> i < n
    ensures |used| <= n
    ensures |used| == n <==> forall i: nat :: i < n ==> i in used
  {
    UpToMembers(n);
    assert used <= UpTo(n) && UpTo(n) == used + (UpTo(n) - used);
    if |used| == n { SubsetOfSameSize(used, UpTo(n)); }
    if forall i: nat :: i < n ==> i in used { assert used == UpTo(n); }
  }
}
