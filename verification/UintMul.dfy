/** Schoolbook multiplication into a fixed number of limbs. */
module UintMul {
  import opened Limbs
  import Arith

  /** The partial products the loops visit: row j reaches only the limbs i with i + j < n. */
  ghost function Kept(x: seq<Limb>, y: seq<Limb>, rows: nat): int
    requires rows <= |x| == |y|
  {
    if rows == 0 then 0
    else Kept(x, y, rows - 1) + W(rows - 1) * (y[rows - 1] * Val(x[..|x| - (rows - 1)]))
  }

  /** The partial products the loops never visit, in units of 2^(64 n). */
  ghost function Skipped(x: seq<Limb>, y: seq<Limb>, rows: nat): nat
    requires rows <= |x| == |y|
  {
    if rows == 0 then 0
    else Skipped(x, y, rows - 1) + y[rows - 1] * Val(x[|x| - (rows - 1)..])
  }

  /** Row j meets a nonzero limb of x whose product with y[j] lies entirely above the top limb. */
  ghost predicate RowReachesPast(x: seq<Limb>, y: seq<Limb>, j: nat)
    requires j < |y|
  {
    y[j] != 0 && exists i :: 0 <= i < |x| && i + j >= |x| && x[i] != 0
  }

  /** Some product of two nonzero limbs lies entirely above the top limb. */
  ghost predicate ReachesPast(x: seq<Limb>, y: seq<Limb>) {
    exists j :: 0 <= j < |y| && RowReachesPast(x, y, j)
  }

  // -------------------------------------------------------------- the exact product

  lemma {:induction false} RowAlgebra(w: int, u: int, y: int, low: int, high: int)
    ensures w * (y * (low + u * high)) == w * (y * low) + (w * u) * (y * high)
  {
    Arith.Distribute(y, low, u * high);
    Arith.Distribute(w, y * low, y * (u * high));
    assert y * (u * high) == u * (y * high) by {
      Associate(y, u, high);
      Associate(u, y, high);
    }
    Associate(w, u, y * high);
  }

  lemma {:induction false} SplitStep(x: int, y: int, w: int, limb: int, low: int, u: int, high: int, kept: int, top: int, skipped: int)
    requires x == low + u * high && top == w * u && x * y == kept + top * skipped
    ensures x * (y + w * limb) == (kept + w * (limb * low)) + top * (skipped + limb * high)
  {
    Arith.Distribute(x, y, w * limb);
    assert x * (w * limb) == w * (limb * x) by { Rotate(x, w, limb); }
    RowAlgebra(w, u, limb, low, high);
    Arith.Distribute(top, skipped, limb * high);
  }

  lemma {:induction false} Rotate(a: int, b: int, c: int)
    ensures a * (b * c) == b * (c * a)
  {
    Associate(b, c, a);
  }

  /** What the loops keep and what they skip together make up the product. */
  lemma {:induction false} ProductSplits(x: seq<Limb>, y: seq<Limb>, rows: nat)
    requires rows <= |x| == |y|
    ensures Val(x) * Val(y[..rows]) == Kept(x, y, rows) + W(|x|) * Skipped(x, y, rows)
  {
    if rows > 0 {
      var j, n := rows - 1, |x|;
      ProductSplits(x, y, j);
      ValTake(y, j);
      ValSplit(x, n - j);
      WAdd(j, n - j);
      assert j + (n - j) == n;
      SplitStep(Val(x), Val(y[..j]), W(j), y[j], Val(x[..n - j]), W(n - j), Val(x[n - j..]), Kept(x, y, j), W(n), Skipped(x, y, j));
    }
  }

  lemma {:induction false} HighLimbs(x: seq<Limb>, j: nat)
    requires j <= |x|
    ensures Val(x[|x| - j..]) != 0 <==> exists i :: 0 <= i < |x| && i + j >= |x| && x[i] != 0
  {
    var k := |x| - j;
    var high := x[k..];
    ValZero(high);
    assert forall i :: k <= i < |x| ==> high[i - k] == x[i];
  }

  lemma {:induction false} RowSkips(x: seq<Limb>, y: seq<Limb>, j: nat)
    requires j < |x| == |y|
    ensures y[j] * Val(x[|x| - j..]) > 0 <==> RowReachesPast(x, y, j)
  {
    HighLimbs(x, j);
    if y[j] != 0 && Val(x[|x| - j..]) != 0 { Positive(y[j], Val(x[|x| - j..])); }
  }

  lemma {:induction false} SkippedExactly(x: seq<Limb>, y: seq<Limb>, rows: nat)
    requires rows <= |x| == |y|
    ensures Skipped(x, y, rows) > 0 <==> exists j :: 0 <= j < rows && RowReachesPast(x, y, j)
  {
    if rows > 0 {
      SkippedExactly(x, y, rows - 1);
      RowSkips(x, y, rows - 1);
    }
  }

  lemma {:induction false} Positive(a: nat, b: nat)
    requires a > 0 && b > 0
    ensures a * b > 0
  {
  }

  // ------------------------------------------------------------------------ one row

  lemma {:induction false} RowStep(wj: nat, wi: nat, vr: nat, c: nat, v0: nat, vx: nat, y: nat, xi: nat, r0: nat, r1: nat, c1: nat)
    requires vr + (wi * wj) * c == v0 + wj * (y * vx)
    requires xi * y + r0 + c == r1 + 0x1_0000_0000_0000_0000 * c1
    ensures vr + (wi * wj) * r1 + (0x1_0000_0000_0000_0000 * (wi * wj)) * c1
         == v0 + (wi * wj) * r0 + wj * (y * (vx + wi * xi))
  {
    var w := wi * wj;
    assert w * (xi * y) + w * r0 + w * c == w * r1 + (0x1_0000_0000_0000_0000 * w) * c1 by {
      Arith.Distribute(w, xi * y + r0, c);
      Arith.Distribute(w, xi * y, r0);
      Arith.Distribute(w, r1, 0x1_0000_0000_0000_0000 * c1);
      Associate(w, 0x1_0000_0000_0000_0000, c1);
    }
    RowAlgebra(wj, wi, y, vx, xi);
    assert (wj * wi) * (y * xi) == w * (xi * y);
  }

  /** One multiply-accumulate: low and high words of a * b + c + d, which fits 128 bits. */
  function MulAccumulate(a: Limb, b: Limb, c: Limb, d: Limb): (r: (Limb, Limb))
    ensures a * b + c + d == r.0 + 0x1_0000_0000_0000_0000 * r.1
  {
    FitsTwoWords(a, b, c, d);
    var n := a * b + c + d;
    (n % 0x1_0000_0000_0000_0000, n / 0x1_0000_0000_0000_0000)
  }

  lemma {:induction false} FitsTwoWords(a: Limb, b: Limb, c: Limb, d: Limb)
    ensures 0 <= (a * b + c + d) / 0x1_0000_0000_0000_0000 < 0x1_0000_0000_0000_0000
  {
    Arith.MulMonotone(a, 0, b);
    Arith.MulMonotone(a, b, 0xFFFF_FFFF_FFFF_FFFF);
    Arith.MulMonotone(0xFFFF_FFFF_FFFF_FFFF, a, 0xFFFF_FFFF_FFFF_FFFF);
  }

  /** The row has been carried through the i lowest limbs of x. */
  ghost predicate RowDone(x: seq<Limb>, y: Limb, before: seq<Limb>, now: seq<Limb>, i: nat, j: nat, carry: Limb) {
    && |before| == |now| == |x| && i + j <= |x| && now[i + j..] == before[i + j..]
    && Val(now[..i + j]) + W(i + j) * carry == Val(before[..i + j]) + W(j) * (y * Val(x[..i]))
  }

  lemma {:induction false} RowStart(x: seq<Limb>, y: Limb, before: seq<Limb>, j: nat)
    requires |before| == |x| && j <= |x|
    ensures RowDone(x, y, before, before, 0, j, 0)
  {
  }

  lemma {:induction false} RowColumn(x: seq<Limb>, y: Limb, before: seq<Limb>, now: seq<Limb>, i: nat, j: nat, carry: Limb, low: Limb, high: Limb)
    requires i + j < |x| && RowDone(x, y, before, now, i, j, carry)
    requires x[i] * y + now[i + j] + carry == low + 0x1_0000_0000_0000_0000 * high
    ensures RowDone(x, y, before, now[i + j := low], i + 1, j, high)
  {
    var k := i + j;
    var next := now[k := low];
    assert now[k] == now[k..][0] == before[k..][0] == before[k];
    assert next[k + 1..] == now[k..][1..] == before[k..][1..] == before[k + 1..];
    assert next[..k + 1] == now[..k] + [low];
    ValAppend(now[..k], low);
    ValTake(before, k);
    ValTake(x, i);
    WStep(k);
    WAdd(i, j);
    RowStep(W(j), W(i), Val(now[..k]), carry, Val(before[..k]), Val(x[..i]), y, x[i], before[k], low, high);
  }

  lemma {:induction false} RowEnd(x: seq<Limb>, y: Limb, before: seq<Limb>, now: seq<Limb>, i: nat, j: nat, carry: Limb)
    requires i + j == |x| && RowDone(x, y, before, now, i, j, carry)
    ensures Val(now) + W(|x|) * carry == Val(before) + W(j) * (y * Val(x[..|x| - j]))
  {
    assert now[..|x|] == now && before[..|x|] == before;
  }

  method MulRow(result: array<Limb>, x: seq<Limb>, y: Limb, j: nat) returns (carry: Limb)
    requires result.Length == |x| && j < |x|
    modifies result
    ensures Val(result[..]) + W(|x|) * carry == old(Val(result[..])) + W(j) * (y * Val(x[..|x| - j]))
  {
    carry := 0;
    var i: nat := 0;
    RowStart(x, y, result[..], j);
    while i + j < |x|
      invariant RowDone(x, y, old(result[..]), result[..], i, j, carry)
    {
      var (low, high) := MulAccumulate(x[i], y, result[i + j], carry);
      RowColumn(x, y, old(result[..]), result[..], i, j, carry, low, high);
      ghost var next := result[..][i + j := low];
      result[i + j] := low;
      assert result[..] == next;
      i, carry := i + 1, high;
    }
    RowEnd(x, y, old(result[..]), result[..], i, j, carry);
  }

  // -------------------------------------------------------------------- the product

  method OverflowingMul(x: seq<Limb>, y: seq<Limb>) returns (r: seq<Limb>, overflow: bool)
    requires |x| == |y|
    ensures |r| == |x|
    ensures Val(r) == (Val(x) * Val(y)) % W(|x|)
    ensures overflow <==> Kept(x, y, |x|) >= W(|x|)
    ensures Val(x) * Val(y) >= W(|x|) <==> overflow || ReachesPast(x, y)
  {
    var result := new Limb[|x|](_ => 0);
    overflow := false;
    ghost var carries: nat := 0;
    ValZero(result[..]);
    for j := 0 to |x|
      invariant Kept(x, y, j) == Val(result[..]) + W(|x|) * carries
      invariant overflow <==> carries > 0
    {
      var carry := MulRow(result, x, y[j], j);
      Arith.Distribute(W(|x|), carries, carry);
      carries := carries + carry;
      overflow := overflow || carry != 0;
    }
    r := result[..];
    MulResult(x, y, r, carries);
  }

  lemma {:induction false} MulResult(x: seq<Limb>, y: seq<Limb>, r: seq<Limb>, carries: nat)
    requires |x| == |y| == |r|
    requires Kept(x, y, |x|) == Val(r) + W(|x|) * carries
    ensures Val(r) == (Val(x) * Val(y)) % W(|x|)
    ensures carries > 0 <==> Kept(x, y, |x|) >= W(|x|)
    ensures Val(x) * Val(y) >= W(|x|) <==> carries > 0 || ReachesPast(x, y)
  {
    Product(x, y);
    ValBound(r);
    MulFits(Val(x) * Val(y), W(|x|), Val(r), carries, Skipped(x, y, |x|));
  }

  lemma {:induction false} MulFits(product: int, top: nat, r: nat, carries: nat, skipped: nat)
    requires r < top && product == (r + top * carries) + top * skipped
    ensures r == product % top
    ensures carries > 0 <==> r + top * carries >= top
    ensures product >= top <==> carries + skipped > 0
  {
    Arith.Distribute(top, carries, skipped);
    Arith.DivModUnique(product, top, carries + skipped, r);
    Arith.MulMonotone(top, 1, if carries > 0 then carries else 1);
    Arith.MulMonotone(top, 1, if carries + skipped > 0 then carries + skipped else 1);
  }

  lemma {:induction false} Product(x: seq<Limb>, y: seq<Limb>)
    requires |x| == |y|
    ensures Val(x) * Val(y) == Kept(x, y, |x|) + W(|x|) * Skipped(x, y, |x|)
    ensures Skipped(x, y, |x|) > 0 <==> ReachesPast(x, y)
  {
    ProductSplits(x, y, |x|);
    assert y[..|x|] == y;
    SkippedExactly(x, y, |x|);
  }

  /** The overflow flag alone is exact precisely when the kept products overflow or no skipped one is
      nonzero; so a caller whose nonzero limbs never meet past the width can rely on it. */
  lemma {:induction false} OverflowFlagExact(x: seq<Limb>, y: seq<Limb>)
    requires |x| == |y|
    ensures (Val(x) * Val(y) >= W(|x|) <==> Kept(x, y, |x|) >= W(|x|))
        <==> (Kept(x, y, |x|) >= W(|x|) || !ReachesPast(x, y))
    ensures !ReachesPast(x, y) ==> (Val(x) * Val(y) >= W(|x|) <==> Kept(x, y, |x|) >= W(|x|))
  {
    Product(x, y);
    KeptIsNatural(x, y, |x|);
    var skipped := Skipped(x, y, |x|);
    if skipped > 0 { Arith.MulMonotone(W(|x|), 1, skipped); }
  }

  lemma {:induction false} KeptIsNatural(x: seq<Limb>, y: seq<Limb>, rows: nat)
    requires rows <= |x| == |y|
    ensures Kept(x, y, rows) >= 0
  {
    if rows > 0 {
      var j := rows - 1;
      KeptIsNatural(x, y, j);
      Arith.MulMonotone(y[j], 0, Val(x[..|x| - j]));
      Arith.MulMonotone(W(j), 0, y[j] * Val(x[..|x| - j]));
    }
  }

  /** 2^64 squared in two limbs is 2^128: the product wraps to zero and no carry is seen. */
  lemma {:induction false} OverflowMissed()
    ensures Val([0, 1]) * Val([0, 1]) == W(2) && Kept([0, 1], [0, 1], 2) == 0
  {
    var x: seq<Limb> := [0, 1];
    assert x[..1] == [0] && x[..2] == x && x[..1][..0] == [];
    assert Val(x[..1]) == 0 && Val(x) == W(1) by { WStep(0); }
    assert W(1) * W(1) == W(2) by { WAdd(1, 1); }
    assert Kept(x, x, 1) == 0;
  }
}
