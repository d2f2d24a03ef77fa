/** Powers of two, machine words and the value of a little-endian limb vector. */
module Limbs {
  import Arith

  /** A 64-bit word.  The base 2^64 is written out so that it stays a numeral to the solver. */
  type Limb = x: nat | x < 0x1_0000_0000_0000_0000

  function Pow2(n: nat): (p: nat)
    ensures p > 0
  {
    if n == 0 then 1 else 2 * Pow2(n - 1)
  }

  lemma {:induction false} Pow2Add(a: nat, b: nat)
    ensures Pow2(a + b) == Pow2(a) * Pow2(b)
  {
    if a > 0 {
      Pow2Add(a - 1, b);
      Associate(2, Pow2(a - 1), Pow2(b));
    }
  }

  /** x doubled s times; it keeps products with powers of two linear. */
  function Shifted(x: nat, s: nat): (r: nat)
    ensures r >= x
  {
    if s == 0 then x else 2 * Shifted(x, s - 1)
  }

  lemma {:induction false} ShiftedIs(x: nat, s: nat)
    ensures Shifted(x, s) == x * Pow2(s)
  {
    if s > 0 {
      ShiftedIs(x, s - 1);
      Associate(x, 2, Pow2(s - 1));
      Associate(2, x, Pow2(s - 1));
    }
  }

  lemma {:induction false} ShiftedMonotone(x: nat, y: nat, s: nat)
    requires x <= y
    ensures Shifted(x, s) <= Shifted(y, s)
    ensures x < y ==> Shifted(x, s) < Shifted(y, s)
  {
    if s > 0 { ShiftedMonotone(x, y, s - 1); }
  }

  lemma {:induction false} ShiftedPow2(k: nat, s: nat)
    ensures Shifted(Pow2(k), s) == Pow2(k + s)
  {
    if s > 0 { ShiftedPow2(k, s - 1); }
  }

  lemma {:induction false} ShiftedAdd(x: nat, a: nat, b: nat)
    ensures Shifted(Shifted(x, a), b) == Shifted(x, a + b)
  {
    if b > 0 { ShiftedAdd(x, a, b - 1); }
  }

  lemma {:induction false} ShiftedSum(x: nat, y: nat, s: nat)
    ensures Shifted(x + y, s) == Shifted(x, s) + Shifted(y, s)
  {
    if s > 0 { ShiftedSum(x, y, s - 1); }
  }

  lemma {:induction false} SameAfter(x: nat, y: nat, m: nat)
    ensures x <= y <==> Shifted(x, m) <= Shifted(y, m)
    ensures x >= y <==> Shifted(x, m) >= Shifted(y, m)
  {
    if x <= y { ShiftedMonotone(x, y, m); }
    if y <= x { ShiftedMonotone(y, x, m); }
  }

  lemma {:induction false} ShiftedDouble(x: nat, s: nat)
    ensures Shifted(2 * x, s) == 2 * Shifted(x, s)
  {
    if s > 0 { ShiftedDouble(x, s - 1); }
  }

  /** x halved s times, rounding down. */
  function Halved(x: nat, s: nat): (r: nat)
    ensures r <= x
  {
    if s == 0 then x else Halved(x, s - 1) / 2
  }

  lemma {:induction false} HalvedBounds(x: nat, s: nat)
    ensures Shifted(Halved(x, s), s) <= x < Shifted(Halved(x, s) + 1, s)
  {
    if s > 0 {
      var h := Halved(x, s - 1);
      HalvedBounds(x, s - 1);
      ShiftedDouble(h / 2, s - 1);
      ShiftedDouble(h / 2 + 1, s - 1);
      ShiftedMonotone(2 * (h / 2), h, s - 1);
      ShiftedMonotone(h + 1, 2 * (h / 2 + 1), s - 1);
    }
  }

  lemma {:induction false} HalvedShifted(x: nat, s: nat)
    ensures Halved(Shifted(x, s), s) == x
  {
    HalvedBounds(Shifted(x, s), s);
    var h := Halved(Shifted(x, s), s);
    SameAfter(h, x, s);
    SameAfter(h + 1, x, s);
  }

  lemma {:induction false} HalvedIs(x: nat, s: nat)
    ensures Halved(x, s) == x / Pow2(s)
  {
    var h := Halved(x, s);
    HalvedBounds(x, s);
    ShiftedIs(h, s);
    ShiftedIs(h + 1, s);
    QuotientIs(x, Pow2(s), h);
  }

  lemma {:induction false} QuotientIs(x: nat, p: nat, q: nat)
    requires p > 0 && q * p <= x < (q + 1) * p
    ensures x / p == q
  {
    Arith.Distribute(p, q, 1);
    Arith.DivModUnique(x, p, q, x - p * q);
  }

  lemma {:induction false} Associate(a: int, b: int, c: int)
    ensures a * (b * c) == (a * b) * c
  {
  }

  lemma {:induction false} Pow2Monotone(a: nat, b: nat)
    requires a <= b
    ensures Pow2(a) <= Pow2(b)
    ensures a < b ==> 2 * Pow2(a) <= Pow2(b)
  {
    if a < b { Pow2Monotone(a, b - 1); }
  }

  lemma {:induction false} Pow2Values()
    ensures Pow2(1) == 2 && Pow2(8) == 256 && Pow2(10) == 1024 && Pow2(11) == 2048 && Pow2(16) == 65536
    ensures Pow2(23) == 0x80_0000 && Pow2(24) == 0x100_0000 && Pow2(32) == 0x1_0000_0000
    ensures Pow2(52) == 0x10_0000_0000_0000 && Pow2(53) == 0x20_0000_0000_0000
    ensures Pow2(63) == 0x8000_0000_0000_0000 && Pow2(64) == 0x1_0000_0000_0000_0000
  {
    assert Pow2(8) == 256;
    Pow2Add(8, 2);
    Pow2Add(8, 3);
    Pow2Add(8, 8);
    Pow2Add(16, 7);
    Pow2Add(16, 8);
    Pow2Add(16, 16);
    Pow2Add(32, 20);
    Pow2Add(16, 4);
    Pow2Add(52, 1);
    Pow2Add(53, 10);
    Pow2Add(32, 32);
  }

  // -------------------------------------------------------------- machine words

  /** Bitwise or. */
  function Or(a: nat, b: nat): nat {
    if a == 0 then b
    else if b == 0 then a
    else (if a % 2 == 1 || b % 2 == 1 then 1 else 0) + 2 * Or(a / 2, b / 2)
  }

  /** Or-ing bits into an empty low range is addition. */
  lemma {:induction false} OrIsAdd(a: nat, b: nat, k: nat)
    requires a % Pow2(k) == 0 && b < Pow2(k)
    ensures Or(a, b) == a + b
    decreases k
  {
    if a != 0 && b != 0 {
      assert k > 0;
      var q := a / Pow2(k);
      assert a == Pow2(k) * q;
      Associate(2, Pow2(k - 1), q);
      assert a == 2 * (Pow2(k - 1) * q);
      assert a / 2 == Pow2(k - 1) * q && a % 2 == 0;
      Arith.ModAddMultiple(q, 0, Pow2(k - 1));
      OrIsAdd(a / 2, b / 2, k - 1);
    }
  }

  lemma {:induction false} OrZero(a: nat, b: nat)
    ensures Or(a, b) == 0 <==> a == 0 && b == 0
  {
    if a != 0 && b != 0 { OrZero(a / 2, b / 2); }
  }

  /** Left shift of a word drops the bits pushed past the top. */
  function WordShl(x: Limb, s: nat): (r: Limb) {
    (x * Pow2(s)) % 0x1_0000_0000_0000_0000
  }

  function WordShr(x: Limb, s: nat): (r: Limb)
    ensures r <= x
  {
    Arith.Quotient(x, Pow2(s))
  }

  /** The number of significant bits. */
  function BitLen(n: nat): nat {
    if n == 0 then 0 else 1 + BitLen(n / 2)
  }

  lemma {:induction false} BitLenBounds(n: nat)
    ensures n < Pow2(BitLen(n))
    ensures n > 0 ==> BitLen(n) > 0 && Pow2(BitLen(n) - 1) <= n
  {
    if n > 0 { BitLenBounds(n / 2); }
  }

  /** The bit length is pinned by its two bounds. */
  lemma {:induction false} BitLenUnique(n: nat, k: nat)
    requires k > 0 && Pow2(k - 1) <= n < Pow2(k)
    ensures BitLen(n) == k
  {
    BitLenBounds(n);
    if BitLen(n) < k { Pow2Monotone(BitLen(n), k - 1); }
    if BitLen(n) > k { Pow2Monotone(k, BitLen(n) - 1); }
  }

  // ------------------------------------------------------------------- values

  /** Weight of limb position i. */
  function W(i: nat): (p: nat)
    ensures p > 0
  {
    Pow2(64 * i)
  }

  lemma {:induction false} WStep(i: nat)
    ensures W(0) == 1 && W(i + 1) == 0x1_0000_0000_0000_0000 * W(i)
  {
    Pow2Values();
    assert 64 * (i + 1) == 64 + 64 * i;
    Pow2Add(64, 64 * i);
  }

  lemma {:induction false} WAdd(a: nat, b: nat)
    ensures W(a + b) == W(a) * W(b)
  {
    assert 64 * (a + b) == 64 * a + 64 * b;
    Pow2Add(64 * a, 64 * b);
  }

  function Val(s: seq<Limb>): nat {
    if s == [] then 0 else Val(s[..|s| - 1]) + W(|s| - 1) * s[|s| - 1]
  }

  lemma {:induction false} ValAppend(s: seq<Limb>, x: Limb)
    ensures Val(s + [x]) == Val(s) + W(|s|) * x
  {
    assert (s + [x])[..|s|] == s;
  }

  lemma {:induction false} ValTake(s: seq<Limb>, i: nat)
    requires i < |s|
    ensures Val(s[..i + 1]) == Val(s[..i]) + W(i) * s[i]
  {
    assert s[..i + 1] == s[..i] + [s[i]];
    ValAppend(s[..i], s[i]);
  }

  lemma {:induction false} ValBound(s: seq<Limb>)
    ensures Val(s) < W(|s|)
  {
    if s != [] {
      var n := |s| - 1;
      ValBound(s[..n]);
      WStep(n);
      Arith.MulMonotone(W(n), s[n], 0x1_0000_0000_0000_0000 - 1);
      Arith.Distribute(W(n), 0x1_0000_0000_0000_0000 - 1, 1);
    }
  }

  lemma {:induction false} ValConcat(s: seq<Limb>, t: seq<Limb>)
    ensures Val(s + t) == Val(s) + W(|s|) * Val(t)
  {
    if t == [] {
      assert s + t == s;
    } else {
      var n := |t| - 1;
      ValConcat(s, t[..n]);
      assert (s + t)[..|s| + n] == s + t[..n];
      assert 64 * (|s| + n) == 64 * |s| + 64 * n;
      Pow2Add(64 * |s|, 64 * n);
      Arith.Distribute(W(|s|), Val(t[..n]), W(n) * t[n]);
      Associate(W(|s|), W(n), t[n]);
    }
  }

  lemma {:induction false} ValSplit(s: seq<Limb>, i: nat)
    requires i <= |s|
    ensures Val(s) == Val(s[..i]) + W(i) * Val(s[i..])
  {
    assert s == s[..i] + s[i..];
    ValConcat(s[..i], s[i..]);
  }

  lemma {:induction false} ValZero(s: seq<Limb>)
    ensures Val(s) == 0 <==> forall i :: 0 <= i < |s| ==> s[i] == 0
  {
    if s != [] {
      var n := |s| - 1;
      ValZero(s[..n]);
      assert s == s[..n] + [s[n]];
      if s[n] != 0 { Arith.MulMonotone(W(n), 1, s[n]); }
      assert forall i :: 0 <= i < n ==> s[i] == s[..n][i];
    }
  }

  /** Replacing one limb changes the value by the difference at its weight. */
  lemma {:induction false} ValUpdate(s: seq<Limb>, i: nat, x: Limb)
    requires i < |s|
    ensures Val(s[i := x]) == Val(s) - W(i) * s[i] + W(i) * x
  {
    var t := s[i := x];
    ValSplit(s, i + 1);
    ValSplit(t, i + 1);
    ValTake(s, i);
    ValTake(t, i);
    assert t[..i] == s[..i] && t[i + 1..] == s[i + 1..];
  }

  function Zeros(n: nat): (s: seq<Limb>)
    ensures |s| == n && forall i :: 0 <= i < n ==> s[i] == 0
  {
    seq(n, i => 0)
  }

  lemma {:induction false} ValZeros(n: nat)
    ensures Val(Zeros(n)) == 0
  {
    ValZero(Zeros(n));
  }
}
