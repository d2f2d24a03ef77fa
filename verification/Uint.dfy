/** Fixed-width unsigned integers over limb vectors of any length: the loops of the
    source, proved against the integers they stand for. */
module Uint {
  import opened Limbs
  import Arith

  // ------------------------------------------------------------- add and subtract

  function AddWords(a: Limb, b: Limb): (r: (Limb, bool))
    ensures a + b == r.0 + if r.1 then 0x1_0000_0000_0000_0000 else 0
  {
    if a + b < 0x1_0000_0000_0000_0000 then (a + b, false) else (a + b - 0x1_0000_0000_0000_0000, true)
  }

  function SubWords(a: Limb, b: Limb): (r: (Limb, bool))
    ensures a + (if r.1 then 0x1_0000_0000_0000_0000 else 0) == b + r.0
  {
    if a >= b then (a - b, false) else (a + 0x1_0000_0000_0000_0000 - b, true)
  }

  /** Two chained additions; at most one of them carries. */
  function CarryingAdd(a: Limb, b: Limb, carry: bool): (r: (Limb, bool))
    ensures a + b + (if carry then 1 else 0) == r.0 + if r.1 then 0x1_0000_0000_0000_0000 else 0
  {
    var (s, c) := AddWords(a, b);
    var (t, d) := AddWords(s, if carry then 1 else 0);
    (t, c != d)
  }

  function BorrowingSub(a: Limb, b: Limb, borrow: bool): (r: (Limb, bool))
    ensures a + (if r.1 then 0x1_0000_0000_0000_0000 else 0) == b + (if borrow then 1 else 0) + r.0
  {
    var (s, c) := SubWords(a, b);
    var (t, d) := SubWords(s, if borrow then 1 else 0);
    (t, c != d)
  }

  /** One column of a carry chain, scaled by its weight. */
  lemma {:induction false} ColumnStep(w: nat, a: nat, b: nat, c: nat, r: nat, c': nat)
    requires a + b + c == r + 0x1_0000_0000_0000_0000 * c'
    ensures w * a + w * b + w * c == w * r + (0x1_0000_0000_0000_0000 * w) * c'
  {
    Arith.Distribute(w, a + b, c);
    Arith.Distribute(w, a, b);
    Arith.Distribute(w, r, 0x1_0000_0000_0000_0000 * c');
    Associate(w, 0x1_0000_0000_0000_0000, c');
  }

  function Bit(b: bool): nat {
    if b then 1 else 0
  }

  /** What a carry out of the i limbs below is worth. */
  function CarryOut(carry: bool, i: nat): nat {
    if carry then W(i) else 0
  }

  /** One column of addition extends the processed prefix of a + b = r (+ carry) by a limb. */
  lemma {:induction false} ColumnValue(x: seq<Limb>, y: seq<Limb>, r: seq<Limb>, i: nat, limb: Limb, carry: bool, carryOut: bool)
    requires i < |x| && i < |y| && |r| == i
    requires x[i] + y[i] + Bit(carry) == limb + 0x1_0000_0000_0000_0000 * Bit(carryOut)
    requires Val(x[..i]) + Val(y[..i]) == Val(r) + CarryOut(carry, i)
    ensures Val(x[..i + 1]) + Val(y[..i + 1]) == Val(r + [limb]) + CarryOut(carryOut, i + 1)
  {
    ColumnStep(W(i), x[i], y[i], Bit(carry), limb, Bit(carryOut));
    ValAppend(r, limb);
    ValTake(x, i);
    ValTake(y, i);
    WStep(i);
  }

  method OverflowingAdd(x: seq<Limb>, y: seq<Limb>) returns (r: seq<Limb>, carry: bool)
    requires |x| == |y|
    ensures |r| == |x|
    ensures Val(x) + Val(y) == Val(r) + CarryOut(carry, |x|)
  {
    var a := new Limb[|x|](i requires 0 <= i < |x| => x[i]);
    carry := false;
    for i := 0 to |x|
      invariant a.Length == |x| && forall k :: i <= k < |x| ==> a[k] == x[k]
      invariant Val(x[..i]) + Val(y[..i]) == Val(a[..i]) + CarryOut(carry, i)
    {
      var (sum, carryOut) := CarryingAdd(a[i], y[i], carry);
      ColumnValue(x, y, a[..i], i, sum, carry, carryOut);
      ghost var before := a[..i];
      a[i] := sum;
      carry := carryOut;
      assert a[..i + 1] == before + [sum];
    }
    assert x[..|x|] == x && y[..|x|] == y && a[..|x|] == a[..];
    r := a[..];
  }

  /** One column of subtraction; `d` is the difference computed so far. */
  lemma {:induction false} BorrowColumn(x: seq<Limb>, y: seq<Limb>, d: seq<Limb>, i: nat, limb: Limb, borrow: bool, borrowOut: bool)
    requires i < |x| && i < |y| && |d| == i
    requires y[i] + limb + Bit(borrow) == x[i] + 0x1_0000_0000_0000_0000 * Bit(borrowOut)
    requires Val(x[..i]) + CarryOut(borrow, i) == Val(y[..i]) + Val(d)
    ensures Val(x[..i + 1]) + CarryOut(borrowOut, i + 1) == Val(y[..i + 1]) + Val(d + [limb])
  {
    ColumnStep(W(i), y[i], limb, Bit(borrow), x[i], Bit(borrowOut));
    ValAppend(d, limb);
    ValTake(x, i);
    ValTake(y, i);
    WStep(i);
  }

  method OverflowingSub(x: seq<Limb>, y: seq<Limb>) returns (r: seq<Limb>, borrow: bool)
    requires |x| == |y|
    ensures |r| == |x|
    ensures Val(x) + CarryOut(borrow, |x|) == Val(y) + Val(r)
  {
    var a := new Limb[|x|](i requires 0 <= i < |x| => x[i]);
    borrow := false;
    for i := 0 to |x|
      invariant a.Length == |x| && forall k :: i <= k < |x| ==> a[k] == x[k]
      invariant Val(x[..i]) + CarryOut(borrow, i) == Val(y[..i]) + Val(a[..i])
    {
      var (difference, borrowOut) := BorrowingSub(a[i], y[i], borrow);
      BorrowColumn(x, y, a[..i], i, difference, borrow, borrowOut);
      ghost var before := a[..i];
      a[i] := difference;
      borrow := borrowOut;
      assert a[..i + 1] == before + [difference];
    }
    assert x[..|x|] == x && y[..|x|] == y && a[..|x|] == a[..];
    r := a[..];
  }

  // ------------------------------------------------------------------- comparison

  /** The highest differing limb decides. */
  lemma {:induction false} HighLimbDecides(x: seq<Limb>, y: seq<Limb>, i: nat)
    requires |x| == |y| && i < |x| && x[i] < y[i] && x[i + 1..] == y[i + 1..]
    ensures Val(x) < Val(y)
  {
    ValSplit(x, i + 1);
    ValSplit(y, i + 1);
    ValTake(x, i);
    ValTake(y, i);
    ValBound(x[..i]);
    Arith.MulMonotone(W(i), x[i] + 1, y[i]);
    Arith.Distribute(W(i), x[i], 1);
  }

  /** Compare from the most significant limb: negative, zero or positive. */
  method Compare(x: seq<Limb>, y: seq<Limb>) returns (order: int)
    requires |x| == |y|
    ensures order < 0 <==> Val(x) < Val(y)
    ensures order > 0 <==> Val(x) > Val(y)
  {
    var i := |x|;
    while i > 0
      invariant 0 <= i <= |x|
      invariant x[i..] == y[i..]
    {
      i := i - 1;
      if x[i] < y[i] {
        HighLimbDecides(x, y, i);
        return -1;
      }
      if x[i] > y[i] {
        HighLimbDecides(y, x, i);
        return 1;
      }
      assert x[i..] == [x[i]] + x[i + 1..] && y[i..] == [y[i]] + y[i + 1..];
    }
    assert x == y;
    return 0;
  }

  // -------------------------------------------------------------------- bit length

  lemma {:induction false} WordBits(x: Limb)
    requires x > 0
    ensures 0 < BitLen(x) <= 64
  {
    BitLenBounds(x);
    Pow2Values();
    if BitLen(x) > 64 { Pow2Monotone(64, BitLen(x) - 1); }
  }

  /** A nonzero top digit over a smaller rest fixes the bit length. */
  lemma {:induction false} TopDigitBits(e: nat, low: nat, top: nat)
    requires top > 0 && low < Pow2(e)
    ensures BitLen(low + Pow2(e) * top) == e + BitLen(top)
  {
    BitLenBounds(top);
    var k, p := BitLen(top), Pow2(e);
    Pow2Add(e, k - 1);
    Pow2Add(e, k);
    Arith.MulMonotone(p, Pow2(k - 1), top);
    Arith.MulMonotone(p, top + 1, Pow2(k));
    Arith.Distribute(p, top, 1);
    BitLenUnique(low + p * top, e + k);
  }

  lemma {:induction false} ZerosOnTop(x: seq<Limb>, i: nat)
    requires i <= |x| && forall k :: i <= k < |x| ==> x[k] == 0
    ensures Val(x) == Val(x[..i])
  {
    ValSplit(x, i);
    ValZero(x[i..]);
  }

  lemma {:induction false} TopLimbBits(x: seq<Limb>, i: nat)
    requires i < |x| && x[i] > 0 && forall k :: i < k < |x| ==> x[k] == 0
    ensures BitLen(Val(x)) == 64 * i + BitLen(x[i])
  {
    ZerosOnTop(x, i + 1);
    ValTake(x, i);
    ValBound(x[..i]);
    TopDigitBits(64 * i, Val(x[..i]), x[i]);
  }

  /** `leading_zeros` of a word is 64 minus its bit length. */
  method Bits(x: seq<Limb>) returns (n: nat)
    ensures n == BitLen(Val(x)) <= 64 * |x|
  {
    var i := |x|;
    while i > 0
      invariant 0 <= i <= |x| && forall k :: i <= k < |x| ==> x[k] == 0
    {
      i := i - 1;
      if x[i] != 0 {
        TopLimbBits(x, i);
        WordBits(x[i]);
        return 64 * (i + 1) - (64 - BitLen(x[i]));
      }
    }
    ValZero(x);
    return 0;
  }

  // ------------------------------------------------------------------------ shifts

  lemma {:induction false} Commute(a: int, b: int)
    ensures a * b == b * a
  {
  }

  /** Multiplying x by p where p * q is the base: the quotient by q leaves the word. */
  lemma {:induction false} SplitProduct(x: nat, p: nat, q: nat, base: nat)
    requires p * q == base && x < base && p > 0 && q > 0
    ensures x * p == base * (x / q) + p * (x % q)
    ensures p * (x % q) < base && 0 <= x / q < p
  {
    var hi, lo := x / q, x % q;
    Arith.QuotientFacts(x, q);
    SplitAlgebra(x, p, q, hi, lo);
    Arith.MulMonotone(p, lo + 1, q);
    Arith.Distribute(p, lo, 1);
    if hi >= p {
      Arith.MulMonotone(q, p, hi);
      Commute(p, q);
    }
  }

  lemma {:induction false} SplitAlgebra(x: nat, p: nat, q: nat, hi: nat, lo: nat)
    requires x == q * hi + lo
    ensures x * p == (p * q) * hi + p * lo
  {
    Commute(x, p);
    Arith.Distribute(p, q * hi, lo);
    Associate(p, q, hi);
  }

  /** Splitting x * 2^b at the word boundary: the part pushed out is x >> (64 - b). */
  lemma {:induction false} ShiftOut(x: Limb, b: nat)
    requires 0 < b < 64
    ensures x * Pow2(b) == WordShl(x, b) + 0x1_0000_0000_0000_0000 * WordShr(x, 64 - b)
    ensures WordShl(x, b) == Pow2(b) * (x % Pow2(64 - b)) && WordShr(x, 64 - b) < Pow2(b)
  {
    var p, q := Pow2(b), Pow2(64 - b);
    assert p * q == 0x1_0000_0000_0000_0000 by {
      Pow2Add(b, 64 - b);
      Pow2Values();
    }
    SplitProduct(x, p, q, 0x1_0000_0000_0000_0000);
    Arith.DivModUnique(x * p, 0x1_0000_0000_0000_0000, x / q, p * (x % q));
  }

  /** The limb that a left shift by b < 64 bits leaves at position j. */
  function ShlDigit(x: seq<Limb>, b: nat, j: nat): Limb
    requires j < |x| && b < 64
  {
    if j > 0 && b > 0 then
      ShiftOut(x[j], b);
      ShiftOut(x[j - 1], b);
      ShlDigitFits(x[j], x[j - 1], b);
      WordShl(x[j], b) + WordShr(x[j - 1], 64 - b)
    else WordShl(x[j], b)
  }

  /** A multiple of p below p * q leaves room for any value below p. */
  lemma {:induction false} RoomBelow(p: nat, q: nat, k: nat, y: nat)
    requires p > 0 && k < q && y < p
    ensures p * k + y < p * q && (p * k) % p == 0
  {
    Arith.MulMonotone(p, k + 1, q);
    Arith.Distribute(p, k, 1);
    Arith.ModAddMultiple(k, 0, p);
  }

  lemma {:induction false} ShlDigitFits(hi: Limb, lo: Limb, b: nat)
    requires 0 < b < 64
    ensures WordShl(hi, b) + WordShr(lo, 64 - b) < 0x1_0000_0000_0000_0000
    ensures Or(WordShl(hi, b), WordShr(lo, 64 - b)) == WordShl(hi, b) + WordShr(lo, 64 - b)
  {
    var p, q := Pow2(b), Pow2(64 - b);
    assert p * q == 0x1_0000_0000_0000_0000 by {
      Pow2Add(b, 64 - b);
      Pow2Values();
    }
    ShiftOut(hi, b);
    ShiftOut(lo, b);
    RoomBelow(p, q, hi % q, WordShr(lo, 64 - b));
    OrIsAdd(WordShl(hi, b), WordShr(lo, 64 - b), b);
  }

  /** What has been pushed above position m after shifting the first m limbs. */
  function ShlCarry(x: seq<Limb>, b: nat, m: nat): nat
    requires m <= |x| && b < 64
  {
    if m > 0 && b > 0 then WordShr(x[m - 1], 64 - b) else 0
  }

  lemma {:induction false} WordShlZero(x: Limb)
    ensures WordShl(x, 0) == x
  {
    Arith.SmallMod(x, 0x1_0000_0000_0000_0000);
  }

  lemma {:induction false} ShlColumn(x: seq<Limb>, b: nat, m: nat)
    requires m < |x| && b < 64
    ensures x[m] * Pow2(b) + ShlCarry(x, b, m) == ShlDigit(x, b, m) + 0x1_0000_0000_0000_0000 * ShlCarry(x, b, m + 1)
  {
    if b == 0 { WordShlZero(x[m]); } else { ShiftOut(x[m], b); }
  }

  lemma {:induction false} ShlStep(low: nat, x: nat, p: nat, w: nat, d: nat, c: nat, digit: nat, c': nat)
    requires low * p == d + w * c && x * p + c == digit + 0x1_0000_0000_0000_0000 * c'
    ensures (low + w * x) * p == d + w * digit + (0x1_0000_0000_0000_0000 * w) * c'
  {
    ColumnStep(w, x * p, c, 0, digit, c');
    Associate(w, x, p);
    Commute(p, low + w * x);
    Arith.Distribute(p, low, w * x);
    Commute(p, low);
    Commute(p, w * x);
  }

  /** The shifted digits carry the shifted value, up to what was pushed out on top. */
  lemma {:induction false} ShlValue(x: seq<Limb>, b: nat, d: seq<Limb>, m: nat)
    requires b < 64 && m <= |d| <= |x| && forall j :: 0 <= j < |d| ==> d[j] == ShlDigit(x, b, j)
    ensures Val(x[..m]) * Pow2(b) == Val(d[..m]) + W(m) * ShlCarry(x, b, m)
  {
    if m > 0 {
      var n := m - 1;
      ShlValue(x, b, d, n);
      ValTake(x, n);
      ValTake(d, n);
      WStep(n);
      ShlColumn(x, b, n);
      ShlStep(Val(x[..n]), x[n], Pow2(b), W(n), Val(d[..n]), ShlCarry(x, b, n), d[n], ShlCarry(x, b, m));
    }
  }

  /** Placing the digits `words` positions up multiplies by the whole shift, modulo the width. */
  lemma {:induction false} ShlWhole(x: seq<Limb>, words: nat, b: nat, d: seq<Limb>)
    requires words < |x| && b < 64 && |d| == |x| - words && forall j :: 0 <= j < |d| ==> d[j] == ShlDigit(x, b, j)
    ensures Val(Zeros(words) + d) == (Val(x) * Pow2(64 * words + b)) % W(|x|)
  {
    var m, p, w := |d|, Pow2(b), W(words);
    var low, high, c := Val(x[..m]), Val(x[m..]), ShlCarry(x, b, m);
    var k := c + high * p;
    assert Val(x) * (w * p) == W(|x|) * k + w * Val(d) by {
      ValSplit(x, m);
      ShlValue(x, b, d, m);
      assert d[..m] == d;
      WAdd(words, m);
      ShlAlgebra(low, high, p, w, W(m), Val(d), c);
    }
    assert Val(Zeros(words) + d) == w * Val(d) by {
      ValConcat(Zeros(words), d);
      ValZeros(words);
    }
    assert w * Val(d) < W(|x|) by { ValBound(Zeros(words) + d); }
    Pow2Add(64 * words, b);
    Arith.DivModUnique(Val(x) * (w * p), W(|x|), k, w * Val(d));
  }

  lemma {:induction false} ShlAlgebra(low: nat, high: nat, p: nat, w: nat, v: nat, d: nat, c: nat)
    requires low * p == d + v * c
    ensures (low + v * high) * (w * p) == (w * v) * (c + high * p) + w * d
  {
    var x := low + v * high;
    Commute(w, p);
    Associate(x, p, w);
    Commute(x, p);
    Arith.Distribute(p, low, v * high);
    Commute(p, low);
    Associate(p, v, high);
    Commute(p, v);
    Associate(v, p, high);
    Commute(p, high);
    Arith.Distribute(v, c, high * p);
    assert x * p == d + v * (c + high * p);
    Commute(x * p, w);
    Arith.Distribute(w, d, v * (c + high * p));
    Associate(w, v, c + high * p);
  }

  method OverflowingShl(x: seq<Limb>, shift: nat) returns (r: seq<Limb>, overflows: bool)
    requires x != []
    ensures |r| == |x| && (overflows <==> shift >= 64 * |x|)
    ensures Val(r) == (Val(x) * Pow2(shift % (64 * |x|))) % W(|x|)
  {
    overflows := shift >= 64 * |x|;
    r := ShlWithin(x, shift % (64 * |x|));
  }

  method ShlWithin(x: seq<Limb>, s: nat) returns (r: seq<Limb>)
    requires s < 64 * |x|
    ensures |r| == |x| && Val(r) == (Val(x) * Pow2(s)) % W(|x|)
  {
    r := ShlLoops(x, s / 64, s % 64);
    assert r == Zeros(s / 64) + r[s / 64..];
    ShlWhole(x, s / 64, s % 64, r[s / 64..]);
  }

  /** The two loops of the left shift, by whole words and then by the spilled bits. */
  method ShlLoops(x: seq<Limb>, words: nat, bits: nat) returns (r: seq<Limb>)
    requires words < |x| && bits < 64
    ensures |r| == |x| && (forall k :: 0 <= k < words ==> r[k] == 0)
    ensures forall k :: words <= k < |x| ==> r[k] == ShlDigit(x, bits, k - words)
  {
    var ret := new Limb[|x|](i => 0);
    for i := words to |x|
      invariant ret.Length == |x| && forall k :: 0 <= k < words ==> ret[k] == 0
      invariant forall k :: words <= k < i ==> ret[k] == WordShl(x[k - words], bits)
    {
      ret[i] := WordShl(x[i - words], bits);
    }
    if bits > 0 {
      for i := words + 1 to |x|
        invariant ret.Length == |x| && forall k :: 0 <= k < words ==> ret[k] == 0
        invariant forall k :: words <= k < i ==> ret[k] == ShlDigit(x, bits, k - words)
        invariant forall k :: i <= k < |x| ==> ret[k] == WordShl(x[k - words], bits)
      {
        ShlDigitFits(x[i - words], x[i - 1 - words], bits);
        ret[i] := Or(ret[i], WordShr(x[i - 1 - words], 64 - bits));
      }
    }
    r := ret[..];
  }

  // ------------------------------------------------------------------ right shift

  /** The limb that a right shift by b < 64 bits leaves at position j. */
  function ShrDigit(x: seq<Limb>, b: nat, j: nat): Limb
    requires j < |x| && b < 64
  {
    if j + 1 < |x| && b > 0 then
      ShrDigitFits(x[j], x[j + 1], b);
      WordShr(x[j], b) + WordShl(x[j + 1], 64 - b)
    else WordShr(x[j], b)
  }

  lemma {:induction false} ShrDigitFits(lo: Limb, hi: Limb, b: nat)
    requires 0 < b < 64
    ensures WordShr(lo, b) + WordShl(hi, 64 - b) < 0x1_0000_0000_0000_0000
    ensures Or(WordShr(lo, b), WordShl(hi, 64 - b)) == WordShr(lo, b) + WordShl(hi, 64 - b)
  {
    ShlDigitFits(hi, lo, 64 - b);
    assert 64 - (64 - b) == b;
    OrCommutes(WordShr(lo, b), WordShl(hi, 64 - b));
  }

  lemma {:induction false} OrCommutes(a: nat, b: nat)
    ensures Or(a, b) == Or(b, a)
  {
    if a != 0 && b != 0 { OrCommutes(a / 2, b / 2); }
  }

  /** The bits of limb j that a right shift by b moves down into limb j - 1. */
  function Spill(x: seq<Limb>, b: nat, j: nat): nat
    requires b < 64
  {
    if j < |x| then x[j] % Pow2(b) else 0
  }

  lemma {:induction false} ShrParts(x: Limb, b: nat)
    ensures Pow2(b) * WordShr(x, b) + x % Pow2(b) == x
  {
  }

  /** The bits pushed up by 64 - b come back as a multiple of the base. */
  lemma {:induction false} SpillUp(x: Limb, b: nat)
    requires 0 < b < 64
    ensures Pow2(b) * WordShl(x, 64 - b) == 0x1_0000_0000_0000_0000 * (x % Pow2(b))
  {
    var p, q := Pow2(b), Pow2(64 - b);
    assert WordShl(x, 64 - b) == q * (x % p) by {
      ShiftOut(x, 64 - b);
      assert 64 - (64 - b) == b;
    }
    assert p * q == 0x1_0000_0000_0000_0000 by {
      Pow2Add(b, 64 - b);
      Pow2Values();
    }
    ScaleBack(p, q, WordShl(x, 64 - b), x % p);
  }

  lemma {:induction false} ScaleBack(p: nat, q: nat, v: nat, low: nat)
    requires p * q == 0x1_0000_0000_0000_0000 && v == q * low
    ensures p * v == 0x1_0000_0000_0000_0000 * low
  {
    Associate(p, q, low);
  }

  lemma {:induction false} ShrColumn(x: seq<Limb>, b: nat, j: nat)
    requires j < |x| && b < 64
    ensures Pow2(b) * ShrDigit(x, b, j) + Spill(x, b, j) == x[j] + 0x1_0000_0000_0000_0000 * Spill(x, b, j + 1)
  {
    ShrParts(x[j], b);
    if b == 0 {
      assert Pow2(0) == 1;
    } else if j + 1 < |x| {
      SpillUp(x[j + 1], b);
      Arith.Distribute(Pow2(b), WordShr(x[j], b), WordShl(x[j + 1], 64 - b));
    }
  }

  /** Multiplying the shifted digits back up gives the limbs, less the bits below
      and plus the bits borrowed from above. */
  lemma {:induction false} ShrValue(x: seq<Limb>, b: nat, d: seq<Limb>, m: nat)
    requires b < 64 && m <= |d| == |x| && forall j :: 0 <= j < |d| ==> d[j] == ShrDigit(x, b, j)
    ensures Pow2(b) * Val(d[..m]) + Spill(x, b, 0) == Val(x[..m]) + W(m) * Spill(x, b, m)
  {
    WStep(0);
    if m > 0 {
      var n := m - 1;
      ShrValue(x, b, d, n);
      ValTake(x, n);
      ValTake(d, n);
      WStep(n);
      ShrColumn(x, b, n);
      ShrStep(Pow2(b), W(n), Val(d[..n]), Val(x[..n]), d[n], x[n], Spill(x, b, n), Spill(x, b, m), Spill(x, b, 0));
    }
  }

  lemma {:induction false} ShrStep(p: nat, w: nat, vd: nat, vx: nat, d: nat, x: nat, spill: nat, spill': nat, first: nat)
    requires p * vd + first == vx + w * spill
    requires p * d + spill == x + 0x1_0000_0000_0000_0000 * spill'
    ensures p * (vd + w * d) + first == vx + w * x + (0x1_0000_0000_0000_0000 * w) * spill'
  {
    ColumnStep(w, p * d, spill, 0, x, spill');
    Associate(w, p, d);
    Commute(w, p);
    Associate(p, w, d);
    Arith.Distribute(p, vd, w * d);
  }

  lemma {:induction false} ShrWhole(x: seq<Limb>, words: nat, b: nat, d: seq<Limb>)
    requires words < |x| && b < 64 && |d| == |x| - words
    requires forall j :: 0 <= j < |d| ==> d[j] == ShrDigit(x[words..], b, j)
    ensures Val(d + Zeros(words)) == Val(x) / Pow2(64 * words + b)
  {
    var z, p, w := x[words..], Pow2(b), W(words);
    var spill, low := Spill(z, b, 0), Val(x[..words]);
    assert Val(d + Zeros(words)) == Val(d) by {
      ValConcat(d, Zeros(words));
      ValZeros(words);
    }
    assert p * Val(d) + spill == Val(z) by {
      ShrValue(z, b, d, |d|);
      assert d[..|d|] == d && z[..|d|] == z;
    }
    assert Val(x) == low + w * Val(z) && low < w by {
      ValSplit(x, words);
      ValBound(x[..words]);
    }
    Pow2Add(64 * words, b);
    ShrAlgebra(Val(x), low, w, p, Val(d), spill);
  }

  lemma {:induction false} ShrAlgebra(x: nat, low: nat, w: nat, p: nat, d: nat, spill: nat)
    requires p > 0 && w > 0 && low < w && spill < p && x == low + w * (p * d + spill)
    ensures x / (w * p) == d
  {
    Arith.Distribute(w, p * d, spill);
    Associate(w, p, d);
    Arith.MulMonotone(w, spill + 1, p);
    Arith.Distribute(w, spill, 1);
    Arith.MulMonotone(w, 0, spill);
    Arith.MulMonotone(w, 1, p);
    Arith.DivModUnique(x, w * p, d, w * spill + low);
  }

  method OverflowingShr(x: seq<Limb>, shift: nat) returns (r: seq<Limb>, overflows: bool)
    requires x != []
    ensures |r| == |x| && (overflows <==> shift >= 64 * |x|)
    ensures Val(r) == Val(x) / Pow2(shift % (64 * |x|))
  {
    overflows := shift >= 64 * |x|;
    r := ShrWithin(x, shift % (64 * |x|));
  }

  method ShrWithin(x: seq<Limb>, s: nat) returns (r: seq<Limb>)
    requires s < 64 * |x|
    ensures |r| == |x| && Val(r) == Val(x) / Pow2(s)
  {
    var n := |x| - s / 64;
    r := ShrLoops(x, s / 64, s % 64);
    assert r == r[..n] + Zeros(s / 64);
    ShrWhole(x, s / 64, s % 64, r[..n]);
  }

  method ShrLoops(x: seq<Limb>, words: nat, bits: nat) returns (r: seq<Limb>)
    requires words < |x| && bits < 64
    ensures |r| == |x| && (forall k :: |x| - words <= k < |x| ==> r[k] == 0)
    ensures forall k :: 0 <= k < |x| - words ==> r[k] == ShrDigit(x[words..], bits, k)
  {
    ghost var z := x[words..];
    var ret := new Limb[|x|](i => 0);
    for i := words to |x|
      invariant ret.Length == |x| && forall k :: i - words <= k < |x| ==> ret[k] == 0
      invariant forall k :: 0 <= k < i - words ==> ret[k] == WordShr(z[k], bits)
    {
      ret[i - words] := WordShr(x[i], bits);
    }
    if bits > 0 {
      for i := words + 1 to |x|
        invariant ret.Length == |x| && forall k :: |x| - words <= k < |x| ==> ret[k] == 0
        invariant forall k :: 0 <= k < i - words - 1 ==> ret[k] == ShrDigit(z, bits, k)
        invariant forall k :: i - words - 1 <= k < |x| - words ==> ret[k] == WordShr(z[k], bits)
      {
        ShrDigitFits(z[i - words - 1], z[i - words], bits);
        ret[i - words - 1] := Or(ret[i - words - 1], WordShl(x[i], 64 - bits));
      }
    }
    r := ret[..];
  }
}
