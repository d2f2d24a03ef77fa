/** Bitwise long division. */
module UintDiv {
  import opened Limbs
  import opened Uint
  import Arith

  /** The lowest v bits of x are clear. */
  predicate LowClear(x: nat, v: nat) {
    v == 0 || (x % 2 == 0 && LowClear(x / 2, v - 1))
  }

  lemma {:induction false} LowClearIs(x: nat, v: nat)
    ensures LowClear(x, v) <==> x % Pow2(v) == 0
  {
    if v > 0 {
      LowClearIs(x / 2, v - 1);
      EvenMod(x, Pow2(v - 1));
    }
  }

  lemma {:induction false} EvenMod(x: nat, p: nat)
    requires p > 0
    ensures x % (2 * p) == 0 <==> x % 2 == 0 && (x / 2) % p == 0
  {
    var k, m := x / (2 * p), (x / 2) / p;
    if x % (2 * p) == 0 {
      assert x == (2 * p) * k;
      assert x == 2 * (p * k);
      Arith.ModAddMultiple(k, 0, p);
    } else if x % 2 == 0 && (x / 2) % p == 0 {
      assert x / 2 == p * m;
      assert x == (2 * p) * m;
      Arith.ModAddMultiple(m, 0, 2 * p);
    }
  }

  /** Every bit of q at or below position `shift` is still clear. */
  ghost predicate ClearThrough(q: seq<Limb>, shift: nat) {
    && shift / 64 < |q|
    && LowClear(q[shift / 64], shift % 64 + 1)
    && forall k :: 0 <= k < shift / 64 ==> q[k] == 0
  }

  /** A multiple of 2p is a multiple of p, and so is p more. */
  lemma {:induction false} EvenMultiple(q: nat, p: nat)
    requires p > 0 && q % (2 * p) == 0
    ensures q % p == 0 && (q + p) % p == 0
  {
    var k := q / (2 * p);
    assert q == (2 * p) * k;
    assert q == p * (2 * k);
    Arith.ModAddMultiple(2 * k, 0, p);
    Arith.ModAddMultiple(2 * k, p, p);
    Arith.ModAddMultiple(1, 0, p);
  }

  lemma {:induction false} RoomAbove(q: nat, h: nat, r: nat, base: nat)
    requires h > 0 && (2 * h) * r == base && q < base && q % (2 * h) == 0
    ensures q + h < base
  {
    var p, k := 2 * h, q / (2 * h);
    assert q == p * k;
    if k >= r { Arith.MulMonotone(p, r, k); }
    Arith.MulMonotone(p, k + 1, r);
    Arith.Distribute(p, k, 1);
  }

  lemma {:induction false} RoomForBit(q: Limb, v: nat)
    requires v < 64 && q % Pow2(v + 1) == 0
    ensures q + Pow2(v) < 0x1_0000_0000_0000_0000
  {
    assert Pow2(v + 1) * Pow2(63 - v) == 0x1_0000_0000_0000_0000 by {
      Pow2Add(v + 1, 63 - v);
      Pow2Values();
    }
    RoomAbove(q, Pow2(v), Pow2(63 - v), 0x1_0000_0000_0000_0000);
  }

  /** Or-ing a bit into a clear position adds its weight, and leaves everything below it clear. */
  lemma {:induction false} SetBit(q: Limb, v: nat)
    requires v < 64 && LowClear(q, v + 1)
    ensures q + Pow2(v) < 0x1_0000_0000_0000_0000
    ensures Or(q, WordShl(1, v)) == q + Pow2(v) && LowClear(q + Pow2(v), v) && LowClear(q, v)
  {
    LowClearIs(q, v + 1);
    LowClearIs(q, v);
    LowClearIs(q + Pow2(v), v);
    RoomForBit(q, v);
    EvenMultiple(q, Pow2(v));
    OrIsAdd(q, Pow2(v), v + 1);
    Arith.SmallMod(Pow2(v), 0x1_0000_0000_0000_0000);
  }

  lemma {:induction false} SetBitValue(q: seq<Limb>, shift: nat)
    requires ClearThrough(q, shift)
    ensures q[shift / 64] + Pow2(shift % 64) < 0x1_0000_0000_0000_0000
    ensures Val(q[shift / 64 := q[shift / 64] + Pow2(shift % 64)]) == Val(q) + Pow2(shift)
  {
    var i, v := shift / 64, shift % 64;
    SetBit(q[i], v);
    ValUpdate(q, i, q[i] + Pow2(v));
    Arith.Distribute(W(i), q[i], Pow2(v));
    assert shift == 64 * i + v;
    Pow2Add(64 * i, v);
  }

  /** Clear below: the next position down starts out clear. */
  lemma {:induction false} NextClear(q: seq<Limb>, shift: nat)
    requires shift > 0 && shift / 64 < |q| && LowClear(q[shift / 64], shift % 64)
    requires forall k :: 0 <= k < shift / 64 ==> q[k] == 0
    ensures ClearThrough(q, shift - 1)
  {
    var i, v := shift / 64, shift % 64;
    if v > 0 {
      assert (shift - 1) / 64 == i && (shift - 1) % 64 == v - 1;
    } else {
      assert (shift - 1) / 64 == i - 1 && (shift - 1) % 64 == 63;
      ZeroIsClear(64);
    }
  }

  /** The divisor aligned under the dividend does not wrap, and no quotient bit lies above it. */
  lemma {:induction false} Align(n: nat, d: nat, shift: nat)
    requires d > 0 && BitLen(n) == BitLen(d) + shift
    ensures Shifted(d, shift) < Pow2(BitLen(n)) && n < Shifted(d, shift + 1)
  {
    var b := BitLen(d);
    BitLenBounds(n);
    BitLenBounds(d);
    ShiftedMonotone(d, Pow2(b), shift);
    ShiftedPow2(b, shift);
    ShiftedMonotone(Pow2(b - 1), d, shift + 1);
    ShiftedPow2(b - 1, shift + 1);
  }

  /** d added up q times; it keeps the division invariant linear. */
  ghost function Times(q: nat, d: nat): nat {
    if q == 0 then 0 else Times(q - 1, d) + d
  }

  lemma {:induction false} TimesIs(q: nat, d: nat)
    ensures Times(q, d) == q * d
  {
    if q > 0 {
      TimesIs(q - 1, d);
      Arith.Distribute(d, q - 1, 1);
    }
  }

  /** Long-division state: what is left, and the quotient found so far. */
  ghost predicate Dividing(n: nat, d: nat, q: nat, rest: nat) {
    n == Times(q, d) + rest
  }

  lemma {:induction false} Subtract(n: nat, d: nat, q: nat, rest: nat, shift: nat)
    requires Dividing(n, d, q, rest) && rest >= Shifted(d, shift)
    ensures Dividing(n, d, q + Pow2(shift), rest - Shifted(d, shift))
  {
    ShiftedIs(d, shift);
    TimesIs(q, d);
    TimesIs(q + Pow2(shift), d);
    Arith.Distribute(d, q, Pow2(shift));
  }

  lemma {:induction false} SmallDividend(n: nat, d: nat)
    requires BitLen(n) < BitLen(d)
    ensures n < d
  {
    BitLenBounds(n);
    BitLenBounds(d);
    Pow2Monotone(BitLen(n), BitLen(d) - 1);
  }

  method DivRem(x: seq<Limb>, divisor: seq<Limb>) returns (quotient: seq<Limb>, remainder: seq<Limb>)
    requires |x| == |divisor| && Val(divisor) != 0
    ensures |quotient| == |remainder| == |x|
    ensures Val(x) == Val(quotient) * Val(divisor) + Val(remainder)
    ensures Val(remainder) < Val(divisor)
  {
    var xBits := Bits(x);
    var divisorBits := Bits(divisor);
    if xBits < divisorBits {
      SmallDividend(Val(x), Val(divisor));
      quotient, remainder := Zeros(|x|), x;
      assert Val(quotient) * Val(divisor) == 0 by { ValZeros(|x|); }
      return;
    }
    BitLenBounds(Val(divisor));
    quotient, remainder := LongDivide(x, divisor, xBits - divisorBits);
  }

  method LongDivide(x: seq<Limb>, divisor: seq<Limb>, shift: nat) returns (quotient: seq<Limb>, remainder: seq<Limb>)
    requires |x| == |divisor| && Val(divisor) != 0
    requires BitLen(Val(x)) == BitLen(Val(divisor)) + shift <= 64 * |x| && shift < 64 * |x|
    ensures |quotient| == |remainder| == |x|
    ensures Val(x) == Val(quotient) * Val(divisor) + Val(remainder)
    ensures Val(remainder) < Val(divisor)
  {
    var shifted := ShlWithin(divisor, shift);
    Align(Val(x), Val(divisor), shift);
    assert Val(shifted) == Shifted(Val(divisor), shift) by {
      ShiftedIs(Val(divisor), shift);
      Pow2Monotone(BitLen(Val(x)), 64 * |x|);
      Arith.SmallMod(Shifted(Val(divisor), shift), W(|x|));
    }
    quotient, remainder := DivideDown(x, shifted, shift, Val(divisor));
    TimesIs(Val(quotient), Val(divisor));
  }

  method Halve(x: seq<Limb>) returns (r: seq<Limb>)
    requires x != []
    ensures |r| == |x| && Val(r) == Val(x) / 2
  {
    r := ShrWithin(x, 1);
    assert Pow2(1) == 2;
  }

  /** The state of the long division before the bit at `shift` is tried. */
  ghost predicate Descending(n: nat, d: nat, q: seq<Limb>, rest: seq<Limb>, shifted: seq<Limb>, shift: nat) {
    && |q| == |rest| == |shifted| && shift < 64 * |q|
    && Val(shifted) == Shifted(d, shift) && Val(rest) < Shifted(d, shift + 1)
    && ClearThrough(q, shift) && Dividing(n, d, Val(q), Val(rest))
  }

  /** Try one bit and move the divisor down. */
  method DivideStep(ret: array<Limb>, rest: seq<Limb>, shifted: seq<Limb>, shift: nat, ghost n: nat, ghost d: nat)
    returns (rest': seq<Limb>, shifted': seq<Limb>)
    requires Descending(n, d, ret[..], rest, shifted, shift)
    modifies ret
    ensures |rest'| == ret.Length && Dividing(n, d, Val(ret[..]), Val(rest')) && Val(rest') < Shifted(d, shift)
    ensures shift > 0 ==> Descending(n, d, ret[..], rest', shifted', shift - 1)
  {
    rest' := DivideBit(ret, rest, shifted, shift, n, d);
    shifted' := Halve(shifted);
    if shift > 0 {
      HalfShifted(d, shift);
      NextClear(ret[..], shift);
    }
  }

  method DivideDown(x: seq<Limb>, aligned: seq<Limb>, start: nat, ghost d: nat)
    returns (quotient: seq<Limb>, remainder: seq<Limb>)
    requires |x| == |aligned| && start < 64 * |x|
    requires Val(aligned) == Shifted(d, start) && Val(x) < Shifted(d, start + 1)
    ensures |quotient| == |remainder| == |x|
    ensures Dividing(Val(x), d, Val(quotient), Val(remainder)) && Val(remainder) < d
  {
    ghost var n := Val(x);
    var ret := new Limb[|x|](_ => 0);
    var rest, shifted := x, aligned;
    var shift: nat := start;
    assert ret[..] == Zeros(|x|);
    ValZeros(|x|);
    StartsClear(|x|, shift);
    while true
      invariant ret.Length == |x| && Descending(n, d, ret[..], rest, shifted, shift)
      decreases shift
    {
      rest, shifted := DivideStep(ret, rest, shifted, shift, n, d);
      if shift == 0 { break; }
      shift := shift - 1;
    }
    quotient, remainder := ret[..], rest;
  }

  lemma {:induction false} HalfShifted(d: nat, shift: nat)
    requires shift > 0
    ensures Shifted(d, shift) / 2 == Shifted(d, shift - 1)
  {
  }

  lemma {:induction false} ZeroIsClear(v: nat)
    ensures LowClear(0, v)
  {
    if v > 0 { ZeroIsClear(v - 1); }
  }

  lemma {:induction false} StartsClear(n: nat, shift: nat)
    requires shift < 64 * n
    ensures ClearThrough(Zeros(n), shift)
  {
    ZeroIsClear(shift % 64 + 1);
  }

  /** One trial subtraction. */
  method DivideBit(ret: array<Limb>, rest: seq<Limb>, shifted: seq<Limb>, shift: nat, ghost n: nat, ghost d: nat)
    returns (rest': seq<Limb>)
    requires ret.Length == |rest| == |shifted|
    requires Val(shifted) == Shifted(d, shift) && Val(rest) < Shifted(d, shift + 1)
    requires ClearThrough(ret[..], shift) && Dividing(n, d, Val(ret[..]), Val(rest))
    modifies ret
    ensures |rest'| == |rest|
    ensures Dividing(n, d, Val(ret[..]), Val(rest')) && Val(rest') < Shifted(d, shift)
    ensures LowClear(ret[shift / 64], shift % 64) && forall k :: 0 <= k < shift / 64 ==> ret[k] == 0
  {
    rest' := rest;
    SetBit(ret[shift / 64], shift % 64);
    var order := Compare(rest, shifted);
    if order >= 0 {
      ghost var q := ret[..];
      SetBitValue(q, shift);
      Subtract(n, d, Val(q), Val(rest), shift);
      ret[shift / 64] := Or(ret[shift / 64], WordShl(1, shift % 64));
      assert ret[..] == q[shift / 64 := q[shift / 64] + Pow2(shift % 64)];
      var borrow;
      rest', borrow := OverflowingSub(rest, shifted);
      ValBound(rest');
    }
  }
}
