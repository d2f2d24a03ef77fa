/** Conversion of a limb vector to an IEEE-754 double, over bit patterns.
    A finite non-negative pattern b stands for FloatScaled(b) * 2^-1074, so all
    comparisons below are between integers scaled by 2^1074. */
module Float {
  import opened Limbs
  import opened Uint
  import Arith

  /** The pattern of positive infinity. */
  const INFINITY: nat := 0x7FF0_0000_0000_0000

  /** From here on the sign bit is set: negative zero, then the negative numbers. */
  const SIGN_BIT: nat := 0x8000_0000_0000_0000

  /** Patterns count in units of 2^-SCALE; the finite ones end below 2^RANGE. */
  const SCALE: nat := 1074
  const RANGE: nat := 1024

  /** The scaled value of a pattern.  Exponent fields 0 and 1 share the unit 2^-1074, and each
      further step of the exponent field doubles.  Infinity stands for 2^1024, the value at
      which round-to-nearest overflows to it. */
  function FloatScaled(b: nat): nat {
    if b < 0x20_0000_0000_0000 then b else 2 * FloatScaled(b - 0x10_0000_0000_0000)
  }

  function Distance(a: int, b: int): nat {
    if a <= b then b - a else a - b
  }

  /** Pattern b is no closer to the integer v than p is; p is even where b is as close. */
  predicate NoCloser(v: nat, p: nat, b: nat) {
    var target := Shifted(v, SCALE);
    && Distance(FloatScaled(p), target) <= Distance(FloatScaled(b), target)
    && (b != p && Distance(FloatScaled(p), target) == Distance(FloatScaled(b), target) ==> p % 2 == 0)
  }

  /** p is the round-to-nearest, ties-to-even pattern of the integer v. */
  ghost predicate Nearest(v: nat, p: nat) {
    p <= INFINITY && forall b: nat | b <= INFINITY :: NoCloser(v, p, b)
  }

  // -------------------------------------------------------------- doubling, linearly

  /** Two comparisons that a common shift brings to the same one agree. */
  lemma {:induction false} SameOrder(a: nat, c: nat, i: nat, j: nat, i': nat, j': nat, m: nat, m': nat)
    requires i + m == i' + m' && j + m == j' + m'
    ensures Shifted(a, i) <= Shifted(c, j) <==> Shifted(a, i') <= Shifted(c, j')
    ensures Shifted(a, i) >= Shifted(c, j) <==> Shifted(a, i') >= Shifted(c, j')
  {
    ShiftedAdd(a, i, m);
    ShiftedAdd(a, i', m');
    ShiftedAdd(c, j, m);
    ShiftedAdd(c, j', m');
    SameAfter(Shifted(a, i), Shifted(c, j), m);
    SameAfter(Shifted(a, i'), Shifted(c, j'), m');
  }

  // ------------------------------------------------------------------ pattern order

  /** In terms of the exponent and fraction fields. */
  lemma {:induction false} FieldsValue(exponent: nat, fraction: nat)
    requires fraction < 0x10_0000_0000_0000
    ensures FloatScaled(exponent * 0x10_0000_0000_0000 + fraction)
         == if exponent == 0 then fraction else Shifted(0x10_0000_0000_0000 + fraction, exponent - 1)
  {
    if exponent > 0 { PatternValue(exponent - 1, 0x10_0000_0000_0000 + fraction); }
  }

  lemma {:induction false} NextPattern(b: nat)
    ensures FloatScaled(b) < FloatScaled(b + 1)
  {
    if b >= 0x20_0000_0000_0000 { NextPattern(b - 0x10_0000_0000_0000); }
  }

  /** Patterns and the values they stand for are in the same order. */
  lemma {:induction false} PatternOrder(a: nat, b: nat)
    requires a < b
    ensures FloatScaled(a) < FloatScaled(b)
    decreases b
  {
    NextPattern(b - 1);
    if a < b - 1 { PatternOrder(a, b - 1); }
  }

  /** A mantissa with its leading one, added above the exponent field: overflow of the
      mantissa carries into the exponent and the value is still right. */
  lemma {:induction false} PatternValue(e: nat, t: nat)
    requires 0x10_0000_0000_0000 <= t <= 0x20_0000_0000_0000
    ensures FloatScaled(e * 0x10_0000_0000_0000 + t) == Shifted(t, e)
  {
    if e > 0 { PatternValue(e - 1, t); }
  }

  // ----------------------------------------------------------------------- rounding

  /** t is l without its low e bits; r is t rounded by what was dropped, ties to even. */
  ghost predicate Rounds(l: int, e: nat, t: nat, r: nat) {
    && Shifted(t, e) <= l < Shifted(t + 1, e)
    && r == if 2 * l > Shifted(2 * t + 1, e) || (2 * l == Shifted(2 * t + 1, e) && t % 2 == 1) then t + 1 else t
  }

  /** Rounding the left-aligned number is rounding the scaled number. */
  lemma {:induction false} RoundsScaled(v: nat, s: nat, e: nat, k: nat, t: nat, r: nat)
    requires Rounds(Shifted(v, s), e, t, r) && s + k == e + 53
    ensures Rounds(Shifted(v, SCALE), k + 1021, t, r)
  {
    assert Shifted(t, k + 1021) <= Shifted(v, SCALE) < Shifted(t + 1, k + 1021) by {
      SameOrder(v, t, s, e, SCALE, k + 1021, SCALE, s);
      SameOrder(v, t + 1, s, e, SCALE, k + 1021, SCALE, s);
    }
    SameOrder(2 * v, 2 * t + 1, s, e, SCALE, k + 1021, SCALE, s);
    ShiftedSum(v, v, s);
    ShiftedSum(v, v, SCALE);
  }

  lemma {:induction false} AtLeast53Bits(v: nat, k: nat, t: nat)
    requires k > 0 && Pow2(k - 1) <= v && Shifted(v, SCALE) < Shifted(t + 1, k + 1021)
    ensures 0x10_0000_0000_0000 <= t
  {
    ShiftedMonotone(Pow2(k - 1), v, SCALE);
    ShiftedPow2(k - 1, SCALE);
    ShiftedPow2(52, k + 1021);
    if t + 1 <= Pow2(52) { ShiftedMonotone(t + 1, Pow2(52), k + 1021); }
    assert Pow2(52) == 0x10_0000_0000_0000 by { Pow2Values(); }
  }

  lemma {:induction false} AtMost53Bits(v: nat, k: nat, t: nat)
    requires v < Pow2(k) && Shifted(t, k + 1021) <= Shifted(v, SCALE)
    ensures t < 0x20_0000_0000_0000
  {
    ShiftedMonotone(v, Pow2(k), SCALE);
    ShiftedPow2(k, SCALE);
    ShiftedPow2(53, k + 1021);
    if t >= Pow2(53) { ShiftedMonotone(Pow2(53), t, k + 1021); }
    assert Pow2(53) == 0x20_0000_0000_0000 by { Pow2Values(); }
  }

  /** The mantissa of a number with k significant bits has exactly 53. */
  lemma {:induction false} MantissaRange(v: nat, k: nat, t: nat, r: nat)
    requires v > 0 && k == BitLen(v) && Rounds(Shifted(v, SCALE), k + 1021, t, r)
    ensures 0x10_0000_0000_0000 <= t < 0x20_0000_0000_0000
  {
    BitLenBounds(v);
    AtLeast53Bits(v, k, t);
    AtMost53Bits(v, k, t);
  }

  /** Between two neighbouring patterns, choosing by the midpoint is choosing the nearest of all. */
  lemma {:induction false} ChooseNeighbour(v: nat, low: nat, p: nat)
    requires low + 1 <= INFINITY && (p == low || p == low + 1)
    requires FloatScaled(low) <= Shifted(v, SCALE) < FloatScaled(low + 1)
    requires p == low ==> 2 * Shifted(v, SCALE) <= FloatScaled(low) + FloatScaled(low + 1)
    requires p == low + 1 ==> 2 * Shifted(v, SCALE) >= FloatScaled(low) + FloatScaled(low + 1)
    requires 2 * Shifted(v, SCALE) == FloatScaled(low) + FloatScaled(low + 1) ==> p % 2 == 0
    ensures Nearest(v, p)
  {
    forall b: nat | b <= INFINITY
      ensures NoCloser(v, p, b)
    {
      if b < low { PatternOrder(b, low); }
      if b > low + 1 { PatternOrder(low + 1, b); }
    }
  }

  /** The patterns of t and t + 1 are neighbours, and their midpoint is that of 2t + 1. */
  lemma {:induction false} Neighbours(e: nat, t: nat, low: nat)
    requires 0x10_0000_0000_0000 <= t < 0x20_0000_0000_0000 && low == e * 0x10_0000_0000_0000 + t
    ensures FloatScaled(low) == Shifted(t, e) && FloatScaled(low + 1) == Shifted(t + 1, e)
  {
    PatternValue(e, t);
    PatternValue(e, t + 1);
    assert e * 0x10_0000_0000_0000 + (t + 1) == low + 1;
  }

  lemma {:induction false} Parity(e: nat, t: nat)
    ensures (e * 0x10_0000_0000_0000 + t) % 2 == t % 2
  {
    Arith.ModAddMultiple(e * 0x8_0000_0000_0000, t, 2);
  }

  lemma {:induction false} NearestBelowInfinity(v: nat, e: nat, t: nat, r: nat)
    requires e + 2 <= 2047 && Rounds(Shifted(v, SCALE), e, t, r)
    requires 0x10_0000_0000_0000 <= t < 0x20_0000_0000_0000
    ensures Nearest(v, e * 0x10_0000_0000_0000 + r)
  {
    var low, p := e * 0x10_0000_0000_0000 + t, e * 0x10_0000_0000_0000 + r;
    Neighbours(e, t, low);
    ShiftedSum(t, t + 1, e);
    assert t + (t + 1) == 2 * t + 1;
    assert 2 * Shifted(v, SCALE) == Shifted(2 * t + 1, e) ==> p % 2 == 0 by {
      Parity(e, r);
      Parity(e, t);
    }
    ChooseNeighbour(v, low, p);
  }

  lemma {:induction false} InfinityValue()
    ensures FloatScaled(INFINITY) == Pow2(RANGE + SCALE)
  {
    PatternValue(RANGE + 1022, 0x10_0000_0000_0000);
    assert (RANGE + 1022) * 0x10_0000_0000_0000 + 0x10_0000_0000_0000 == INFINITY;
    Pow2Values();
    ShiftedPow2(52, RANGE + 1022);
  }

  /** A number at or above the largest pattern has it as its nearest. */
  lemma {:induction false} TopIsNearest(v: nat, top: nat)
    requires FloatScaled(top) <= Shifted(v, SCALE)
    ensures forall b: nat | b <= top :: NoCloser(v, top, b)
  {
    forall b: nat | b <= top
      ensures NoCloser(v, top, b)
    {
      if b < top { PatternOrder(b, top); }
    }
  }

  /** Past 2^1024 only infinity is right. */
  lemma {:induction false} NearestPastInfinity(v: nat)
    requires Pow2(RANGE) <= v
    ensures Nearest(v, INFINITY)
  {
    ShiftedMonotone(Pow2(RANGE), v, SCALE);
    ShiftedPow2(RANGE, SCALE);
    InfinityValue();
    TopIsNearest(v, INFINITY);
  }

  /** The largest integer the conversion still rounds correctly. */
  ghost function LastCorrect(): nat {
    Pow2(RANGE) + Pow2(RANGE - 53)
  }

  lemma {:induction false} BoundaryMidpoint(v: nat)
    ensures 2 * Shifted(v, SCALE) <= Shifted(0x20_0000_0000_0001, RANGE + 1022) <==> v <= LastCorrect()
  {
    SameOrder(2 * v, 0x20_0000_0000_0001, SCALE, RANGE + 1022, 0, RANGE - 52, 0, SCALE);
    ShiftedSum(v, v, SCALE);
    assert Shifted(0x20_0000_0000_0001, RANGE - 52) == 2 * LastCorrect() by {
      ShiftedSum(0x20_0000_0000_0000, 1, RANGE - 52);
      Pow2Values();
      ShiftedPow2(53, RANGE - 52);
      ShiftedPow2(0, RANGE - 52);
    }
  }

  /** With 1025 bits the mantissa stays at its minimum exactly up to LastCorrect. */
  lemma {:induction false} Boundary(v: nat, t: nat, r: nat)
    requires 0x10_0000_0000_0000 <= t && Rounds(Shifted(v, SCALE), RANGE + 1022, t, r)
    ensures 0x10_0000_0000_0000 <= r
    ensures r == 0x10_0000_0000_0000 <==> v <= LastCorrect()
  {
    BoundaryMidpoint(v);
    if t > 0x10_0000_0000_0000 {
      ShiftedMonotone(0x20_0000_0000_0001, 2 * t, RANGE + 1022);
      ShiftedSum(t, t, RANGE + 1022);
    }
  }

  lemma {:induction false} InRange(v: nat, k: nat, t: nat, r: nat)
    requires v > 0 && k == BitLen(v) <= RANGE && Rounds(Shifted(v, SCALE), k + 1021, t, r)
    ensures v <= LastCorrect() && Nearest(v, (k + 1021) * 0x10_0000_0000_0000 + r)
  {
    assert v <= Pow2(RANGE) by {
      BitLenBounds(v);
      Pow2Monotone(k, RANGE);
    }
    MantissaRange(v, k, t, r);
    NearestBelowInfinity(v, k + 1021, t, r);
  }

  lemma {:induction false} AtRange(v: nat, k: nat, t: nat, r: nat)
    requires k == BitLen(v) == RANGE + 1 && 0x10_0000_0000_0000 <= t && Rounds(Shifted(v, SCALE), k + 1021, t, r)
    ensures Nearest(v, (k + 1021) * 0x10_0000_0000_0000 + r) <==> v <= LastCorrect()
  {
    assert v >= Pow2(RANGE) by { BitLenBounds(v); }
    Boundary(v, t, r);
    NearestPastInfinity(v);
  }

  lemma {:induction false} PastRange(v: nat, k: nat, r: nat)
    requires v > 0 && r > 0 && k == BitLen(v) > RANGE + 1
    ensures v > LastCorrect() && (k + 1021) * 0x10_0000_0000_0000 + r > INFINITY
  {
    assert v >= Pow2(RANGE + 1) by {
      BitLenBounds(v);
      Pow2Monotone(RANGE + 1, k - 1);
    }
    assert LastCorrect() < Pow2(RANGE + 1) by { Pow2Monotone(RANGE - 53, RANGE); }
  }

  /** The conversion rounds correctly exactly up to LastCorrect. */
  lemma {:induction false} CorrectExactly(v: nat, k: nat, t: nat, r: nat)
    requires v > 0 && k == BitLen(v) && Rounds(Shifted(v, SCALE), k + 1021, t, r)
    ensures r <= 0x20_0000_0000_0000
    ensures Nearest(v, (k + 1021) * 0x10_0000_0000_0000 + r) <==> v <= LastCorrect()
  {
    MantissaRange(v, k, t, r);
    if k <= RANGE {
      InRange(v, k, t, r);
    } else if k == RANGE + 1 {
      AtRange(v, k, t, r);
    } else {
      PastRange(v, k, r);
    }
  }

  /** The pattern the conversion assembles for a positive number, from its rounded mantissa. */
  ghost predicate Assembled(v: nat, p: nat, t: nat, r: nat) {
    Rounds(Shifted(v, SCALE), BitLen(v) + 1021, t, r) && p == (BitLen(v) + 1021) * 0x10_0000_0000_0000 + r
  }

  /** Past LastCorrect the pattern is above infinity: a NaN while there are 1025 bits, unless it
      rounds up to the sign bit; from 2^1025 on the exponent has run into the sign bit. */
  lemma {:induction false} WrongAbove(v: nat, p: nat, t: nat, r: nat)
    requires v > LastCorrect() && Assembled(v, p, t, r)
    ensures p > INFINITY
    ensures if v < Pow2(RANGE + 1) then p <= SIGN_BIT else p >= SIGN_BIT
  {
    var k := BitLen(v);
    MantissaRange(v, k, t, r);
    BitLenBounds(v);
    if v < Pow2(RANGE + 1) {
      BitLenUnique(v, RANGE + 1);
      Boundary(v, t, r);
    } else {
      if k <= RANGE + 1 { Pow2Monotone(k, RANGE + 1); }
    }
  }

  lemma {:induction false} NextMantissa()
    ensures Shifted(0x10_0000_0000_0001, RANGE - 52) == Pow2(RANGE) + Pow2(RANGE - 52)
  {
    ShiftedSum(0x10_0000_0000_0000, 1, RANGE - 52);
    Pow2Values();
    ShiftedPow2(52, RANGE - 52);
    ShiftedPow2(0, RANGE - 52);
  }

  lemma {:induction false} BelowNextMantissa(v: nat, t: nat)
    requires v < Pow2(RANGE) + Pow2(RANGE - 52) && Shifted(t, RANGE + 1022) <= Shifted(v, SCALE)
    ensures t < 0x10_0000_0000_0001
  {
    NextMantissa();
    SameOrder(0x10_0000_0000_0001, v, RANGE + 1022, SCALE, RANGE - 52, 0, 0, SCALE);
    if t >= 0x10_0000_0000_0001 { ShiftedMonotone(0x10_0000_0000_0001, t, RANGE + 1022); }
  }

  lemma {:induction false} FirstWrongSize(v: nat)
    requires v == LastCorrect() + 1
    ensures BitLen(v) == RANGE + 1 && v < Pow2(RANGE) + Pow2(RANGE - 52)
  {
    Pow2Monotone(1, RANGE - 53);
    Pow2Monotone(RANGE - 53, RANGE - 1);
    BitLenUnique(v, RANGE + 1);
  }

  /** The first number past the bound converts to a NaN. */
  lemma {:induction false} FirstWrongIsNan(v: nat, p: nat, t: nat, r: nat)
    requires v == LastCorrect() + 1 && Assembled(v, p, t, r)
    ensures p == INFINITY + 1
  {
    FirstWrongSize(v);
    MantissaRange(v, RANGE + 1, t, r);
    Boundary(v, t, r);
    BelowNextMantissa(v, t);
  }

  lemma {:induction false} ExactMantissa(l: nat, e: nat, m: nat, t: nat, r: nat)
    requires l == Shifted(m, e) && Rounds(l, e, t, r)
    ensures r == m
  {
    SameAfter(t, m, e);
    SameAfter(t + 1, m, e);
    ShiftedSum(t, t, e);
    ShiftedMonotone(2 * t, 2 * t + 1, e);
  }

  /** 2^1025 converts to negative zero. */
  lemma {:induction false} PowerIsNegativeZero(v: nat, p: nat, t: nat, r: nat)
    requires v == Pow2(RANGE + 1) && Assembled(v, p, t, r)
    ensures p == SIGN_BIT
  {
    BitLenUnique(v, RANGE + 2);
    assert Shifted(v, SCALE) == Shifted(0x10_0000_0000_0000, RANGE + 1023) by {
      ShiftedPow2(RANGE + 1, SCALE);
      Pow2Values();
      ShiftedPow2(52, RANGE + 1023);
    }
    ExactMantissa(Shifted(v, SCALE), RANGE + 1023, 0x10_0000_0000_0000, t, r);
  }

  // --------------------------------------------------------------------- the limbs

  /** What the shifts of the top limb extract, in terms of its 11 dropped bits f. */
  lemma {:induction false} TopLimb(top: Limb, f: nat)
    requires f == top % 2048
    ensures top == 2048 * WordShr(top, 11) + f
    ensures WordShr(WordShl(top, 53), 63) != 0 <==> f >= 1024
    ensures WordShl(WordShl(top, 53), 1) == 0 <==> f == 0 || f == 1024
  {
    assert top == 2048 * WordShr(top, 11) + f by { Pow2Values(); }
    DroppedTop(top);
    DroppedHalf(f);
    DroppedRest(f);
    assert Pow2(63) == 0x8000_0000_0000_0000 && Pow2(1) == 2 by { Pow2Values(); }
  }

  lemma {:induction false} DroppedTop(top: Limb)
    ensures WordShl(top, 53) == 0x20_0000_0000_0000 * (top % 2048)
  {
    ShiftOut(top, 53);
    assert 64 - 53 == 11;
    Pow2Values();
  }

  lemma {:induction false} DroppedHalf(f: nat)
    requires f < 2048
    ensures (0x20_0000_0000_0000 * f) / 0x8000_0000_0000_0000 != 0 <==> f >= 1024
  {
  }

  lemma {:induction false} DroppedRest(f: nat)
    requires f < 2048
    ensures (0x20_0000_0000_0000 * f * 2) % 0x1_0000_0000_0000_0000 == 0 <==> f == 0 || f == 1024
  {
    var q := if f < 1024 then 0 else 1;
    var g := f - 1024 * q;
    Arith.DivModUnique(0x20_0000_0000_0000 * f * 2, 0x1_0000_0000_0000_0000, q, 0x40_0000_0000_0000 * g);
  }

  /** The fraction f of 2048 units of w, and something below one unit, against half. */
  lemma {:induction false} AgainstHalf(w: nat, low: nat, f: nat)
    requires low < w && f < 2048
    ensures 0 <= low + w * f < w * 2048
    ensures low + w * f >= w * 1024 <==> f >= 1024
    ensures low + w * f == w * 1024 <==> f == 1024 && low == 0
  {
    Arith.MulMonotone(w, 0, f);
    Arith.MulMonotone(w, f + 1, 2048);
    Arith.Distribute(w, f, 1);
    if f >= 1024 { Arith.MulMonotone(w, 1024, f); }
    if f >= 1025 { Arith.MulMonotone(w, 1025, f); }
    if f < 1024 { Arith.MulMonotone(w, f + 1, 1024); }
  }

  /** Rounding by the dropped half bit and whether anything is left below it. */
  lemma {:induction false} RoundsByTop(w: nat, low: nat, t: nat, f: nat, up: bool)
    requires low < w && f < 2048
    requires up <==> f >= 1024 && (low != 0 || f != 1024 || t % 2 == 1)
    ensures var l := low + w * (2048 * t + f);
      && w * (2048 * t) <= l < w * (2048 * (t + 1))
      && (up <==> 2 * l > w * (2048 * (2 * t + 1)) || (2 * l == w * (2048 * (2 * t + 1)) && t % 2 == 1))
  {
    AgainstHalf(w, low, f);
    Arith.Distribute(w, 2048 * t, f);
    Arith.Distribute(w, 2048 * t, 2048);
    assert 2048 * (2 * t + 1) == 2048 * t + (2048 * t + 2048);
    Arith.Distribute(w, 2048 * t, 2048 * t + 2048);
  }

  lemma {:induction false} ShiftedByTop(c: nat, i: nat)
    ensures Shifted(c, 64 * i + 11) == W(i) * (2048 * c)
  {
    ShiftedIs(c, 64 * i + 11);
    Pow2Add(64 * i, 11);
    assert Pow2(11) == 2048 by { Pow2Values(); }
    Associate(W(i), 2048, c);
  }

  lemma {:induction false} RoundsAt(i: nat, low: nat, t: nat, f: nat, up: bool)
    requires low < W(i) && f < 2048
    requires up <==> f >= 1024 && (low != 0 || f != 1024 || t % 2 == 1)
    ensures Rounds(low + W(i) * (2048 * t + f), 64 * i + 11, t, if up then t + 1 else t)
  {
    RoundsByTop(W(i), low, t, f, up);
    ShiftedByTop(t, i);
    ShiftedByTop(t + 1, i);
    ShiftedByTop(2 * t + 1, i);
  }

  lemma {:induction false} AlignedRounds(aligned: seq<Limb>, i: nat, t: nat, f: nat, up: bool)
    requires |aligned| == i + 1 && f < 2048 && aligned[i] == 2048 * t + f
    requires up <==> f >= 1024 && (Val(aligned[..i]) != 0 || f != 1024 || t % 2 == 1)
    ensures Rounds(Val(aligned), 64 * i + 11, t, if up then t + 1 else t)
  {
    ValBound(aligned[..i]);
    RoundsAt(i, Val(aligned[..i]), t, f, up);
  }

  /** Shifting out the leading zeros loses nothing. */
  lemma {:induction false} LeftAligned(v: nat, bits: nat)
    requires bits >= BitLen(v)
    ensures (v * Pow2(bits - BitLen(v))) % Pow2(bits) == Shifted(v, bits - BitLen(v))
  {
    var k, s := BitLen(v), bits - BitLen(v);
    BitLenBounds(v);
    ShiftedMonotone(v, Pow2(k), s);
    ShiftedPow2(k, s);
    ShiftedIs(v, s);
    Arith.SmallMod(Shifted(v, s), Pow2(bits));
  }

  method AlignLeft(x: seq<Limb>) returns (aligned: seq<Limb>, bits: nat)
    requires x != []
    ensures |aligned| == |x| && bits == BitLen(Val(x)) <= 64 * |x|
    ensures Val(aligned) == Shifted(Val(x), 64 * |x| - bits)
  {
    bits := Bits(x);
    var overflows;
    aligned, overflows := OverflowingShl(x, 64 * |x| - bits);
    if bits == 0 {
      BitLenBounds(Val(x));
      ShiftedIs(0, 64 * |x|);
      Arith.SmallMod(0, W(|x|));
      assert Val(x) == 0;
    } else {
      LeftAligned(Val(x), 64 * |x|);
      Arith.SmallMod(64 * |x| - bits, 64 * |x|);
    }
  }

  /** The 53 bits kept of the top limb, the highest dropped one, and the rest moved to the top of a word. */
  method SplitTop(top: Limb) returns (mantissa: nat, half: bool, rest: Limb, ghost f: nat)
    ensures f < 2048 && top == 2048 * mantissa + f
    ensures half <==> f >= 1024
    ensures rest == 0 <==> f == 0 || f == 1024
  {
    f := top % 2048;
    TopLimb(top, f);
    mantissa := WordShr(top, 11);
    var dropped := WordShl(top, 53);
    half := WordShr(dropped, 63) != 0;
    rest := WordShl(dropped, 1);
  }

  /** The lower limbs or-ed into the dropped bits: zero exactly when all of it is. */
  method OrLimbs(start: Limb, words: seq<Limb>) returns (rest: nat)
    ensures rest == 0 <==> start == 0 && Val(words) == 0
  {
    rest := start;
    for i := 0 to |words|
      invariant rest == 0 <==> start == 0 && forall k :: 0 <= k < i ==> words[k] == 0
    {
      OrZero(rest, words[i]);
      rest := Or(rest, words[i]);
    }
    ValZero(words);
  }

  method RoundMantissa(aligned: seq<Limb>) returns (mantissa: nat, ghost kept: nat)
    requires aligned != []
    ensures aligned[|aligned| - 1] == 0 ==> kept == 0
    ensures Rounds(Val(aligned), 64 * (|aligned| - 1) + 11, kept, mantissa)
  {
    var last := |aligned| - 1;
    ghost var f;
    var half, rest;
    mantissa, half, rest, f := SplitTop(aligned[last]);
    kept := mantissa;
    var allRest := OrLimbs(rest, aligned[..last]);
    var higherThanHalf := half && allRest != 0;
    var halfButOdd := half && allRest == 0 && mantissa % 2 == 1;
    AlignedRounds(aligned, last, kept, f, higherThanHalf || halfButOdd);
    mantissa := mantissa + if higherThanHalf || halfButOdd then 1 else 0;
  }

  method IsZero(x: seq<Limb>) returns (zero: bool)
    ensures zero <==> Val(x) == 0
  {
    zero := forall k :: 0 <= k < |x| ==> x[k] == 0;
    ValZero(x);
  }

  /** The conversion yields the IEEE-754 double nearest to the number, ties to even, exactly
      for numbers up to 2^1024 + 2^971.  The narrow types never reach the bound; Uint3072 does,
      and what comes out past it is a NaN or, from 2^1025 on, has the sign bit set. */
  method AsF64(x: seq<Limb>) returns (p: Limb, ghost kept: nat, ghost rounded: nat)
    requires 1 <= |x| <= 48
    ensures Nearest(Val(x), p) <==> Val(x) <= LastCorrect()
    ensures Val(x) > 0 ==> Assembled(Val(x), p, kept, rounded)
    ensures Val(x) > LastCorrect() ==> p > INFINITY && if Val(x) < Pow2(RANGE + 1) then p <= SIGN_BIT else p >= SIGN_BIT
  {
    var aligned, bits := AlignLeft(x);
    var mantissa;
    mantissa, kept := RoundMantissa(aligned);
    rounded := mantissa;
    var isZero := IsZero(x);
    if isZero {
      ZeroRounds(aligned, kept, mantissa);
      p := mantissa;
    } else {
      Assemble(Val(x), |x|, bits, kept, mantissa);
      p := (bits + 1021) * 0x10_0000_0000_0000 + mantissa;
      if Val(x) > LastCorrect() { WrongAbove(Val(x), p, kept, mantissa); }
    }
  }

  lemma {:induction false} OneDigit(a: nat, d: Limb, b: nat)
    ensures Val(Zeros(a) + [d] + Zeros(b)) == W(a) * d
  {
    ValConcat(Zeros(a) + [d], Zeros(b));
    ValAppend(Zeros(a), d);
    ValZeros(a);
    ValZeros(b);
  }

  lemma {:induction false} ThreeDigits(low: seq<Limb>, d: Limb, b: nat)
    ensures Val(low + [d] + Zeros(b)) == Val(low) + W(|low|) * d
  {
    ValAppend(low, d);
    ValConcat(low + [d], Zeros(b));
    ValZeros(b);
  }

  lemma {:induction false} LowDigits(n: nat, d: Limb)
    ensures Val([1] + Zeros(n) + [d]) == 1 + W(n + 1) * d
  {
    ValAppend([1] + Zeros(n), d);
    ValConcat([1], Zeros(n));
    ValZeros(n);
    ValAppend([], 1);
    assert [] + [1] == [1];
    WStep(0);
  }

  lemma {:induction false} PastTheBound(a: nat, b: nat)
    requires 64 * (a + 2) == RANGE
    ensures Val([1] + Zeros(a) + [2048] + [1] + Zeros(b)) == LastCorrect() + 1
  {
    LowDigits(a, 2048);
    ThreeDigits([1] + Zeros(a) + [2048], 1, b);
    HighDigit(a);
  }

  lemma {:induction false} HighDigit(a: nat)
    requires 64 * (a + 2) == RANGE
    ensures W(a + 1) * 2048 == Pow2(RANGE - 53)
  {
    Pow2Add(64 * (a + 1), 11);
    assert Pow2(11) == 2048 by { Pow2Values(); }
  }

  /** A number of 48 limbs that converts to a NaN. */
  method ConvertsToNan() returns (x: seq<Limb>, p: Limb)
    ensures |x| == 48 && Val(x) == LastCorrect() + 1 && p == INFINITY + 1
  {
    ghost var kept, rounded;
    x := [1] + Zeros(14) + [2048] + [1] + Zeros(31);
    PastTheBound(14, 31);
    p, kept, rounded := AsF64(x);
    FirstWrongIsNan(Val(x), p, kept, rounded);
  }

  lemma {:induction false} TwoAtTheTop(a: nat, b: nat)
    requires 64 * a == RANGE
    ensures Val(Zeros(a) + [2] + Zeros(b)) == Pow2(RANGE + 1)
  {
    OneDigit(a, 2, b);
  }

  /** A number of 48 limbs that converts to negative zero. */
  method ConvertsToNegativeZero() returns (x: seq<Limb>, p: Limb)
    ensures |x| == 48 && Val(x) == Pow2(RANGE + 1) && p == SIGN_BIT
  {
    ghost var kept, rounded;
    x := Zeros(16) + [2] + Zeros(31);
    TwoAtTheTop(16, 31);
    p, kept, rounded := AsF64(x);
    PowerIsNegativeZero(Val(x), p, kept, rounded);
  }

  /** The exponent field of a number of at most 3072 bits fits, and the pattern is right up to the bound. */
  lemma {:induction false} Assemble(v: nat, n: nat, bits: nat, kept: nat, mantissa: nat)
    requires v > 0 && 1 <= n <= 48 && bits == BitLen(v) <= 64 * n
    requires Rounds(Shifted(v, 64 * n - bits), 64 * (n - 1) + 11, kept, mantissa)
    ensures (bits + 1021) * 0x10_0000_0000_0000 + mantissa < 0x1_0000_0000_0000_0000
    ensures Nearest(v, (bits + 1021) * 0x10_0000_0000_0000 + mantissa) <==> v <= LastCorrect()
    ensures Assembled(v, (bits + 1021) * 0x10_0000_0000_0000 + mantissa, kept, mantissa)
  {
    RoundsScaled(v, 64 * n - bits, 64 * (n - 1) + 11, bits, kept, mantissa);
    CorrectExactly(v, bits, kept, mantissa);
  }

  lemma {:induction false} ZeroRounds(aligned: seq<Limb>, kept: nat, mantissa: nat)
    requires aligned != [] && Val(aligned) == Shifted(0, 64 * |aligned|)
    requires aligned[|aligned| - 1] == 0 ==> kept == 0
    requires Rounds(Val(aligned), 64 * (|aligned| - 1) + 11, kept, mantissa)
    ensures mantissa == 0 && Nearest(0, 0)
  {
    ShiftedIs(0, 64 * |aligned|);
    ValZero(aligned);
    ShiftedIs(0, SCALE);
    ZeroIsNearest();
  }

  lemma {:induction false} ZeroIsNearest()
    ensures Nearest(0, 0)
  {
    ShiftedIs(0, SCALE);
    forall b: nat | b <= INFINITY
      ensures NoCloser(0, 0, b)
    {
      if b > 0 { PatternOrder(0, b); }
    }
  }
}
