/** Compact ("nBits") encoding of 256-bit targets: an 8-bit byte count and a 23-bit mantissa. */
module Compact {
  import opened Limbs
  import opened Uint
  import Arith

  const TARGET_BITS: nat := 256

  function Size(x: nat): nat {
    (BitLen(x) + 7) / 8
  }

  /** The top three bytes of x, shifted up when x is shorter. */
  function TopBytes(x: nat, size: nat): nat {
    if size <= 3 then Shifted(x, 8 * (3 - size)) else Halved(x, 8 * (size - 3))
  }

  /** Size and mantissa; a mantissa that would look negative gives up a byte. */
  function Parts(x: nat): (nat, nat) {
    var size := Size(x);
    var top := TopBytes(x, size);
    if top >= 0x80_0000 then (size + 1, top / 256) else (size, top)
  }

  function Encode(x: nat): nat {
    Parts(x).0 * 0x100_0000 + Parts(x).1
  }

  /** The decoded target, and whether the final shift exceeded the width. */
  function Decode(bits: nat): (nat, bool) {
    DecodeFields(bits / 0x100_0000, bits % 0x100_0000)
  }

  function DecodeFields(size: nat, field: nat): (nat, bool) {
    if size <= 3 then ShiftMantissa(Halved(field, 8 * (3 - size)), 0)
    else ShiftMantissa(field, 8 * (size - 3))
  }

  /** The mantissa is signed but may not be negative. */
  function ShiftMantissa(mantissa: nat, exponent: nat): (nat, bool) {
    if mantissa > 0x7F_FFFF then (0, false)
    else (Shifted(mantissa, exponent % 256) % Pow2(TARGET_BITS), exponent >= 256)
  }

  /** Some non-negative mantissa and whole-byte exponent denote v. */
  ghost predicate Representable(v: nat) {
    exists m: nat, j: nat :: Denotes(v, m, j)
  }

  ghost predicate Denotes(v: nat, m: nat, j: nat) {
    m <= 0x7F_FFFF && v == Shifted(m, 8 * j)
  }

  // ------------------------------------------------------------------ normal form

  /** m is x scaled to size bytes of which three are kept, rounded down. */
  ghost predicate Within(x: nat, size: nat, m: nat) {
    Shifted(m, 8 * size) <= Shifted(x, 24) < Shifted(m + 1, 8 * size)
  }

  ghost predicate Normal(x: nat, size: nat, m: nat) {
    0x8000 <= m <= 0x7F_FFFF && Within(x, size, m)
  }

  lemma {:induction false} OneByte(x: nat, s: nat)
    ensures Shifted(x, s + 8) == Shifted(256 * x, s)
  {
    assert Shifted(x, 8) == 256 * x by {
      ShiftedIs(x, 8);
      Pow2Values();
    }
    ShiftedAdd(x, 8, s);
  }

  /** No smaller size leaves room: a size less is a whole factor of 256 less. */
  lemma {:induction false} SizeOrder(m: nat, size: nat, m': nat, size': nat)
    requires m <= 0x80_0000 && 0x8000 <= m' && size < size'
    ensures Shifted(m, 8 * size) <= Shifted(m', 8 * size')
  {
    OneByte(0x8000, 8 * size);
    ShiftedMonotone(m, 0x80_0000, 8 * size);
    ShiftedMonotone(0x8000, m', 8 * size');
    GrowShift(0x8000, 8 * size + 8, 8 * size');
  }

  lemma {:induction false} GrowShift(x: nat, s: nat, s': nat)
    requires s <= s'
    ensures Shifted(x, s) <= Shifted(x, s')
  {
    ShiftedAdd(x, s, s' - s);
  }

  /** Normal forms are ordered as the numbers are, so there is only one. */
  lemma {:induction false} NormalOrder(x: nat, size: nat, m: nat, y: nat, size': nat, m': nat)
    requires x <= y && Normal(x, size, m) && Normal(y, size', m')
    ensures size < size' || (size == size' && m <= m')
  {
    ShiftedMonotone(x, y, 24);
    if size > size' {
      SizeOrder(m' + 1, size', m, size);
    } else if size == size' && m > m' {
      ShiftedMonotone(m' + 1, m, 8 * size);
    }
  }

  lemma {:induction false} SizeBounds(x: nat)
    requires x > 0
    ensures Size(x) > 0 && Pow2(8 * (Size(x) - 1)) <= x < Pow2(8 * Size(x))
  {
    BitLenBounds(x);
    Pow2Monotone(8 * (Size(x) - 1), BitLen(x) - 1);
    Pow2Monotone(BitLen(x), 8 * Size(x));
  }

  lemma {:induction false} TopBytesWithin(x: nat, size: nat)
    ensures Within(x, size, TopBytes(x, size))
  {
    var top := TopBytes(x, size);
    if size <= 3 {
      ShiftedAdd(x, 8 * (3 - size), 8 * size);
      ShiftedMonotone(top, top + 1, 8 * size);
    } else {
      var s := 8 * (size - 3);
      HalvedBounds(x, s);
      SameAfter(Shifted(top, s), x, 24);
      SameAfter(Shifted(top + 1, s), x, 24);
      ShiftedAdd(top, s, 24);
      ShiftedAdd(top + 1, s, 24);
    }
  }

  lemma {:induction false} TopBytesRange(x: nat, size: nat, top: nat)
    requires size > 0 && Pow2(8 * (size - 1)) <= x < Pow2(8 * size) && Within(x, size, top)
    ensures 0x1_0000 <= top < 0x100_0000
  {
    assert Pow2(16) == 0x1_0000 && Pow2(24) == 0x100_0000 by { Pow2Values(); }
    ShiftedMonotone(x, Pow2(8 * size), 24);
    ShiftedPow2(8 * size, 24);
    ShiftedPow2(24, 8 * size);
    ShiftedMonotone(Pow2(8 * (size - 1)), x, 24);
    ShiftedPow2(8 * (size - 1), 24);
    ShiftedPow2(16, 8 * size);
    if top >= Pow2(24) { ShiftedMonotone(Pow2(24), top, 8 * size); }
    if top + 1 <= Pow2(16) { ShiftedMonotone(top + 1, Pow2(16), 8 * size); }
  }

  lemma {:induction false} DropByte(x: nat, size: nat, top: nat)
    requires Within(x, size, top)
    ensures Within(x, size + 1, top / 256)
  {
    var m := top / 256;
    OneByte(m, 8 * size);
    OneByte(m + 1, 8 * size);
    ShiftedMonotone(256 * m, top, 8 * size);
    ShiftedMonotone(top + 1, 256 * (m + 1), 8 * size);
  }

  /** The encoder computes the normal form. */
  lemma {:induction false} PartsNormal(x: nat)
    requires x > 0
    ensures Normal(x, Parts(x).0, Parts(x).1)
  {
    var size := Size(x);
    var top := TopBytes(x, size);
    SizeBounds(x);
    TopBytesWithin(x, size);
    TopBytesRange(x, size, top);
    DropByte(x, size, top);
  }

  lemma {:induction false} PartsOfZero()
    ensures Parts(0) == (0, 0)
  {
    ShiftedIs(0, 24);
    assert Size(0) == 0;
  }

  /** 256-bit targets need at most 33 size bytes. */
  lemma {:induction false} SizeFits(x: nat)
    requires x < Pow2(TARGET_BITS)
    ensures Size(x) <= 32 && Parts(x).0 <= 33
  {
    BitLenBounds(x);
    if BitLen(x) > TARGET_BITS { Pow2Monotone(TARGET_BITS, BitLen(x) - 1); }
  }

  // --------------------------------------------------------------------- decoding

  /** v is the number that mantissa m of the given size scales back to, and not above x. */
  ghost predicate ScalesTo(x: nat, size: nat, m: nat, v: nat) {
    Shifted(v, 24) == Shifted(m, 8 * size) && v <= x && Representable(v)
  }

  /** A mantissa shift within the width loses nothing. */
  lemma {:induction false} ShiftFits(m: nat, exponent: nat)
    requires m <= 0x7F_FFFF && exponent < 256 && Shifted(m, exponent) < Pow2(TARGET_BITS)
    ensures ShiftMantissa(m, exponent) == (Shifted(m, exponent), false)
  {
    assert exponent % 256 == exponent;
    Arith.SmallMod(Shifted(m, exponent), Pow2(TARGET_BITS));
  }

  lemma {:induction false} DecodeShort(x: nat, size: nat, m: nat)
    requires x < Pow2(TARGET_BITS) && size <= 3 && m <= 0x7F_FFFF && m == Shifted(x, 8 * (3 - size))
    ensures DecodeFields(size, m) == (x, false) && ScalesTo(x, size, m, x)
  {
    HalvedShifted(x, 8 * (3 - size));
    ShiftFits(x, 0);
    ShiftedAdd(x, 8 * (3 - size), 8 * size);
    assert Denotes(x, x, 0);
  }

  lemma {:induction false} DecodeLong(x: nat, size: nat, m: nat)
    requires x < Pow2(TARGET_BITS) && 3 < size <= 33 && m <= 0x7F_FFFF && Shifted(m, 8 * size) <= Shifted(x, 24)
    ensures DecodeFields(size, m) == (Shifted(m, 8 * (size - 3)), false)
    ensures ScalesTo(x, size, m, Shifted(m, 8 * (size - 3)))
  {
    var e := 8 * (size - 3);
    ShiftedAdd(m, e, 24);
    SameAfter(Shifted(m, e), x, 24);
    ShiftFits(m, e);
    assert Denotes(Shifted(m, e), m, size - 3);
  }

  /** A short encoding keeps every bit. */
  lemma {:induction false} ShortIsExact(x: nat)
    requires Parts(x).0 <= 3
    ensures Parts(x).1 == Shifted(x, 8 * (3 - Parts(x).0))
  {
    var size := Size(x);
    var top := TopBytes(x, size);
    if top >= 0x80_0000 {
      var low := Shifted(x, 8 * (2 - size));
      OneByte(low, 0);
      ShiftedAdd(x, 8 * (2 - size), 8);
      assert top == 256 * low;
    }
  }

  /** Nothing representable lies between the decoded number and the encoded one. */
  lemma {:induction false} NothingBetween(x: nat, size: nat, m: nat, d: nat, v: nat)
    requires Normal(x, size, m) && Shifted(d, 24) == Shifted(m, 8 * size)
    requires Representable(v) && v <= x
    ensures v <= d
  {
    var m': nat, j: nat :| Denotes(v, m', j);
    ShiftedMonotone(v, x, 24);
    ShiftedAdd(m', 8 * j, 24);
    assert Shifted(v, 24) == Shifted(m', 8 * (j + 3));
    if j + 3 >= size {
      var k := Shifted(m', 8 * (j + 3 - size));
      ShiftedAdd(m', 8 * (j + 3 - size), 8 * size);
      if k > m { ShiftedMonotone(m + 1, k, 8 * size); }
      ShiftedMonotone(k, if k <= m then m else k, 8 * size);
    } else {
      SizeOrder(m', j + 3, m, size);
    }
    SameAfter(v, d, 24);
  }

  /** What encoding and decoding makes of x: the greatest representable number not above it. */
  ghost predicate GreatestBelow(x: nat, d: nat) {
    d <= x && Representable(d) && forall v: nat | Representable(v) && v <= x :: v <= d
  }

  lemma {:induction false} DecodeParts(x: nat) returns (d: nat)
    requires 0 < x < Pow2(TARGET_BITS)
    ensures Decode(Encode(x)) == (d, false) && Encode(x) < 0x1_0000_0000
    ensures ScalesTo(x, Parts(x).0, Parts(x).1, d)
  {
    var (size, m) := Parts(x);
    PartsNormal(x);
    SizeFits(x);
    FieldsOf(size, m);
    d := DecodeFields(size, m).0;
    if size <= 3 {
      ShortIsExact(x);
      DecodeShort(x, size, m);
    } else {
      DecodeLong(x, size, m);
    }
  }

  lemma {:induction false} FieldsOf(size: nat, m: nat)
    requires m < 0x100_0000
    ensures (size * 0x100_0000 + m) / 0x100_0000 == size && (size * 0x100_0000 + m) % 0x100_0000 == m
  {
  }

  /** Decoding an encoded target gives the greatest representable number not above it, without
      overflow, and encoding that again gives the same bits. */
  lemma {:induction false} RoundTrip(x: nat)
    requires x < Pow2(TARGET_BITS)
    ensures Encode(x) < 0x1_0000_0000 && !Decode(Encode(x)).1
    ensures GreatestBelow(x, Decode(Encode(x)).0) && Encode(Decode(Encode(x)).0) == Encode(x)
  {
    if x == 0 {
      ZeroRoundTrip();
    } else {
      var (size, m) := Parts(x);
      PartsNormal(x);
      var d := DecodeParts(x);
      forall v: nat | Representable(v) && v <= x
        ensures v <= d
      {
        NothingBetween(x, size, m, d, v);
      }
      Reencode(x, size, m, d);
    }
  }

  lemma {:induction false} ZeroRoundTrip()
    ensures Encode(0) == 0 && Decode(0) == (0, false) && Representable(0)
  {
    PartsOfZero();
    HalvedShifted(0, 24);
    ShiftedIs(0, 24);
    Arith.SmallMod(0, Pow2(TARGET_BITS));
    assert Denotes(0, 0, 0);
  }

  lemma {:induction false} Reencode(x: nat, size: nat, m: nat, d: nat)
    requires Normal(x, size, m) && (size, m) == Parts(x) && Shifted(d, 24) == Shifted(m, 8 * size)
    ensures Encode(d) == Encode(x)
  {
    ShiftedMonotone(m, m + 1, 8 * size);
    assert Normal(d, size, m);
    assert d > 0 by {
      ShiftedIs(0, 24);
      assert Shifted(m, 8 * size) >= m;
    }
    PartsNormal(d);
    NormalOrder(d, size, m, d, Parts(d).0, Parts(d).1);
    NormalOrder(d, Parts(d).0, Parts(d).1, d, size, m);
  }

  /** Exactly the representable targets survive unchanged. */
  lemma {:induction false} ExactlyRepresentable(x: nat)
    requires x < Pow2(TARGET_BITS)
    ensures Decode(Encode(x)).0 == x <==> Representable(x)
  {
    RoundTrip(x);
  }

  /** Encodings compare as unsigned integers the way the targets do. */
  lemma {:induction false} EncodeMonotone(x: nat, y: nat)
    requires x <= y
    ensures Encode(x) <= Encode(y)
  {
    if x == 0 {
      PartsOfZero();
    } else {
      PartsNormal(x);
      PartsNormal(y);
      NormalOrder(x, Parts(x).0, Parts(x).1, y, Parts(y).0, Parts(y).1);
    }
  }

  // --------------------------------------------------------------------- the limbs

  /** A number below 2^64 sits in its lowest limb. */
  lemma {:induction false} LowLimb(x: seq<Limb>)
    requires x != [] && Val(x) < 0x1_0000_0000_0000_0000
    ensures x[0] == Val(x)
  {
    ValSplit(x, 1);
    assert x[..1] == [] + [x[0]];
    ValAppend([], x[0]);
    WStep(0);
    if Val(x[1..]) > 0 { Arith.MulMonotone(W(1), 1, Val(x[1..])); }
  }

  lemma {:induction false} WordShifts(x: Limb, s: nat)
    requires Shifted(x, s) < 0x100_0000
    ensures WordShl(x, s) % 0x1_0000_0000 == Shifted(x, s)
  {
    ShiftedIs(x, s);
    Arith.SmallMod(Shifted(x, s), 0x1_0000_0000_0000_0000);
  }

  lemma {:induction false} TopBytesSmall(x: nat)
    ensures TopBytes(x, Size(x)) < 0x100_0000
  {
    if x == 0 {
      ShiftedIs(0, 24);
      assert Size(0) == 0;
    } else {
      SizeBounds(x);
      TopBytesWithin(x, Size(x));
      TopBytesRange(x, Size(x), TopBytes(x, Size(x)));
    }
  }

  /** The top three bytes, from the limbs. */
  method TopThreeBytes(x: seq<Limb>, size: nat) returns (top: nat)
    requires |x| == 4 && size == Size(Val(x)) <= 32
    ensures top == TopBytes(Val(x), size) < 0x100_0000
  {
    TopBytesSmall(Val(x));
    if size <= 3 {
      LowLimb(x);
      WordShifts(x[0], 8 * (3 - size));
      top := WordShl(x[0], 8 * (3 - size)) % 0x1_0000_0000;
    } else {
      var shifted := ShrWithin(x, 8 * (size - 3));
      HalvedIs(Val(x), 8 * (size - 3));
      LowLimb(shifted);
      top := shifted[0] % 0x1_0000_0000;
    }
  }

  lemma {:induction false} SizeOfLimbs(x: seq<Limb>)
    requires |x| == 4
    ensures Size(Val(x)) <= 32
  {
    ValBound(x);
    SizeFits(Val(x));
  }

  lemma {:induction false} SignBit(m: nat)
    requires m < 0x100_0000
    ensures (m / 0x80_0000) % 2 != 0 <==> m >= 0x80_0000
  {
  }

  method SizeAndMantissa(x: seq<Limb>) returns (size: nat, compact: nat)
    requires |x| == 4
    ensures (size, compact) == Parts(Val(x)) && size <= 33 && compact < 0x100_0000
  {
    SizeOfLimbs(x);
    var bitLength := Bits(x);
    size := (bitLength + 7) / 8;
    compact := TopThreeBytes(x, size);
    SignBit(compact);
    if (compact / 0x80_0000) % 2 != 0 {
      compact := compact / 256;
      size := size + 1;
    }
  }

  method CompactTargetBits(x: seq<Limb>) returns (bits: nat)
    requires |x| == 4
    ensures bits == Encode(Val(x)) < 0x1_0000_0000
  {
    var size, compact := SizeAndMantissa(x);
    OrFields(size, compact);
    bits := Or(compact, size * 0x100_0000);
  }

  lemma {:induction false} OrFields(size: nat, m: nat)
    requires m < 0x100_0000
    ensures Or(m, size * 0x100_0000) == size * 0x100_0000 + m
  {
    Pow2Values();
    FieldsOf(size, 0);
    OrIsAdd(size * 0x100_0000, m, 24);
    OrCommutes(m, size * 0x100_0000);
  }

  lemma {:induction false} ValOfWord(m: Limb)
    ensures Val([m, 0, 0, 0]) == m
  {
    var x: seq<Limb> := [m, 0, 0, 0];
    ValSplit(x, 1);
    assert x[..1] == [] + [m];
    ValAppend([], m);
    WStep(0);
    ValZero(x[1..]);
  }

  method FromCompactTargetBits(bits: nat) returns (x: seq<Limb>, overflow: bool)
    requires bits < 0x1_0000_0000
    ensures |x| == 4 && (Val(x), overflow) == Decode(bits)
  {
    var size, field := bits / 0x100_0000, bits % 0x100_0000;
    if size <= 3 {
      HalvedIs(field, 8 * (3 - size));
      x, overflow := ShiftWord(WordShr(field, 8 * (3 - size)), 0);
    } else {
      x, overflow := ShiftWord(field, 8 * (size - 3));
    }
  }

  method ShiftWord(mantissa: Limb, exponent: nat) returns (x: seq<Limb>, overflow: bool)
    ensures |x| == 4 && (Val(x), overflow) == ShiftMantissa(mantissa, exponent)
  {
    if mantissa > 0x7F_FFFF {
      ValZeros(4);
      return Zeros(4), false;
    }
    ValOfWord(mantissa);
    ShiftedIs(mantissa, exponent % 256);
    x, overflow := OverflowingShl([mantissa, 0, 0, 0], exponent);
  }

  // ------------------------------------------------------------- decoding any bits

  lemma {:induction false} HalvedIsFloor(m: nat, v: nat, s: nat)
    requires Shifted(v, s) <= m < Shifted(v + 1, s)
    ensures Halved(m, s) == v
  {
    HalvedBounds(m, s);
    var h := Halved(m, s);
    if h < v { ShiftedMonotone(h + 1, v, s); }
    if h > v { ShiftedMonotone(v + 1, h, s); }
  }

  lemma {:induction false} DecodeFloorShort(size: nat, m: nat, v: nat)
    requires size <= 3 && Shifted(v, 24) <= Shifted(m, 8 * size) < Shifted(v + 1, 24)
    ensures Halved(m, 8 * (3 - size)) == v
  {
    var s, b := 8 * (3 - size), 8 * size;
    ShiftedAdd(v, s, b);
    ShiftedAdd(v + 1, s, b);
    SameAfter(Shifted(v, s), m, b);
    SameAfter(Shifted(v + 1, s), m, b);
    HalvedIsFloor(m, v, s);
  }

  lemma {:induction false} DecodeFloorLong(size: nat, m: nat, v: nat)
    requires size > 3 && Shifted(v, 24) <= Shifted(m, 8 * size) < Shifted(v + 1, 24)
    ensures Shifted(m, 8 * (size - 3)) == v
  {
    var e := 8 * (size - 3);
    ShiftedAdd(m, e, 24);
    SameAfter(v, Shifted(m, e), 24);
    SameAfter(v + 1, Shifted(m, e), 24);
  }

  lemma {:induction false} ShiftedBelow(v: nat, k: nat, b: nat)
    requires v < Pow2(k)
    ensures Shifted(v + 1, b) <= Pow2(k + b)
  {
    ShiftedMonotone(v + 1, Pow2(k), b);
    ShiftedPow2(k, b);
  }

  lemma {:induction false} ShiftedAbove(m: nat, n: nat)
    requires m > 0
    ensures Shifted(m, n) >= Pow2(n)
  {
    ShiftedMonotone(1, m, n);
    ShiftedPow2(0, n);
  }

  lemma {:induction false} ShiftedZero(n: nat)
    ensures Shifted(0, n) == 0
  {
    if n > 0 { ShiftedZero(n - 1); }
  }

  /** Beyond 34 bytes only zero fits. */
  lemma {:induction false} OnlyZeroFits(n: nat, b: nat, m: nat, v: nat)
    requires n >= TARGET_BITS + b && Shifted(v, b) <= Shifted(m, n) < Shifted(v + 1, b) && v < Pow2(TARGET_BITS)
    ensures m == 0 && v == 0
  {
    ShiftedBelow(v, TARGET_BITS, b);
    Pow2Monotone(TARGET_BITS + b, n);
    if m > 0 { ShiftedAbove(m, n); }
    ShiftedZero(n);
  }

  /** Any field whose value fits decodes to it, rounded down when the size is below three bytes;
      the flag says that the size was beyond 34 bytes. */
  lemma {:induction false} DecodeFloor(size: nat, m: nat, v: nat)
    requires m <= 0x7F_FFFF
    requires Shifted(v, 24) <= Shifted(m, 8 * size) < Shifted(v + 1, 24) && v < Pow2(TARGET_BITS)
    ensures DecodeFields(size, m) == (v, size > 34) && Decode(size * 0x100_0000 + m) == (v, size > 34)
  {
    FieldsOf(size, m);
    if size <= 3 {
      DecodeFloorShort(size, m, v);
      ShiftFits(v, 0);
    } else if size <= 34 {
      DecodeFloorLong(size, m, v);
      ShiftFits(m, 8 * (size - 3));
    } else {
      OnlyZeroFits(8 * size, 24, m, v);
      ShiftedZero((8 * (size - 3)) % 256);
      Arith.SmallMod(0, Pow2(TARGET_BITS));
    }
  }

  /** A field with the sign bit set decodes to zero when the size keeps that bit. */
  lemma {:induction false} NegativeIsZero(size: nat, m: nat)
    requires size >= 3 && 0x80_0000 <= m < 0x100_0000
    ensures Decode(size * 0x100_0000 + m) == (0, false)
  {
    FieldsOf(size, m);
  }
}
