/** bf16 <-> float on bit patterns: truncation with a rounding add is round-to-nearest-even. */
module Bf16s {
  import opened Wavelets
  import opened Mesh
  import opened Arithmetic
  import opened Halves

  // A bf16 is the upper half of a float.
  function Bf16ToFloat(h: U16): U32 {
    h * 0x1_0000
  }

  predicate IsNan(f: U32) {
    FloatFields(f).exp == 255 && FloatFields(f).mant != 0
  }

  // Sets bit 6, the quiet bit of a bf16 NaN.
  function Quieted(h: U16): U16 {
    if h / 0x40 % 2 == 0 then h + 0x40 else h
  }

  function FloatToBf16(f: U32): U16 {
    if IsNan(f) then Quieted(f / 0x1_0000)
    else
      var lsb := f / 0x1_0000 % 2;
      (f + 0x7FFF + lsb) % 0x1_0000_0000 / 0x1_0000
  }

  // A NaN whose quiet bit is clear.
  predicate SignallingNan(h: U16) {
    IsNan(Bf16ToFloat(h)) && h / 0x40 % 2 == 0
  }

  /** A bf16 survives the trip through a float exactly unless it is a signalling NaN. */
  lemma Bf16RoundTrip(h: U16)
    ensures FloatToBf16(Bf16ToFloat(h)) == h <==> !SignallingNan(h)
  {
  }

  /** NaN stays NaN, and infinity stays itself. */
  lemma SpecialsKept(f: U32)
    requires FloatFields(f).exp == 255
    ensures IsNan(f) <==> IsNan(Bf16ToFloat(FloatToBf16(f)))
    ensures FloatFields(Bf16ToFloat(FloatToBf16(f))).sign == FloatFields(f).sign
    ensures !IsNan(f) ==> Bf16ToFloat(FloatToBf16(f)) == f
  {
  }

  // ----- As numbers -----

  // The pattern without its sign.
  function Bits(f: U32): nat {
    f % 0x8000_0000
  }

  // Unit in the last place of a pattern's binade, in units of 2^-149.
  function Unit(x: nat): nat {
    var exp := x / 0x80_0000;
    if exp == 0 then 1 else Pow2(exp - 1)
  }

  // Magnitude of an unsigned pattern; infinity counts as the next binade.
  function Mag(x: nat): nat {
    var exp, mant := x / 0x80_0000, x % 0x80_0000;
    if exp == 0 then mant else (0x80_0000 + mant) * Pow2(exp - 1)
  }

  lemma MagOfFloat(f: U32)
    ensures Mag(Bits(f)) == FloatMag(f)
  {
    hide Pow2;
    assert Bits(f) / 0x80_0000 == FloatFields(f).exp && Bits(f) % 0x80_0000 == FloatFields(f).mant;
  }

  // Patterns are in order of magnitude, and neighbours differ by the lower one's unit.
  lemma NextMag(x: nat)
    ensures Mag(x + 1) == Mag(x) + Unit(x)
  {
    hide Pow2;
    var exp, mant := x / 0x80_0000, x % 0x80_0000;
    if mant == 0x7F_FFFF {
      DivModUnique(0x80_0000, x + 1, exp + 1, 0);
      if exp > 0 {
        TwicePow(exp - 1);
      } else {
        PowZero();
      }
    } else {
      DivModUnique(0x80_0000, x + 1, exp, mant + 1);
      OneMore(0x80_0000 + mant, if exp > 0 then Pow2(exp - 1) else 1);
    }
  }

  lemma TwicePow(n: nat)
    ensures Pow2(n + 1) == 2 * Pow2(n)
  {
  }

  lemma PowZero()
    ensures Pow2(0) == 1
  {
  }

  lemma {:induction false} MagMonotone(x: nat, y: nat)
    requires x <= y
    ensures Mag(x) <= Mag(y) && (x < y ==> Mag(x) < Mag(y))
    decreases y
  {
    if x < y {
      hide Mag, Unit;
      MagMonotone(x, y - 1);
      NextMag(y - 1);
      UnitPositive(y - 1);
    }
  }

  lemma UnitPositive(x: nat)
    ensures Unit(x) >= 1
  {
  }

  // Within a block of 2^16 patterns the unit does not change, so magnitudes are evenly spaced.
  lemma {:induction false} MagInBlock(q: nat, r: nat)
    requires r <= 0x1_0000
    ensures Mag(q * 0x1_0000 + r) == Mag(q * 0x1_0000) + r * Unit(q * 0x1_0000)
    decreases r
  {
    if r > 0 {
      var base := q * 0x1_0000;
      MagInBlock(q, r - 1);
      NextMag(base + (r - 1));
      SameUnit(q, r - 1);
      hide Mag, Unit;
      OneMore(r - 1, Unit(base));
      assert base + (r - 1) + 1 == base + r;
    }
  }

  lemma SameUnit(q: nat, r: nat)
    requires r < 0x1_0000
    ensures Unit(q * 0x1_0000 + r) == Unit(q * 0x1_0000)
  {
    var x := q * 0x1_0000;
    assert x == q / 128 * 0x80_0000 + q % 128 * 0x1_0000;
    DivModUnique(0x80_0000, x, q / 128, q % 128 * 0x1_0000);
    DivModUnique(0x80_0000, x + r, q / 128, q % 128 * 0x1_0000 + r);
  }

  // ----- Nearest, ties to even -----

  // Rounding an unsigned pattern to a multiple of 2^16.
  function RoundBits(x: nat): nat {
    (x + 0x7FFF + x / 0x1_0000 % 2) / 0x1_0000
  }

  lemma RoundBitsCases(x: nat)
    ensures var q, r := x / 0x1_0000, x % 0x1_0000;
      RoundBits(x) == if r < 0x8000 || (r == 0x8000 && q % 2 == 0) then q else q + 1
  {
  }

  lemma FloatParts(f: U32)
    ensures f == FloatFields(f).sign * 0x8000_0000 + Bits(f) && FloatFields(f).sign < 2
    ensures FloatFields(f).exp < 255 ==> Bits(f) < 0x7F80_0000
  {
  }

  lemma SignedShift(sign: nat, x: nat)
    requires sign < 2 && x < 0x8000_0000
    ensures (sign * 0x8000_0000 + x) / 0x1_0000 == sign * 0x8000 + x / 0x1_0000
    ensures (sign * 0x8000 + x / 0x1_0000) % 2 == x / 0x1_0000 % 2
  {
  }

  lemma RoundsWithoutWrapping(f: U32)
    requires FloatFields(f).exp < 255
    ensures FloatToBf16(f) == (f + 0x7FFF + f / 0x1_0000 % 2) / 0x1_0000
  {
  }

  // The sign bit is out of the rounding's way.
  lemma SignApart(f: U32)
    requires FloatFields(f).exp < 255
    ensures RoundBits(Bits(f)) <= 0x7F80
    ensures FloatToBf16(f) / 0x8000 == FloatFields(f).sign && FloatToBf16(f) % 0x8000 == RoundBits(Bits(f))
    ensures FloatToBf16(f) % 2 == RoundBits(Bits(f)) % 2
  {
    hide FloatFields, Bits, FloatToBf16;
    var sign, x := FloatFields(f).sign, Bits(f);
    FloatParts(f);
    RoundsWithoutWrapping(f);
    SignedShift(sign, x);
    SignedShift(sign, x + 0x7FFF + x / 0x1_0000 % 2);
    assert FloatToBf16(f) == sign * 0x8000 + RoundBits(x);
  }

  // How far the bf16 pattern n is from the unsigned float pattern x.
  function Gap(x: nat, n: nat): nat {
    Distance(Mag(x), Mag(n * 0x1_0000))
  }

  lemma Scaled(a: nat, b: nat, u: nat)
    requires a <= b
    ensures a * u <= b * u && (u > 0 && a < b ==> a * u < b * u)
  {
  }

  // Between its two bf16 neighbours a float's distances are its remainders.
  lemma NeighbourGaps(x: nat)
    ensures var q, r, u := x / 0x1_0000, x % 0x1_0000, Unit(x / 0x1_0000 * 0x1_0000);
      Gap(x, q) == r * u && Gap(x, q + 1) == (0x1_0000 - r) * u && u >= 1
  {
    var q, r := x / 0x1_0000, x % 0x1_0000;
    var u := Unit(q * 0x1_0000);
    MagInBlock(q, r);
    MagInBlock(q, 0x1_0000);
    UnitPositive(q * 0x1_0000);
    hide Mag, Unit;
    assert x == q * 0x1_0000 + r && (q + 1) * 0x1_0000 == q * 0x1_0000 + 0x1_0000;
    Scaled(r, 0x1_0000, u);
    assert (0x1_0000 - r) * u == 0x1_0000 * u - r * u;
  }

  // No other bf16 is nearer than both neighbours.
  lemma OtherGaps(x: nat, n: nat)
    ensures var q := x / 0x1_0000; n < q ==> Gap(x, n) > Gap(x, q)
    ensures var q := x / 0x1_0000; n > q + 1 ==> Gap(x, n) > Gap(x, q + 1)
  {
    var q := x / 0x1_0000;
    MagMonotone(q * 0x1_0000, x);
    MagMonotone(x, (q + 1) * 0x1_0000);
    if n < q {
      MagMonotone(n * 0x1_0000, q * 0x1_0000);
    } else if n > q + 1 {
      MagMonotone((q + 1) * 0x1_0000, n * 0x1_0000);
    }
    hide Mag;
  }

  // The nearer neighbour wins, the even one on a tie.
  lemma NearerWins(x: nat, n: nat, q: nat, r: nat, u: nat)
    requires r < 0x1_0000 && u >= 1
    requires Gap(x, q) == r * u && Gap(x, q + 1) == (0x1_0000 - r) * u
    requires n < q ==> Gap(x, n) > Gap(x, q)
    requires n > q + 1 ==> Gap(x, n) > Gap(x, q + 1)
    requires RoundBits(x) == if r < 0x8000 || (r == 0x8000 && q % 2 == 0) then q else q + 1
    ensures Gap(x, RoundBits(x)) <= Gap(x, n)
    ensures Gap(x, RoundBits(x)) == Gap(x, n) ==> n == RoundBits(x) || RoundBits(x) % 2 == 0
  {
    hide *;
    if r <= 0x8000 {
      Scaled(r, 0x1_0000 - r, u);
    } else {
      Scaled(0x1_0000 - r, r, u);
    }
  }

  lemma RoundBitsNearest(x: nat, n: nat)
    ensures Gap(x, RoundBits(x)) <= Gap(x, n)
    ensures Gap(x, RoundBits(x)) == Gap(x, n) ==> n == RoundBits(x) || RoundBits(x) % 2 == 0
  {
    hide *;
    RoundBitsCases(x);
    NeighbourGaps(x);
    OtherGaps(x, n);
    NearerWins(x, n, x / 0x1_0000, x % 0x1_0000, Unit(x / 0x1_0000 * 0x1_0000));
  }

  // The bf16 patterns of a sign, up to and including infinity.
  predicate Bf16Of(sign: nat, h: U16) {
    h / 0x8000 == sign && h % 0x8000 <= 0x7F80
  }

  // Distance in magnitude between a float and a bf16.
  function FloatGap(f: U32, h: U16): nat {
    Distance(FloatMag(f), FloatMag(Bf16ToFloat(h)))
  }

  lemma FloatGapIs(f: U32, h: U16)
    ensures FloatGap(f, h) == Gap(Bits(f), h % 0x8000)
  {
    MagOfFloat(f);
    MagOfFloat(Bf16ToFloat(h));
    assert Bits(Bf16ToFloat(h)) == h % 0x8000 * 0x1_0000;
    hide Mag, FloatMag;
  }

  /** The result has the float's sign, no bf16 of that sign is nearer, and between two equally near ones it is the even one; infinity
      counts as the value the next binade would start with, so overflow rounds to it. */
  lemma Bf16Nearest(f: U32, h: U16)
    requires FloatFields(f).exp < 255 && Bf16Of(FloatFields(f).sign, h)
    ensures Bf16Of(FloatFields(f).sign, FloatToBf16(f))
    ensures FloatGap(f, FloatToBf16(f)) <= FloatGap(f, h)
    ensures FloatGap(f, FloatToBf16(f)) == FloatGap(f, h) ==> h == FloatToBf16(f) || FloatToBf16(f) % 2 == 0
  {
    hide *;
    SignApart(f);
    FloatGapIs(f, h);
    FloatGapIs(f, FloatToBf16(f));
    RoundBitsNearest(Bits(f), h % 0x8000);
    hide FloatGap, Gap, RoundBits, FloatToBf16, FloatFields, Bits;
    SamePattern(f, h);
  }

  lemma SamePattern(f: U32, h: U16)
    requires FloatFields(f).exp < 255 && Bf16Of(FloatFields(f).sign, h)
    ensures Bf16Of(FloatFields(f).sign, FloatToBf16(f))
    ensures h % 0x8000 == FloatToBf16(f) % 0x8000 ==> h == FloatToBf16(f)
  {
    SignApart(f);
    hide FloatFields, FloatToBf16, RoundBits, Bits;
  }
}
