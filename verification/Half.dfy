/** The CE's half <-> float conversions on bit patterns, and what they mean as numbers. */
module Halves {
  import opened Wavelets
  import opened Mesh
  import opened Arithmetic
  import opened SummaPlans

  type U32 = n: nat | n < 0x1_0000_0000

  function Pow2(n: nat): (r: nat)
    ensures r >= 1
  {
    if n == 0 then 1 else 2 * Pow2(n - 1)
  }

  lemma {:induction false} Pow2Add(a: nat, b: nat)
    ensures Pow2(a + b) == Pow2(a) * Pow2(b)
    decreases b
  {
    if b > 0 {
      Pow2Add(a, b - 1);
      assert Pow2(a) * Pow2(b) == 2 * (Pow2(a) * Pow2(b - 1));
    }
  }

  lemma {:induction false} Pow2Monotone(a: nat, b: nat)
    requires a <= b
    ensures Pow2(a) <= Pow2(b)
    decreases b
  {
    if a < b {
      Pow2Monotone(a, b - 1);
    }
  }

  // ----- Fields: 1-5-10 halves and 1-8-23 floats -----

  datatype Fields = Fields(sign: nat, exp: nat, mant: nat)

  function HalfFields(h: U16): (r: Fields)
    ensures r.sign < 2 && r.exp < 32 && r.mant < 0x400
    ensures h == r.sign * 0x8000 + r.exp * 0x400 + r.mant
  {
    Fields(h / 0x8000, h / 0x400 % 32, h % 0x400)
  }

  function FloatFields(f: U32): (r: Fields)
    ensures r.sign < 2 && r.exp < 256 && r.mant < 0x80_0000
    ensures f == r.sign * 0x8000_0000 + r.exp * 0x80_0000 + r.mant
  {
    Fields(f / 0x8000_0000, f / 0x80_0000 % 256, f % 0x80_0000)
  }

  function MakeHalf(sign: nat, exp: nat, mant: nat): (h: U16)
    requires sign < 2 && exp < 32 && mant < 0x400
    ensures HalfFields(h) == Fields(sign, exp, mant)
  {
    sign * 0x8000 + exp * 0x400 + mant
  }

  function MakeFloat(sign: nat, exp: nat, mant: nat): (f: U32)
    requires sign < 2 && exp < 256 && mant < 0x80_0000
    ensures FloatFields(f) == Fields(sign, exp, mant)
  {
    sign * 0x8000_0000 + exp * 0x80_0000 + mant
  }

  lemma ShiftOnce(mant: nat, k: nat)
    ensures mant * Pow2(k + 1) == 2 * mant * Pow2(k)
  {
    var p := Pow2(k);
    assert mant * (2 * p) == 2 * mant * p;
  }

  // How far a mantissa has to move up for its leading bit to become the implicit one, and what it is then.
  function Shifts(mant: nat): nat
    requires 0 < mant < 0x800
    decreases 0x400 - mant
  {
    if mant >= 0x400 then 0 else 1 + Shifts(2 * mant)
  }

  function Leading(mant: nat): (r: nat)
    requires 0 < mant < 0x800
    ensures 0x400 <= r < 0x800
    decreases 0x400 - mant
  {
    if mant >= 0x400 then mant else Leading(2 * mant)
  }

  lemma {:induction false} LeadingIsShifted(mant: nat)
    requires 0 < mant < 0x800
    ensures Leading(mant) == mant * Pow2(Shifts(mant))
    decreases 0x400 - mant
  {
    if mant < 0x400 {
      LeadingIsShifted(2 * mant);
      ShiftOnce(mant, Shifts(2 * mant));
    } else {
      assert Pow2(0) == 1;
    }
  }

  lemma ShiftsBound(mant: nat)
    requires 0 < mant < 0x400
    ensures 1 <= Shifts(mant) <= 10
  {
    var k := Shifts(mant);
    LeadingIsShifted(mant);
    assert Pow2(k) <= mant * Pow2(k) by { MulMonotone(1, mant, Pow2(k)); }
    assert Pow2(11) == 0x800;
    if k > 10 {
      Pow2Monotone(11, k);
    }
  }

  // The float a half denotes.
  function Widen(h: U16): U32 {
    var x := HalfFields(h);
    if x.exp == 0 then
      if x.mant == 0 then MakeFloat(x.sign, 0, 0)
      else
        ShiftsBound(x.mant);
        var k := Shifts(x.mant);
        MakeFloat(x.sign, 113 - k, (Leading(x.mant) - 0x400) * 0x2000)
    else if x.exp == 31 then MakeFloat(x.sign, 255, x.mant * 0x2000)
    else MakeFloat(x.sign, x.exp + 112, x.mant * 0x2000)
  }

  // The loop renormalises a subnormal; its exponent may pass below zero before the bias is added.
  method HalfToFloat(h: U16) returns (f: U32)
    ensures f == Widen(h)
  {
    var x := HalfFields(h);
    if x.exp == 0 {
      if x.mant == 0 {
        return MakeFloat(x.sign, 0, 0);
      }
      ShiftsBound(x.mant);
      hide Pow2;
      var exp, mant := 1, x.mant;
      while mant < 0x400
        invariant 0 < mant < 0x800
        invariant 1 - exp + Shifts(mant) == Shifts(x.mant)
        invariant Leading(mant) == Leading(x.mant)
        decreases 0x400 - mant
      {
        mant := mant * 2;
        exp := exp - 1;
      }
      return MakeFloat(x.sign, exp + 112, (mant - 0x400) * 0x2000);
    }
    if x.exp == 31 {
      return MakeFloat(x.sign, 255, x.mant * 0x2000);
    }
    return MakeFloat(x.sign, x.exp + 112, x.mant * 0x2000);
  }

  // Truncation to a half: NaN payloads collapse to one bit, large magnitudes become infinite.
  function Narrow(f: U32): U16 {
    var x := FloatFields(f);
    if x.exp == 255 then MakeHalf(x.sign, 31, if x.mant != 0 then 0x200 else 0)
    else
      var exp := x.exp - 112;
      if exp >= 31 then MakeHalf(x.sign, 31, 0)
      else if exp < -10 then MakeHalf(x.sign, 0, 0)
      else if exp <= 0 then
        NarrowFits(x.mant, 14 - exp);
        MakeHalf(x.sign, 0, (x.mant + 0x80_0000) / Pow2(14 - exp))
      else MakeHalf(x.sign, exp, x.mant / 0x2000)
  }

  lemma NarrowFits(mant: nat, shift: nat)
    requires mant < 0x80_0000 && shift >= 14
    ensures 0 <= (mant + 0x80_0000) / Pow2(shift) < 0x400
  {
    Pow2Monotone(14, shift);
    assert Pow2(14) == 0x4000;
    CoordsInBounds(Pow2(shift), 0x400, mant + 0x80_0000);
  }

  // ----- Round trips -----

  // A NaN other than the canonical one.
  predicate OddNan(h: U16) {
    var x := HalfFields(h);
    x.exp == 31 && x.mant != 0 && x.mant != 0x200
  }

  lemma LeadingUnshifts(mant: nat)
    requires 0 < mant < 0x400
    ensures 0 <= Leading(mant) * 0x2000 / Pow2(13 + Shifts(mant)) == mant
  {
    LeadingIsShifted(mant);
    Pow2Add(Shifts(mant), 13);
    assert Pow2(13) == 0x2000;
    MulAssociates(mant, Pow2(Shifts(mant)), 0x2000);
    DivModUnique(Pow2(13 + Shifts(mant)), Leading(mant) * 0x2000, mant, 0);
  }

  lemma SubnormalSurvives(sign: nat, mant: nat)
    requires sign < 2 && 0 < mant < 0x400
    ensures Narrow(Widen(MakeHalf(sign, 0, mant))) == MakeHalf(sign, 0, mant)
  {
    ShiftsBound(mant);
    LeadingUnshifts(mant);
    hide Shifts, Leading, Pow2;
    assert (Leading(mant) - 0x400) * 0x2000 + 0x80_0000 == Leading(mant) * 0x2000;
    assert FloatFields(Widen(MakeHalf(sign, 0, mant))) == Fields(sign, 113 - Shifts(mant), (Leading(mant) - 0x400) * 0x2000);
  }

  /** A half survives the trip through a float exactly unless it is a NaN with a payload of its own. */
  lemma HalfRoundTrip(h: U16)
    ensures Narrow(Widen(h)) == h <==> !OddNan(h)
  {
    var x := HalfFields(h);
    if x.exp == 0 && x.mant != 0 {
      SubnormalSurvives(x.sign, x.mant);
    }
  }

  /** Truncation only produces halves that survive, so the datapath is lawful. */
  lemma NarrowIsStable(f: U32)
    ensures Narrow(Widen(Narrow(f))) == Narrow(f)
  {
    assert !OddNan(Narrow(f));
    HalfRoundTrip(Narrow(f));
  }

  function Datapath(mulAdd: (U32, U32, U32) -> U32): (ar: Arith<U32>) {
    Arith(0, f => Narrow(f), h => Widen(h), mulAdd)
  }

  lemma DatapathLawful(mulAdd: (U32, U32, U32) -> U32)
    ensures Datapath(mulAdd).Lawful()
  {
    var ar := Datapath(mulAdd);
    forall v: U32
      ensures ar.toHalf(ar.fromHalf(ar.toHalf(v))) == ar.toHalf(v)
    {
      NarrowIsStable(v);
    }
  }

  // ----- As numbers -----

  // Magnitude of a half in units of 2^-24 and of a float in units of 2^-149; an infinity counts as the next binade.
  function HalfMag(h: U16): nat {
    var x := HalfFields(h);
    if x.exp == 0 then x.mant else (0x400 + x.mant) * Pow2(x.exp - 1)
  }

  function FloatMag(f: U32): nat {
    var x := FloatFields(f);
    if x.exp == 0 then x.mant else (0x80_0000 + x.mant) * Pow2(x.exp - 1)
  }

  lemma WidenNormal(sign: nat, exp: nat, mant: nat)
    requires sign < 2 && 0 < exp < 31 && mant < 0x400
    ensures var h := MakeHalf(sign, exp, mant);
      FloatFields(Widen(h)).sign == sign && FloatMag(Widen(h)) == (0x400 + mant) * Pow2(exp - 1) * Pow2(125)
  {
    hide Pow2;
    TwoTo13();
    assert Widen(MakeHalf(sign, exp, mant)) == MakeFloat(sign, exp + 112, mant * 0x2000);
    assert FloatMag(MakeFloat(sign, exp + 112, mant * 0x2000)) == (0x400 + mant) * 0x2000 * Pow2(exp + 111);
    hide Widen, FloatMag;
    Pow2Add(exp + 111, 13);
    Pow2Add(exp - 1, 125);
    MulAssociates(0x400 + mant, Pow2(exp - 1), Pow2(125));
    MulAssociates(0x400 + mant, 0x2000, Pow2(exp + 111));
  }

  lemma WidenSubnormal(sign: nat, mant: nat)
    requires sign < 2 && 0 < mant < 0x400
    ensures var h := MakeHalf(sign, 0, mant);
      FloatFields(Widen(h)).sign == sign && FloatMag(Widen(h)) == mant * Pow2(125)
  {
    hide Pow2;
    TwoTo13();
    var k := Shifts(mant);
    ShiftsBound(mant);
    LeadingIsShifted(mant);
    assert Widen(MakeHalf(sign, 0, mant)) == MakeFloat(sign, 113 - k, (Leading(mant) - 0x400) * 0x2000);
    assert FloatMag(MakeFloat(sign, 113 - k, (Leading(mant) - 0x400) * 0x2000)) == Leading(mant) * 0x2000 * Pow2(112 - k);
    hide Widen, FloatMag, Leading, Shifts;
    Pow2Add(13, 112 - k);
    Pow2Add(k, 125 - k);
    MulAssociates(mant, Pow2(k), Pow2(125 - k));
    MulAssociates(Leading(mant), 0x2000, Pow2(112 - k));
  }

  /** Widening is exact on every finite half. */
  lemma WidenExact(h: U16)
    requires HalfFields(h).exp < 31
    ensures FloatFields(Widen(h)).sign == HalfFields(h).sign
    ensures FloatMag(Widen(h)) == HalfMag(h) * Pow2(125)
  {
    hide Pow2, Widen, FloatMag, HalfMag;
    var x := HalfFields(h);
    assert h == MakeHalf(x.sign, x.exp, x.mant);
    HalfMagOf(x.sign, x.exp, x.mant);
    if x.exp > 0 {
      WidenNormal(x.sign, x.exp, x.mant);
      hide *;
    } else if x.mant > 0 {
      WidenSubnormal(x.sign, x.mant);
      hide *;
    } else {
      WidenZero(x.sign);
    }
  }

  lemma HalfMagOf(sign: nat, exp: nat, mant: nat)
    requires sign < 2 && exp < 32 && mant < 0x400
    ensures HalfMag(MakeHalf(sign, exp, mant)) == if exp == 0 then mant else (0x400 + mant) * Pow2(exp - 1)
  {
  }

  lemma WidenZero(sign: nat)
    requires sign < 2
    ensures FloatFields(Widen(MakeHalf(sign, 0, 0))).sign == sign && FloatMag(Widen(MakeHalf(sign, 0, 0))) == 0
  {
    assert Widen(MakeHalf(sign, 0, 0)) == MakeFloat(sign, 0, 0);
  }

  // Dropping the low part of x leaves less than one unit d behind, at any scale p.
  lemma Truncated(x: nat, d: nat, p: nat)
    requires d > 0 && p > 0
    ensures 0 <= x / d
    ensures x / d * (d * p) <= x * p < (x / d + 1) * (d * p)
  {
    var q := x / d;
    MulAssociates(q, d, p);
    MulAssociates(q + 1, d, p);
    assert q * d <= x < (q + 1) * d by {
      assert x == q * d + x % d;
    }
    MulMonotone(q * d, x, p);
    MulMonotone(x + 1, (q + 1) * d, p);
  }

  /** Narrowing a float below the overflow threshold rounds its magnitude down to the nearest half. */
  lemma NarrowTruncates(f: U32)
    requires FloatFields(f).exp < 143
    ensures HalfFields(Narrow(f)).sign == FloatFields(f).sign
    ensures Narrow(f) < 0xFFFF && HalfFields(Narrow(f) + 1).sign == FloatFields(f).sign
    ensures HalfMag(Narrow(f)) * Pow2(125) <= FloatMag(f) < HalfMag(Narrow(f) + 1) * Pow2(125)
  {
    hide *;
    if FloatFields(f).exp > 112 {
      NormalTruncates(f);
    } else if FloatFields(f).exp >= 102 {
      SubnormalTruncates(f);
    } else {
      UnderflowTruncates(f);
    }
  }

  lemma UnderflowTruncates(f: U32)
    requires FloatFields(f).exp < 102
    ensures HalfFields(Narrow(f)).sign == FloatFields(f).sign
    ensures Narrow(f) < 0xFFFF && HalfFields(Narrow(f) + 1).sign == FloatFields(f).sign
    ensures HalfMag(Narrow(f)) * Pow2(125) <= FloatMag(f) < HalfMag(Narrow(f) + 1) * Pow2(125)
  {
    hide Pow2;
    var x := FloatFields(f);
    assert Narrow(f) == MakeHalf(x.sign, 0, 0);
    NextHalf(x.sign, 0, 0);
    UnderflowSmall(x.exp, x.mant);
    assert FloatMag(f) < Pow2(125);
    hide Narrow, HalfMag, FloatMag, HalfFields, FloatFields, MakeHalf;
  }

  lemma TwoTo13()
    ensures Pow2(13) == 0x2000
  {
  }

  lemma TwoTo24()
    ensures Pow2(24) == 0x100_0000
  {
    assert Pow2(12) == 0x1000;
    Pow2Add(12, 12);
  }

  lemma UnderflowSmall(exp: nat, mant: nat)
    requires exp < 102 && mant < 0x80_0000
    ensures mant < Pow2(125)
    ensures exp > 0 ==> (0x80_0000 + mant) * Pow2(exp - 1) < Pow2(125)
  {
    hide Pow2;
    TwoTo24();
    Pow2Monotone(24, 125);
    if exp > 0 {
      Pow2Add(24, exp - 1);
      MulMonotone(0x80_0000 + mant + 1, 0x100_0000, Pow2(exp - 1));
      Pow2Monotone(24 + exp - 1, 125);
    }
  }

  lemma NextHalf(sign: nat, exp: nat, mant: nat)
    requires sign < 2 && exp < 31 && mant < 0x400
    ensures var h := MakeHalf(sign, exp, mant);
      && h < 0xFFFF && HalfFields(h + 1).sign == sign
      && HalfMag(h) == (if exp == 0 then mant else (0x400 + mant) * Pow2(exp - 1))
      && HalfMag(h + 1) == if exp == 0 then mant + 1 else (0x401 + mant) * Pow2(exp - 1)
  {
    var h := MakeHalf(sign, exp, mant);
    if mant == 0x3FF {
      assert h + 1 == MakeHalf(sign, exp + 1, 0);
      assert exp > 0 ==> Pow2(exp) == 2 * Pow2(exp - 1);
      assert Pow2(0) == 1;
    } else {
      assert h + 1 == MakeHalf(sign, exp, mant + 1);
    }
  }

  lemma NormalTruncates(f: U32)
    requires 112 < FloatFields(f).exp < 143
    ensures HalfFields(Narrow(f)).sign == FloatFields(f).sign
    ensures Narrow(f) < 0xFFFF && HalfFields(Narrow(f) + 1).sign == FloatFields(f).sign
    ensures HalfMag(Narrow(f)) * Pow2(125) <= FloatMag(f) < HalfMag(Narrow(f) + 1) * Pow2(125)
  {
    hide Pow2;
    TwoTo13();
    var x := FloatFields(f);
    var e, full, q := x.exp - 112, 0x80_0000 + x.mant, 0x400 + x.mant / 0x2000;
    assert Narrow(f) == MakeHalf(x.sign, e, x.mant / 0x2000);
    assert full / 0x2000 == q;
    NextHalf(x.sign, e, x.mant / 0x2000);
    hide Narrow, HalfFields, HalfMag, MakeHalf;
    Truncated(full, 0x2000, Pow2(x.exp - 1));
    Pow2Add(13, x.exp - 1);
    Pow2Add(e - 1, 125);
    MulAssociates(q, Pow2(e - 1), Pow2(125));
    MulAssociates(q + 1, Pow2(e - 1), Pow2(125));
  }

  lemma SubnormalTruncates(f: U32)
    requires 102 <= FloatFields(f).exp <= 112
    ensures HalfFields(Narrow(f)).sign == FloatFields(f).sign
    ensures Narrow(f) < 0xFFFF && HalfFields(Narrow(f) + 1).sign == FloatFields(f).sign
    ensures HalfMag(Narrow(f)) * Pow2(125) <= FloatMag(f) < HalfMag(Narrow(f) + 1) * Pow2(125)
  {
    hide Pow2;
    var x := FloatFields(f);
    var full, shift := 0x80_0000 + x.mant, 126 - x.exp;
    NarrowFits(x.mant, shift);
    assert Narrow(f) == MakeHalf(x.sign, 0, full / Pow2(shift));
    NextHalf(x.sign, 0, full / Pow2(shift));
    hide Narrow, HalfFields, HalfMag, MakeHalf;
    Truncated(full, Pow2(shift), Pow2(x.exp - 1));
    Pow2Add(shift, x.exp - 1);
  }
}
