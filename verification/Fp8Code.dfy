/** The formats as their codes: fp8 rounding returns the value of the nearest code, the even one on a tie. */
module Fp8Codes {
  import opened Mesh
  import opened Arithmetic
  import opened Halves
  import opened Fp8s

  // What an unsigned code of an exponent field over mbits mantissa bits denotes, the smallest unit being 2^low.
  function Decoded(mbits: nat, low: nat, code: nat): nat {
    var exp, mant := Quot(code, Pow2(mbits)), Rem(code, Pow2(mbits));
    if exp == 0 then mant * Pow2(low) else (Pow2(mbits) + mant) * Pow2(low + exp - 1)
  }

  lemma DecodedParts(mbits: nat, low: nat, exp: nat, mant: nat)
    requires mant < Pow2(mbits)
    ensures Decoded(mbits, low, exp * Pow2(mbits) + mant) ==
      if exp == 0 then mant * Pow2(low) else (Pow2(mbits) + mant) * Pow2(low + exp - 1)
  {
    DivModUnique(Pow2(mbits), exp * Pow2(mbits) + mant, exp, mant);
    hide Pow2;
  }

  // The code of k units 2^u.
  lemma DecodedOf(mbits: nat, low: nat, u: nat, k: nat)
    requires u >= low && k <= Pow2(mbits + 1) && (u == low || k >= Pow2(mbits))
    ensures Decoded(mbits, low, (u - low) * Pow2(mbits) + k) == k * Pow2(u)
  {
    var p := Pow2(mbits);
    assert Pow2(mbits + 1) == 2 * p && Pow2(u + 1) == 2 * Pow2(u);
    hide Pow2, Decoded;
    OneMore(u - low, p);
    OneMore(u - low + 1, p);
    if k < p {
      DecodedParts(mbits, low, 0, k);
    } else if k < 2 * p {
      DecodedParts(mbits, low, u - low + 1, k - p);
    } else {
      DecodedParts(mbits, low, u - low + 2, 0);
      MulAssociates(p, 2, Pow2(u));
    }
  }

  lemma {:induction false} NextCode(mbits: nat, low: nat, code: nat)
    ensures Decoded(mbits, low, code) < Decoded(mbits, low, code + 1)
  {
    var p := Pow2(mbits);
    var exp, mant := Quot(code, p), Rem(code, p);
    DivMod(p, code);
    OneMore(exp, p);
    hide Pow2, Decoded, Quot, Rem;
    DecodedParts(mbits, low, exp, mant);
    if mant + 1 < p {
      DecodedParts(mbits, low, exp, mant + 1);
      OneMore(mant, Pow2(low));
      OneMore(p + mant, if exp == 0 then 0 else Pow2(low + exp - 1));
    } else {
      DecodedParts(mbits, low, exp + 1, 0);
      Carries(mbits, low, exp, mant);
    }
  }

  // From the last code of a binade to the first of the next.
  lemma Carries(mbits: nat, low: nat, exp: nat, mant: nat)
    requires mant + 1 == Pow2(mbits)
    ensures exp == 0 ==> mant * Pow2(low) < Pow2(mbits) * Pow2(low)
    ensures exp > 0 ==> (Pow2(mbits) + mant) * Pow2(low + exp - 1) < Pow2(mbits) * Pow2(low + exp)
  {
    var p := Pow2(mbits);
    if exp == 0 {
      OneMore(mant, Pow2(low));
      hide Pow2;
    } else {
      var q := Pow2(low + exp - 1);
      assert Pow2(low + exp) == 2 * q;
      hide Pow2;
      OneMore(p + mant, q);
      MulAssociates(p, 2, q);
      assert (p + mant + 1) * q == 2 * p * q;
    }
  }

  lemma {:induction false} CodesOrdered(mbits: nat, low: nat, a: nat, b: nat)
    requires a < b
    ensures Decoded(mbits, low, a) < Decoded(mbits, low, b)
    decreases b
  {
    hide Decoded;
    NextCode(mbits, low, b - 1);
    if a < b - 1 {
      CodesOrdered(mbits, low, a, b - 1);
    }
  }

  // Every code's value is on the grid.
  lemma CodeOnGrid(f: Format, code: nat)
    ensures OnGrid(f, Decoded(f.mbits, f.low, code))
  {
    var p := Pow2(f.mbits);
    var exp, mant := Quot(code, p), Rem(code, p);
    DivMod(p, code);
    assert Pow2(f.mbits + 1) == 2 * p;
    hide Pow2, OnGrid, Quot, Rem;
    if exp > 0 {
      InsideBinade(f, f.low + exp - 1, p + mant);
    } else if mant > 0 {
      InsideBinade(f, f.low, mant);
    } else {
      ZeroOnGrid(f, Pow2(f.low));
    }
  }

  lemma RoundedUnits(f: Format, mag: nat) returns (k: nat)
    requires mag > 0
    ensures k == NearestEven(mag, Ulp(f, mag)) && RoundMag(f, mag) == k * Pow2(UlpExponent(f, mag)) && UlpExponent(f, mag) >= f.low
    ensures k <= Pow2(f.mbits + 1) && (UlpExponent(f, mag) == f.low || k >= Pow2(f.mbits))
  {
    var u := UlpExponent(f, mag);
    k := NearestEven(mag, Ulp(f, mag));
    BinadeBounds(f, mag);
    Pow2Add(f.mbits + 1, u);
    Pow2Add(f.mbits, u);
    var q := Quot(mag, Pow2(u));
    assert k == q || k == q + 1;
    hide Pow2, Quot, Rem, NearestEven, UlpExponent;
    MultiplesAround(Pow2(u), mag, Pow2(f.mbits + 1));
    MultiplesAround(Pow2(u), mag, Pow2(f.mbits));
  }

  // A code rounds to: the units of its binade, counted from zero.
  lemma RoundedCode(f: Format, mag: nat) returns (code: nat)
    requires mag > 0 && f.mbits > 0
    ensures Decoded(f.mbits, f.low, code) == RoundMag(f, mag)
    ensures code % 2 == NearestEven(mag, Ulp(f, mag)) % 2
  {
    hide UlpExponent, NearestEven, Decoded, RoundMag, Ulp, Pow2;
    var k := RoundedUnits(f, mag);
    var n := UlpExponent(f, mag) - f.low;
    code := n * Pow2(f.mbits) + k;
    DecodedOf(f.mbits, f.low, UlpExponent(f, mag), k);
    EvenPart(n, f.mbits);
    SameParity(n * Pow2(f.mbits), k);
  }

  lemma SameParity(even: nat, k: nat)
    requires even % 2 == 0
    ensures (even + k) % 2 == k % 2
  {
  }

  lemma EvenPart(n: nat, mbits: nat)
    requires mbits > 0
    ensures n * Pow2(mbits) % 2 == 0
  {
    var h := n * Pow2(mbits - 1);
    assert n * Pow2(mbits) == 2 * h;
  }

  // Two grid points equally far from a number, one of them its rounding, lie half a unit away from it.
  lemma TieIsHalfUlp(f: Format, mag: nat, g: nat)
    requires mag > 0 && OnGrid(f, g) && g != RoundMag(f, mag) && Distance(mag, g) == Distance(mag, RoundMag(f, mag))
    ensures 2 * Distance(mag, RoundMag(f, mag)) == Ulp(f, mag)
  {
    BetweenNeighbours(f, mag);
    RoundMagIsNeighbour(f, mag);
    NoGridPointBetween(f, mag, g);
    BelowOnGrid(f, mag);
    Nearest(f, mag, Below(f, mag));
    Nearest(f, mag, Above(f, mag));
    hide Below, Above, Ulp, Quot, Rem, RoundMag, OnGrid, NearestEven;
  }

  lemma BelowOnGrid(f: Format, mag: nat)
    requires mag > 0
    ensures OnGrid(f, Below(f, mag)) && OnGrid(f, Above(f, mag))
  {
    NeighbourOnGrid(f, mag, Quot(mag, Ulp(f, mag)));
    NeighbourOnGrid(f, mag, Quot(mag, Ulp(f, mag)) + 1);
    hide OnGrid;
  }

  // The code is nearest among those up to `top`, and even when another one is equally near.
  ghost predicate NearestCode(f: Format, top: nat, mag: nat, code: nat) {
    && code <= top
    && (forall c: nat | c <= top :: Distance(mag, Decoded(f.mbits, f.low, code)) <= Distance(mag, Decoded(f.mbits, f.low, c)))
    && (forall c: nat | c <= top && c != code && Distance(mag, Decoded(f.mbits, f.low, c)) == Distance(mag, Decoded(f.mbits, f.low, code)) ::
          code % 2 == 0)
  }

  /** In a format whose largest value is that of a code, rounding returns the value of the code nearest to the number, the even one on a
      tie; beyond the largest, that one. */
  lemma RoundsToNearestCode(f: Format, top: nat, mag: nat) returns (code: nat)
    requires f.mbits > 0 && f.fmax > 0 && Decoded(f.mbits, f.low, top) == f.fmax
    ensures RoundedMag(f, mag) == Decoded(f.mbits, f.low, code) && NearestCode(f, top, mag, code)
  {
    CodeOnGrid(f, top);
    hide Decoded, OnGrid, RoundMag;
    if mag == 0 {
      code := 0;
      ZeroCode(f.mbits, f.low);
      ZeroIsNearest(f, top);
    } else if mag > f.fmax {
      code := top;
      GridPointKept(f, f.fmax);
      TopIsNearest(f, top, mag);
    } else {
      code := RoundedCode(f, mag);
      CodeInRange(f, top, mag, code);
      forall c: nat | c <= top
        ensures Distance(mag, RoundMag(f, mag)) <= Distance(mag, Decoded(f.mbits, f.low, c))
        ensures c != code && Distance(mag, Decoded(f.mbits, f.low, c)) == Distance(mag, RoundMag(f, mag)) ==> code % 2 == 0
      {
        CodeOnGrid(f, c);
        Nearest(f, mag, Decoded(f.mbits, f.low, c));
        if c != code && Distance(mag, Decoded(f.mbits, f.low, c)) == Distance(mag, RoundMag(f, mag)) {
          DistinctCodes(f.mbits, f.low, c, code);
          TieIsHalfUlp(f, mag, Decoded(f.mbits, f.low, c));
          HalfUlp(f, mag);
        }
      }
    }
  }

  lemma ZeroCode(mbits: nat, low: nat)
    ensures Decoded(mbits, low, 0) == 0
  {
    DecodedParts(mbits, low, 0, 0);
  }

  lemma DistinctCodes(mbits: nat, low: nat, a: nat, b: nat)
    requires a != b
    ensures Decoded(mbits, low, a) != Decoded(mbits, low, b)
  {
    hide Decoded;
    if a < b {
      CodesOrdered(mbits, low, a, b);
    } else {
      CodesOrdered(mbits, low, b, a);
    }
  }

  lemma ZeroIsNearest(f: Format, top: nat)
    ensures NearestCode(f, top, 0, 0)
  {
    ZeroCode(f.mbits, f.low);
    hide Decoded;
  }

  lemma TopIsNearest(f: Format, top: nat, mag: nat)
    requires mag > Decoded(f.mbits, f.low, top)
    ensures NearestCode(f, top, mag, top)
  {
    hide Decoded;
    forall c: nat | c < top
      ensures Decoded(f.mbits, f.low, c) < Decoded(f.mbits, f.low, top)
    {
      CodesOrdered(f.mbits, f.low, c, top);
    }
  }

  lemma CodeInRange(f: Format, top: nat, mag: nat, code: nat)
    requires f.fmax > 0 && Decoded(f.mbits, f.low, top) == f.fmax && OnGrid(f, f.fmax) && 0 < mag <= f.fmax
    requires Decoded(f.mbits, f.low, code) == RoundMag(f, mag)
    ensures code <= top
  {
    hide Decoded, OnGrid, RoundMag;
    RoundMagMonotone(f, mag, f.fmax);
    GridPointKept(f, f.fmax);
    if top < code {
      CodesOrdered(f.mbits, f.low, top, code);
    }
  }

  // ----- The two formats -----

  lemma Powers()
    ensures Pow2(2) == 4 && Pow2(3) == 8 && Pow2(5) == 32 && Pow2(13) == 8192
  {
    SmallPowers();
  }

  lemma Tops(scale: nat)
    requires scale >= 16
    ensures Decoded(3, scale - 9, 126) == 448 * Pow2(scale)
    ensures Decoded(2, scale - 16, 123) == 57344 * Pow2(scale)
  {
    Powers();
    hide Decoded, Pow2;
    DecodedParts(3, scale - 9, 15, 6);
    DecodedParts(2, scale - 16, 30, 3);
    Pow2Add(5, scale);
    Pow2Add(13, scale);
    MulAssociates(14, 32, Pow2(scale));
    MulAssociates(7, 8192, Pow2(scale));
  }

  /** e4m3: the codes 0 to 126 of four exponent and three mantissa bits, units of 2^-9 at the bottom and 448 at the top. */
  lemma E4M3Codes(scale: nat, mag: nat) returns (code: nat)
    requires scale >= 16
    ensures RoundedMag(E4M3(scale), mag) == Decoded(3, scale - 9, code) && NearestCode(E4M3(scale), 126, mag, code)
  {
    Tops(scale);
    hide Decoded, RoundedMag;
    code := RoundsToNearestCode(E4M3(scale), 126, mag);
  }

  /** e5m2: the codes 0 to 123 of five exponent and two mantissa bits, units of 2^-16 at the bottom and 57344 at the top. */
  lemma E5M2Codes(scale: nat, mag: nat) returns (code: nat)
    requires scale >= 16
    ensures RoundedMag(E5M2(scale), mag) == Decoded(2, scale - 16, code) && NearestCode(E5M2(scale), 123, mag, code)
  {
    Tops(scale);
    hide Decoded, RoundedMag;
    code := RoundsToNearestCode(E5M2(scale), 123, mag);
  }
}
