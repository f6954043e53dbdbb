/** Simulated fp8 rounding over exact dyadic numbers: round to the format's grid at the number's own exponent, ties to even, saturating. */
module Fp8s {
  import opened Wavelets
  import opened Mesh
  import opened Arithmetic
  import opened Halves

  /** A number in units of 2^-scale, for a scale the caller fixes. */
  datatype Number = NaN | Inf(neg: bool) | Finite(neg: bool, mag: nat)

  /** mbits mantissa bits; the smallest unit in the last place is 2^low units, low = scale + 1 - bias - mbits; fmax in units. */
  datatype Format = Format(mbits: nat, low: nat, fmax: nat, hasInf: bool)

  // ----- Exponents -----

  // Models `frexp`: the position of the leading bit.
  function Log2(n: nat): (e: nat)
    requires n > 0
  {
    if n < 2 then 0 else 1 + Log2(n / 2)
  }

  lemma {:induction false} Log2Bounds(n: nat)
    requires n > 0
    ensures Pow2(Log2(n)) <= n < Pow2(Log2(n) + 1)
  {
    if n >= 2 {
      Log2Bounds(n / 2);
      assert Pow2(Log2(n / 2) + 1) == 2 * Pow2(Log2(n / 2)) && Pow2(Log2(n / 2) + 2) == 2 * Pow2(Log2(n / 2) + 1);
    } else {
      assert Pow2(0) == 1 && Pow2(1) == 2;
    }
  }

  lemma Log2Unique(n: nat, e: nat)
    requires Pow2(e) <= n < Pow2(e + 1)
    ensures n > 0 && Log2(n) == e
  {
    Log2Bounds(n);
    if e < Log2(n) {
      Pow2Monotone(e + 1, Log2(n));
    } else if Log2(n) < e {
      Pow2Monotone(Log2(n) + 1, e);
    }
  }

  // ----- Rounding -----

  // Models `nearbyint` of num / den in the default rounding mode.
  function NearestEven(num: nat, den: nat): nat
    requires den > 0
  {
    var q, r := Quot(num, den), Rem(num, den);
    if 2 * r < den || (2 * r == den && q % 2 == 0) then q else q + 1
  }

  function UlpExponent(f: Format, mag: nat): nat
    requires mag > 0
  {
    if Log2(mag) < f.low + f.mbits then f.low else Log2(mag) - f.mbits
  }

  function Ulp(f: Format, mag: nat): (u: nat)
    requires mag > 0
    ensures u > 0
  {
    Pow2(UlpExponent(f, mag))
  }

  function RoundMag(f: Format, mag: nat): nat
    requires mag > 0
  {
    NearestEven(mag, Ulp(f, mag)) * Ulp(f, mag)
  }

  function Saturated(f: Format, mag: nat): nat {
    if mag > f.fmax then f.fmax else mag
  }

  function Fp8Round(f: Format, x: Number): Number
    requires f.fmax > 0
  {
    match x
    case NaN => x
    case Inf(neg) => if f.hasInf then x else Finite(neg, f.fmax)
    case Finite(neg, mag) =>
      if mag == 0 then x
      else
        var r := RoundMag(f, Saturated(f, mag));
        Finite(neg, if r > f.fmax then f.fmax else r)
  }

  // ----- The grid -----

  predicate OnGrid(f: Format, v: nat) {
    v == 0 || Rem(v, Ulp(f, v)) == 0
  }

  // The binade a magnitude rounds in: an exponent no smaller than the smallest normal one.
  function Binade(f: Format, mag: nat): nat
    requires mag > 0
  {
    f.mbits + UlpExponent(f, mag)
  }

  lemma BinadeBounds(f: Format, mag: nat)
    requires mag > 0
    ensures mag < Pow2(Binade(f, mag) + 1)
    ensures Binade(f, mag) > f.low + f.mbits ==> Pow2(Binade(f, mag)) <= mag
    ensures Binade(f, mag) >= f.low + f.mbits
  {
    Log2Bounds(mag);
    if Log2(mag) < f.low + f.mbits {
      Pow2Monotone(Log2(mag) + 1, f.low + f.mbits + 1);
    }
  }

  lemma MultipleOf(w: nat, k: nat)
    requires w > 0
    ensures Rem(k * w, w) == 0 && Quot(k * w, w) == k
  {
    DivModUnique(w, k * w, k, 0);
  }

  lemma PowSplit(a: nat, b: nat)
    requires a <= b
    ensures Pow2(b) == Pow2(b - a) * Pow2(a)
  {
    Pow2Add(b - a, a);
  }

  // A multiple of 2^b is a multiple of 2^a, for a <= b.
  lemma CoarserMultiple(v: nat, a: nat, b: nat)
    requires a <= b && Rem(v, Pow2(b)) == 0
    ensures Rem(v, Pow2(a)) == 0
  {
    hide Pow2;
    DivMod(Pow2(b), v);
    PowSplit(a, b);
    var k := Quot(v, Pow2(b));
    hide Quot, Rem;
    MulAssociates(k, Pow2(b - a), Pow2(a));
    MultipleOf(Pow2(a), k * Pow2(b - a));
  }

  // Multiples of w on the two sides of n stay on the two sides of its quotient.
  lemma MultiplesAround(w: nat, n: nat, k: nat)
    requires w > 0
    ensures k * w <= n ==> k <= Quot(n, w)
    ensures k * w > n ==> k >= Quot(n, w) + 1
  {
    DivMod(w, n);
    var q := Quot(n, w);
    hide Quot, Rem;
    if k > q {
      MulMonotone(q + 1, k, w);
    } else {
      MulMonotone(k, q, w);
    }
  }

  // A larger binade starts on the grid of every smaller one.
  lemma GridPointIsMultiple(f: Format, mag: nat, g: nat)
    requires mag > 0 && OnGrid(f, g) && (g == 0 || UlpExponent(f, mag) <= UlpExponent(f, g))
    ensures Rem(g, Ulp(f, mag)) == 0
  {
    hide Pow2, Log2;
    if g == 0 {
      MultipleOf(Ulp(f, mag), 0);
    } else {
      hide UlpExponent;
      CoarserMultiple(g, UlpExponent(f, mag), UlpExponent(f, g));
    }
  }

  lemma UlpExponentMonotone(f: Format, a: nat, b: nat)
    requires 0 < a <= b
    ensures UlpExponent(f, a) <= UlpExponent(f, b)
  {
    Log2Bounds(a);
    Log2Bounds(b);
    if Log2(b) < Log2(a) {
      Pow2Monotone(Log2(b) + 1, Log2(a));
    }
  }

  // The two multiples of its ulp around a magnitude.
  function Below(f: Format, mag: nat): nat
    requires mag > 0
  {
    Quot(mag, Ulp(f, mag)) * Ulp(f, mag)
  }

  function Above(f: Format, mag: nat): nat
    requires mag > 0
  {
    (Quot(mag, Ulp(f, mag)) + 1) * Ulp(f, mag)
  }

  lemma BetweenNeighbours(f: Format, mag: nat)
    requires mag > 0
    ensures Below(f, mag) <= mag < Above(f, mag) == Below(f, mag) + Ulp(f, mag)
    ensures mag - Below(f, mag) == Rem(mag, Ulp(f, mag))
  {
    DivMod(Ulp(f, mag), mag);
    hide Quot, Rem, Ulp;
  }

  /** No grid point lies strictly between a magnitude's two neighbours. */
  lemma NoGridPointBetween(f: Format, mag: nat, g: nat)
    requires mag > 0 && OnGrid(f, g)
    ensures g <= mag ==> g <= Below(f, mag)
    ensures g > mag ==> g >= Above(f, mag)
  {
    var u := Ulp(f, mag);
    hide Pow2, Log2;
    if g > 0 && UlpExponent(f, g) < UlpExponent(f, mag) {
      LowerBinade(f, mag, g);
    } else {
      GridPointIsMultiple(f, mag, g);
      DivMod(u, g);
      hide OnGrid, UlpExponent, Ulp;
      MultiplesAround(u, mag, Quot(g, u));
      hide Rem;
      var k, q := Quot(g, u), Quot(mag, u);
      hide Quot;
      if k <= q {
        MulMonotone(k, q, u);
      }
      if k >= q + 1 {
        MulMonotone(q + 1, k, u);
      }
    }
  }

  // A point of a lower binade is below the binade's start, and that is on the grid of the upper one.
  lemma LowerBinade(f: Format, mag: nat, g: nat)
    requires mag > 0 && g > 0 && UlpExponent(f, g) < UlpExponent(f, mag)
    ensures g <= mag && g <= Below(f, mag)
  {
    BinadeBounds(f, mag);
    BinadeBounds(f, g);
    var u, b := UlpExponent(f, mag), Binade(f, mag);
    hide Pow2, UlpExponent;
    Pow2Monotone(Binade(f, g) + 1, b);
    Pow2Add(f.mbits, u);
    hide Quot;
    MultiplesAround(Pow2(u), mag, Pow2(f.mbits));
    MulMonotone(Pow2(f.mbits), Quot(mag, Pow2(u)), Pow2(u));
  }

  // ----- What rounding does -----

  lemma RoundMagIsNeighbour(f: Format, mag: nat)
    requires mag > 0
    ensures RoundMag(f, mag) == if NearestEven(mag, Ulp(f, mag)) == Quot(mag, Ulp(f, mag)) then Below(f, mag) else Above(f, mag)
  {
  }

  /** The rounded magnitude is within half a unit in the last place; on a tie it is an even multiple of it. */
  lemma HalfUlp(f: Format, mag: nat)
    requires mag > 0
    ensures 2 * Distance(mag, RoundMag(f, mag)) <= Ulp(f, mag)
    ensures 2 * Distance(mag, RoundMag(f, mag)) == Ulp(f, mag) ==> NearestEven(mag, Ulp(f, mag)) % 2 == 0
  {
    BetweenNeighbours(f, mag);
    RoundMagIsNeighbour(f, mag);
    hide Below, Above, Ulp, Quot, Rem, RoundMag;
  }

  /** No grid point is nearer than the rounded magnitude. */
  lemma Nearest(f: Format, mag: nat, g: nat)
    requires mag > 0 && OnGrid(f, g)
    ensures Distance(mag, RoundMag(f, mag)) <= Distance(mag, g)
  {
    BetweenNeighbours(f, mag);
    RoundMagIsNeighbour(f, mag);
    NoGridPointBetween(f, mag, g);
    hide Below, Above, Ulp, Quot, Rem, RoundMag, OnGrid;
  }

  lemma InsideBinade(f: Format, u: nat, k: nat)
    requires 0 < k < Pow2(f.mbits + 1) && u >= f.low
    ensures OnGrid(f, k * Pow2(u))
  {
    hide Pow2, Quot, Rem, UlpExponent;
    var v := k * Pow2(u);
    Pow2Add(f.mbits + 1, u);
    MulMonotone(1, k, Pow2(u));
    MulMonotone(k + 1, Pow2(f.mbits + 1), Pow2(u));
    OneMore(k, Pow2(u));
    MultipleOf(Pow2(u), k);
    SmallUlp(f, v, u);
    CoarserMultiple(v, UlpExponent(f, v), u);
  }

  // A multiple of an ulp that does not leave the binade, or only just, is on the grid.
  lemma NeighbourOnGrid(f: Format, mag: nat, k: nat)
    requires mag > 0
    requires k == Quot(mag, Ulp(f, mag)) || k == Quot(mag, Ulp(f, mag)) + 1
    ensures OnGrid(f, k * Ulp(f, mag))
  {
    var u := UlpExponent(f, mag);
    BinadeBounds(f, mag);
    Pow2Add(f.mbits + 1, u);
    hide Pow2, UlpExponent, Quot, Rem, OnGrid;
    MultiplesAround(Pow2(u), mag, Pow2(f.mbits + 1));
    if k == 0 {
      ZeroOnGrid(f, Pow2(u));
    } else if k == Pow2(f.mbits + 1) {
      NextBinade(f, u);
    } else {
      InsideBinade(f, u, k);
    }
  }

  lemma ZeroOnGrid(f: Format, w: nat)
    ensures OnGrid(f, 0 * w)
  {
  }

  lemma SmallUlp(f: Format, v: nat, u: nat)
    requires 0 < v < Pow2(f.mbits + 1 + u) && u >= f.low
    ensures UlpExponent(f, v) <= u
  {
    hide Pow2;
    BinadeBounds(f, v);
    if UlpExponent(f, v) > u {
      Pow2Monotone(f.mbits + 1 + u, Binade(f, v));
    }
  }

  lemma NextBinade(f: Format, u: nat)
    requires u >= f.low
    ensures Pow2(f.mbits + 1) * Pow2(u) > 0 && OnGrid(f, Pow2(f.mbits + 1) * Pow2(u))
  {
    var e := f.mbits + 1 + u;
    Pow2Add(f.mbits + 1, u);
    Pow2Monotone(e, e + 1);
    assert Pow2(e + 1) == 2 * Pow2(e);
    Log2Unique(Pow2(e), e);
    hide Pow2, Log2;
    PowSplit(u + 1, e);
    MultipleOf(Pow2(u + 1), Pow2(e - u - 1));
  }

  /** The rounded magnitude is on the grid. */
  lemma RoundedOnGrid(f: Format, mag: nat)
    requires mag > 0
    ensures OnGrid(f, RoundMag(f, mag))
  {
    NeighbourOnGrid(f, mag, NearestEven(mag, Ulp(f, mag)));
  }

  /** Grid points do not move. */
  lemma GridPointKept(f: Format, g: nat)
    requires g > 0 && OnGrid(f, g)
    ensures RoundMag(f, g) == g
  {
    DivMod(Ulp(f, g), g);
    hide Quot, Rem, Ulp;
  }

  /** Rounding keeps the order of magnitudes. */
  lemma RoundMagMonotone(f: Format, a: nat, b: nat)
    requires 0 < a <= b
    ensures RoundMag(f, a) <= RoundMag(f, b)
  {
    BetweenNeighbours(f, a);
    BetweenNeighbours(f, b);
    RoundMagIsNeighbour(f, a);
    RoundMagIsNeighbour(f, b);
    RoundedOnGrid(f, a);
    RoundedOnGrid(f, b);
    NoGridPointBetween(f, a, RoundMag(f, b));
    NoGridPointBetween(f, b, RoundMag(f, a));
    HalfUlp(f, a);
    HalfUlp(f, b);
    Nearest(f, a, RoundMag(f, b));
    Nearest(f, b, RoundMag(f, a));
    hide Below, Above, Ulp, Quot, Rem, RoundMag, OnGrid, NearestEven;
  }

  // ----- The whole function -----

  function Negated(x: Number): Number {
    match x
    case NaN => NaN
    case Inf(neg) => Inf(!neg)
    case Finite(neg, mag) => Finite(!neg, mag)
  }

  // The order of the extended numbers; the two zeros are level.
  function Signed(x: Number): int
    requires x.Finite?
  {
    if x.neg then -(x.mag as int) else x.mag as int
  }

  predicate AtMost(x: Number, y: Number) {
    match (x, y)
    case (Finite(_, _), Finite(_, _)) => Signed(x) <= Signed(y)
    case (Inf(neg), Finite(_, _)) => neg
    case (Finite(_, _), Inf(neg)) => !neg
    case (Inf(a), Inf(b)) => a || !b
    case _ => false
  }

  predicate Representable(f: Format, x: Number) {
    match x
    case NaN => true
    case Inf(_) => f.hasInf
    case Finite(_, mag) => OnGrid(f, mag) && mag <= f.fmax
  }

  predicate Sound(f: Format) {
    f.fmax > 0 && OnGrid(f, f.fmax)
  }

  // The magnitude the function gives a finite number.
  function RoundedMag(f: Format, mag: nat): nat
    requires f.fmax > 0
  {
    if mag == 0 then 0 else RoundMag(f, Saturated(f, mag))
  }

  /** With the largest finite value on the grid, the final clamp never acts. */
  lemma ClampNeverNeeded(f: Format, mag: nat)
    requires Sound(f)
    ensures RoundedMag(f, mag) <= f.fmax
    ensures forall neg :: Fp8Round(f, Finite(neg, mag)) == Finite(neg, RoundedMag(f, mag))
  {
    if mag > 0 {
      RoundMagMonotone(f, Saturated(f, mag), f.fmax);
      GridPointKept(f, f.fmax);
    }
    hide RoundMag, OnGrid;
  }

  /** Rounding commutes with negation. */
  lemma Odd(f: Format, x: Number)
    requires f.fmax > 0
    ensures Fp8Round(f, Negated(x)) == Negated(Fp8Round(f, x))
  {
    hide RoundMag;
  }

  /** The result is a value of the format, and values of the format are kept. */
  lemma RoundsOntoFormat(f: Format, x: Number)
    requires Sound(f)
    ensures Representable(f, Fp8Round(f, x))
    ensures Representable(f, x) <==> Fp8Round(f, x) == x
  {
    if x.Finite? && x.mag > 0 {
      ClampNeverNeeded(f, x.mag);
      RoundedOnGrid(f, Saturated(f, x.mag));
      if Representable(f, x) {
        GridPointKept(f, x.mag);
      }
    }
    hide RoundMag, OnGrid;
  }

  lemma RoundedMagMonotone(f: Format, a: nat, b: nat)
    requires Sound(f) && a <= b
    ensures RoundedMag(f, a) <= RoundedMag(f, b)
  {
    if a > 0 {
      RoundMagMonotone(f, Saturated(f, a), Saturated(f, b));
    }
    hide RoundMag, OnGrid;
  }

  /** Rounding keeps the order of all numbers, infinities included. */
  lemma Monotone(f: Format, x: Number, y: Number)
    requires Sound(f) && AtMost(x, y)
    ensures AtMost(Fp8Round(f, x), Fp8Round(f, y))
  {
    if x.Finite? {
      ClampNeverNeeded(f, x.mag);
    }
    if y.Finite? {
      ClampNeverNeeded(f, y.mag);
    }
    if x.Finite? && y.Finite? {
      if x.mag <= y.mag {
        RoundedMagMonotone(f, x.mag, y.mag);
      } else {
        RoundedMagMonotone(f, y.mag, x.mag);
      }
    }
    hide RoundedMag, OnGrid;
  }

  /** No finite value of the format is nearer to a number than its rounding; numbers beyond the largest value saturate. */
  lemma NearestValue(f: Format, mag: nat, v: nat)
    requires Sound(f) && OnGrid(f, v) && v <= f.fmax
    ensures Distance(mag, RoundedMag(f, mag)) <= Distance(mag, v)
  {
    if mag > f.fmax {
      GridPointKept(f, f.fmax);
    } else if mag > 0 {
      Nearest(f, mag, v);
    }
    hide RoundMag, OnGrid;
  }

  // ----- The two formats -----

  // The format of given mantissa bits, exponent bias and largest value, seen at a scale fine enough for its smallest unit.
  function FormatOf(scale: nat, mbits: nat, bias: int, fmax: nat, hasInf: bool): Format
    requires bias + mbits <= scale + 1
  {
    Format(mbits, scale + 1 - bias - mbits, fmax * Pow2(scale), hasInf)
  }

  // 3 mantissa bits, bias 7, at most 448, no infinity.
  function E4M3(scale: nat): Format
    requires scale >= 9
  {
    FormatOf(scale, 3, 7, 448, false)
  }

  // 2 mantissa bits, bias 15, at most 57344, infinities.
  function E5M2(scale: nat): Format
    requires scale >= 16
  {
    FormatOf(scale, 2, 15, 57344, true)
  }

  // c * 2^n with c of mbits + 1 bits is on the grid.
  lemma TopOnGrid(f: Format, c: nat, n: nat)
    requires Pow2(f.mbits) <= c < Pow2(f.mbits + 1) && n >= f.low
    ensures c * Pow2(n) > 0 && OnGrid(f, c * Pow2(n))
  {
    hide Pow2;
    MulMonotone(1, c, Pow2(n));
    InsideBinade(f, n, c);
  }

  /** Both formats' largest values are on their grids, so everything above holds of them. */
  lemma FormatsSound(scale: nat)
    requires scale >= 16
    ensures Sound(E4M3(scale)) && Sound(E5M2(scale))
  {
    SmallPowers();
    hide Pow2;
    Pow2Add(5, scale);
    Pow2Add(13, scale);
    TopOnGrid(E4M3(scale), 14, scale + 5);
    TopOnGrid(E5M2(scale), 7, scale + 13);
    hide OnGrid;
    assert 14 * (32 * Pow2(scale)) == 448 * Pow2(scale) && 7 * (8192 * Pow2(scale)) == 57344 * Pow2(scale);
  }

  lemma SmallPowers()
    ensures Pow2(2) == 4 && Pow2(3) == 8 && Pow2(4) == 16 && Pow2(5) == 32 && Pow2(13) == 8192
  {
    TwoTo13();
  }
}
