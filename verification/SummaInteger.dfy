/** SUMMA on small integers: where halves hold them and the multiply-add is exact, every cell of the result is the integer sum of products. */
module SummaIntegers {
  import opened Wavelets
  import opened Mesh
  import opened Arithmetic
  import opened Halves
  import opened SummaPlans
  import opened SummaModels
  import opened SummaResults
  import opened SummaRuns

  // A half holds every integer up to 2048.
  const LIMIT: int := 2048

  ghost predicate Small(v: int) {
    -LIMIT <= v <= LIMIT
  }

  // The arithmetic on the values that stand for small integers: halves keep them, the multiply-add is exact.
  ghost predicate HoldsIntegers<F(!new)>(ar: Arith<F>, rep: int -> F) {
    && ar.zero == rep(0)
    && (forall v | Small(v) :: ar.fromHalf(ar.toHalf(rep(v))) == rep(v))
    && (forall x, y, z | Small(x) && Small(y) && Small(z) && Small(x * y + z) :: ar.mulAdd(rep(x), rep(y), rep(z)) == rep(x * y + z))
  }

  // a[r*k] * b[q] + a[r*k + 1] * b[n + q] + ... over the first kk terms.
  ghost function PartialSum(a: seq<int>, b: seq<int>, m: nat, k: nat, n: nat, r: nat, q: nat, kk: nat): int
    requires |a| == m * k && |b| == k * n && r < m && q < n && kk <= k
  {
    if kk == 0 then 0
    else
      IndexInverse(k, m, kk - 1, r);
      IndexInverse(n, k, q, kk - 1);
      PartialSum(a, b, m, k, n, r, q, kk - 1) + a[r * k + (kk - 1)] * b[(kk - 1) * n + q]
  }

  ghost predicate Represents<F(!new)>(s: seq<F>, v: seq<int>, rep: int -> F) {
    |s| == |v| && forall i | 0 <= i < |s| :: s[i] == rep(v[i]) && Small(v[i])
  }

  lemma Multiplies<F(!new)>(ar: Arith<F>, rep: int -> F, x: int, y: int, acc: U16, z: int)
    requires HoldsIntegers(ar, rep) && Small(x) && Small(y) && Small(z) && Small(x * y + z) && ar.fromHalf(acc) == rep(z)
    ensures ar.fromHalf(ar.Fma(ar.toHalf(rep(x)), ar.toHalf(rep(y)), acc)) == rep(x * y + z)
  {
    assert ar.mulAdd(rep(x), rep(y), rep(z)) == rep(x * y + z);
    hide Small;
  }

  lemma StartsAtZero<F(!new)>(ar: Arith<F>, rep: int -> F)
    requires HoldsIntegers(ar, rep)
    ensures ar.fromHalf(ar.toHalf(ar.zero)) == rep(0)
  {
    assert Small(0);
  }

  // No partial sum over the first kk terms exceeds the limit.
  ghost predicate Bounded(a: seq<int>, b: seq<int>, m: nat, k: nat, n: nat, r: nat, q: nat, kk: nat)
    requires |a| == m * k && |b| == k * n && r < m && q < n && kk <= k
  {
    forall j | 0 <= j <= kk :: Small(PartialSum(a, b, m, k, n, r, q, j))
  }

  lemma Operands<F(!new)>(A: seq<F>, B: seq<F>, a: seq<int>, b: seq<int>, rep: int -> F, m: nat, k: nat, n: nat, r: nat, q: nat, j: nat)
    requires Represents(A, a, rep) && Represents(B, b, rep) && |a| == m * k && |b| == k * n && r < m && q < n && j < k
    ensures r * k + j < |a| && j * n + q < |b| && Small(a[r * k + j]) && Small(b[j * n + q])
    ensures Elem(A, m, k, r, j) == rep(a[r * k + j]) && Elem(B, k, n, j, q) == rep(b[j * n + q])
  {
    IndexInverse(k, m, j, r);
    IndexInverse(n, k, q, j);
  }

  lemma NothingYet<F(!new)>(ar: Arith<F>, A: seq<F>, B: seq<F>, a: seq<int>, b: seq<int>, m: nat, k: nat, n: nat, r: nat, q: nat)
    requires |A| == |a| == m * k && |B| == |b| == k * n && r < m && q < n
    ensures DotHalf(ar, A, B, m, k, n, r, q, 0) == ar.toHalf(ar.zero) && PartialSum(a, b, m, k, n, r, q, 0) == 0
  {
  }

  lemma OneMoreTerm<F(!new)>(ar: Arith<F>, A: seq<F>, B: seq<F>, a: seq<int>, b: seq<int>, m: nat, k: nat, n: nat, r: nat, q: nat, j: nat)
    requires |A| == |a| == m * k && |B| == |b| == k * n && r < m && q < n && j < k
    ensures DotHalf(ar, A, B, m, k, n, r, q, j + 1) ==
      ar.Fma(ar.toHalf(Elem(A, m, k, r, j)), ar.toHalf(Elem(B, k, n, j, q)), DotHalf(ar, A, B, m, k, n, r, q, j))
    ensures r * k + j < |a| && j * n + q < |b|
    ensures PartialSum(a, b, m, k, n, r, q, j + 1) == PartialSum(a, b, m, k, n, r, q, j) + a[r * k + j] * b[j * n + q]
  {
    IndexInverse(k, m, j, r);
    IndexInverse(n, k, q, j);
    hide Arith.Fma, Elem, Index;
  }

  lemma BoundedBefore(a: seq<int>, b: seq<int>, m: nat, k: nat, n: nat, r: nat, q: nat, kk: nat)
    requires |a| == m * k && |b| == k * n && r < m && q < n && 0 < kk <= k && Bounded(a, b, m, k, n, r, q, kk)
    ensures Bounded(a, b, m, k, n, r, q, kk - 1)
    ensures Small(PartialSum(a, b, m, k, n, r, q, kk - 1)) && Small(PartialSum(a, b, m, k, n, r, q, kk))
  {
  }

  lemma {:induction false} DotIsInteger<F(!new)>(ar: Arith<F>, rep: int -> F, A: seq<F>, B: seq<F>, a: seq<int>, b: seq<int>,
      m: nat, k: nat, n: nat, r: nat, q: nat, kk: nat)
    requires HoldsIntegers(ar, rep) && Represents(A, a, rep) && Represents(B, b, rep)
    requires |A| == |a| == m * k && |B| == |b| == k * n && r < m && q < n && kk <= k && Bounded(a, b, m, k, n, r, q, kk)
    ensures ar.fromHalf(DotHalf(ar, A, B, m, k, n, r, q, kk)) == rep(PartialSum(a, b, m, k, n, r, q, kk))
    decreases kk
  {
    hide HoldsIntegers, Small, Elem, Index, Represents, Arith.Fma, PartialSum, Bounded, DotHalf;
    if kk == 0 {
      StartsAtZero(ar, rep);
      NothingYet(ar, A, B, a, b, m, k, n, r, q);
    } else {
      var j := kk - 1;
      BoundedBefore(a, b, m, k, n, r, q, kk);
      DotIsInteger(ar, rep, A, B, a, b, m, k, n, r, q, j);
      Operands(A, B, a, b, rep, m, k, n, r, q, j);
      OneMoreTerm(ar, A, B, a, b, m, k, n, r, q, j);
      Multiplies(ar, rep, a[r * k + j], b[j * n + q], DotHalf(ar, A, B, m, k, n, r, q, j), PartialSum(a, b, m, k, n, r, q, j));
    }
  }

  lemma ProductCell<F(!new)>(job: Job<F>, c: seq<F>, m: nat, k: nat, n: nat, r: nat, q: nat)
    requires job.Valid() && IsProduct(job, c) && m == job.plan.m && k == job.plan.k && n == job.plan.n && r < m && q < n
    ensures |c| == m * n && |job.a| == m * k && |job.b| == k * n
    ensures Elem(c, m, n, r, q) == job.ar.fromHalf(DotHalf(job.ar, job.a, job.b, m, k, n, r, q, k))
  {
    hide SummaPlan.WellFormed, DotHalf;
  }

  ghost predicate CellIs<F>(c: seq<F>, n: nat, r: nat, q: nat, v: F) {
    r * n + q < |c| && c[r * n + q] == v
  }

  /** If no operand and no partial sum of a cell exceeds 2048, the run leaves the integer sum of products in it. */
  lemma IntegerProduct<F(!new)>(job: Job<F>, c: seq<F>, rep: int -> F, a: seq<int>, b: seq<int>, m: nat, k: nat, n: nat, r: nat, q: nat)
    requires job.Valid() && IsProduct(job, c) && HoldsIntegers(job.ar, rep)
    requires m == job.plan.m && k == job.plan.k && n == job.plan.n && r < m && q < n
    requires |a| == m * k && |b| == k * n && Represents(job.a, a, rep) && Represents(job.b, b, rep) && Bounded(a, b, m, k, n, r, q, k)
    ensures CellIs(c, n, r, q, rep(PartialSum(a, b, m, k, n, r, q, k)))
  {
    hide HoldsIntegers, Small, Represents, Bounded, Job.Valid, IsProduct, DotHalf, PartialSum;
    ProductCell(job, c, m, k, n, r, q);
    IndexInverse(n, m, q, r);
    assert Elem(c, m, n, r, q) == c[r * n + q];
    DotIsInteger(job.ar, rep, job.a, job.b, a, b, m, k, n, r, q, k);
  }

  // ----- The floats that stand for integers -----

  // Doublings that take a magnitude to 24 bits.
  function Raised(mag: nat): nat
    requires 0 < mag < 0x100_0000
    decreases 0x100_0000 - mag
  {
    if mag >= 0x80_0000 then 0 else 1 + Raised(2 * mag)
  }

  lemma {:induction false} RaisedBounds(mag: nat)
    requires 0 < mag < 0x100_0000
    ensures 0x80_0000 <= mag * Pow2(Raised(mag)) < 0x100_0000
    decreases 0x100_0000 - mag
  {
    if mag < 0x80_0000 {
      RaisedBounds(2 * mag);
      ShiftOnce(mag, Raised(2 * mag));
    } else {
      assert Pow2(0) == 1;
    }
  }

  lemma RaisedAtMost(mag: nat)
    requires 0 < mag < 0x100_0000
    ensures Raised(mag) <= 23
  {
    var j := Raised(mag);
    RaisedBounds(mag);
    TwoTo24();
    MulMonotone(1, mag, Pow2(j));
    if j > 23 {
      Pow2Monotone(24, j);
    }
    hide Raised;
  }

  lemma {:induction false} RaisedAtLeast(mag: nat, n: nat)
    requires 0 < mag && mag * Pow2(n) <= 0x80_0000
    ensures mag < 0x100_0000 && Raised(mag) >= n
    decreases n
  {
    MulMonotone(1, Pow2(n), mag);
    if n > 0 {
      ShiftOnce(mag, n - 1);
      MulMonotone(1, Pow2(n - 1), 2 * mag);
      RaisedAtLeast(2 * mag, n - 1);
    }
    hide Pow2;
  }

  function Magnitude(v: int): nat {
    if v < 0 then -v else v
  }

  // The float that denotes v, for magnitudes below 2^24.
  function FloatOf(v: int): U32 {
    var mag := Magnitude(v);
    if mag == 0 || mag >= 0x100_0000 then 0
    else
      RaisedBounds(mag);
      RaisedAtMost(mag);
      MakeFloat(if v < 0 then 1 else 0, 150 - Raised(mag), mag * Pow2(Raised(mag)) - 0x80_0000)
  }

  // It does: its magnitude is v's, in units of 2^-149.
  lemma FloatOfDenotes(v: int)
    requires Magnitude(v) < 0x100_0000
    ensures FloatMag(FloatOf(v)) == Magnitude(v) * Pow2(149)
    ensures v != 0 ==> FloatFields(FloatOf(v)).sign == if v < 0 then 1 else 0
  {
    var mag := Magnitude(v);
    if mag > 0 {
      var j := Raised(mag);
      RaisedBounds(mag);
      RaisedAtMost(mag);
      hide Raised, Pow2;
      assert FloatMag(FloatOf(v)) == mag * Pow2(j) * Pow2(149 - j);
      Pow2Add(j, 149 - j);
      MulAssociates(mag, Pow2(j), Pow2(149 - j));
    }
  }

  // Up to 2048 the low 13 bits of its mantissa are clear.
  lemma FitsHalf(mag: nat)
    requires 0 < mag <= 2048
    ensures 12 <= Raised(mag) <= 23 && (mag * Pow2(Raised(mag)) - 0x80_0000) % 0x2000 == 0
  {
    var j := Raised(mag);
    RaisedBounds(mag);
    RaisedAtMost(mag);
    assert Pow2(12) == 4096;
    TwoTo13();
    RaisedAtLeast(mag, 12);
    hide Raised;
    if j == 12 {
      assert mag == 2048;
    } else {
      Pow2Add(j - 13, 13);
      hide Pow2;
      MulAssociates(mag, Pow2(j - 13), 0x2000);
      DivModUnique(0x2000, mag * Pow2(j) - 0x80_0000, mag * Pow2(j - 13) - 1024, 0);
    }
  }

  lemma NormalSurvives(sign: nat, exp: nat, mant: nat)
    requires sign < 2 && 113 <= exp < 143 && mant < 0x80_0000 && mant % 0x2000 == 0
    ensures Widen(Narrow(MakeFloat(sign, exp, mant))) == MakeFloat(sign, exp, mant)
  {
    assert Narrow(MakeFloat(sign, exp, mant)) == MakeHalf(sign, exp - 112, mant / 0x2000);
  }

  /** Every integer up to 2048 survives the trip through a half. */
  lemma IntegerSurvives(v: int)
    requires Small(v)
    ensures Widen(Narrow(FloatOf(v))) == FloatOf(v)
  {
    var mag := Magnitude(v);
    hide Raised, Pow2, Narrow, Widen, MakeFloat;
    if mag > 0 {
      FitsHalf(mag);
      RaisedBounds(mag);
      var sign, exp, mant := if v < 0 then 1 else 0, 150 - Raised(mag), mag * Pow2(Raised(mag)) - 0x80_0000;
      assert FloatOf(v) == MakeFloat(sign, exp, mant);
      hide FloatOf;
      NormalSurvives(sign, exp, mant);
    } else {
      ZeroSurvives(mag, FloatOf(v));
    }
  }

  lemma ZeroSurvives(z: nat, f: U32)
    requires z == 0 && f == 0
    ensures Widen(Narrow(f)) == f
  {
    hide *;
    ZeroParts(z, f);
    ZeroNarrows(z, f);
    ZeroWidens(z, MakeHalf(z, z, z));
  }

  lemma ZeroParts(z: nat, f: U32)
    requires z == 0 && f == 0
    ensures MakeFloat(z, z, z) == f && FloatFields(f) == Fields(z, z, z)
  {
    assert MakeFloat(z, z, z) == f;
    hide FloatFields;
  }

  lemma ZeroNarrows(z: nat, f: U32)
    requires z == 0 && FloatFields(f) == Fields(z, z, z)
    ensures Narrow(f) == MakeHalf(z, z, z)
  {
    hide FloatFields, MakeHalf, Pow2;
  }

  lemma ZeroWidens(z: nat, h: U16)
    requires z == 0 && HalfFields(h) == Fields(z, z, z)
    ensures Widen(h) == MakeFloat(z, z, z)
  {
    hide HalfFields, MakeFloat, Pow2;
  }

  /** So the actual halves, with a multiply-add that is exact on small integers, multiply integer matrices exactly. */
  lemma HalvesHoldIntegers(mulAdd: (U32, U32, U32) -> U32)
    requires forall x, y, z | Small(x) && Small(y) && Small(z) && Small(x * y + z) ::
      mulAdd(FloatOf(x), FloatOf(y), FloatOf(z)) == FloatOf(x * y + z)
    ensures HoldsIntegers(Datapath(mulAdd), v => FloatOf(v))
  {
    hide FloatOf, Narrow, Widen;
    ZeroFloat();
    forall v | Small(v)
      ensures Widen(Narrow(FloatOf(v))) == FloatOf(v)
    {
      IntegerSurvives(v);
    }
  }

  lemma ZeroFloat()
    ensures FloatOf(0) == 0
  {
  }
}
