/** Rmsnorm in correctly rounded binary arithmetic: dividing by a power of two is multiplying by its reciprocal, and there is a row of
    length 3 on which every launch of the fused kernel differs from the reference. */
module FloatRmsnorms {
  import opened Wavelets
  import opened Mesh
  import opened Halves
  import opened Reductions
  import opened CpuReferences
  import opened GpuKernels
  import T = TiledGemms

  // ----- Rounding to nearest, ties to even -----

  function Two(k: int): real
    decreases if k < 0 then -k else k
  {
    if k == 0 then 1.0 else if k > 0 then 2.0 * Two(k - 1) else Two(k + 1) / 2.0
  }

  function Scale(x: real, k: int): real {
    x * Two(k)
  }

  // Scaled by 2^k, x takes p bits.
  ghost predicate TakesBits(p: nat, x: real, k: int)
    requires p > 0
  {
    Two(p - 1) <= Scale(x, k) < Two(p)
  }

  // v is the integer n, nearest to x.
  ghost predicate Nearest(v: real, x: real, n: int) {
    var d := x - (n as real);
    v == (n as real) && -0.5 <= d <= 0.5 && (d == 0.5 || d == -0.5 ==> n % 2 == 0)
  }

  // Rounding to p significant bits, with exponents as far as needed.
  ghost predicate RoundsTo(p: nat, rnd: real -> real)
    requires p > 0
  {
    && rnd(0.0) == 0.0
    && forall x, k | TakesBits(p, x, k) :: exists n: int :: RoundedAt(rnd, x, k, n)
  }

  ghost predicate RoundedAt(rnd: real -> real, x: real, k: int, n: int) {
    Nearest(Scale(rnd(x), k), Scale(x, k), n)
  }

  // v is the integer n, nearest to the root of x.
  ghost predicate NearestRoot(v: real, x: real, n: int) {
    v == (n as real) && n > 0 && Squared(2 * n - 1) <= 4.0 * x <= Squared(2 * n + 1)
  }

  function Squared(n: int): real {
    (n * n) as real
  }

  ghost predicate RootsTo(p: nat, root: real -> real)
    requires p > 0
  {
    forall x, k | RootTakesBits(p, x, k) :: exists n: int :: RootedAt(root, x, k, n)
  }

  // Scaled by 2^k, the root of x takes p bits.
  ghost predicate RootTakesBits(p: nat, x: real, k: int)
    requires p > 0
  {
    Two(2 * p - 2) <= Scale(x, 2 * k) < Two(2 * p)
  }

  ghost predicate RootedAt(root: real -> real, x: real, k: int, n: int) {
    NearestRoot(Scale(root(x), k), Scale(x, 2 * k), n)
  }

  function Times(a: real, b: real): real {
    a * b
  }

  function Over(a: real, b: real): real {
    if b == 0.0 then 0.0 else a / b
  }

  // fp32 arithmetic and bf16 storage on finite values: every operation rounds its exact result.
  datatype Rounding = Rounding(float: real -> real, bf16: real -> real, root: real -> real)
  {
    ghost predicate Correct() {
      RoundsTo(24, float) && RoundsTo(8, bf16) && RootsTo(24, root)
    }

    // Operations that rmsnorm does not use are left exact.
    function Arithmetic(): Math<real, real> {
      Math(T.Numbers(0.0, (h: real) => h, bf16, (a: real, b: real) => float(a + b), (a: real, b: real) => float(Times(a, b))), 1.0, 0.0,
           (a: real, b: real) => a - b, (a: real, b: real) => float(Over(a, b)),
           (a: real, b: real) => if a < b then b else a,
           root, (v: real) => v, (n: nat) => float(n as real), (v: real) => v, (v: real) => v)
    }
  }

  lemma Rounded(p: nat, rnd: real -> real, x: real, k: int, n: int)
    requires p > 0 && RoundsTo(p, rnd) && TakesBits(p, x, k) && Nearest(n as real, Scale(x, k), n)
    ensures Scale(rnd(x), k) == n as real
  {
    var m: int :| RoundedAt(rnd, x, k, m);
    NearestIsUnique(Scale(x, k), n, m);
  }

  lemma NearestIsUnique(x: real, n: int, m: int)
    requires Nearest(n as real, x, n) && Nearest(m as real, x, m)
    ensures n == m
  {
  }

  lemma Rooted(p: nat, root: real -> real, x: real, k: int, n: int)
    requires p > 0 && RootsTo(p, root) && RootTakesBits(p, x, k)
    requires n > 0 && Squared(2 * n - 1) < 4.0 * (Scale(x, 2 * k)) < Squared(2 * n + 1)
    ensures Scale(root(x), k) == n as real
  {
    hide *;
    var m := SomeRoot(p, root, x, k);
    RootIsUnique(Scale(root(x), k), Scale(x, 2 * k), m, n);
  }

  lemma SomeRoot(p: nat, root: real -> real, x: real, k: int) returns (m: int)
    requires p > 0 && RootsTo(p, root) && RootTakesBits(p, x, k)
    ensures NearestRoot(Scale(root(x), k), Scale(x, 2 * k), m)
  {
    m :| RootedAt(root, x, k, m);
  }

  lemma RootIsUnique(v: real, x: real, m: int, n: int)
    requires NearestRoot(v, x, m) && n > 0 && Squared(2 * n - 1) < 4.0 * x < Squared(2 * n + 1)
    ensures v == n as real
  {
    hide Squared;
    if m < n {
      SquareMonotone(2 * m + 1, 2 * n - 1);
    } else if n < m {
      SquareMonotone(2 * n + 1, 2 * m - 1);
    }
  }

  lemma SquareMonotone(a: nat, b: nat)
    requires a <= b
    ensures Squared(a) <= Squared(b)
  {
    MulMonotone(a, b, a);
    MulMonotone(a, b, b);
  }

  lemma Powers()
    ensures Two(0) == 1.0 && Two(7) == 128.0 && Two(8) == 256.0 && Two(11) == 2048.0 && Two(17) == 131072.0
    ensures Two(23) == 8388608.0 && Two(24) == 16777216.0 && Two(25) == 33554432.0
    ensures Two(34) == 17179869184.0 && Two(46) == 70368744177664.0 && Two(47) == 140737488355328.0 && Two(48) == 281474976710656.0
  {
    assert Two(4) == 16.0;
    assert Two(7) == 128.0;
    assert Two(8) == 256.0;
    assert Two(11) == 2048.0;
    assert Two(14) == 16384.0;
    assert Two(17) == 131072.0;
    assert Two(20) == 1048576.0;
    assert Two(23) == 8388608.0;
    assert Two(25) == 33554432.0;
    assert Two(28) == 268435456.0;
    assert Two(31) == 2147483648.0;
    assert Two(34) == 17179869184.0;
    assert Two(37) == 137438953472.0;
    assert Two(40) == 1099511627776.0;
    assert Two(43) == 8796093022208.0;
    assert Two(46) == 70368744177664.0;
    assert Two(48) == 281474976710656.0;
  }

  // A number that already has few enough bits is kept.
  lemma Exact(p: nat, rnd: real -> real, x: real, k: int, n: int)
    requires p > 0 && RoundsTo(p, rnd) && TakesBits(p, x, k) && Scale(x, k) == n as real
    ensures rnd(x) == x
  {
    Rounded(p, rnd, x, k, n);
    TwoPositive(k);
    SameScaled(rnd(x), x, Two(k));
  }

  lemma {:induction false} TwoPositive(k: int)
    ensures Two(k) > 0.0
    decreases if k < 0 then -k else k
  {
    if k > 0 {
      TwoPositive(k - 1);
    } else if k < 0 {
      TwoPositive(k + 1);
    }
  }

  lemma SameScaled(a: real, b: real, t: real)
    requires t > 0.0 && a * t == b * t
    ensures a == b
  {
  }

  // ----- Powers of two -----

  lemma {:induction false} TwoAdd(a: int, b: int)
    ensures Two(a + b) == Two(a) * Two(b)
    decreases if b < 0 then -b else b
  {
    if b > 0 {
      TwoAdd(a, b - 1);
      TwoNext(a + b - 1);
      TwoNext(b - 1);
      hide Two;
      Regroup(2.0, Two(a), Two(b - 1));
    } else if b < 0 {
      TwoAdd(a, b + 1);
      TwoNext(a + b);
      TwoNext(b);
      hide Two;
      Regroup(2.0, Two(a), Two(b));
    }
  }

  lemma Regroup(c: real, a: real, b: real)
    ensures c * (a * b) == a * (c * b)
  {
  }

  lemma TwoNext(k: int)
    ensures Two(k + 1) == 2.0 * Two(k)
  {
  }

  // A power of two is a float of its own, and so is its reciprocal.
  lemma PowerIsExact(rnd: real -> real, e: int)
    requires RoundsTo(24, rnd)
    ensures rnd(Two(e)) == Two(e)
  {
    Powers();
    hide Two;
    TwoAdd(e, 23 - e);
    Exact(24, rnd, Two(e), 23 - e, 8388608);
  }

  lemma {:induction false} PowIsTwo(e: nat)
    ensures Pow2(e) as real == Two(e)
  {
    if e > 0 {
      PowIsTwo(e - 1);
    }
  }

  lemma ReciprocalOf(s: real, a: real, b: real)
    requires a > 0.0 && a * b == 1.0
    ensures s / a == s * b
  {
    assert s / a * a == s;
    assert s * b * a == s * (a * b);
    SameScaled(s / a, s * b, a);
  }

  /** In correctly rounded arithmetic dividing by a power of two is multiplying by its reciprocal. */
  lemma PowerOfTwoDivides(r: Rounding, e: nat)
    requires r.Correct()
    ensures DividesByReciprocal(r.Arithmetic(), Pow2(e))
  {
    CorrectFloat(r);
    hide *;
    PowIsTwo(e);
    PowerIsExact(r.float, e);
    var d := 0 - e as int;
    PowerIsExact(r.float, d);
    TwoAdd(e, d);
    TwoPositive(e);
    Powers();
    forall s: real
      ensures SameQuotient(r.Arithmetic(), Pow2(e), s)
    {
      QuotientByParts(r, Pow2(e), Two(e), Two(d), s);
    }
    AllQuotients(r.Arithmetic(), Pow2(e));
  }

  lemma CorrectFloat(r: Rounding)
    requires r.Correct()
    ensures RoundsTo(24, r.float) && RoundsTo(8, r.bf16) && RootsTo(24, r.root)
  {
  }

  lemma AllQuotients(m: Math<real, real>, n: nat)
    requires forall s: real :: SameQuotient(m, n, s)
    ensures DividesByReciprocal(m, n)
  {
  }

  lemma QuotientByParts(r: Rounding, n: nat, a: real, b: real, s: real)
    requires a > 0.0 && a * b == 1.0 && r.float(n as real) == a && r.float(b) == b
    ensures SameQuotient(r.Arithmetic(), n, s)
  {
    var m := r.Arithmetic();
    ReciprocalOf(s, a, b);
    ReciprocalOf(1.0, a, b);
    assert m.ofNat(n) == a;
    assert m.div(m.one, a) == r.float(Over(1.0, a)) == b;
    assert Over(s, a) == Times(s, b);
    assert m.div(s, a) == r.float(Over(s, a)) && m.num.mul(s, b) == r.float(Times(s, b));
  }

  // ----- A row of length 3 -----

  const ROW: seq<real> := [58.0, 97.0, 66.0]
  const COLUMN: seq<real> := [1.0, 0.0, 0.0]

  lemma {:induction false} ScaleUp(n: nat) returns (k: nat, s: int)
    requires 0 < n < 16777216
    ensures 8388608 <= s < 16777216 && Scale(n as real, k) == s as real
    decreases 16777216 - n
  {
    if n >= 8388608 {
      k, s := 0, n;
    } else {
      var j, t := ScaleUp(2 * n);
      k, s := j + 1, t;
      TwoNext(j);
    }
  }

  // Integers below 2^24 are floats of their own, so adding up to them is exact.
  lemma IntegerIsFloat(rnd: real -> real, n: nat)
    requires RoundsTo(24, rnd) && n < 16777216
    ensures rnd(n as real) == n as real
  {
    if n > 0 {
      Powers();
      var k, s := ScaleUp(n);
      hide Two;
      Exact(24, rnd, n as real, k, s);
    }
  }

  lemma SquaresOfRow(r: Rounding)
    requires r.Correct()
    ensures Squares(r.Arithmetic(), ROW, 3, 0, 3) == [3364.0, 9409.0, 4356.0]
  {
    var m := r.Arithmetic();
    CorrectFloat(r);
    IntegerIsFloat(r.float, 3364);
    IntegerIsFloat(r.float, 9409);
    IntegerIsFloat(r.float, 4356);
    hide RoundsTo, RootsTo;
    assert Square(m, ROW, 3, 0, 0) == r.float(Times(58.0, 58.0));
    assert Square(m, ROW, 3, 0, 1) == r.float(Times(97.0, 97.0));
    assert Square(m, ROW, 3, 0, 2) == r.float(Times(66.0, 66.0));
  }

  lemma Plus(r: Rounding, a: nat, b: nat)
    requires r.Correct() && a + b < 16777216
    ensures r.Arithmetic().num.add(a as real, b as real) == (a + b) as real
  {
    IntegerIsFloat(r.float, a + b);
  }

  // Left to right, the reference adds up 17129.
  lemma TotalOfRow(r: Rounding)
    requires r.Correct()
    ensures r.Arithmetic().Sum().Total(Squares(r.Arithmetic(), ROW, 3, 0, 3)) == 17129.0
  {
    var M := r.Arithmetic().Sum();
    SquaresOfRow(r);
    Plus(r, 0, 3364);
    Plus(r, 3364, 9409);
    Plus(r, 12773, 4356);
    hide Rounding.Correct, Squares;
    TotalSnoc(M, [], 3364.0);
    TotalSnoc(M, [3364.0], 9409.0);
    TotalSnoc(M, [3364.0, 9409.0], 4356.0);
    assert [] + [3364.0] == [3364.0] && [3364.0] + [9409.0] == [3364.0, 9409.0];
    assert [3364.0, 9409.0] + [4356.0] == [3364.0, 9409.0, 4356.0];
  }

  ghost function FirstThree(n: nat, a: real, b: real, c: real): (s: seq<real>)
    ensures |s| == n
  {
    seq(n, i => if i == 0 then a else if i == 1 then b else if i == 2 then c else 0.0)
  }

  lemma PartsOfRow(r: Rounding)
    requires r.Correct()
    ensures RowParts(r.Arithmetic(), ROW, 1, 3, 0) == FirstThree(16, 3364.0, 9409.0, 4356.0)
  {
    var m := r.Arithmetic();
    var f := SquaresOf(m, ROW, 3, 0);
    SquaresOfRow(r);
    assert Squares(m, ROW, 3, 0, 3)[0] == f(0) && Squares(m, ROW, 3, 0, 3)[1] == f(1) && Squares(m, ROW, 3, 0, 3)[2] == f(2);
    Plus(r, 0, 3364);
    Plus(r, 0, 9409);
    Plus(r, 0, 4356);
    hide Rounding.Correct, Squares, SquaresOf;
    forall tx | 0 <= tx < 16
      ensures LocalSquares(m, ROW, 1, 3, 0, tx) == FirstThree(16, 3364.0, 9409.0, 4356.0)[tx]
    {
      assert Strided(m.Sum(), f, 16, tx, 1) == if tx == 0 then 3364.0 else 0.0;
      assert Strided(m.Sum(), f, 16, tx, 2) == if tx == 0 then 3364.0 else if tx == 1 then 9409.0 else 0.0;
    }
  }

  // The butterfly adds the three in another order, to the same sum.
  lemma TreeOfRow(r: Rounding)
    requires r.Correct()
    ensures Pow2(4) == 16 && Tree(r.Arithmetic().Sum(), FirstThree(16, 3364.0, 9409.0, 4356.0), 4) == 17129.0
  {
    var M := r.Arithmetic().Sum();
    Plus(r, 0, 0);
    Plus(r, 3364, 0);
    Plus(r, 9409, 0);
    Plus(r, 4356, 0);
    Plus(r, 3364, 4356);
    Plus(r, 7720, 9409);
    hide Rounding.Correct;
    assert Halved(M, FirstThree(16, 3364.0, 9409.0, 4356.0), 8) == FirstThree(8, 3364.0, 9409.0, 4356.0);
    assert Halved(M, FirstThree(8, 3364.0, 9409.0, 4356.0), 4) == FirstThree(4, 3364.0, 9409.0, 4356.0);
    assert Halved(M, FirstThree(4, 3364.0, 9409.0, 4356.0), 2) == FirstThree(2, 7720.0, 9409.0, 0.0);
    assert Halved(M, FirstThree(2, 7720.0, 9409.0, 0.0), 1) == FirstThree(1, 17129.0, 0.0, 0.0);
  }

  // ----- The two means and what becomes of them -----

  // Dividing 17129 by 3 and multiplying it by a third give neighbouring floats.
  lemma Means(r: Rounding)
    requires r.Correct()
    ensures r.Arithmetic().div(17129.0, r.Arithmetic().ofNat(3)) == 11693397.0 / 2048.0
    ensures r.Arithmetic().num.mul(17129.0, r.Arithmetic().div(1.0, r.Arithmetic().ofNat(3))) == 11693398.0 / 2048.0
  {
    Powers();
    CorrectFloat(r);
    IntegerIsFloat(r.float, 3);
    hide Two, RootsTo;
    Rounded(24, r.float, 17129.0 / 3.0, 11, 11693397);
    Rounded(24, r.float, 1.0 / 3.0, 25, 11184811);
    assert r.float(Over(1.0, 3.0)) == 11184811.0 / 33554432.0;
    Rounded(24, r.float, Times(17129.0, 11184811.0 / 33554432.0), 11, 11693398);
    assert r.Arithmetic().ofNat(3) == 3.0 && r.Arithmetic().div(1.0, 3.0) == r.float(Over(1.0, 3.0));
    assert r.Arithmetic().div(17129.0, 3.0) == r.float(Over(17129.0, 3.0));
  }

  // A small epsilon does not move either mean.
  lemma EpsilonVanishes(r: Rounding, mean: int, epsilon: real)
    requires r.Correct() && 11693397 <= mean <= 11693398 && 0.0 <= epsilon < 1.0 / 4096.0
    ensures r.Arithmetic().num.add(mean as real / 2048.0, epsilon) == mean as real / 2048.0
  {
    Powers();
    CorrectFloat(r);
    hide Two, RootsTo;
    Rounded(24, r.float, mean as real / 2048.0 + epsilon, 11, mean);
  }

  lemma Roots(r: Rounding)
    requires r.Correct()
    ensures r.root(11693397.0 / 2048.0) == 9904106.0 / 131072.0
    ensures r.root(11693398.0 / 2048.0) == 9904107.0 / 131072.0
  {
    Powers();
    CorrectFloat(r);
    hide Two, RoundsTo;
    Rooted(24, r.root, 11693397.0 / 2048.0, 17, 9904106);
    Rooted(24, r.root, 11693398.0 / 2048.0, 17, 9904107);
  }

  // One quotient lies above the middle between two bf16 values.
  lemma KernelQuotient(r: Rounding)
    requires r.Correct()
    ensures r.bf16(r.Arithmetic().div(58.0, 9904106.0 / 131072.0)) == 197.0 / 256.0
  {
    Powers();
    CorrectFloat(r);
    hide Two, RootsTo, RoundsTo;
    assert Over(58.0, 9904106.0 / 131072.0) * 16777216.0 == 58.0 * 131072.0 * 16777216.0 / 9904106.0;
    Rounded(24, r.float, Over(58.0, 9904106.0 / 131072.0), 24, 12877826);
    Rounded(8, r.bf16, 12877826.0 / 16777216.0, 8, 197);
  }

  // The other lies on it, and goes to the even one.
  lemma ReferenceQuotient(r: Rounding)
    requires r.Correct()
    ensures r.bf16(r.Arithmetic().div(58.0, 9904107.0 / 131072.0)) == 196.0 / 256.0
  {
    Powers();
    CorrectFloat(r);
    hide Two, RootsTo, RoundsTo;
    assert Over(58.0, 9904107.0 / 131072.0) * 16777216.0 == 58.0 * 131072.0 * 16777216.0 / 9904107.0;
    Rounded(24, r.float, Over(58.0, 9904107.0 / 131072.0), 24, 12877824);
    Rounded(8, r.bf16, 12877824.0 / 16777216.0, 8, 196);
  }

  // ----- The two results -----

  // The column picks out the row's first element.
  lemma Picked(r: Rounding, g: T.Gemm<real, real>, y: int)
    requires r.Correct() && 128 <= y < 256 && g.num == r.Arithmetic().num
    requires g.a(0, 0) == y as real / 256.0 && g.b(0, 0) == 1.0 && g.b(1, 0) == 0.0 && g.b(2, 0) == 0.0
    ensures g.Dot(0, 0, 3) == y as real / 256.0 && g.num.down(g.Dot(0, 0, 3)) == y as real / 256.0
    ensures g.num.Mac(g.Dot(0, 0, 3), g.num.ZeroH(), g.num.ZeroH()) == g.Dot(0, 0, 3)
  {
    var x := y as real / 256.0;
    Powers();
    CorrectFloat(r);
    hide Two;
    Exact(24, r.float, x, 24, y * 65536);
    Exact(8, r.bf16, x, 8, y);
    assert r.float(0.0) == 0.0 && r.bf16(0.0) == 0.0;
    hide RoundsTo, RootsTo;
    assert Times(x, 1.0) == x && Times(g.a(0, 1), 0.0) == 0.0 && Times(g.a(0, 2), 0.0) == 0.0 && Times(0.0, 0.0) == 0.0;
    assert g.Dot(0, 0, 1) == x;
    assert g.Dot(0, 0, 2) == x;
  }

  lemma KernelRms(r: Rounding, epsilon: real)
    requires r.Correct() && 0.0 <= epsilon < 1.0 / 4096.0
    ensures RmsSeen(r.Arithmetic(), ROW, 1, 3, epsilon, 0, 0) == 9904106.0 / 131072.0
  {
    var m := r.Arithmetic();
    assert m.Sum().Commutative();
    hide Rounding.Correct, Rounding.Arithmetic, Monoid.Commutative, RmsSeen, Tree, Pow2;
    RowAgrees(m, ROW, 1, 3, epsilon, 0, 0);
    PartsOfRow(r);
    TreeOfRow(r);
    Means(r);
    EpsilonVanishes(r, 11693397, epsilon);
    Roots(r);
    RootIs(r);
  }

  lemma RootIs(r: Rounding)
    ensures r.Arithmetic().sqrt == r.root && r.Arithmetic().one == 1.0
  {
  }

  lemma ReferenceRms(r: Rounding, epsilon: real)
    requires r.Correct() && 0.0 <= epsilon < 1.0 / 4096.0
    ensures RmsCpu(r.Arithmetic(), 3, epsilon, 17129.0) == 9904107.0 / 131072.0
  {
    hide Rounding.Correct, Rounding.Arithmetic;
    Means(r);
    EpsilonVanishes(r, 11693398, epsilon);
    Roots(r);
    RootIs(r);
  }

  lemma NormedFirst(r: Rounding, rms: real)
    ensures Normed(r.Arithmetic(), Peek(r.Arithmetic().num, ROW, 3, 0, 0), rms, None, 0) == r.bf16(r.Arithmetic().div(58.0, rms))
  {
  }

  lemma ColumnIs(r: Rounding)
    ensures Peek(r.Arithmetic().num, COLUMN, 1, 0, 0) == 1.0
    ensures Peek(r.Arithmetic().num, COLUMN, 1, 1, 0) == 0.0 && Peek(r.Arithmetic().num, COLUMN, 1, 2, 0) == 0.0
  {
  }

  lemma KernelSide(r: Rounding, epsilon: real, c: seq<real>)
    requires r.Correct() && 0.0 <= epsilon < 1.0 / 4096.0
    requires T.Launched(RmsnormMatmulOf(r.Arithmetic(), ROW, COLUMN, 1, 1, 3, epsilon), c)
    ensures c == [197.0 / 256.0]
  {
    hide T.Launched, Rounding.Correct, Rounding.Arithmetic, RmsSeen, Normed, T.Gemm.Dot;
    var m := r.Arithmetic();
    var g := RmsnormMatmulOf(m, ROW, COLUMN, 1, 1, 3, epsilon);
    KernelRms(r, epsilon);
    NormedFirst(r, 9904106.0 / 131072.0);
    KernelQuotient(r);
    ColumnIs(r);
    Picked(r, g, 197);
    assert g.Settled(0, 0);
    T.LaunchIsReference(g, c, 0, 0);
    OneCell(g, c);
  }

  lemma OneCell(g: T.Gemm<real, real>, c: seq<real>)
    requires g.M == 1 && g.N == 1 && T.Launched(g, c)
    ensures c == [T.CellAt(c, 1, 1, 0, 0)]
  {
  }

  lemma ReferenceSide(r: Rounding, epsilon: real, normed: seq<real>, d: seq<real>)
    requires r.Correct() && 0.0 <= epsilon < 1.0 / 4096.0
    requires IsRmsnorm(r.Arithmetic(), ROW, None, 1, 3, epsilon, normed)
    requires IsMatmul(r.Arithmetic().num, normed, COLUMN, 1, 1, 3, d)
    ensures d == [196.0 / 256.0]
  {
    var m := r.Arithmetic();
    var g := MatmulOf(m.num, normed, COLUMN, 1, 1, 3);
    assert |normed| == 3 && |d| == 1 && T.CellAt(d, 1, 1, 0, 0) == d[0] && T.CellAt(normed, 1, 3, 0, 0) == normed[0];
    assert normed[0] == RmsnormCell(m, ROW, None, 3, epsilon, 0, 0);
    assert g.a(0, 0) == normed[0];
    assert d[0] == m.num.down(g.Dot(0, 0, 3));
    hide IsRmsnorm, IsMatmul, Rounding.Correct, Rounding.Arithmetic, RmsCpu, Normed, T.Gemm.Dot, Squares, T.CellAt;
    TotalOfRow(r);
    ReferenceRms(r, epsilon);
    NormedFirst(r, 9904107.0 / 131072.0);
    ReferenceQuotient(r);
    ColumnIs(r);
    Picked(r, g, 196);
  }

  /** The row 58, 97, 66 times the column 1, 0, 0, in any correctly rounded arithmetic and for any epsilon below 2^-12: every launch stores
      197/256, the CPU loops 196/256. */
  lemma RmsnormMatmulDiffers(r: Rounding, epsilon: real, c: seq<real>, normed: seq<real>, d: seq<real>)
    requires r.Correct() && 0.0 <= epsilon < 1.0 / 4096.0
    requires T.Launched(RmsnormMatmulOf(r.Arithmetic(), ROW, COLUMN, 1, 1, 3, epsilon), c)
    requires IsRmsnorm(r.Arithmetic(), ROW, None, 1, 3, epsilon, normed)
    requires IsMatmul(r.Arithmetic().num, normed, COLUMN, 1, 1, 3, d)
    ensures c == [197.0 / 256.0] && d == [196.0 / 256.0]
  {
    hide *;
    KernelSide(r, epsilon, c);
    ReferenceSide(r, epsilon, normed, d);
  }

  // ----- Such arithmetic exists -----

  lemma {:induction false} TwoMonotone(a: int, b: int)
    requires a < b
    ensures 2.0 * Two(a) <= Two(b)
    decreases b - a
  {
    TwoNext(b - 1);
    TwoPositive(a);
    if a < b - 1 {
      TwoMonotone(a, b - 1);
    }
    hide Two;
  }

  // Only one scale puts a number between lo and 2 * lo.
  lemma ScaleIsUnique(x: real, lo: real, a: int, b: int)
    requires lo > 0.0 && lo <= Scale(x, a) < 2.0 * lo && lo <= Scale(x, b) < 2.0 * lo
    ensures a == b
  {
    TwoPositive(a);
    TwoPositive(b);
    hide Two;
    var u, v := Scale(x, a), Scale(x, b);
    if a < b {
      TwoMonotone(a, b);
      Scaled(x, Two(a), Two(b), u, v);
    } else if b < a {
      TwoMonotone(b, a);
      Scaled(x, Two(b), Two(a), v, u);
    }
  }

  lemma Scaled(x: real, s: real, t: real, u: real, v: real)
    requires u == x * s && v == x * t && u > 0.0 && s > 0.0 && 2.0 * s <= t
    ensures 2.0 * u <= v
  {
    assert x > 0.0;
    Grows(x, 2.0 * s, t);
    Regroup(2.0, x, s);
  }

  lemma Grows(x: real, s: real, t: real)
    requires x > 0.0 && s <= t
    ensures x * s <= x * t
  {
  }

  function NearestInt(x: real): int {
    var n := x.Floor;
    var d := x - (n as real);
    if d < 0.5 || (d == 0.5 && n % 2 == 0) then n else n + 1
  }

  lemma NearestIntIs(x: real)
    ensures Nearest(NearestInt(x) as real, x, NearestInt(x))
  {
  }

  ghost function BitScale(p: nat, x: real): (k: int)
    requires p > 0 && exists k :: TakesBits(p, x, k)
    ensures TakesBits(p, x, k)
  {
    var k :| TakesBits(p, x, k); k
  }

  ghost function RootScale(p: nat, x: real): (k: int)
    requires p > 0 && exists k :: RootTakesBits(p, x, k)
    ensures RootTakesBits(p, x, k)
  {
    var k :| RootTakesBits(p, x, k); k
  }

  function RoundAt(x: real, k: int): real {
    Over(NearestInt(Scale(x, k)) as real, Two(k))
  }

  ghost function RootAt(x: real, k: int): real {
    Over(IntegerRoot(Scale(x, 2 * k)) as real, Two(k))
  }

  ghost function RoundBits(p: nat, x: real): real
    requires p > 0
  {
    if exists k :: TakesBits(p, x, k) then RoundAt(x, BitScale(p, x)) else 0.0
  }

  ghost function RootBits(p: nat, x: real): real
    requires p > 0
  {
    if exists k :: RootTakesBits(p, x, k) then RootAt(x, RootScale(p, x)) else 0.0
  }

  ghost function IntegerRoot(y: real): int {
    if n: int :| IsRoot(y, n) then n else 0
  }

  ghost predicate IsRoot(y: real, n: int) {
    NearestRoot(n as real, y, n)
  }

  lemma RootExists(y: real)
    requires y >= 1.0
    ensures exists n: int :: IsRoot(y, n)
  {
    var n: int := 1;
    while 4.0 * y > Squared(2 * n + 1)
      invariant n > 0 && Squared(2 * n - 1) <= 4.0 * y
      decreases y.Floor - n
    {
      assert (2 * n + 1) * (2 * n + 1) == 4 * (n * n + n) + 1;
      n := n + 1;
    }
    assert IsRoot(y, n);
  }

  lemma BitScaleIs(p: nat, x: real, k: int)
    requires p > 0 && TakesBits(p, x, k)
    ensures BitScale(p, x) == k
  {
    TwoPositive(p - 1);
    TwoNext(p - 1);
    hide Two;
    ScaleIsUnique(x, Two(p - 1), BitScale(p, x), k);
  }

  lemma RoundBitsAt(p: nat, x: real, k: int)
    requires p > 0 && TakesBits(p, x, k)
    ensures Scale(RoundBits(p, x), k) == NearestInt(Scale(x, k)) as real
  {
    hide TakesBits, NearestInt, Over;
    BitScaleIs(p, x, k);
    TwoPositive(k);
    OverTimes(NearestInt(Scale(x, k)) as real, Two(k));
  }

  lemma OverTimes(a: real, b: real)
    requires b > 0.0
    ensures Over(a, b) * b == a
  {
  }

  lemma RoundBitsRounds(p: nat)
    requires p > 0
    ensures RoundsTo(p, (x: real) => RoundBits(p, x))
  {
    hide RoundBits, TakesBits, NearestInt;
    var rnd := (x: real) => RoundBits(p, x);
    ZeroRounds(p);
    forall x, k | TakesBits(p, x, k)
      ensures exists n: int :: RoundedAt(rnd, x, k, n)
    {
      RoundBitsAt(p, x, k);
      NearestIntIs(Scale(x, k));
      assert rnd(x) == RoundBits(p, x);
      assert RoundedAt(rnd, x, k, NearestInt(Scale(x, k)));
    }
  }

  lemma ZeroRounds(p: nat)
    requires p > 0
    ensures RoundBits(p, 0.0) == 0.0
  {
    TwoPositive(p - 1);
    hide Two;
    forall k: int
      ensures !TakesBits(p, 0.0, k)
    {
    }
  }

  lemma RootScaleIs(p: nat, x: real, k: int)
    requires p > 0 && RootTakesBits(p, x, k)
    ensures RootScale(p, x) == k
  {
    RootScaleIsUnique(p, x, RootScale(p, x), k);
    hide RootTakesBits;
  }

  lemma RootBitsAt(p: nat, x: real, k: int)
    requires p > 0 && RootTakesBits(p, x, k)
    ensures Scale(RootBits(p, x), k) == IntegerRoot(Scale(x, 2 * k)) as real
  {
    hide RootTakesBits, IntegerRoot, Over;
    RootScaleIs(p, x, k);
    TwoPositive(k);
    OverTimes(IntegerRoot(Scale(x, 2 * k)) as real, Two(k));
  }

  lemma RootTaken(p: nat, x: real, k: int)
    requires p > 0 && RootTakesBits(p, x, k)
    ensures IsRoot(Scale(x, 2 * k), IntegerRoot(Scale(x, 2 * k)))
  {
    hide IsRoot;
    AtLeastOne(2 * p - 2);
    RootExists(Scale(x, 2 * k));
  }

  lemma RootBitsRounds(p: nat)
    requires p > 0
    ensures RootsTo(p, (x: real) => RootBits(p, x))
  {
    hide RootBits, RootTakesBits, IntegerRoot;
    var root := (x: real) => RootBits(p, x);
    forall x, k | RootTakesBits(p, x, k)
      ensures exists n: int :: RootedAt(root, x, k, n)
    {
      RootBitsAt(p, x, k);
      RootTaken(p, x, k);
      assert root(x) == RootBits(p, x);
      assert RootedAt(root, x, k, IntegerRoot(Scale(x, 2 * k)));
    }
  }

  lemma {:induction false} AtLeastOne(n: nat)
    ensures Two(n) >= 1.0
  {
    if n > 0 {
      AtLeastOne(n - 1);
    }
  }

  lemma RootScaleIsUnique(p: nat, x: real, a: int, b: int)
    requires p > 0 && RootTakesBits(p, x, a) && RootTakesBits(p, x, b)
    ensures a == b
  {
    var lo, u, v := Two(2 * p - 2), Scale(x, 2 * a), Scale(x, 2 * b);
    TwoPositive(2 * p - 2);
    TwoNext(2 * p - 2);
    TwoNext(2 * p - 1);
    TwoPositive(2 * a);
    TwoPositive(2 * b);
    hide Two;
    if a < b {
      Quadrupled(x, 2 * a, 2 * b, u, v);
    } else if b < a {
      Quadrupled(x, 2 * b, 2 * a, v, u);
    }
  }

  lemma Quadrupled(x: real, i: int, j: int, u: real, v: real)
    requires i + 1 < j && u == Scale(x, i) && v == Scale(x, j) && u > 0.0
    ensures 4.0 * u <= v
  {
    TwoPositive(i);
    TwoPositive(j - 1);
    TwoMonotone(i, j - 1);
    TwoNext(j - 1);
    hide Two;
    var w := Scale(x, j - 1);
    Scaled(x, Two(i), Two(j - 1), u, w);
    Scaled(x, Two(j - 1), Two(j), w, v);
  }

  /** The rounding laws can be met, and `T.LaunchExists` gives a launch for any arithmetic. */
  lemma CorrectRoundingExists() returns (r: Rounding)
    ensures r.Correct()
  {
    RoundBitsRounds(24);
    RoundBitsRounds(8);
    RootBitsRounds(24);
    r := Rounding((x: real) => RoundBits(24, x), (x: real) => RoundBits(8, x), (x: real) => RootBits(24, x));
  }
}
