/** What the CPU loops and the launches compute where arithmetic is exact: sums, quotients and exponentials of the real numbers in the flat
    buffers, rounded wherever a value is stored. */
module ExactResults {
  import opened Wavelets
  import opened Mesh
  import opened Reductions
  import opened CpuReferences
  import opened GpuKernels
  import T = TiledGemms
  import Tiles = TritonTiles

  // ----- Exact arithmetic, any rounding of stored values -----

  ghost predicate Exact(num: T.Numbers<real, real>) {
    && num.zero == 0.0 && (forall h :: num.up(h) == h)
    && (forall a, b :: num.add(a, b) == a + b) && (forall a, b :: num.mul(a, b) == a * b)
  }

  ghost predicate ExactMath(m: Math<real, real>) {
    && Exact(m.num) && m.one == 1.0
    && (forall a, b :: m.sub(a, b) == a - b) && (forall a, b | b != 0.0 :: m.div(a, b) == a / b)
    && (forall a, b :: m.max(a, b) == if a < b then b else a) && (forall n: nat :: m.ofNat(n) == n as real)
  }

  // f(0) + ... + f(n - 1)
  ghost function Sum(n: nat, f: nat -> real): real {
    if n == 0 then 0.0 else Sum(n - 1, f) + f(n - 1)
  }

  // Row by row, element (row, col) of a buffer with `cols` columns.
  ghost function Entry(s: seq<real>, cols: nat, row: nat, col: nat): real {
    if row * cols + col < |s| then s[row * cols + col] else 0.0
  }

  ghost function Times(a: real, b: real): real {
    a * b
  }

  ghost function Over(a: real, b: real): real {
    if b == 0.0 then 0.0 else a / b
  }

  // The same with products and quotients named.
  ghost predicate Computes(num: T.Numbers<real, real>) {
    && num.zero == 0.0 && (forall h :: num.up(h) == h)
    && (forall a, b :: num.add(a, b) == a + b) && (forall a, b :: num.mul(a, b) == Times(a, b))
  }

  lemma ExactComputes(num: T.Numbers<real, real>)
    requires Exact(num)
    ensures Computes(num)
  {
  }

  lemma ExactDivides(m: Math<real, real>)
    requires ExactMath(m)
    ensures Exact(m.num) && Computes(m.num) && m.one == 1.0 && (forall a, b | b != 0.0 :: m.div(a, b) == Over(a, b))
    ensures (forall a, b :: m.sub(a, b) == a - b) && (forall n: nat :: m.ofNat(n) == n as real)
  {
    ExactComputes(m.num);
  }

  lemma PeekIs(num: T.Numbers<real, real>, s: seq<real>, rows: nat, cols: nat, row: nat, col: nat)
    requires |s| == rows * cols && row < rows && col < cols
    ensures Peek(num, s, cols, row, col) == Entry(s, cols, row, col) == T.CellAt(s, rows, cols, row, col)
    ensures row * cols + col < |s|
  {
    IndexInverse(cols, rows, col, row);
  }

  // ----- Products -----

  // a[i*K + k] * b[k*N + j], for each k.
  ghost function ProductTerm(a: seq<real>, b: seq<real>, N: nat, K: nat, i: nat, j: nat): nat -> real {
    (k: nat) => Times(Entry(a, K, i, k), Entry(b, N, k, j))
  }

  lemma {:induction false} DotIsSum(g: T.Gemm<real, real>, i: nat, j: nat, n: nat, f: nat -> real)
    requires Computes(g.num) && forall k: nat | k < n :: f(k) == Times(g.a(i, k), g.b(k, j))
    ensures g.Dot(i, j, n) == Sum(n, f)
  {
    hide Times;
    if n > 0 {
      DotIsSum(g, i, j, n - 1, f);
    }
  }

  lemma MatmulDot(num: T.Numbers<real, real>, a: seq<real>, b: seq<real>, M: nat, N: nat, K: nat, i: nat, j: nat)
    requires Exact(num) && |a| == M * K && |b| == K * N && i < M && j < N
    ensures MatmulOf(num, a, b, M, N, K).Dot(i, j, K) == Sum(K, ProductTerm(a, b, N, K, i, j))
  {
    var g := MatmulOf(num, a, b, M, N, K);
    ExactComputes(num);
    hide Exact, Times, Entry;
    forall k: nat | k < K
      ensures ProductTerm(a, b, N, K, i, j)(k) == Times(g.a(i, k), g.b(k, j))
    {
      PeekIs(num, a, M, K, i, k);
      PeekIs(num, b, K, N, k, j);
    }
    hide Computes;
    DotIsSum(g, i, j, K, ProductTerm(a, b, N, K, i, j));
  }

  /** The triple loop leaves in c[i*N + j] the sum over k of a[i*K + k] * b[k*N + j], rounded. */
  lemma MatmulIsSum(num: T.Numbers<real, real>, a: seq<real>, b: seq<real>, M: nat, N: nat, K: nat, c: seq<real>, i: nat, j: nat)
    requires Exact(num) && |a| == M * K && |b| == K * N && IsMatmul(num, a, b, M, N, K, c) && i < M && j < N
    ensures Entry(c, N, i, j) == num.down(Sum(K, ProductTerm(a, b, N, K, i, j)))
  {
    MatmulDot(num, a, b, M, N, K, i, j);
    PeekIs(num, c, M, N, i, j);
    hide Exact, Entry;
  }

  lemma PadsExactly(g: T.Gemm<real, real>)
    requires Exact(g.num) && g.num.down(0.0) == 0.0
    ensures g.PadNeutral()
  {
    ExactComputes(g.num);
    assert Times(0.0, 0.0) == 0.0;
    hide Exact, Times, T.Gemm.Dot;
    assert forall v :: g.num.Mac(v, g.num.ZeroH(), g.num.ZeroH()) == v;
  }

  /** So does every launch of the matmul kernel, for every interleaving. */
  lemma MatmulLaunchIsSum(num: T.Numbers<real, real>, a: seq<real>, b: seq<real>, M: nat, N: nat, K: nat, c: seq<real>, i: nat, j: nat)
    requires Exact(num) && num.down(0.0) == 0.0 && |a| == M * K && |b| == K * N && i < M && j < N
    requires T.Launched(MatmulOf(num, a, b, M, N, K), c)
    ensures Entry(c, N, i, j) == num.down(Sum(K, ProductTerm(a, b, N, K, i, j)))
  {
    PadsExactly(MatmulOf(num, a, b, M, N, K));
    LaunchIsMatmul(num, a, b, M, N, K, c);
    MatmulIsSum(num, a, b, M, N, K, c, i, j);
  }

  lemma LaunchIsMatmul(num: T.Numbers<real, real>, a: seq<real>, b: seq<real>, M: nat, N: nat, K: nat, c: seq<real>)
    requires MatmulOf(num, a, b, M, N, K).PadNeutral() && T.Launched(MatmulOf(num, a, b, M, N, K), c)
    ensures IsMatmul(num, a, b, M, N, K, c)
  {
    var g := MatmulOf(num, a, b, M, N, K);
    assert |c| == M * N;
    hide T.Gemm.PadNeutral, T.Launched;
    forall i, j | 0 <= i < M && 0 <= j < N
      ensures T.CellAt(c, M, N, i, j) == num.down(g.Dot(i, j, K))
    {
      T.LaunchIsReference(g, c, i, j);
    }
  }

  // g.a(i, k) * g.b(k, j), for each k.
  ghost function GemmTerm(g: T.Gemm<real, real>, i: nat, j: nat): nat -> real {
    (k: nat) => Times(g.a(i, k), g.b(k, j))
  }

  /** What a launch of the Triton kernel leaves in a cell is the epilogue of the sum over k of the operands' products. */
  lemma TritonCellIsSum(l: Tiles.Launch<real, real>, c: seq<real>, i: nat, j: nat)
    requires Exact(l.g.num) && i < l.g.M && j < l.g.N && |c| == l.g.M * l.g.N
    requires T.CellAt(c, l.g.M, l.g.N, i, j) == l.g.store(i, j, l.g.Dot(i, j, l.g.K))
    ensures i * l.g.N + j < |c| && c[i * l.g.N + j] == l.g.store(i, j, Sum(l.g.K, GemmTerm(l.g, i, j)))
  {
    ExactComputes(l.g.num);
    DotIsSum(l.g, i, j, l.g.K, GemmTerm(l.g, i, j));
    IndexInverse(l.g.N, l.g.M, j, i);
    hide Exact, Times, GemmTerm, T.Gemm.Dot;
  }

  /** The composed reference, and by `BiasGeluLaunch` the fused kernel with its own GELU, rounds three times: the sum, then with its column's
      bias, then after the GELU. */
  lemma BiasGeluIsSum(m: Math<real, real>, a: seq<real>, b: seq<real>, bias: seq<real>, M: nat, N: nat, K: nat, gelu: real -> real,
      c: seq<real>, i: nat, j: nat)
    requires Exact(m.num) && |a| == M * K && |b| == K * N && IsBiasGelu(m, a, b, bias, M, N, K, gelu, c) && i < M && j < N
    ensures Entry(c, N, i, j) == m.num.down(gelu(m.num.down(m.num.down(Sum(K, ProductTerm(a, b, N, K, i, j))) + bias[j])))
  {
    MatmulDot(m.num, a, b, M, N, K, i, j);
    PeekIs(m.num, c, M, N, i, j);
    var acc := MatmulOf(m.num, a, b, M, N, K).Dot(i, j, K);
    assert T.CellAt(c, M, N, i, j) == m.num.down(gelu(m.num.up(Biased(m, acc, bias[j]))));
    EpilogueIs(m, gelu, acc, bias[j]);
    hide Exact, IsBiasGelu, Biased, MatmulOf;
  }

  lemma EpilogueIs(m: Math<real, real>, gelu: real -> real, acc: real, bias: real)
    requires Exact(m.num)
    ensures m.num.down(gelu(m.num.up(Biased(m, acc, bias)))) == m.num.down(gelu(m.num.down(m.num.down(acc) + bias)))
  {
    assert Biased(m, acc, bias) == m.num.down(m.num.down(acc) + bias);
  }

  // ----- Rmsnorm -----

  lemma {:induction false} TotalIsSum(m: Math<real, real>, s: seq<real>, n: nat, f: nat -> real)
    requires Computes(m.num) && |s| == n && forall k: nat | k < n :: s[k] == f(k)
    ensures m.Sum().Total(s) == Sum(n, f)
  {
    if n > 0 {
      TotalIsSum(m, s[..n - 1], n - 1, f);
    }
  }

  // x[r*cols + k] squared, for each k.
  ghost function SquareTerm(x: seq<real>, cols: nat, r: nat): nat -> real {
    (k: nat) => Times(Entry(x, cols, r, k), Entry(x, cols, r, k))
  }

  lemma SquaresSum(m: Math<real, real>, x: seq<real>, rows: nat, cols: nat, r: nat)
    requires Exact(m.num) && |x| == rows * cols && r < rows
    ensures m.Sum().Total(Squares(m, x, cols, r, cols)) == Sum(cols, SquareTerm(x, cols, r))
  {
    ExactComputes(m.num);
    hide Exact, Times, Entry, Peek;
    forall k: nat | k < cols
      ensures Squares(m, x, cols, r, cols)[k] == SquareTerm(x, cols, r)(k)
    {
      PeekIs(m.num, x, rows, cols, r, k);
    }
    TotalIsSum(m, Squares(m, x, cols, r, cols), cols, SquareTerm(x, cols, r));
  }

  // What row r is divided by: the root of its mean square plus epsilon.
  ghost function Root(m: Math<real, real>, x: seq<real>, cols: nat, r: nat, epsilon: real): real {
    m.sqrt(Over(Sum(cols, SquareTerm(x, cols, r)), cols as real) + epsilon)
  }

  lemma MeanEitherWay(s: real, b: real)
    requires b != 0.0
    ensures Times(s, Over(1.0, b)) == Over(s, b)
  {
  }

  lemma BothRms(m: Math<real, real>, x: seq<real>, rows: nat, cols: nat, r: nat, epsilon: real)
    requires ExactMath(m) && |x| == rows * cols && r < rows && cols > 0
    ensures RmsCpu(m, cols, epsilon, m.Sum().Total(Squares(m, x, cols, r, cols))) == Root(m, x, cols, r, epsilon)
    ensures RmsGpu(m, cols, epsilon, m.Sum().Total(Squares(m, x, cols, r, cols))) == Root(m, x, cols, r, epsilon)
  {
    ExactDivides(m);
    SquaresSum(m, x, rows, cols, r);
    hide Exact, ExactMath, Times, Over, Squares, Sum, Monoid.Total, SquareTerm;
    MeanEitherWay(Sum(cols, SquareTerm(x, cols, r)), cols as real);
  }

  /** Every element is divided by the root of its own row's mean square plus epsilon, times its column's weight, and rounded once. */
  lemma RmsnormIsQuotient(m: Math<real, real>, x: seq<real>, weight: Option<seq<real>>, rows: nat, cols: nat, epsilon: real, y: seq<real>,
      r: nat, i: nat)
    requires ExactMath(m) && |x| == rows * cols && IsRmsnorm(m, x, weight, rows, cols, epsilon, y) && r < rows && i < cols
    requires weight.Some? ==> |weight.value| == cols
    requires Root(m, x, cols, r, epsilon) != 0.0
    ensures Entry(y, cols, r, i) == m.num.down(
      var q := Over(Entry(x, cols, r, i), Root(m, x, cols, r, epsilon)); if weight.Some? then Times(q, weight.value[i]) else q)
  {
    BothRms(m, x, rows, cols, r, epsilon);
    PeekIs(m.num, x, rows, cols, r, i);
    PeekIs(m.num, y, rows, cols, r, i);
    ExactDivides(m);
    hide Exact, ExactMath, Times, Over, Root, RmsCpu, Squares, Entry, Peek, T.CellAt, Monoid.Total;
    assert T.CellAt(y, rows, cols, r, i) == RmsnormCell(m, x, weight, cols, epsilon, r, i);
  }

  // Exact sums form a commutative monoid, and exact division is multiplication by the reciprocal.
  lemma ExactLaws(m: Math<real, real>, n: nat)
    requires ExactMath(m) && n > 0
    ensures m.Sum().Lawful() && DividesByReciprocal(m, n)
  {
    ExactDivides(m);
    ExactSums(m);
    hide ExactMath, Exact, Times, Over, Monoid.Lawful;
    forall s: real
      ensures SameQuotient(m, n, s)
    {
      MeanEitherWay(s, n as real);
    }
  }

  lemma ExactSums(m: Math<real, real>)
    requires Exact(m.num)
    ensures m.Sum().Lawful()
  {
    var M := m.Sum();
    assert forall x, y :: M.op(x, y) == x + y;
    hide Exact;
  }

  // x[i*K + k] over its row's root, rounded, times w[k*N + j], for each k.
  ghost function NormedTerm(m: Math<real, real>, x: seq<real>, w: seq<real>, N: nat, K: nat, epsilon: real, i: nat, j: nat): nat -> real {
    (k: nat) => Times(m.num.down(Over(Entry(x, K, i, k), Root(m, x, K, i, epsilon))), Entry(w, N, k, j))
  }

  lemma NormedTermIs(m: Math<real, real>, x: seq<real>, w: seq<real>, M: nat, N: nat, K: nat, epsilon: real, i: nat, j: nat, k: nat)
    requires ExactMath(m) && |x| == M * K && |w| == K * N && i < M && j < N && k < K && Root(m, x, K, i, epsilon) != 0.0
    ensures var h := NormedProduct(m, x, w, M, N, K, epsilon); NormedTerm(m, x, w, N, K, epsilon, i, j)(k) == Times(h.a(i, k), h.b(k, j))
  {
    BothRms(m, x, M, K, i, epsilon);
    PeekIs(m.num, x, M, K, i, k);
    PeekIs(m.num, w, K, N, k, j);
    ExactDivides(m);
    hide Exact, ExactMath, Times, Over, Root, RmsGpu, Squares, Entry, Peek, Monoid.Total;
  }

  /** The prologue-fused launch multiplies the rounded quotients of its rows: c[i*N + j] is the sum over k of x[i*K + k] over its row's root,
      rounded, times w[k*N + j]. */
  lemma RmsnormMatmulIsSum(m: Math<real, real>, x: seq<real>, w: seq<real>, M: nat, N: nat, K: nat, epsilon: real, c: seq<real>, i: nat, j: nat)
    requires ExactMath(m) && m.num.down(0.0) == 0.0 && |x| == M * K && |w| == K * N && K > 0 && i < M && j < N
    requires T.Launched(RmsnormMatmulOf(m, x, w, M, N, K, epsilon), c) && Root(m, x, K, i, epsilon) != 0.0
    ensures Entry(c, N, i, j) == m.num.down(Sum(K, NormedTerm(m, x, w, N, K, epsilon, i, j)))
  {
    ExactDivides(m);
    ExactLaws(m, K);
    PadsExactly(RmsnormMatmulOf(m, x, w, M, N, K, epsilon));
    hide Exact, ExactMath, Times, Over, Root, T.Launched, Monoid.Lawful, DividesByReciprocal, T.Gemm.PadNeutral, NormedTerm, Entry, Sum;
    RmsnormMatmulLaunch(m, x, w, M, N, K, epsilon, c);
    var h, f := NormedProduct(m, x, w, M, N, K, epsilon), NormedTerm(m, x, w, N, K, epsilon, i, j);
    forall k: nat | k < K
      ensures f(k) == Times(h.a(i, k), h.b(k, j))
    {
      NormedTermIs(m, x, w, M, N, K, epsilon, i, j, k);
    }
    DotIsSum(h, i, j, K, f);
    PeekIs(m.num, c, M, N, i, j);
  }

  // ----- Softmax -----

  // x[r*cols + p] is the largest of its row's first n.
  ghost predicate Largest(x: seq<real>, cols: nat, r: nat, p: nat, n: nat) {
    p < n && forall k: nat | k < n :: Entry(x, cols, r, k) <= Entry(x, cols, r, p)
  }

  lemma {:induction false} RowMaxIsLargest(m: Math<real, real>, x: seq<real>, rows: nat, cols: nat, r: nat, n: nat) returns (p: nat)
    requires ExactMath(m) && |x| == rows * cols && r < rows && 0 < n <= cols
    ensures Largest(x, cols, r, p, n) && RowMax(m, x, cols, r, n) == Entry(x, cols, r, p)
    decreases n
  {
    PeekIs(m.num, x, rows, cols, r, n - 1);
    if n == 1 {
      p := 0;
    } else {
      p := RowMaxIsLargest(m, x, rows, cols, r, n - 1);
      if Entry(x, cols, r, p) < Entry(x, cols, r, n - 1) {
        p := n - 1;
      }
    }
    hide Entry;
  }

  // exp(x[r*cols + k] - mx), for each k.
  ghost function ExpTerm(m: Math<real, real>, x: seq<real>, cols: nat, r: nat, mx: real): nat -> real {
    (k: nat) => m.exp(Entry(x, cols, r, k) - mx)
  }

  lemma ExponentialsSum(m: Math<real, real>, x: seq<real>, rows: nat, cols: nat, r: nat, mx: real)
    requires ExactMath(m) && |x| == rows * cols && r < rows
    ensures m.Sum().Total(Exponentials(m, x, cols, r, mx, cols)) == Sum(cols, ExpTerm(m, x, cols, r, mx))
  {
    ExactDivides(m);
    hide Exact, ExactMath, Times, Over, Entry, Peek;
    forall k: nat | k < cols
      ensures Exponentials(m, x, cols, r, mx, cols)[k] == ExpTerm(m, x, cols, r, mx)(k)
    {
      PeekIs(m.num, x, rows, cols, r, k);
    }
    TotalIsSum(m, Exponentials(m, x, cols, r, mx, cols), cols, ExpTerm(m, x, cols, r, mx));
  }

  /** Each row of the output holds the exponentials of the row's distances below its largest element, divided by their sum and rounded. */
  lemma SoftmaxIsShares(m: Math<real, real>, x: seq<real>, rows: nat, cols: nat, y: seq<real>, r: nat) returns (p: nat)
    requires ExactMath(m) && |x| == rows * cols && cols > 0 && IsSoftmax(m, x, rows, cols, y) && r < rows
    ensures Largest(x, cols, r, p, cols)
    ensures var mx := Entry(x, cols, r, p);
      var total := Sum(cols, ExpTerm(m, x, cols, r, mx));
      total != 0.0 ==> forall i: nat | i < cols :: Entry(y, cols, r, i) == m.num.down(Over(m.exp(Entry(x, cols, r, i) - mx), total))
  {
    p := RowMaxIsLargest(m, x, rows, cols, r, cols);
    var mx := Entry(x, cols, r, p);
    ExponentialsSum(m, x, rows, cols, r, mx);
    var total := Sum(cols, ExpTerm(m, x, cols, r, mx));
    hide Exponentials, RowMax, Largest, ExactMath, Entry, ExpTerm;
    if total != 0.0 {
      forall i: nat | i < cols
        ensures Entry(y, cols, r, i) == m.num.down(Over(m.exp(Entry(x, cols, r, i) - mx), total))
      {
        ShareIs(m, x, rows, cols, y, r, i, mx, total);
      }
    }
  }

  lemma ShareIs(m: Math<real, real>, x: seq<real>, rows: nat, cols: nat, y: seq<real>, r: nat, i: nat, mx: real, total: real)
    requires ExactMath(m) && |x| == rows * cols && cols > 0 && IsSoftmax(m, x, rows, cols, y) && r < rows && i < cols && total != 0.0
    requires mx == RowMax(m, x, cols, r, cols) && total == m.Sum().Total(Exponentials(m, x, cols, r, mx, cols))
    ensures Entry(y, cols, r, i) == m.num.down(Over(m.exp(Entry(x, cols, r, i) - mx), total))
  {
    PeekIs(m.num, x, rows, cols, r, i);
    PeekIs(m.num, y, rows, cols, r, i);
    ExactDivides(m);
    MeanEitherWay(m.exp(Entry(x, cols, r, i) - mx), total);
    hide Exact, ExactMath, Times, Over, Entry, Peek, Exponentials, RowMax, T.CellAt, Monoid.Total;
    assert T.CellAt(y, rows, cols, r, i) == SoftmaxCell(m, x, cols, r, i);
  }

  lemma {:induction false} SumScaled(n: nat, f: nat -> real, g: nat -> real, c: real)
    requires c != 0.0 && forall k: nat | k < n :: g(k) == Over(f(k), c)
    ensures Sum(n, g) == Over(Sum(n, f), c)
  {
    if n > 0 {
      SumScaled(n - 1, f, g, c);
      OverAdds(Sum(n - 1, f), f(n - 1), c);
    }
    hide Over;
  }

  lemma OverAdds(a: real, b: real, c: real)
    requires c != 0.0
    ensures Over(a + b, c) == Over(a, c) + Over(b, c)
  {
  }

  /** Without rounding a row of a softmax adds up to one. */
  lemma SoftmaxAddsUp(m: Math<real, real>, x: seq<real>, rows: nat, cols: nat, y: seq<real>, r: nat)
    requires ExactMath(m) && (forall v :: m.num.down(v) == v) && |x| == rows * cols && cols > 0 && IsSoftmax(m, x, rows, cols, y) && r < rows
    requires forall v :: m.exp(v) > 0.0
    ensures Sum(cols, (i: nat) => Entry(y, cols, r, i)) == 1.0
  {
    var p := SoftmaxIsShares(m, x, rows, cols, y, r);
    var f, g := ExpTerm(m, x, cols, r, Entry(x, cols, r, p)), (i: nat) => Entry(y, cols, r, i);
    SumPositive(cols, f);
    hide Largest, IsSoftmax, Entry, ExactMath, Over;
    SumScaled(cols, f, g, Sum(cols, f));
    OverItself(Sum(cols, f));
  }

  lemma {:induction false} SumPositive(n: nat, f: nat -> real)
    requires n > 0 && forall k: nat :: f(k) > 0.0
    ensures Sum(n, f) > 0.0
  {
    if n > 1 {
      SumPositive(n - 1, f);
    }
  }

  lemma OverItself(a: real)
    requires a > 0.0
    ensures Over(a, a) == 1.0
  {
  }
}
