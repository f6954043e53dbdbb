/** The sequential CPU reference kernels: loops over flat bf16 buffers, fp32 accumulation, one rounding per stored element. */
module CpuReferences {
  import opened Wavelets
  import opened Mesh
  import opened Reductions
  import opened TiledGemms

  // The fp32 operations beyond multiply-add; `least` is -FLT_MAX. The two GELU chains differ in where x / sqrt(2) is rounded.
  datatype Math<!H(!new), !F(!new)> = Math(
    num: Numbers<H, F>, one: F, least: F,
    sub: (F, F) -> F, div: (F, F) -> F, max: (F, F) -> F,
    sqrt: F -> F, exp: F -> F, ofNat: nat -> F, geluCpu: F -> F, geluGpu: F -> F)
  {
    function Sum(): Monoid<F> {
      Monoid(num.zero, num.add)
    }

    function Max(): Monoid<F> {
      Monoid(least, max)
    }
  }

  // Element of a flat row-major buffer; reads outside it are never used.
  function Peek<H(!new), F(!new)>(num: Numbers<H, F>, s: seq<H>, cols: nat, row: nat, col: nat): H {
    if Index(cols, col, row) < |s| then s[Index(cols, col, row)] else num.ZeroH()
  }

  function MatmulOf<H(!new), F(!new)>(num: Numbers<H, F>, a: seq<H>, b: seq<H>, M: nat, N: nat, K: nat): Gemm<H, F> {
    Gemm(num, M, N, K,
         (row: nat, k: nat) => Peek(num, a, K, row, k), (k: nat, col: nat) => Peek(num, b, N, k, col),
         (row: nat, col: nat, acc: F) => num.down(acc))
  }

  // The product, cell by cell.
  ghost predicate IsMatmul<H(!new), F(!new)>(num: Numbers<H, F>, a: seq<H>, b: seq<H>, M: nat, N: nat, K: nat, c: seq<H>) {
    && |c| == M * N
    && forall i, j | 0 <= i < M && 0 <= j < N :: CellAt(c, M, N, i, j) == num.down(MatmulOf(num, a, b, M, N, K).Dot(i, j, K))
  }

  // A flat buffer filled row by row up to position n.
  ghost predicate FilledTo<H>(c: seq<H>, cols: nat, n: nat, f: (nat, nat) -> H)
    requires cols > 0
  {
    n <= |c| && forall q | 0 <= q < n :: c[q] == f(Quot(q, cols), Rem(q, cols))
  }

  lemma FilledCell<H>(c: seq<H>, rows: nat, cols: nat, f: (nat, nat) -> H, i: nat, j: nat)
    requires cols > 0 && |c| == rows * cols && FilledTo(c, cols, rows * cols, f) && i < rows && j < cols
    ensures CellAt(c, rows, cols, i, j) == f(i, j)
  {
    QuotRemOf(cols, rows, j, i);
    IndexInverse(cols, rows, j, i);
  }

  lemma FillNext<H>(c: seq<H>, rows: nat, cols: nat, f: (nat, nat) -> H, i: nat, j: nat)
    requires |c| == rows * cols && i < rows && j < cols && FilledTo(c, cols, Index(cols, j, i), f)
    ensures Index(cols, j, i) < |c| && FilledTo(c[Index(cols, j, i) := f(i, j)], cols, Index(cols, j, i) + 1, f)
  {
    IndexInverse(cols, rows, j, i);
    QuotRemOf(cols, rows, j, i);
  }

  // One element's accumulation, k ascending.
  method DotLoop<H(!new), F(!new)>(num: Numbers<H, F>, a: seq<H>, b: seq<H>, M: nat, N: nat, K: nat, i: nat, j: nat) returns (acc: F)
    requires |a| == M * K && |b| == K * N && i < M && j < N
    ensures acc == MatmulOf(num, a, b, M, N, K).Dot(i, j, K)
  {
    acc := num.zero;
    for k := 0 to K
      invariant acc == MatmulOf(num, a, b, M, N, K).Dot(i, j, k)
    {
      IndexInverse(K, M, k, i);
      IndexInverse(N, K, j, k);
      hide Index;
      acc := num.add(acc, num.mul(num.up(a[Index(K, k, i)]), num.up(b[Index(N, j, k)])));
    }
  }

  lemma FillStarts<H>(c: seq<H>, cols: nat, f: (nat, nat) -> H)
    ensures cols > 0 ==> FilledTo(c, cols, Index(cols, 0, 0), f)
  {
  }

  lemma FilledMatmul<H(!new), F(!new)>(num: Numbers<H, F>, a: seq<H>, b: seq<H>, M: nat, N: nat, K: nat, c: seq<H>, f: (nat, nat) -> H)
    requires |c| == M * N && (N > 0 ==> FilledTo(c, N, Index(N, 0, M), f))
    requires forall i: nat, j: nat :: f(i, j) == num.down(MatmulOf(num, a, b, M, N, K).Dot(i, j, K))
    ensures IsMatmul(num, a, b, M, N, K, c)
  {
    forall i, j | 0 <= i < M && 0 <= j < N
      ensures CellAt(c, M, N, i, j) == num.down(MatmulOf(num, a, b, M, N, K).Dot(i, j, K))
    {
      FilledCell(c, M, N, f, i, j);
    }
  }

  method MatmulCpu<H(!new), F(!new)>(num: Numbers<H, F>, a: seq<H>, b: seq<H>, c: array<H>, M: nat, N: nat, K: nat)
    requires |a| == M * K && |b| == K * N && c.Length == M * N
    modifies c
    ensures IsMatmul(num, a, b, M, N, K, c[..])
  {
    hide FilledTo, IsMatmul, Index;
    ghost var f := (i: nat, j: nat) => num.down(MatmulOf(num, a, b, M, N, K).Dot(i, j, K));
    FillStarts(c[..], N, f);
    for i := 0 to M
      invariant N > 0 ==> FilledTo(c[..], N, Index(N, 0, i), f)
    {
      for j := 0 to N
        invariant N > 0 ==> FilledTo(c[..], N, Index(N, j, i), f)
      {
        var acc := DotLoop(num, a, b, M, N, K, i, j);
        FillNext(c[..], M, N, f, i, j);
        NextColumn(N, i, j);
        ghost var before := c[..];
        c[Index(N, j, i)] := num.down(acc);
        assert c[..] == before[Index(N, j, i) := f(i, j)];
      }
      RowEnds(N, i);
    }
    FilledMatmul(num, a, b, M, N, K, c[..], f);
  }

  lemma NextColumn(cols: nat, row: nat, col: nat)
    ensures Index(cols, col + 1, row) == Index(cols, col, row) + 1
  {
  }

  // ----- RMSNorm -----

  function Square<H(!new), F(!new)>(m: Math<H, F>, x: seq<H>, cols: nat, row: nat, i: nat): F {
    m.num.mul(m.num.up(Peek(m.num, x, cols, row, i)), m.num.up(Peek(m.num, x, cols, row, i)))
  }

  function Squares<H(!new), F(!new)>(m: Math<H, F>, x: seq<H>, cols: nat, row: nat, n: nat): seq<F> {
    seq(n, i requires i >= 0 => Square(m, x, cols, row, i))
  }

  // The CPU multiplies the sum by a precomputed reciprocal.
  function RmsCpu<H(!new), F(!new)>(m: Math<H, F>, cols: nat, epsilon: F, sumSq: F): F {
    m.sqrt(m.num.add(m.num.mul(sumSq, m.div(m.one, m.ofNat(cols))), epsilon))
  }

  function Normed<H(!new), F(!new)>(m: Math<H, F>, x: H, rms: F, weight: Option<seq<H>>, i: nat): H {
    var y := m.div(m.num.up(x), rms);
    m.num.down(if weight.Some? && i < |weight.value| then m.num.mul(y, m.num.up(weight.value[i])) else y)
  }

  function RmsnormCell<H(!new), F(!new)>(m: Math<H, F>, x: seq<H>, weight: Option<seq<H>>, cols: nat, epsilon: F, row: nat, i: nat): H {
    Normed(m, Peek(m.num, x, cols, row, i), RmsCpu(m, cols, epsilon, m.Sum().Total(Squares(m, x, cols, row, cols))), weight, i)
  }

  ghost predicate IsRmsnorm<H(!new), F(!new)>(m: Math<H, F>, x: seq<H>, weight: Option<seq<H>>, rows: nat, cols: nat, epsilon: F, y: seq<H>) {
    && |y| == rows * cols
    && forall r, i | 0 <= r < rows && 0 <= i < cols :: CellAt(y, rows, cols, r, i) == RmsnormCell(m, x, weight, cols, epsilon, r, i)
  }

  method SumSquares<H(!new), F(!new)>(m: Math<H, F>, x: seq<H>, rows: nat, cols: nat, row: nat) returns (sum: F)
    requires |x| == rows * cols && row < rows
    ensures sum == m.Sum().Total(Squares(m, x, cols, row, cols))
  {
    sum := m.num.zero;
    for i := 0 to cols
      invariant sum == m.Sum().Total(Squares(m, x, cols, row, i))
    {
      IndexInverse(cols, rows, i, row);
      hide Index;
      var v := m.num.up(x[Index(cols, i, row)]);
      assert Squares(m, x, cols, row, i + 1) == Squares(m, x, cols, row, i) + [m.num.mul(v, v)];
      TotalSnoc(m.Sum(), Squares(m, x, cols, row, i), m.num.mul(v, v));
      sum := m.num.add(sum, m.num.mul(v, v));
    }
  }

  lemma FilledCells<H>(c: seq<H>, rows: nat, cols: nat, f: (nat, nat) -> H)
    requires |c| == rows * cols && (cols > 0 ==> FilledTo(c, cols, Index(cols, 0, rows), f))
    ensures forall i, j | 0 <= i < rows && 0 <= j < cols :: CellAt(c, rows, cols, i, j) == f(i, j)
  {
    forall i, j | 0 <= i < rows && 0 <= j < cols
      ensures CellAt(c, rows, cols, i, j) == f(i, j)
    {
      FilledCell(c, rows, cols, f, i, j);
    }
  }

  method RmsnormCpu<H(!new), F(!new)>(m: Math<H, F>, x: seq<H>, weight: Option<seq<H>>, y: array<H>, rows: nat, cols: nat, epsilon: F)
    requires |x| == rows * cols && y.Length == rows * cols && (weight.Some? ==> |weight.value| == cols)
    modifies y
    ensures IsRmsnorm(m, x, weight, rows, cols, epsilon, y[..])
  {
    hide FilledTo, Index, Normed, RmsCpu, Squares, Monoid.Total;
    var invCols := m.div(m.one, m.ofNat(cols));
    ghost var f := (r: nat, i: nat) => RmsnormCell(m, x, weight, cols, epsilon, r, i);
    FillStarts(y[..], cols, f);
    for r := 0 to rows
      invariant cols > 0 ==> FilledTo(y[..], cols, Index(cols, 0, r), f)
    {
      var sumSq := SumSquares(m, x, rows, cols, r);
      var rms := m.sqrt(m.num.add(m.num.mul(sumSq, invCols), epsilon));
      assert rms == RmsCpu(m, cols, epsilon, sumSq) by { RmsCpuIs(m, cols, epsilon, sumSq); }
      for i := 0 to cols
        invariant cols > 0 ==> FilledTo(y[..], cols, Index(cols, i, r), f)
      {
        FillNext(y[..], rows, cols, f, r, i);
        NextColumn(cols, r, i);
        var v := m.div(m.num.up(x[Index(cols, i, r)]), rms);
        if weight.Some? {
          v := m.num.mul(v, m.num.up(weight.value[i]));
        }
        NormedIs(m, x[Index(cols, i, r)], rms, weight, i);
        ghost var before := y[..];
        y[Index(cols, i, r)] := m.num.down(v);
        assert y[..] == before[Index(cols, i, r) := f(r, i)];
      }
      RowEnds(cols, r);
    }
    FilledCells(y[..], rows, cols, f);
  }

  lemma RmsCpuIs<H(!new), F(!new)>(m: Math<H, F>, cols: nat, epsilon: F, s: F)
    ensures RmsCpu(m, cols, epsilon, s) == m.sqrt(m.num.add(m.num.mul(s, m.div(m.one, m.ofNat(cols))), epsilon))
  {
  }

  lemma NormedIs<H(!new), F(!new)>(m: Math<H, F>, x: H, rms: F, weight: Option<seq<H>>, i: nat)
    requires weight.Some? ==> i < |weight.value|
    ensures var v := m.div(m.num.up(x), rms);
      Normed(m, x, rms, weight, i) == m.num.down(if weight.Some? then m.num.mul(v, m.num.up(weight.value[i])) else v)
  {
  }

  // ----- GELU and the composed references -----

  method GeluCpu<H(!new), F(!new)>(m: Math<H, F>, x: seq<H>, y: array<H>)
    requires y.Length == |x|
    modifies y
    ensures forall i | 0 <= i < |x| :: y[i] == m.num.down(m.geluCpu(m.num.up(x[i])))
  {
    for i := 0 to |x|
      invariant forall j | 0 <= j < i :: y[j] == m.num.down(m.geluCpu(m.num.up(x[j])))
    {
      y[i] := m.num.down(m.geluCpu(m.num.up(x[i])));
    }
  }

  // RMSNorm over K into a bf16 temporary, then the matmul.
  method FusedRmsnormMatmulCpu<H(!new), F(!new)>(m: Math<H, F>, x: seq<H>, w: seq<H>, y: array<H>, M: nat, N: nat, K: nat, epsilon: F)
      returns (ghost normed: seq<H>)
    requires |x| == M * K && |w| == K * N && y.Length == M * N
    modifies y
    ensures IsRmsnorm(m, x, None, M, K, epsilon, normed) && IsMatmul(m.num, normed, w, M, N, K, y[..])
  {
    var temp := new H[M * K](_ => m.num.ZeroH());
    RmsnormCpu(m, x, None, temp, M, K, epsilon);
    normed := temp[..];
    MatmulCpu(m.num, temp[..], w, y, M, N, K);
  }

  // A matmul cell with its bias, rounded after each stage.
  function Biased<H(!new), F(!new)>(m: Math<H, F>, acc: F, bias: H): H {
    m.num.down(m.num.add(m.num.up(m.num.down(acc)), m.num.up(bias)))
  }

  ghost predicate IsBiasGelu<H(!new), F(!new)>(m: Math<H, F>, a: seq<H>, b: seq<H>, bias: seq<H>, M: nat, N: nat, K: nat, gelu: F -> F, c: seq<H>) {
    && |c| == M * N && |bias| == N
    && forall i, j | 0 <= i < M && 0 <= j < N ::
         CellAt(c, M, N, i, j) == m.num.down(gelu(m.num.up(Biased(m, MatmulOf(m.num, a, b, M, N, K).Dot(i, j, K), bias[j]))))
  }

  method AddBias<H(!new), F(!new)>(m: Math<H, F>, c: array<H>, bias: seq<H>, M: nat, N: nat)
    requires c.Length == M * N && |bias| == N
    modifies c
    ensures forall i, j | 0 <= i < M && 0 <= j < N ::
      CellAt(c[..], M, N, i, j) == m.num.down(m.num.add(m.num.up(CellAt(old(c[..]), M, N, i, j)), m.num.up(bias[j])))
  {
    hide FilledTo, Index;
    ghost var before := c[..];
    ghost var f := (i: nat, j: nat) =>
      if i < M && j < N then m.num.down(m.num.add(m.num.up(CellAt(before, M, N, i, j)), m.num.up(bias[j]))) else m.num.ZeroH();
    FillStarts(c[..], N, f);
    for i := 0 to M
      invariant N > 0 ==> FilledTo(c[..], N, Index(N, 0, i), f)
      invariant forall q | Index(N, 0, i) <= q < |before| :: c[q] == before[q]
    {
      for j := 0 to N
        invariant N > 0 ==> FilledTo(c[..], N, Index(N, j, i), f)
        invariant forall q | Index(N, j, i) <= q < |before| :: c[q] == before[q]
      {
        FillNext(c[..], M, N, f, i, j);
        NextColumn(N, i, j);
        ghost var now := c[..];
        assert CellAt(before, M, N, i, j) == c[Index(N, j, i)];
        assert f(i, j) == m.num.down(m.num.add(m.num.up(c[Index(N, j, i)]), m.num.up(bias[j])));
        c[Index(N, j, i)] := m.num.down(m.num.add(m.num.up(c[Index(N, j, i)]), m.num.up(bias[j])));
        assert c[..] == now[Index(N, j, i) := f(i, j)];
      }
      RowEnds(N, i);
    }
    FilledCells(c[..], M, N, f);
  }

  method FusedMatmulBiasGeluCpu<H(!new), F(!new)>(m: Math<H, F>, a: seq<H>, b: seq<H>, bias: seq<H>, y: array<H>, M: nat, N: nat, K: nat)
    requires |a| == M * K && |b| == K * N && |bias| == N && y.Length == M * N
    modifies y
    ensures IsBiasGelu(m, a, b, bias, M, N, K, m.geluCpu, y[..])
  {
    var temp := new H[M * N](_ => m.num.ZeroH());
    MatmulCpu(m.num, a, b, temp, M, N, K);
    AddBias(m, temp, bias, M, N);
    GeluCpu(m, temp[..], y);
    forall i, j | 0 <= i < M && 0 <= j < N
      ensures CellAt(y[..], M, N, i, j) == m.num.down(m.geluCpu(m.num.up(CellAt(temp[..], M, N, i, j))))
    {
      IndexInverse(N, M, j, i);
    }
  }

  // ----- Softmax -----

  function Upcast<H(!new), F(!new)>(m: Math<H, F>, x: seq<H>, cols: nat, row: nat, i: nat): F {
    m.num.up(Peek(m.num, x, cols, row, i))
  }

  // The running maximum starts from the first element.
  function RowMax<H(!new), F(!new)>(m: Math<H, F>, x: seq<H>, cols: nat, row: nat, n: nat): F
    requires n > 0
  {
    if n == 1 then Upcast(m, x, cols, row, 0) else m.max(RowMax(m, x, cols, row, n - 1), Upcast(m, x, cols, row, n - 1))
  }

  function Exponential<H(!new), F(!new)>(m: Math<H, F>, x: seq<H>, cols: nat, row: nat, mx: F, i: nat): F {
    m.exp(m.sub(Upcast(m, x, cols, row, i), mx))
  }

  function Exponentials<H(!new), F(!new)>(m: Math<H, F>, x: seq<H>, cols: nat, row: nat, mx: F, n: nat): seq<F> {
    seq(n, i requires i >= 0 => Exponential(m, x, cols, row, mx, i))
  }

  // One normalised element, given the row's maximum and its sum of exponentials.
  function SoftmaxOf<H(!new), F(!new)>(m: Math<H, F>, x: seq<H>, cols: nat, mx: F, sum: F, row: nat, i: nat): H {
    m.num.down(m.num.mul(Exponential(m, x, cols, row, mx, i), m.div(m.one, sum)))
  }

  function SoftmaxCell<H(!new), F(!new)>(m: Math<H, F>, x: seq<H>, cols: nat, row: nat, i: nat): H
    requires cols > 0
  {
    var mx := RowMax(m, x, cols, row, cols);
    SoftmaxOf(m, x, cols, mx, m.Sum().Total(Exponentials(m, x, cols, row, mx, cols)), row, i)
  }

  ghost predicate IsSoftmax<H(!new), F(!new)>(m: Math<H, F>, x: seq<H>, rows: nat, cols: nat, y: seq<H>)
    requires cols > 0
  {
    && |y| == rows * cols
    && forall r, i | 0 <= r < rows && 0 <= i < cols :: CellAt(y, rows, cols, r, i) == SoftmaxCell(m, x, cols, r, i)
  }

  method RowReduce<H(!new), F(!new)>(m: Math<H, F>, x: seq<H>, rows: nat, cols: nat, row: nat) returns (mx: F, sum: F)
    requires |x| == rows * cols && row < rows && cols > 0
    ensures mx == RowMax(m, x, cols, row, cols)
    ensures sum == m.Sum().Total(Exponentials(m, x, cols, row, mx, cols))
  {
    IndexInverse(cols, rows, 0, row);
    mx := m.num.up(x[Index(cols, 0, row)]);
    for i := 1 to cols
      invariant mx == RowMax(m, x, cols, row, i)
    {
      IndexInverse(cols, rows, i, row);
      hide Index;
      mx := m.max(mx, m.num.up(x[Index(cols, i, row)]));
    }
    sum := m.num.zero;
    for i := 0 to cols
      invariant sum == m.Sum().Total(Exponentials(m, x, cols, row, mx, i))
    {
      IndexInverse(cols, rows, i, row);
      hide Index;
      var e := m.exp(m.sub(m.num.up(x[Index(cols, i, row)]), mx));
      assert Exponentials(m, x, cols, row, mx, i + 1) == Exponentials(m, x, cols, row, mx, i) + [e];
      TotalSnoc(m.Sum(), Exponentials(m, x, cols, row, mx, i), e);
      sum := m.num.add(sum, e);
    }
  }

  method SoftmaxCpu<H(!new), F(!new)>(m: Math<H, F>, x: seq<H>, y: array<H>, rows: nat, cols: nat)
    requires |x| == rows * cols && y.Length == rows * cols && cols > 0
    modifies y
    ensures IsSoftmax(m, x, rows, cols, y[..])
  {
    hide FilledTo, Index, RowMax, Exponentials, Monoid.Total;
    ghost var f := (r: nat, i: nat) => SoftmaxCell(m, x, cols, r, i);
    FillStarts(y[..], cols, f);
    for r := 0 to rows
      invariant FilledTo(y[..], cols, Index(cols, 0, r), f)
    {
      var mx, sum := RowReduce(m, x, rows, cols, r);
      var invSum := m.div(m.one, sum);
      for i := 0 to cols
        invariant FilledTo(y[..], cols, Index(cols, i, r), f)
      {
        FillNext(y[..], rows, cols, f, r, i);
        NextColumn(cols, r, i);
        ghost var before := y[..];
        y[Index(cols, i, r)] := m.num.down(m.num.mul(m.exp(m.sub(m.num.up(x[Index(cols, i, r)]), mx)), invSum));
        assert y[..] == before[Index(cols, i, r) := f(r, i)];
      }
      RowEnds(cols, r);
    }
    FilledCells(y[..], rows, cols, f);
  }
}
