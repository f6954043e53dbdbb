/** The emitted kernels as instances of the block programs, and why each computes what its CPU reference computes. */
module GpuKernels {
  import opened Wavelets
  import opened Mesh
  import opened Halves
  import opened Reductions
  import opened CpuReferences
  import T = TiledGemms

  lemma SameCells<H>(c: seq<H>, d: seq<H>, rows: nat, cols: nat)
    requires |c| == |d| == rows * cols
    requires forall i, j | 0 <= i < rows && 0 <= j < cols :: T.CellAt(c, rows, cols, i, j) == T.CellAt(d, rows, cols, i, j)
    ensures c == d
  {
    forall q | 0 <= q < |c|
      ensures c[q] == d[q]
    {
      CoordsInBounds(cols, rows, q);
      assert T.CellAt(c, rows, cols, q / cols, q % cols) == T.CellAt(d, rows, cols, q / cols, q % cols);
    }
  }

  // ----- matmul_kernel -----

  /** The matmul launch and the CPU triple loop fill C identically. */
  lemma MatmulMatchesCpu<H(!new), F(!new)>(num: T.Numbers<H, F>, a: seq<H>, b: seq<H>, M: nat, N: nat, K: nat, c: seq<H>, d: seq<H>)
    requires MatmulOf(num, a, b, M, N, K).PadNeutral()
    requires T.Launched(MatmulOf(num, a, b, M, N, K), c) && IsMatmul(num, a, b, M, N, K, d)
    ensures c == d
  {
    var g := MatmulOf(num, a, b, M, N, K);
    forall i, j | 0 <= i < M && 0 <= j < N
      ensures T.CellAt(c, M, N, i, j) == T.CellAt(d, M, N, i, j)
    {
      T.LaunchIsReference(g, c, i, j);
    }
    SameCells(c, d, M, N);
  }

  // ----- fused_matmul_bias_gelu_kernel -----

  // The epilogue: round, add the column's bias, round, apply GELU, round.
  function StoreBiased<H(!new), F(!new)>(m: Math<H, F>, bias: seq<H>, col: nat, acc: F): H {
    m.num.down(m.geluGpu(m.num.up(Biased(m, acc, if col < |bias| then bias[col] else m.num.ZeroH()))))
  }

  function BiasGeluOf<H(!new), F(!new)>(m: Math<H, F>, a: seq<H>, b: seq<H>, bias: seq<H>, M: nat, N: nat, K: nat): T.Gemm<H, F> {
    T.Gemm(m.num, M, N, K,
           (row: nat, k: nat) => Peek(m.num, a, K, row, k), (k: nat, col: nat) => Peek(m.num, b, N, k, col),
           (row: nat, col: nat, acc: F) => StoreBiased(m, bias, col, acc))
  }

  lemma SameDot<H(!new), F(!new)>(g: T.Gemm<H, F>, h: T.Gemm<H, F>, row: nat, col: nat, n: nat)
    requires g.num == h.num && forall k: nat | k < n :: g.a(row, k) == h.a(row, k) && g.b(k, col) == h.b(k, col)
    ensures g.Dot(row, col, n) == h.Dot(row, col, n)
  {
  }

  // The value the GELU of element (i, j) is applied to.
  function GeluInput<H(!new), F(!new)>(m: Math<H, F>, a: seq<H>, b: seq<H>, bias: seq<H>, M: nat, N: nat, K: nat, i: nat, j: nat): F
    requires |bias| == N && j < N
  {
    m.num.up(Biased(m, MatmulOf(m.num, a, b, M, N, K).Dot(i, j, K), bias[j]))
  }

  /** The fused kernel is matmul, then bias, then its own GELU, each rounded to bf16, for every interleaving. */
  lemma BiasGeluLaunch<H(!new), F(!new)>(m: Math<H, F>, a: seq<H>, b: seq<H>, bias: seq<H>, M: nat, N: nat, K: nat, c: seq<H>)
    requires |bias| == N && BiasGeluOf(m, a, b, bias, M, N, K).PadNeutral()
    requires T.Launched(BiasGeluOf(m, a, b, bias, M, N, K), c)
    ensures IsBiasGelu(m, a, b, bias, M, N, K, m.geluGpu, c)
  {
    assert |c| == M * N;
    hide T.Gemm.PadNeutral, T.Launched, BiasGeluOf;
    forall i, j | 0 <= i < M && 0 <= j < N
      ensures T.CellAt(c, M, N, i, j) ==
        m.num.down(m.geluGpu(m.num.up(Biased(m, MatmulOf(m.num, a, b, M, N, K).Dot(i, j, K), bias[j]))))
    {
      BiasGeluCell(m, a, b, bias, M, N, K, c, i, j);
    }
  }

  lemma BiasGeluCell<H(!new), F(!new)>(m: Math<H, F>, a: seq<H>, b: seq<H>, bias: seq<H>, M: nat, N: nat, K: nat, c: seq<H>, i: nat, j: nat)
    requires |bias| == N && BiasGeluOf(m, a, b, bias, M, N, K).PadNeutral()
    requires T.Launched(BiasGeluOf(m, a, b, bias, M, N, K), c) && |c| == M * N && i < M && j < N
    ensures T.CellAt(c, M, N, i, j) == m.num.down(m.geluGpu(GeluInput(m, a, b, bias, M, N, K, i, j)))
  {
    var g := BiasGeluOf(m, a, b, bias, M, N, K);
    var acc := g.Dot(i, j, K);
    assert g.store(i, j, acc) == StoreBiased(m, bias, j, acc);
    assert acc == MatmulOf(m.num, a, b, M, N, K).Dot(i, j, K) by {
      SameDot(g, MatmulOf(m.num, a, b, M, N, K), i, j, K);
    }
    hide T.Gemm.PadNeutral, T.Launched, Biased;
    T.LaunchIsReference(g, c, i, j);
  }

  // Both GELU chains round a bf16 to the same bf16.
  ghost predicate GeluAgrees<H(!new), F(!new)>(m: Math<H, F>, h: H) {
    m.num.down(m.geluGpu(m.num.up(h))) == m.num.down(m.geluCpu(m.num.up(h)))
  }

  /** If the two chains round alike on every bf16, kernel and CPU fill C identically, whatever the sizes, the data and the interleaving:
      what GELU is applied to has always been rounded first. */
  lemma BiasGeluMatchesCpu<H(!new), F(!new)>(m: Math<H, F>, a: seq<H>, b: seq<H>, bias: seq<H>, M: nat, N: nat, K: nat, c: seq<H>, d: seq<H>)
    requires |bias| == N && BiasGeluOf(m, a, b, bias, M, N, K).PadNeutral()
    requires T.Launched(BiasGeluOf(m, a, b, bias, M, N, K), c) && IsBiasGelu(m, a, b, bias, M, N, K, m.geluCpu, d)
    ensures (forall h: H :: GeluAgrees(m, h)) ==> c == d
  {
    assert |c| == M * N;
    BiasGeluLaunch(m, a, b, bias, M, N, K, c);
    hide T.Gemm.PadNeutral, T.Launched, BiasGeluOf, Biased, MatmulOf;
    if forall h: H :: GeluAgrees(m, h) {
      forall i, j | 0 <= i < M && 0 <= j < N
        ensures T.CellAt(c, M, N, i, j) == T.CellAt(d, M, N, i, j)
      {
        assert GeluAgrees(m, Biased(m, MatmulOf(m.num, a, b, M, N, K).Dot(i, j, K), bias[j]));
      }
      SameCells(c, d, M, N);
    }
  }

  // ----- fused_rmsnorm_matmul_kernel -----

  const ROWLANES: nat := 16

  function SquaresOf<H(!new), F(!new)>(m: Math<H, F>, x: seq<H>, K: nat, row: nat): nat -> F {
    (k: nat) => Square(m, x, K, row, k)
  }

  // Thread tx of a row takes every sixteenth square.
  function LocalSquares<H(!new), F(!new)>(m: Math<H, F>, x: seq<H>, M: nat, K: nat, row: nat, tx: nat): F {
    if row < M then Strided(m.Sum(), SquaresOf(m, x, K, row), ROWLANES, tx, K) else m.num.zero
  }

  // The two rows a warp serves, sixteen lanes each; `pair` numbers such warps down the whole output.
  function WarpLanes<H(!new), F(!new)>(m: Math<H, F>, x: seq<H>, M: nat, K: nat, pair: nat): (r: seq<F>)
    ensures |r| == 2 * Pow2(4)
  {
    assert Pow2(4) == ROWLANES;
    seq(2 * ROWLANES, lane requires 0 <= lane < 2 * ROWLANES =>
      LocalSquares(m, x, M, K, 2 * pair + lane / ROWLANES, lane % ROWLANES))
  }

  // The kernel divides the sum by the row length.
  function RmsGpu<H(!new), F(!new)>(m: Math<H, F>, cols: nat, epsilon: F, sumSq: F): F {
    m.sqrt(m.num.add(m.div(sumSq, m.ofNat(cols)), epsilon))
  }

  // The rms that thread tx of a row works with, after the butterfly over offsets 8, 4, 2, 1.
  function RmsSeen<H(!new), F(!new)>(m: Math<H, F>, x: seq<H>, M: nat, K: nat, epsilon: F, row: nat, tx: nat): F
    requires tx < ROWLANES
  {
    assert Pow2(4) == ROWLANES;
    RmsGpu(m, K, epsilon, Butterfly(m.Sum(), WarpLanes(m, x, M, K, row / 2), 4, 2)[row % 2 * ROWLANES + tx])
  }

  // A's elements are normalised as they are staged, by the thread that stages column k.
  function RmsnormMatmulOf<H(!new), F(!new)>(m: Math<H, F>, x: seq<H>, w: seq<H>, M: nat, N: nat, K: nat, epsilon: F): T.Gemm<H, F> {
    T.Gemm(m.num, M, N, K,
           (row: nat, k: nat) => Normed(m, Peek(m.num, x, K, row, k), RmsSeen(m, x, M, K, epsilon, row, k % ROWLANES), None, k),
           (k: nat, col: nat) => Peek(m.num, w, N, k, col),
           (row: nat, col: nat, acc: F) => m.num.down(acc))
  }

  ghost function RowParts<H(!new), F(!new)>(m: Math<H, F>, x: seq<H>, M: nat, K: nat, row: nat): (r: seq<F>)
    ensures |r| == ROWLANES
  {
    seq(ROWLANES, tx requires 0 <= tx < ROWLANES => LocalSquares(m, x, M, K, row, tx))
  }

  // Lane tx of the half that serves a row.
  lemma LaneOf(row: nat, tx: nat)
    requires tx < ROWLANES
    ensures var lane := row % 2 * ROWLANES + tx; lane < 2 * ROWLANES && lane % ROWLANES == tx && 2 * (row / 2) + lane / ROWLANES == row
  {
    DivModUnique(ROWLANES, row % 2 * ROWLANES + tx, row % 2, tx);
  }

  lemma LanesOfRow<H(!new), F(!new)>(m: Math<H, F>, x: seq<H>, M: nat, K: nat, row: nat)
    ensures Pow2(4) == ROWLANES
    ensures Group(WarpLanes(m, x, M, K, row / 2), ROWLANES, 2, row % 2) == RowParts(m, x, M, K, row)
  {
    hide LocalSquares, Pow2;
    SixteenLanes();
    var lanes := WarpLanes(m, x, M, K, row / 2);
    var group := Group(lanes, ROWLANES, 2, row % 2);
    forall tx | 0 <= tx < ROWLANES
      ensures group[tx] == RowParts(m, x, M, K, row)[tx]
    {
      LaneOf(row, tx);
      assert group[tx] == lanes[row % 2 * ROWLANES + tx];
    }
  }

  lemma SixteenLanes()
    ensures Pow2(4) == ROWLANES
  {
  }

  /** With a commutative addition alone, all sixteen threads of a row normalise by the same rms. */
  lemma RowAgrees<H(!new), F(!new)>(m: Math<H, F>, x: seq<H>, M: nat, K: nat, epsilon: F, row: nat, tx: nat)
    requires m.Sum().Commutative() && tx < ROWLANES
    ensures Pow2(4) == ROWLANES
    ensures RmsSeen(m, x, M, K, epsilon, row, tx) == RmsGpu(m, K, epsilon, Tree(m.Sum(), RowParts(m, x, M, K, row), 4))
  {
    LanesOfRow(m, x, M, K, row);
    var lane := row % 2 * ROWLANES + tx;
    DivModUnique(ROWLANES, lane, row % 2, tx);
    hide RmsGpu, RowParts, WarpLanes;
    ButterflyIsTree(m.Sum(), WarpLanes(m, x, M, K, row / 2), 4, 2, lane);
  }

  lemma PartsTotal<H(!new), F(!new)>(m: Math<H, F>, x: seq<H>, M: nat, K: nat, row: nat)
    requires m.Sum().Lawful() && row < M
    ensures m.Sum().Total(RowParts(m, x, M, K, row)) == m.Sum().Total(Squares(m, x, K, row, K))
  {
    hide Monoid.Lawful;
    var f := SquaresOf(m, x, K, row);
    StridedTotals(m.Sum(), f, ROWLANES, K);
    assert AllStrided(m.Sum(), f, ROWLANES, K) == RowParts(m, x, M, K, row);
    assert seq(K, i requires i >= 0 => f(i)) == Squares(m, x, K, row, K);
  }

  lemma RowPartsKept<H(!new), F(!new)>(m: Math<H, F>, x: seq<H>, M: nat, K: nat, row: nat)
    requires m.Sum().Lawful()
    ensures forall tx | 0 <= tx < ROWLANES :: m.Sum().Keeps(RowParts(m, x, M, K, row)[tx])
  {
    hide Monoid.Lawful, Monoid.Keeps;
    Laws(m.Sum());
    forall tx | 0 <= tx < ROWLANES
      ensures m.Sum().Keeps(LocalSquares(m, x, M, K, row, tx))
    {
      StridedKeeps(m.Sum(), SquaresOf(m, x, K, row), ROWLANES, tx, K);
    }
  }

  // Over a commutative monoid that rms is the whole row's.
  lemma RowTotal<H(!new), F(!new)>(m: Math<H, F>, x: seq<H>, M: nat, K: nat, epsilon: F, row: nat, tx: nat)
    requires m.Sum().Lawful() && row < M && tx < ROWLANES
    ensures RmsSeen(m, x, M, K, epsilon, row, tx) == RmsGpu(m, K, epsilon, m.Sum().Total(Squares(m, x, K, row, K)))
  {
    hide Monoid.Lawful, Monoid.Commutative, Monoid.Keeps;
    Laws(m.Sum());
    RowAgrees(m, x, M, K, epsilon, row, tx);
    RowPartsKept(m, x, M, K, row);
    TreeTotals(m.Sum(), RowParts(m, x, M, K, row), 4);
    PartsTotal(m, x, M, K, row);
    hide *;
  }

  // Operand A normalised row by row, each by the rms of its whole sum of squares as the kernel takes it.
  function NormedGpu<H(!new), F(!new)>(m: Math<H, F>, x: seq<H>, K: nat, epsilon: F, row: nat, k: nat): H {
    Normed(m, Peek(m.num, x, K, row, k), RmsGpu(m, K, epsilon, m.Sum().Total(Squares(m, x, K, row, K))), None, k)
  }

  function NormedProduct<H(!new), F(!new)>(m: Math<H, F>, x: seq<H>, w: seq<H>, M: nat, N: nat, K: nat, epsilon: F): T.Gemm<H, F> {
    T.Gemm(m.num, M, N, K,
           (row: nat, k: nat) => NormedGpu(m, x, K, epsilon, row, k), (k: nat, col: nat) => Peek(m.num, w, N, k, col),
           (row: nat, col: nat, acc: F) => m.num.down(acc))
  }

  /** The prologue-fused launch multiplies the normalised operand, for every interleaving: each row is normalised by the rms of its whole sum
      of squares, rounded as it is staged. */
  lemma RmsnormMatmulLaunch<H(!new), F(!new)>(m: Math<H, F>, x: seq<H>, w: seq<H>, M: nat, N: nat, K: nat, epsilon: F, c: seq<H>)
    requires m.Sum().Lawful() && RmsnormMatmulOf(m, x, w, M, N, K, epsilon).PadNeutral()
    requires T.Launched(RmsnormMatmulOf(m, x, w, M, N, K, epsilon), c)
    ensures |c| == M * N
    ensures forall i, j | 0 <= i < M && 0 <= j < N ::
      T.CellAt(c, M, N, i, j) == m.num.down(NormedProduct(m, x, w, M, N, K, epsilon).Dot(i, j, K))
  {
    var g, h := RmsnormMatmulOf(m, x, w, M, N, K, epsilon), NormedProduct(m, x, w, M, N, K, epsilon);
    forall i, j | 0 <= i < M && 0 <= j < N
      ensures T.CellAt(c, M, N, i, j) == m.num.down(h.Dot(i, j, K))
    {
      T.LaunchIsReference(g, c, i, j);
      forall k: nat | k < K
        ensures g.a(i, k) == h.a(i, k)
      {
        StagedIsNormed(m, x, M, K, epsilon, i, k);
      }
      SameDot(g, h, i, j, K);
    }
  }

  lemma StagedIsNormed<H(!new), F(!new)>(m: Math<H, F>, x: seq<H>, M: nat, K: nat, epsilon: F, i: nat, k: nat)
    requires m.Sum().Lawful() && i < M && k < K
    ensures Normed(m, Peek(m.num, x, K, i, k), RmsSeen(m, x, M, K, epsilon, i, k % ROWLANES), None, k) == NormedGpu(m, x, K, epsilon, i, k)
  {
    RowTotal(m, x, M, K, epsilon, i, k % ROWLANES);
    hide Normed, RmsSeen, Squares;
  }

  // ----- Dividing by the row length, or multiplying by its reciprocal -----

  // The kernel's mean and the reference's give a sum of squares the same rms.
  ghost predicate RmsAgrees<H(!new), F(!new)>(m: Math<H, F>, cols: nat, epsilon: F, sumSq: F) {
    RmsGpu(m, cols, epsilon, sumSq) == RmsCpu(m, cols, epsilon, sumSq)
  }

  // Dividing by n is multiplying by its reciprocal, as it is for powers of two.
  ghost predicate DividesByReciprocal<H(!new), F(!new)>(m: Math<H, F>, n: nat) {
    forall s: F :: SameQuotient(m, n, s)
  }

  ghost predicate SameQuotient<H(!new), F(!new)>(m: Math<H, F>, n: nat, s: F) {
    m.div(s, m.ofNat(n)) == m.num.mul(s, m.div(m.one, m.ofNat(n)))
  }

  ghost predicate RowsAgree<H(!new), F(!new)>(m: Math<H, F>, x: seq<H>, M: nat, K: nat, epsilon: F) {
    forall i | 0 <= i < M :: RmsAgrees(m, K, epsilon, m.Sum().Total(Squares(m, x, K, i, K)))
  }

  lemma ReciprocalAgrees<H(!new), F(!new)>(m: Math<H, F>, cols: nat, epsilon: F, sumSq: F)
    requires DividesByReciprocal(m, cols)
    ensures RmsAgrees(m, cols, epsilon, sumSq)
  {
    assert SameQuotient(m, cols, sumSq);
  }

  // The reference normalises, rounds and multiplies the same operand when the rows' means agree.
  lemma RmsnormMatmulRows<H(!new), F(!new)>(m: Math<H, F>, x: seq<H>, w: seq<H>, M: nat, N: nat, K: nat, epsilon: F,
      c: seq<H>, normed: seq<H>, d: seq<H>)
    requires m.Sum().Lawful() && RmsnormMatmulOf(m, x, w, M, N, K, epsilon).PadNeutral() && RowsAgree(m, x, M, K, epsilon)
    requires T.Launched(RmsnormMatmulOf(m, x, w, M, N, K, epsilon), c)
    requires IsRmsnorm(m, x, None, M, K, epsilon, normed) && IsMatmul(m.num, normed, w, M, N, K, d)
    ensures c == d
  {
    RmsnormMatmulLaunch(m, x, w, M, N, K, epsilon, c);
    var h := NormedProduct(m, x, w, M, N, K, epsilon);
    forall i, j | 0 <= i < M && 0 <= j < N
      ensures T.CellAt(c, M, N, i, j) == T.CellAt(d, M, N, i, j)
    {
      forall k: nat | k < K
        ensures h.a(i, k) == Peek(m.num, normed, K, i, k)
      {
        NormedIsReference(m, x, M, K, epsilon, normed, i, k);
      }
      SameDot(h, MatmulOf(m.num, normed, w, M, N, K), i, j, K);
    }
    SameCells(c, d, M, N);
  }

  lemma NormedIsReference<H(!new), F(!new)>(m: Math<H, F>, x: seq<H>, M: nat, K: nat, epsilon: F, normed: seq<H>, i: nat, k: nat)
    requires RowsAgree(m, x, M, K, epsilon) && IsRmsnorm(m, x, None, M, K, epsilon, normed) && i < M && k < K
    ensures NormedGpu(m, x, K, epsilon, i, k) == Peek(m.num, normed, K, i, k)
  {
    IndexInverse(K, M, k, i);
    assert T.CellAt(normed, M, K, i, k) == Peek(m.num, normed, K, i, k);
    assert RmsAgrees(m, K, epsilon, m.Sum().Total(Squares(m, x, K, i, K)));
    hide Normed, Squares;
  }

  /** When dividing by K is multiplying by its reciprocal, the fused launch and the two CPU loops fill C identically. */
  lemma RmsnormMatmulMatchesCpu<H(!new), F(!new)>(m: Math<H, F>, x: seq<H>, w: seq<H>, M: nat, N: nat, K: nat, epsilon: F,
      c: seq<H>, normed: seq<H>, d: seq<H>)
    requires m.Sum().Lawful() && RmsnormMatmulOf(m, x, w, M, N, K, epsilon).PadNeutral() && DividesByReciprocal(m, K)
    requires T.Launched(RmsnormMatmulOf(m, x, w, M, N, K, epsilon), c)
    requires IsRmsnorm(m, x, None, M, K, epsilon, normed) && IsMatmul(m.num, normed, w, M, N, K, d)
    ensures c == d
  {
    forall i | 0 <= i < M
      ensures RmsAgrees(m, K, epsilon, m.Sum().Total(Squares(m, x, K, i, K)))
    {
      ReciprocalAgrees(m, K, epsilon, m.Sum().Total(Squares(m, x, K, i, K)));
    }
    RmsnormMatmulRows(m, x, w, M, N, K, epsilon, c, normed, d);
  }
}
