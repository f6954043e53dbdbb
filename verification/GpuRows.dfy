/** rmsnorm_kernel and softmax_kernel: one block per row, every interleaving ending in the reference loop's values. */
module GpuRows {
  import opened Wavelets
  import opened Mesh
  import opened Halves
  import opened Reductions
  import opened BarrierBlocks
  import opened CpuReferences
  import opened GpuKernels
  import R = RowKernels
  import T = TiledGemms

  const THREADS: nat := 256

  // ----- rmsnorm_kernel -----

  // The vectorised bulk takes two columns at a time.
  function PairValue<H(!new), F(!new)>(m: Math<H, F>, x: seq<H>, cols: nat, row: nat, p: nat): F {
    m.num.add(Square(m, x, cols, row, 2 * p), Square(m, x, cols, row, 2 * p + 1))
  }

  function PairOf<H(!new), F(!new)>(m: Math<H, F>, x: seq<H>, cols: nat, row: nat): nat -> F {
    (p: nat) => PairValue(m, x, cols, row, p)
  }

  // Thread tid's sum of squares: its pairs, and for thread 0 the odd last column.
  function SquaresPart<H(!new), F(!new)>(m: Math<H, F>, x: seq<H>, cols: nat, row: nat, tid: nat): F {
    var bulk := Strided(m.Sum(), PairOf(m, x, cols, row), THREADS, tid, cols / 2);
    if cols % 2 == 1 && tid == 0 then m.num.add(bulk, Square(m, x, cols, row, cols - 1)) else bulk
  }

  function RmsnormRow<H(!new), F(!new)>(m: Math<H, F>, x: seq<H>, cols: nat, row: nat, epsilon: F): R.RowKernel<F> {
    R.RowKernel(1, (s: nat) => m.Sum(), (s: nat, tid: nat, regs: seq<F>) => SquaresPart(m, x, cols, row, tid),
                (s: nat, sum: F) => RmsGpu(m, cols, epsilon, sum))
  }

  ghost function Pairs<H(!new), F(!new)>(m: Math<H, F>, x: seq<H>, cols: nat, row: nat, n: nat): (r: seq<F>)
    ensures |r| == n
  {
    seq(n, p requires p >= 0 => PairValue(m, x, cols, row, p))
  }

  lemma SquaresSnoc<H(!new), F(!new)>(m: Math<H, F>, x: seq<H>, cols: nat, row: nat, n: nat)
    ensures m.Sum().Total(Squares(m, x, cols, row, n + 1)) == m.num.add(m.Sum().Total(Squares(m, x, cols, row, n)), Square(m, x, cols, row, n))
  {
    assert Squares(m, x, cols, row, n + 1) == Squares(m, x, cols, row, n) + [Square(m, x, cols, row, n)];
    TotalSnoc(m.Sum(), Squares(m, x, cols, row, n), Square(m, x, cols, row, n));
  }

  lemma PairsSnoc<H(!new), F(!new)>(m: Math<H, F>, x: seq<H>, cols: nat, row: nat, n: nat)
    ensures m.Sum().Total(Pairs(m, x, cols, row, n + 1)) == m.num.add(m.Sum().Total(Pairs(m, x, cols, row, n)), PairValue(m, x, cols, row, n))
  {
    assert Pairs(m, x, cols, row, n + 1) == Pairs(m, x, cols, row, n) + [PairValue(m, x, cols, row, n)];
    TotalSnoc(m.Sum(), Pairs(m, x, cols, row, n), PairValue(m, x, cols, row, n));
  }

  // Pair by pair is column by column.
  lemma {:induction false} PairsTotal<H(!new), F(!new)>(m: Math<H, F>, x: seq<H>, cols: nat, row: nat, n: nat)
    requires m.Sum().Lawful()
    ensures m.Sum().Total(Pairs(m, x, cols, row, n)) == m.Sum().Total(Squares(m, x, cols, row, 2 * n))
    decreases n
  {
    hide Monoid.Lawful, Square;
    if n == 0 {
      assert Pairs(m, x, cols, row, 0) == [] == Squares(m, x, cols, row, 0);
    } else {
      PairsTotal(m, x, cols, row, n - 1);
      PairsSnoc(m, x, cols, row, n - 1);
      SquaresSnoc(m, x, cols, row, 2 * n - 2);
      SquaresSnoc(m, x, cols, row, 2 * n - 1);
      Assoc(m.Sum(), m.Sum().Total(Squares(m, x, cols, row, 2 * n - 2)),
            Square(m, x, cols, row, 2 * n - 2), Square(m, x, cols, row, 2 * n - 1));
    }
  }

  // The bulk of every thread, before thread 0 adds the tail.
  ghost function Bulk<H(!new), F(!new)>(m: Math<H, F>, x: seq<H>, cols: nat, row: nat): (r: seq<F>)
    ensures |r| == THREADS
  {
    AllStrided(m.Sum(), PairOf(m, x, cols, row), THREADS, cols / 2)
  }

  lemma BulkTotal<H(!new), F(!new)>(m: Math<H, F>, x: seq<H>, cols: nat, row: nat)
    requires m.Sum().Lawful()
    ensures m.Sum().Total(Bulk(m, x, cols, row)) == m.Sum().Total(Squares(m, x, cols, row, cols / 2 * 2))
  {
    hide Monoid.Lawful, PairValue, Square;
    var f := PairOf(m, x, cols, row);
    StridedTotals(m.Sum(), f, THREADS, cols / 2);
    assert seq(cols / 2, p requires p >= 0 => f(p)) == Pairs(m, x, cols, row, cols / 2);
    PairsTotal(m, x, cols, row, cols / 2);
  }

  // Thread 0 adds an odd row's last column.
  lemma PartsAre<H(!new), F(!new)>(m: Math<H, F>, x: seq<H>, cols: nat, row: nat, epsilon: F)
    ensures var bulk := Bulk(m, x, cols, row);
      R.Parts(RmsnormRow(m, x, cols, row, epsilon), 0, []) ==
        if cols % 2 == 1 then bulk[0 := m.num.add(bulk[0], Square(m, x, cols, row, cols - 1))] else bulk
  {
    hide Square;
  }

  /** Whatever the row length, odd or even, the 256 threads together count every column's square exactly once. */
  lemma AllSquares<H(!new), F(!new)>(m: Math<H, F>, x: seq<H>, cols: nat, row: nat, epsilon: F)
    requires m.Sum().Lawful()
    ensures m.Sum().Total(R.Parts(RmsnormRow(m, x, cols, row, epsilon), 0, [])) == m.Sum().Total(Squares(m, x, cols, row, cols))
  {
    hide Monoid.Lawful, Square, R.Parts, RmsnormRow, Bulk, Squares, Monoid.Total;
    BulkTotal(m, x, cols, row);
    PartsAre(m, x, cols, row, epsilon);
    if cols % 2 == 1 {
      TotalUpdate(m.Sum(), Bulk(m, x, cols, row), 0, Square(m, x, cols, row, cols - 1));
      SquaresSnoc(m, x, cols, row, cols - 1);
    }
  }

  lemma SquaresKept<H(!new), F(!new)>(m: Math<H, F>, x: seq<H>, cols: nat, row: nat, epsilon: F, regs: seq<F>)
    requires m.Sum().Lawful()
    ensures R.PartsKept(RmsnormRow(m, x, cols, row, epsilon), 0, regs)
  {
    hide Monoid.Lawful, Monoid.Keeps, Square, Strided;
    forall tid: nat
      ensures m.Sum().Keeps(SquaresPart(m, x, cols, row, tid))
    {
      StridedKeeps(m.Sum(), PairOf(m, x, cols, row), THREADS, tid, cols / 2);
      if cols % 2 == 1 && tid == 0 {
        OpKeeps(m.Sum(), Strided(m.Sum(), PairOf(m, x, cols, row), THREADS, tid, cols / 2), Square(m, x, cols, row, cols - 1));
      }
    }
  }

  /** Every interleaving of the row's block leaves every warp with the same rms, the root of the whole row's mean square. */
  lemma RmsnormResult<H(!new), F(!new)>(m: Math<H, F>, x: seq<H>, cols: nat, row: nat, epsilon: F, b: Block<seq<F>, F>, w: nat)
    requires m.Sum().Lawful() && R.BlockRuns(RmsnormRow(m, x, cols, row, epsilon), b) && w < R.WARPS
    ensures b.local[w] == [RmsGpu(m, cols, epsilon, m.Sum().Total(Squares(m, x, cols, row, cols)))]
  {
    var g := RmsnormRow(m, x, cols, row, epsilon);
    hide Monoid.Lawful, R.BlockRuns, Squares;
    SquaresKept(m, x, cols, row, epsilon, g.Results(0));
    R.EveryInterleaving(g, b, w);
    R.StageTotal(g, 0);
    AllSquares(m, x, cols, row, epsilon);
    OneResult(g);
  }

  lemma OneResult<F(!new)>(g: R.RowKernel<F>)
    ensures g.Results(0) == []
    ensures g.Results(1) == [g.Combine(0, g.Partials(0))]
  {
    assert g.Results(1) == g.Results(0) + [g.Combine(0, g.Partials(0))];
  }

  lemma TwoResults<F(!new)>(g: R.RowKernel<F>)
    ensures g.Results(2) == [g.Combine(0, g.Partials(0)), g.Combine(1, g.Partials(1))]
  {
    OneResult(g);
    assert g.Results(2) == g.Results(1) + [g.Combine(1, g.Partials(1))];
  }

  /** Whatever the interleaving, the kernel's elements of a row are the reference's if dividing the row's sum of squares by the row length is
      multiplying it by the reciprocal. */
  lemma RmsnormMatchesCpu<H(!new), F(!new)>(m: Math<H, F>, x: seq<H>, weight: Option<seq<H>>, cols: nat, row: nat, epsilon: F,
      b: Block<seq<F>, F>, w: nat, i: nat)
    requires m.Sum().Lawful() && R.BlockRuns(RmsnormRow(m, x, cols, row, epsilon), b) && w < R.WARPS
    ensures |b.local[w]| == 1
    ensures SameQuotient(m, cols, m.Sum().Total(Squares(m, x, cols, row, cols))) ==>
      Normed(m, Peek(m.num, x, cols, row, i), b.local[w][0], weight, i) == RmsnormCell(m, x, weight, cols, epsilon, row, i)
  {
    RmsnormResult(m, x, cols, row, epsilon, b, w);
    hide Monoid.Lawful, R.BlockRuns, Normed, Squares;
  }

  // ----- softmax_kernel -----

  function UpcastOf<H(!new), F(!new)>(m: Math<H, F>, x: seq<H>, cols: nat, row: nat): nat -> F {
    (i: nat) => Upcast(m, x, cols, row, i)
  }

  function ExponentialOf<H(!new), F(!new)>(m: Math<H, F>, x: seq<H>, cols: nat, row: nat, mx: F): nat -> F {
    (i: nat) => Exponential(m, x, cols, row, mx, i)
  }

  // Stage 0: the maximum. Stage 1: the sum of exponentials, on the maximum every thread read back.
  function SoftmaxPart<H(!new), F(!new)>(m: Math<H, F>, x: seq<H>, cols: nat, row: nat, s: nat, tid: nat, regs: seq<F>): F {
    if s == 0 then Strided(m.Max(), UpcastOf(m, x, cols, row), THREADS, tid, cols)
    else if |regs| > 0 then Strided(m.Sum(), ExponentialOf(m, x, cols, row, regs[0]), THREADS, tid, cols)
    else m.num.zero
  }

  function SoftmaxRow<H(!new), F(!new)>(m: Math<H, F>, x: seq<H>, cols: nat, row: nat): R.RowKernel<F> {
    R.RowKernel(2, (s: nat) => if s == 0 then m.Max() else m.Sum(),
                (s: nat, tid: nat, regs: seq<F>) => SoftmaxPart(m, x, cols, row, s, tid, regs), (s: nat, v: F) => v)
  }

  ghost function Upcasts<H(!new), F(!new)>(m: Math<H, F>, x: seq<H>, cols: nat, row: nat, n: nat): (r: seq<F>)
    ensures |r| == n
  {
    seq(n, i requires i >= 0 => Upcast(m, x, cols, row, i))
  }

  // The kernel's maximum starts from -FLT_MAX, the reference's from the first element.
  function KernelMax<H(!new), F(!new)>(m: Math<H, F>, x: seq<H>, cols: nat, row: nat): F
    requires cols > 0
  {
    m.max(m.least, RowMax(m, x, cols, row, cols))
  }

  lemma {:induction false} MaxTotal<H(!new), F(!new)>(m: Math<H, F>, x: seq<H>, cols: nat, row: nat, n: nat)
    requires m.Max().Lawful() && n > 0
    ensures m.Max().Total(Upcasts(m, x, cols, row, n)) == m.max(m.least, RowMax(m, x, cols, row, n))
    decreases n
  {
    hide Monoid.Lawful, Upcast;
    var before, last := Upcasts(m, x, cols, row, n - 1), Upcast(m, x, cols, row, n - 1);
    assert Upcasts(m, x, cols, row, n) == before + [last];
    TotalSnoc(m.Max(), before, last);
    if n == 1 {
      assert before == [];
    } else {
      MaxTotal(m, x, cols, row, n - 1);
      Assoc(m.Max(), m.least, RowMax(m, x, cols, row, n - 1), last);
    }
  }

  lemma MaxParts<H(!new), F(!new)>(m: Math<H, F>, x: seq<H>, cols: nat, row: nat)
    requires m.Max().Lawful() && cols > 0
    ensures m.Max().Total(R.Parts(SoftmaxRow(m, x, cols, row), 0, [])) == KernelMax(m, x, cols, row)
  {
    hide Monoid.Lawful, Upcast;
    var f := UpcastOf(m, x, cols, row);
    StridedTotals(m.Max(), f, THREADS, cols);
    assert seq(cols, i requires i >= 0 => f(i)) == Upcasts(m, x, cols, row, cols);
    assert R.Parts(SoftmaxRow(m, x, cols, row), 0, []) == AllStrided(m.Max(), f, THREADS, cols);
    MaxTotal(m, x, cols, row, cols);
  }

  lemma SumParts<H(!new), F(!new)>(m: Math<H, F>, x: seq<H>, cols: nat, row: nat, mx: F)
    requires m.Sum().Lawful()
    ensures m.Sum().Total(R.Parts(SoftmaxRow(m, x, cols, row), 1, [mx])) == m.Sum().Total(Exponentials(m, x, cols, row, mx, cols))
  {
    hide Monoid.Lawful, Exponential;
    var f := ExponentialOf(m, x, cols, row, mx);
    StridedTotals(m.Sum(), f, THREADS, cols);
    assert seq(cols, i requires i >= 0 => f(i)) == Exponentials(m, x, cols, row, mx, cols);
    assert R.Parts(SoftmaxRow(m, x, cols, row), 1, [mx]) == AllStrided(m.Sum(), f, THREADS, cols);
  }

  lemma SoftmaxKept<H(!new), F(!new)>(m: Math<H, F>, x: seq<H>, cols: nat, row: nat, regs: seq<F>)
    requires m.Sum().Lawful() && m.Max().Lawful()
    ensures R.PartsKept(SoftmaxRow(m, x, cols, row), 0, regs)
    ensures |regs| > 0 ==> R.PartsKept(SoftmaxRow(m, x, cols, row), 1, regs)
  {
    hide Monoid.Lawful, Monoid.Keeps, Strided;
    forall tid: nat
      ensures m.Max().Keeps(SoftmaxPart(m, x, cols, row, 0, tid, regs))
      ensures |regs| > 0 ==> m.Sum().Keeps(SoftmaxPart(m, x, cols, row, 1, tid, regs))
    {
      StridedKeeps(m.Max(), UpcastOf(m, x, cols, row), THREADS, tid, cols);
      if |regs| > 0 {
        StridedKeeps(m.Sum(), ExponentialOf(m, x, cols, row, regs[0]), THREADS, tid, cols);
      }
    }
  }

  /** Every interleaving leaves every warp with the row's maximum, at least -FLT_MAX, and its sum of exponentials, although both
      reductions share one array of partials. */
  lemma SoftmaxResult<H(!new), F(!new)>(m: Math<H, F>, x: seq<H>, cols: nat, row: nat, b: Block<seq<F>, F>, w: nat)
    requires m.Sum().Lawful() && m.Max().Lawful() && cols > 0
    requires R.BlockRuns(SoftmaxRow(m, x, cols, row), b) && w < R.WARPS
    ensures var mx := KernelMax(m, x, cols, row);
      b.local[w] == [mx, m.Sum().Total(Exponentials(m, x, cols, row, mx, cols))]
  {
    var g := SoftmaxRow(m, x, cols, row);
    hide Monoid.Lawful, R.BlockRuns, Exponentials, KernelMax, R.PartsKept;
    R.EveryInterleaving(g, b, w);
    OneResult(g);
    TwoResults(g);
    SoftmaxKept(m, x, cols, row, g.Results(0));
    SoftmaxKept(m, x, cols, row, g.Results(1));
    R.StageTotal(g, 0);
    R.StageTotal(g, 1);
    MaxParts(m, x, cols, row);
    SumParts(m, x, cols, row, KernelMax(m, x, cols, row));
  }

  // Something in the row is at least -FLT_MAX.
  ghost predicate RowBounded<H(!new), F(!new)>(m: Math<H, F>, x: seq<H>, cols: nat, row: nat)
    requires cols > 0
  {
    KernelMax(m, x, cols, row) == RowMax(m, x, cols, row, cols)
  }

  /** The kernel's row is the reference's, masked elements of negative infinity included, unless the whole row is. */
  lemma SoftmaxMatchesCpu<H(!new), F(!new)>(m: Math<H, F>, x: seq<H>, cols: nat, row: nat, b: Block<seq<F>, F>, w: nat, i: nat)
    requires m.Sum().Lawful() && m.Max().Lawful() && cols > 0 && RowBounded(m, x, cols, row)
    requires R.BlockRuns(SoftmaxRow(m, x, cols, row), b) && w < R.WARPS
    ensures |b.local[w]| == 2
    ensures SoftmaxOf(m, x, cols, b.local[w][0], b.local[w][1], row, i) == SoftmaxCell(m, x, cols, row, i)
  {
    SoftmaxResult(m, x, cols, row, b, w);
    hide Monoid.Lawful, R.BlockRuns;
  }

  // ----- The store passes -----

  // The last pass of softmax_kernel, thread after thread: column i is stored by thread i % 256 and by no other.
  method StoreStrided<H(!new)>(y: array<H>, base: nat, n: nat, f: nat -> H)
    requires base + n <= y.Length
    modifies y
    ensures forall i | 0 <= i < n :: y[base + i] == f(i)
    ensures forall q | 0 <= q < y.Length && !(base <= q < base + n) :: y[q] == old(y[q])
  {
    for tid := 0 to THREADS
      invariant forall i | 0 <= i < n && i % THREADS < tid :: y[base + i] == f(i)
      invariant forall q | 0 <= q < y.Length && !(base <= q < base + n) :: y[q] == old(y[q])
    {
      var i := tid;
      while i < n
        invariant i % THREADS == tid
        invariant forall j | 0 <= j < n && (j % THREADS < tid || (j % THREADS == tid && j < i)) :: y[base + j] == f(j)
        invariant forall q | 0 <= q < y.Length && !(base <= q < base + n) :: y[q] == old(y[q])
      {
        y[base + i] := f(i);
        i := i + THREADS;
      }
    }
  }

  // Pair p is one of thread tid's, before its k-th.
  ghost predicate Owned(p: nat, tid: nat, k: nat) {
    p % THREADS == tid && p < k
  }

  lemma OwnedNext(tid: nat, k: nat)
    requires k % THREADS == tid
    ensures (k + THREADS) % THREADS == tid
    ensures forall p: nat :: Owned(p, tid, k + THREADS) <==> Owned(p, tid, k) || p == k
  {
  }

  // Thread tid's pairs of columns: i = tid * 2, tid * 2 + 512, ...
  method StorePairsOf<H(!new)>(y: array<H>, base: nat, pairs: nat, f: nat -> H, tid: nat)
    requires base + 2 * pairs <= y.Length && tid < THREADS
    modifies y
    ensures forall p | 0 <= p < pairs :: y[base + 2 * p] == if p % THREADS == tid then f(2 * p) else old(y[base + 2 * p])
    ensures forall p | 0 <= p < pairs :: y[base + 2 * p + 1] == if p % THREADS == tid then f(2 * p + 1) else old(y[base + 2 * p + 1])
    ensures forall q | 0 <= q < y.Length && !(base <= q < base + 2 * pairs) :: y[q] == old(y[q])
  {
    var i := tid * 2;
    ghost var k := tid;
    assert forall p: nat :: !Owned(p, tid, k);
    while i < 2 * pairs
      invariant i == 2 * k && k % THREADS == tid
      invariant forall p | 0 <= p < pairs ::
        y[base + 2 * p] == if Owned(p, tid, k) then f(2 * p) else old(y[base + 2 * p])
      invariant forall p | 0 <= p < pairs ::
        y[base + 2 * p + 1] == if Owned(p, tid, k) then f(2 * p + 1) else old(y[base + 2 * p + 1])
      invariant forall q | 0 <= q < y.Length && !(base <= q < base + 2 * pairs) :: y[q] == old(y[q])
    {
      OwnedNext(tid, k);
      hide Owned;
      y[base + i] := f(i);
      y[base + i + 1] := f(i + 1);
      i := i + 2 * THREADS;
      k := k + THREADS;
    }
  }

  // The last pass of rmsnorm_kernel: pairs of columns, and the odd last column by thread 0.
  method StorePairs<H(!new)>(y: array<H>, base: nat, n: nat, f: nat -> H)
    requires base + n <= y.Length
    modifies y
    ensures forall i | 0 <= i < n :: y[base + i] == f(i)
    ensures forall q | 0 <= q < y.Length && !(base <= q < base + n) :: y[q] == old(y[q])
  {
    var pairs := n / 2;
    for tid := 0 to THREADS
      invariant forall p | 0 <= p < pairs && p % THREADS < tid :: y[base + 2 * p] == f(2 * p) && y[base + 2 * p + 1] == f(2 * p + 1)
      invariant tid > 0 && n % 2 == 1 ==> y[base + n - 1] == f(n - 1)
      invariant forall q | 0 <= q < y.Length && !(base <= q < base + n) :: y[q] == old(y[q])
    {
      StorePairsOf(y, base, pairs, f, tid);
      if n % 2 == 1 && tid == 0 {
        y[base + n - 1] := f(n - 1);
      }
    }
    forall i | 0 <= i < n
      ensures y[base + i] == f(i)
    {
      assert i < 2 * pairs ==> i == 2 * (i / 2) + i % 2;
    }
  }

  // ----- Whole launches -----

  // The warp of the thread that stores column i.
  function WarpOfColumn(i: nat): (w: nat)
    ensures w < R.WARPS
  {
    i % THREADS / R.LANES
  }

  // What that thread stores, from the registers its warp ended with.
  function SoftmaxStore<H(!new), F(!new)>(m: Math<H, F>, x: seq<H>, cols: nat, row: nat, b: Block<seq<F>, F>): nat -> H {
    (i: nat) =>
      if |b.local| == R.WARPS && |b.local[WarpOfColumn(i)]| == 2 then
        SoftmaxOf(m, x, cols, b.local[WarpOfColumn(i)][0], b.local[WarpOfColumn(i)][1], row, i)
      else m.num.ZeroH()
  }

  // Rows that are done hold f; the others are as before.
  ghost predicate RowsHold<H>(y: seq<H>, before: seq<H>, rows: nat, cols: nat, done: seq<nat>, f: (nat, nat) -> H) {
    && |y| == |before| == rows * cols
    && forall r, i | 0 <= r < rows && 0 <= i < cols ::
         T.CellAt(y, rows, cols, r, i) == if r in done then f(r, i) else T.CellAt(before, rows, cols, r, i)
  }

  // Storing row r, and nothing else, adds it to the rows that are done.
  lemma RowDone<H>(z: seq<H>, y: seq<H>, before: seq<H>, rows: nat, cols: nat, done: seq<nat>, r: nat, f: (nat, nat) -> H)
    requires RowsHold(y, before, rows, cols, done, f) && r < rows && |z| == |y|
    requires forall i | 0 <= i < cols :: Index(cols, i, r) < |z| && z[Index(cols, i, r)] == f(r, i)
    requires forall q | 0 <= q < |z| && !(Index(cols, 0, r) <= q < Index(cols, 0, r) + cols) :: z[q] == y[q]
    ensures RowsHold(z, before, rows, cols, done + [r], f)
  {
    forall s, i | 0 <= s < rows && 0 <= i < cols
      ensures T.CellAt(z, rows, cols, s, i) == if s in done + [r] then f(s, i) else T.CellAt(before, rows, cols, s, i)
    {
      IndexInverse(cols, rows, i, s);
      if s != r {
        OtherRow(cols, s, i, r);
      }
    }
  }

  lemma OtherRow(cols: nat, s: nat, i: nat, r: nat)
    requires i < cols && s != r
    ensures !(Index(cols, 0, r) <= Index(cols, i, s) < Index(cols, 0, r) + cols)
  {
    if s < r {
      MulMonotone(s + 1, r, cols);
    } else {
      MulMonotone(r + 1, s, cols);
    }
  }

  lemma RowFits(rows: nat, cols: nat, r: nat)
    requires r < rows
    ensures Index(cols, 0, r) + cols <= rows * cols
    ensures forall i | 0 <= i < cols :: Index(cols, i, r) == Index(cols, 0, r) + i < rows * cols
  {
    MulMonotone(r + 1, rows, cols);
  }

  /** A whole softmax launch: whatever order the rows' blocks come in and however each one interleaves, the output is the reference's. */
  method LaunchSoftmax<H(!new), F(!new)>(m: Math<H, F>, x: seq<H>, y: array<H>, rows: nat, cols: nat, order: seq<nat>, blocks: seq<Block<seq<F>, F>>)
    requires m.Sum().Lawful() && m.Max().Lawful() && cols > 0 && y.Length == rows * cols && |blocks| == rows
    requires forall r | 0 <= r < rows :: RowBounded(m, x, cols, r)
    requires forall r: nat :: r in order <==> r < rows
    requires forall r | 0 <= r < rows :: R.BlockRuns(SoftmaxRow(m, x, cols, r), blocks[r])
    modifies y
    ensures IsSoftmax(m, x, rows, cols, y[..])
  {
    hide Monoid.Lawful, R.BlockRuns, SoftmaxRow, SoftmaxCell, SoftmaxStore, T.CellAt, Index;
    ghost var f := (r: nat, i: nat) => SoftmaxCell(m, x, cols, r, i);
    ghost var before := y[..];
    for p := 0 to |order|
      invariant RowsHold(y[..], before, rows, cols, order[..p], f)
    {
      var r := order[p];
      assert r in order;
      RowFits(rows, cols, r);
      ghost var was := y[..];
      StoreStrided(y, Index(cols, 0, r), cols, SoftmaxStore(m, x, cols, r, blocks[r]));
      forall i | 0 <= i < cols
        ensures y[..][Index(cols, i, r)] == f(r, i)
      {
        SoftmaxStored(m, x, cols, r, blocks[r], i);
      }
      RowDone(y[..], was, before, rows, cols, order[..p], r, f);
      assert order[..p + 1] == order[..p] + [r];
    }
    assert order[..|order|] == order;
  }

  lemma SoftmaxStored<H(!new), F(!new)>(m: Math<H, F>, x: seq<H>, cols: nat, row: nat, b: Block<seq<F>, F>, i: nat)
    requires m.Sum().Lawful() && m.Max().Lawful() && cols > 0 && RowBounded(m, x, cols, row) && R.BlockRuns(SoftmaxRow(m, x, cols, row), b)
    ensures SoftmaxStore(m, x, cols, row, b)(i) == SoftmaxCell(m, x, cols, row, i)
  {
    SoftmaxMatchesCpu(m, x, cols, row, b, WarpOfColumn(i), i);
    hide Monoid.Lawful, SoftmaxCell, SoftmaxOf;
  }

  // The kernel's rmsnorm of an element: the quotient by the rms of the row's whole sum of squares, weighted and rounded.
  function RmsnormGpu<H(!new), F(!new)>(m: Math<H, F>, x: seq<H>, weight: Option<seq<H>>, cols: nat, epsilon: F, row: nat, i: nat): H {
    Normed(m, Peek(m.num, x, cols, row, i), RmsGpu(m, cols, epsilon, m.Sum().Total(Squares(m, x, cols, row, cols))), weight, i)
  }

  function RmsnormStore<H(!new), F(!new)>(m: Math<H, F>, x: seq<H>, weight: Option<seq<H>>, cols: nat, row: nat, b: Block<seq<F>, F>): nat -> H {
    (i: nat) =>
      if |b.local| == R.WARPS && |b.local[WarpOfPair(i)]| == 1 then
        Normed(m, Peek(m.num, x, cols, row, i), b.local[WarpOfPair(i)][0], weight, i)
      else m.num.ZeroH()
  }

  // The warp of the thread that stores the pair with column i.
  function WarpOfPair(i: nat): (w: nat)
    ensures w < R.WARPS
  {
    i / 2 % THREADS / R.LANES
  }

  lemma RmsnormStored<H(!new), F(!new)>(m: Math<H, F>, x: seq<H>, weight: Option<seq<H>>, cols: nat, epsilon: F, row: nat,
      b: Block<seq<F>, F>, i: nat)
    requires m.Sum().Lawful() && R.BlockRuns(RmsnormRow(m, x, cols, row, epsilon), b)
    ensures RmsnormStore(m, x, weight, cols, row, b)(i) == RmsnormGpu(m, x, weight, cols, epsilon, row, i)
  {
    RmsnormResult(m, x, cols, row, epsilon, b, WarpOfPair(i));
    hide Monoid.Lawful, Normed, RmsGpu, Squares;
  }

  /** A whole rmsnorm launch: every cell is the element over the rms of its row's whole sum of squares, and where dividing by the row length
      is multiplying by its reciprocal the output is the reference's. */
  method LaunchRmsnorm<H(!new), F(!new)>(m: Math<H, F>, x: seq<H>, weight: Option<seq<H>>, y: array<H>, rows: nat, cols: nat, epsilon: F,
      order: seq<nat>, blocks: seq<Block<seq<F>, F>>)
    requires m.Sum().Lawful() && y.Length == rows * cols && |blocks| == rows
    requires forall r: nat :: r in order <==> r < rows
    requires forall r | 0 <= r < rows :: R.BlockRuns(RmsnormRow(m, x, cols, r, epsilon), blocks[r])
    modifies y
    ensures forall r, i | 0 <= r < rows && 0 <= i < cols :: T.CellAt(y[..], rows, cols, r, i) == RmsnormGpu(m, x, weight, cols, epsilon, r, i)
    ensures DividesByReciprocal(m, cols) ==> IsRmsnorm(m, x, weight, rows, cols, epsilon, y[..])
  {
    hide Monoid.Lawful, R.BlockRuns, RmsnormRow, RmsnormGpu, RmsnormStore, T.CellAt, Index, DividesByReciprocal, RmsnormCell;
    ghost var f := (r: nat, i: nat) => RmsnormGpu(m, x, weight, cols, epsilon, r, i);
    ghost var before := y[..];
    for p := 0 to |order|
      invariant RowsHold(y[..], before, rows, cols, order[..p], f)
    {
      var r := order[p];
      assert r in order;
      RowFits(rows, cols, r);
      ghost var was := y[..];
      StorePairs(y, Index(cols, 0, r), cols, RmsnormStore(m, x, weight, cols, r, blocks[r]));
      forall i | 0 <= i < cols
        ensures y[..][Index(cols, i, r)] == f(r, i)
      {
        RmsnormStored(m, x, weight, cols, epsilon, r, blocks[r], i);
      }
      RowDone(y[..], was, before, rows, cols, order[..p], r, f);
      assert order[..p + 1] == order[..p] + [r];
    }
    assert order[..|order|] == order;
    if DividesByReciprocal(m, cols) {
      forall r, i | 0 <= r < rows && 0 <= i < cols
        ensures RmsnormGpu(m, x, weight, cols, epsilon, r, i) == RmsnormCell(m, x, weight, cols, epsilon, r, i)
      {
        GpuIsCpu(m, x, weight, cols, epsilon, r, i);
      }
    }
  }

  lemma GpuIsCpu<H(!new), F(!new)>(m: Math<H, F>, x: seq<H>, weight: Option<seq<H>>, cols: nat, epsilon: F, row: nat, i: nat)
    requires DividesByReciprocal(m, cols)
    ensures RmsnormGpu(m, x, weight, cols, epsilon, row, i) == RmsnormCell(m, x, weight, cols, epsilon, row, i)
  {
    ReciprocalAgrees(m, cols, epsilon, m.Sum().Total(Squares(m, x, cols, row, cols)));
    hide Normed, Squares;
  }
}
