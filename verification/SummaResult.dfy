/** What a SUMMA run computes: the delivered panels, and the fold every output cell ends up holding. */
module SummaResults {
  import opened Wavelets
  import opened Mesh
  import opened Routers
  import opened SummaPlans
  import opened SummaModels
  import opened SummaSteps

  // ----- Delivered panels -----

  // A value as it sits in a PE's buffer after travelling as a half.
  function Carry<F(!new)>(ar: Arith<F>, v: F): F {
    ar.fromHalf(ar.toHalf(v))
  }

  lemma WavesSnoc<F(!new)>(job: Job<F>, s: nat, z: nat, r: nat)
    requires job.Valid() && s < job.plan.steps && z < job.plan.gridP && r < job.S()
    ensures job.AWaves(s, z, 0, r + 1) == job.AWaves(s, z, 0, r) + [job.AWave(s, z, r)]
    ensures job.BWaves(s, z, 0, r + 1) == job.BWaves(s, z, 0, r) + [job.BWave(s, z, r)]
  {
    hide Job.AWave, Job.BWave;
  }

  lemma StoreOne<F(!new)>(ar: Arith<F>, buf: seq<F>, w: Wavelet)
    ensures StoreAll(ar, buf, [w]) == Store(ar, buf, w)
  {
    assert [w][1..] == [];
    StoreNone(ar, Store(ar, buf, w));
  }

  lemma BufNext<F(!new)>(job: Job<F>, s: nat, z: nat, r: nat)
    requires job.Valid() && s < job.plan.steps && z < job.plan.gridP && r < job.S()
    ensures job.BufA(s, z, r + 1) == Store(job.ar, job.BufA(s, z, r), job.AWave(s, z, r))
    ensures job.BufB(s, z, r + 1) == Store(job.ar, job.BufB(s, z, r), job.BWave(s, z, r))
  {
    WavesSnoc(job, s, z, r);
    var zeros := Zeros(job.ar, job.S());
    hide Store, StoreAll, Job.Valid, Job.AWaves, Job.BWaves, Job.AWave, Job.BWave, Zeros;
    StoreAllConcat(job.ar, zeros, job.AWaves(s, z, 0, r), [job.AWave(s, z, r)]);
    StoreAllConcat(job.ar, zeros, job.BWaves(s, z, 0, r), [job.BWave(s, z, r)]);
    StoreOne(job.ar, job.BufA(s, z, r), job.AWave(s, z, r));
    StoreOne(job.ar, job.BufB(s, z, r), job.BWave(s, z, r));
  }

  // With 16-bit indices that never wrap, the r elements received so far are exactly the first r of each panel.
  lemma {:induction false} BufHolds<F(!new)>(job: Job<F>, s: nat, z: nat, r: nat, t: nat)
    requires job.Valid() && s < job.plan.steps && z < job.plan.gridP && r <= job.S() && t < job.S() && job.S() <= 0x1_0000
    ensures job.BufA(s, z, r)[t] == if t < r then Carry(job.ar, job.AElem(s, z, t)) else job.ar.zero
    ensures job.BufB(s, z, r)[t] == if t < r then Carry(job.ar, job.BElem(s, z, t)) else job.ar.zero
    decreases r
  {
    if r == 0 {
      assert job.AWaves(s, z, 0, 0) == [] && job.BWaves(s, z, 0, 0) == [];
      StoreNone(job.ar, Zeros(job.ar, job.S()));
    } else {
      BufHolds(job, s, z, r - 1, t);
      hide Job.BufA, Job.BufB, Job.Valid, Job.AElem, Job.BElem;
      BufNext(job, s, z, r - 1);
    }
  }

  // A cell whose index does not fit in 16 bits is never written.
  lemma {:induction false} BeyondIndexUntouched<F(!new)>(job: Job<F>, s: nat, z: nat, r: nat, t: nat)
    requires job.Valid() && s < job.plan.steps && z < job.plan.gridP && r <= job.S() && 0x1_0000 <= t < job.S()
    ensures job.BufA(s, z, r)[t] == job.ar.zero
    decreases r
  {
    if r == 0 {
      assert job.AWaves(s, z, 0, 0) == [];
      StoreNone(job.ar, Zeros(job.ar, job.S()));
    } else {
      BeyondIndexUntouched(job, s, z, r - 1, t);
      hide Job.BufA, Job.BufB, Job.Valid, Job.AElem, Job.BElem;
      BufNext(job, s, z, r - 1);
    }
  }

  // Every panel of every step arrives complete and in place.
  ghost predicate PanelsDelivered<F(!new)>(job: Job<F>)
    requires job.Valid()
  {
    forall s: nat, z: nat, t: nat | s < job.plan.steps && z < job.plan.gridP && t < job.S() ::
      && job.BufA(s, z, job.S())[t] == Carry(job.ar, job.AElem(s, z, t))
      && job.BufB(s, z, job.S())[t] == Carry(job.ar, job.BElem(s, z, t))
  }

  lemma FittingDelivers<F(!new)>(job: Job<F>)
    requires job.Valid() && job.S() <= 0x1_0000
    ensures PanelsDelivered(job)
  {
    forall s: nat, z: nat, t: nat | s < job.plan.steps && z < job.plan.gridP && t < job.S()
      ensures job.BufA(s, z, job.S())[t] == Carry(job.ar, job.AElem(s, z, t))
      ensures job.BufB(s, z, job.S())[t] == Carry(job.ar, job.BElem(s, z, t))
    {
      hide Job.BufA, Job.BufB, Carry, Job.AElem, Job.BElem, Job.Valid;
      BufHolds(job, s, z, job.S(), t);
    }
  }

  ghost function Constant<F(!new)>(plan: SummaPlan, ar: Arith<F>, v: F): (job: Job<F>)
    requires plan.WellFormed()
    ensures job.plan == plan && job.ar == ar && job.Valid()
  {
    Job(plan, ar, seq(plan.m * plan.k, _ => v), seq(plan.k * plan.n, _ => v))
  }

  lemma ConstantElem<F(!new)>(plan: SummaPlan, ar: Arith<F>, v: F, t: nat)
    requires plan.WellFormed() && t < plan.PanelSize()
    ensures Constant(plan, ar, v).AElem(0, 0, t) == v
  {
    var job := Constant(plan, ar, v);
    var row, col := t / plan.tileK, t % plan.tileK;
    CoordsInBounds(plan.tileK, plan.tileM, t);
    IndexInverse(plan.tileM, plan.gridP, row, 0);
    IndexInverse(plan.tileK, plan.steps, col, 0);
    IndexInverse(plan.k, plan.m, Index(plan.tileK, col, 0), Index(plan.tileM, row, 0));
  }

  lemma OverflowLoses<F(!new)>(plan: SummaPlan, ar: Arith<F>, v: F)
    requires plan.WellFormed() && plan.PanelSize() > 0x1_0000 && Carry(ar, v) != ar.zero
    ensures !PanelsDelivered(Constant(plan, ar, v))
  {
    var job := Constant(plan, ar, v);
    assert plan.steps > 0 && plan.gridP > 0;
    ConstantElem(plan, ar, v, 0x1_0000);
    BeyondIndexUntouched(job, 0, 0, job.S(), 0x1_0000);
    hide Job.BufA, Job.BufB, Job.AElem, Job.BElem, Carry, Job.Valid, SummaPlan.WellFormed, Constant;
    assert job.BufA(0, 0, job.S())[0x1_0000] != Carry(job.ar, job.AElem(0, 0, 0x1_0000));
  }

  /** A plan delivers its panels whatever the operands are exactly when a panel index fits in 16 bits. */
  lemma DeliveredIffIndexFits<F(!new)>(plan: SummaPlan, ar: Arith<F>, v: F)
    requires plan.WellFormed() && Carry(ar, v) != ar.zero
    ensures plan.PanelSize() <= 0x1_0000 <==>
      forall job: Job<F> | job.plan == plan && job.ar == ar && job.Valid() :: PanelsDelivered(job)
  {
    hide PanelsDelivered, Constant, Carry, SummaPlan.WellFormed;
    if plan.PanelSize() <= 0x1_0000 {
      forall job: Job<F> | job.plan == plan && job.ar == ar && job.Valid()
        ensures PanelsDelivered(job)
      {
        FittingDelivers(job);
      }
    } else {
      OverflowLoses(plan, ar, v);
    }
  }

  // ----- The reference -----

  // Row r of A times column c of B over the first kk terms: one FMA lane, left to right, on half-converted inputs.
  function DotHalf<F(!new)>(ar: Arith<F>, a: seq<F>, b: seq<F>, m: nat, k: nat, n: nat, r: nat, c: nat, kk: nat): U16
    requires |a| == m * k && |b| == k * n && r < m && c < n && kk <= k
    decreases kk
  {
    if kk == 0 then ar.toHalf(ar.zero)
    else ar.Fma(ar.toHalf(Elem(a, m, k, r, kk - 1)), ar.toHalf(Elem(b, k, n, kk - 1, c)), DotHalf(ar, a, b, m, k, n, r, c, kk - 1))
  }

  lemma DotIsHalf<F(!new)>(ar: Arith<F>, a: seq<F>, b: seq<F>, m: nat, k: nat, n: nat, r: nat, c: nat, kk: nat)
    requires |a| == m * k && |b| == k * n && r < m && c < n && kk <= k && ar.Lawful()
    ensures ar.toHalf(ar.fromHalf(DotHalf(ar, a, b, m, k, n, r, c, kk))) == DotHalf(ar, a, b, m, k, n, r, c, kk)
  {
  }

  // Cell (r, c) of PE i's tile sits at this row and column of the whole result.
  lemma PanelElems<F(!new)>(job: Job<F>, s: nat, i: nat, r: nat, c: nat, kk: nat)
    requires job.Valid() && s < job.plan.steps && job.IsPe(i) && r < job.plan.tileM && c < job.plan.tileM && kk < job.plan.tileK
    ensures var p := job.plan;
      && Index(p.tileK, kk, r) < job.S() && Index(p.tileM, c, kk) < job.S()
      && Index(p.tileM, r, job.Y(i)) < p.m && Index(p.tileM, c, job.X(i)) < p.n && Index(p.tileK, kk, s) < p.k
      && job.AElem(s, job.Y(i), Index(p.tileK, kk, r)) == Elem(job.a, p.m, p.k, Index(p.tileM, r, job.Y(i)), Index(p.tileK, kk, s))
      && job.BElem(s, job.X(i), Index(p.tileM, c, kk)) == Elem(job.b, p.k, p.n, Index(p.tileK, kk, s), Index(p.tileM, c, job.X(i)))
  {
    var p := job.plan;
    IndexInverse(p.tileK, p.tileM, kk, r);
    IndexInverse(p.tileM, p.tileK, c, kk);
    IndexInverse(p.tileM, p.gridP, r, job.Y(i));
    IndexInverse(p.tileM, p.gridP, c, job.X(i));
    IndexInverse(p.tileK, p.steps, kk, s);
    hide Elem, Job.X, Job.Y;
  }

  // Position of cell (r, c) of PE i's tile in the whole result.
  ghost function Row<F(!new)>(job: Job<F>, i: nat, r: nat): nat
    requires job.plan.gridP > 0
  {
    Index(job.plan.tileM, r, job.Y(i))
  }

  ghost function Col<F(!new)>(job: Job<F>, i: nat, c: nat): nat
    requires job.plan.gridP > 0
  {
    Index(job.plan.tileM, c, job.X(i))
  }

  ghost predicate IsCell<F(!new)>(job: Job<F>, i: nat, r: nat, c: nat)
    requires job.Valid()
  {
    job.IsPe(i) && r < job.plan.tileM && c < job.plan.tileM && Row(job, i, r) < job.plan.m && Col(job, i, c) < job.plan.n
  }

  // The first kk terms of the dot product behind that cell.
  ghost function CellDot<F(!new)>(job: Job<F>, i: nat, r: nat, c: nat, kk: nat): U16
    requires job.Valid() && IsCell(job, i, r, c) && kk <= job.plan.k
  {
    DotHalf(job.ar, job.a, job.b, job.plan.m, job.plan.k, job.plan.n, Row(job, i, r), Col(job, i, c), kk)
  }

  // Terms of the dot product the first s slabs hold.
  ghost function Terms(p: SummaPlan, s: nat): nat {
    s * p.tileK
  }

  lemma SlabFits<F(!new)>(job: Job<F>, s: nat, kk: nat)
    requires job.Valid() && s < job.plan.steps && kk <= job.plan.tileK
    ensures Terms(job.plan, s) + kk <= job.plan.k
    ensures Terms(job.plan, s + 1) == Terms(job.plan, s) + job.plan.tileK
    ensures Terms(job.plan, 0) == 0
  {
    MulMonotone(s + 1, job.plan.steps, job.plan.tileK);
  }

  // Operands of cell (r, c) at position kk of the slab: as delivered, and as stored in the inputs.
  ghost function LaneOperands<F(!new)>(job: Job<F>, s: nat, i: nat, r: nat, c: nat, kk: nat): (F, F)
    requires job.Valid() && s < job.plan.steps && IsCell(job, i, r, c) && kk < job.plan.tileK
  {
    assert job.S() == job.plan.tileM * job.plan.tileK == job.plan.tileK * job.plan.tileM;
    (Elem(job.BufA(s, job.Y(i), job.S()), job.plan.tileM, job.plan.tileK, r, kk),
     Elem(job.BufB(s, job.X(i), job.S()), job.plan.tileK, job.plan.tileM, kk, c))
  }

  ghost function InputOperands<F(!new)>(job: Job<F>, i: nat, r: nat, c: nat, g: nat): (F, F)
    requires job.Valid() && IsCell(job, i, r, c) && g < job.plan.k
  {
    (Elem(job.a, job.plan.m, job.plan.k, Row(job, i, r), g), Elem(job.b, job.plan.k, job.plan.n, g, Col(job, i, c)))
  }

  lemma OperandsDelivered<F(!new)>(job: Job<F>, s: nat, i: nat, r: nat, c: nat, kk: nat)
    requires job.Valid() && s < job.plan.steps && IsCell(job, i, r, c) && kk < job.plan.tileK && job.S() <= 0x1_0000
    ensures Terms(job.plan, s) + kk < job.plan.k
    ensures var ops := InputOperands(job, i, r, c, Terms(job.plan, s) + kk);
      LaneOperands(job, s, i, r, c, kk) == (Carry(job.ar, ops.0), Carry(job.ar, ops.1))
  {
    var p := job.plan;
    assert p.WellFormed() && job.Y(i) < p.gridP && job.X(i) < p.gridP && |job.a| == p.m * p.k && |job.b| == p.k * p.n;
    assert Index(p.tileK, kk, s) == Terms(p, s) + kk;
    assert job.S() == p.tileM * p.tileK == p.tileK * p.tileM;
    hide Job.BufA, Job.BufB, Job.AElem, Job.BElem, Carry, Job.Valid, SummaPlan.WellFormed, Job.X, Job.Y, Terms, Job.S;
    SlabFits(job, s, kk + 1);
    PanelElems(job, s, i, r, c, kk);
    var ta, tb := Index(p.tileK, kk, r), Index(p.tileM, c, kk);
    BufHolds(job, s, job.Y(i), job.S(), ta);
    BufHolds(job, s, job.X(i), job.S(), tb);
  }

  lemma DotNext<F(!new)>(job: Job<F>, i: nat, r: nat, c: nat, g: nat)
    requires job.Valid() && IsCell(job, i, r, c) && g < job.plan.k
    ensures var ops := InputOperands(job, i, r, c, g);
      CellDot(job, i, r, c, g + 1) == job.ar.Fma(job.ar.toHalf(ops.0), job.ar.toHalf(ops.1), CellDot(job, i, r, c, g))
  {
    hide Elem, Row, Col, Job.Valid, Arith.Fma;
  }

  // The cell's lane after kk terms of the slab, starting from what it held.
  ghost function CellLane<F(!new)>(job: Job<F>, s: nat, i: nat, r: nat, c: nat, kk: nat, acc: U16): U16
    requires job.Valid() && s < job.plan.steps && IsCell(job, i, r, c) && kk <= job.plan.tileK
  {
    assert job.S() == job.plan.tileM * job.plan.tileK == job.plan.tileK * job.plan.tileM;
    LaneFold(job.ar, job.BufA(s, job.Y(i), job.S()), job.BufB(s, job.X(i), job.S()), job.plan.tileM, job.plan.tileK, r, c, kk, acc)
  }

  lemma LaneNext<F(!new)>(job: Job<F>, s: nat, i: nat, r: nat, c: nat, kk: nat, acc: U16)
    requires job.Valid() && s < job.plan.steps && IsCell(job, i, r, c) && kk < job.plan.tileK
    ensures var ops := LaneOperands(job, s, i, r, c, kk);
      CellLane(job, s, i, r, c, kk + 1, acc) ==
      job.ar.Fma(job.ar.toHalf(ops.0), job.ar.toHalf(ops.1), CellLane(job, s, i, r, c, kk, acc))
  {
    hide Elem, Job.BufA, Job.BufB, Arith.Fma;
  }

  // Accumulating a panel continues the dot product.
  lemma {:induction false} LaneContinues<F(!new)>(job: Job<F>, s: nat, i: nat, r: nat, c: nat, kk: nat)
    requires job.Valid() && s < job.plan.steps && IsCell(job, i, r, c) && kk <= job.plan.tileK
    requires job.ar.Lawful() && job.S() <= 0x1_0000
    ensures Terms(job.plan, s) + kk <= job.plan.k
    ensures CellLane(job, s, i, r, c, kk, CellDot(job, i, r, c, Terms(job.plan, s))) == CellDot(job, i, r, c, Terms(job.plan, s) + kk)
    decreases kk
  {
    SlabFits(job, s, kk);
    if kk > 0 {
      LaneContinues(job, s, i, r, c, kk - 1);
      OperandsDelivered(job, s, i, r, c, kk - 1);
      hide Job.Valid, CellLane, CellDot, LaneOperands, InputOperands, SummaPlan.WellFormed, IsCell, Terms;
      LaneNext(job, s, i, r, c, kk - 1, CellDot(job, i, r, c, Terms(job.plan, s)));
      DotNext(job, i, r, c, Terms(job.plan, s) + kk - 1);
    }
  }

  // A cell of PE i's tile after s steps.
  ghost function TileCell<F(!new)>(job: Job<F>, s: nat, i: nat, r: nat, c: nat): F
    requires job.Valid() && s <= job.plan.steps && IsCell(job, i, r, c)
  {
    Elem(job.CTile(s, i), job.plan.tileM, job.plan.tileM, r, c)
  }

  lemma TileCellNext<F(!new)>(job: Job<F>, s: nat, i: nat, r: nat, c: nat)
    requires job.Valid() && s < job.plan.steps && IsCell(job, i, r, c)
    ensures TileCell(job, s + 1, i, r, c) ==
      job.ar.fromHalf(CellLane(job, s, i, r, c, job.plan.tileK, job.ar.toHalf(TileCell(job, s, i, r, c))))
  {
    var T := job.plan.tileM;
    IndexInverse(T, T, c, r);
    hide LaneFold, Job.BufA, Job.BufB;
  }

  /** After s steps every output cell holds the dot product over the first s slabs of K, whichever PE computed it. */
  lemma {:induction false} TileHolds<F(!new)>(job: Job<F>, s: nat, i: nat, r: nat, c: nat)
    requires job.Valid() && s <= job.plan.steps && IsCell(job, i, r, c)
    requires job.ar.Lawful() && job.S() <= 0x1_0000
    ensures Terms(job.plan, s) <= job.plan.k
    ensures TileCell(job, s, i, r, c) ==
      if s == 0 then job.ar.zero else job.ar.fromHalf(CellDot(job, i, r, c, Terms(job.plan, s)))
    decreases s
  {
    hide Job.Valid, CellLane, CellDot, TileCell, SummaPlan.WellFormed, IsCell, Arith.Lawful, Terms, Job.S;
    if s == 0 {
      TileStarts(job, i, r, c);
    } else {
      TileHolds(job, s - 1, i, r, c);
      TileStarts(job, i, r, c);
      SlabFits(job, s - 1, job.plan.tileK);
      CellDotIsHalf(job, i, r, c, Terms(job.plan, s - 1));
      assert job.ar.toHalf(TileCell(job, s - 1, i, r, c)) == CellDot(job, i, r, c, Terms(job.plan, s - 1));
      LaneContinues(job, s - 1, i, r, c, job.plan.tileK);
      TileCellNext(job, s - 1, i, r, c);
    }
  }

  lemma TileStarts<F(!new)>(job: Job<F>, i: nat, r: nat, c: nat)
    requires job.Valid() && IsCell(job, i, r, c)
    ensures Terms(job.plan, 0) == 0 && TileCell(job, 0, i, r, c) == job.ar.zero
  {
    IndexInverse(job.plan.tileM, job.plan.tileM, c, r);
    hide Job.Valid;
  }

  lemma CellDotIsHalf<F(!new)>(job: Job<F>, i: nat, r: nat, c: nat, kk: nat)
    requires job.Valid() && IsCell(job, i, r, c) && kk <= job.plan.k && job.ar.Lawful()
    ensures job.ar.toHalf(job.ar.fromHalf(CellDot(job, i, r, c, kk))) == CellDot(job, i, r, c, kk)
    ensures kk == 0 ==> CellDot(job, i, r, c, kk) == job.ar.toHalf(job.ar.zero)
  {
    hide Row, Col;
    DotIsHalf(job.ar, job.a, job.b, job.plan.m, job.plan.k, job.plan.n, Row(job, i, r), Col(job, i, c), kk);
  }
}
