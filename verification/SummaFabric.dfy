/** One fabric cycle of a SUMMA step on values: the flush, the seeds, the hop. */
module SummaFabrics {
  import opened Wavelets
  import opened Mesh
  import opened Routers
  import opened Grids
  import opened FabricHops
  import opened FabricTheorems
  import opened SummaPlans
  import opened SummaModels
  import opened SummaSteps

  // ----- Flushing an outbox -----

  // Inject the outbox in order until a channel is full: the router afterwards, and how many went out.
  ghost function Flushed(r: RouterState, box: seq<Retx>): (res: (RouterState, nat))
    requires r.Shaped()
    ensures res.0.Shaped() && res.1 <= |box|
    ensures r.Valid() ==> res.0.Valid()
    decreases |box|
  {
    if box == [] || !r.TxAccepts(box[0].color, {box[0].dir}) then (r, 0)
    else
      var (t, k) := Flushed(r.TxSpec(box[0].color, {box[0].dir}, box[0].w), box[1..]);
      (t, k + 1)
  }

  // A router of step s with wavelets waiting to go east, south, and to its own ramp on either data color.
  ghost function Sending<F(!new)>(job: Job<F>, s: nat, base: RouterState, ea: Queue, sb: Queue, ra: Queue, rb: Queue): (r: RouterState)
    ensures r.inVc == base.inVc && r.config == base.config
    ensures base.Shaped() ==> r.Shaped()
    ensures base.Valid() && |ea| <= 4 && |sb| <= 4 && |ra| <= 4 && |rb| <= 4 ==> r.Valid()
  {
    var a, b := job.plan.AColor(s), job.plan.BColor(s);
    base.(outVc := seq(NUM_DIRS, d requires 0 <= d < NUM_DIRS =>
      seq(NUM_ROUTABLE, c requires 0 <= c < NUM_ROUTABLE => Waiting(d, c, a, b, ea, sb, ra, rb))))
  }

  ghost function Waiting(d: Dir, c: Color, a: Color, b: Color, ea: Queue, sb: Queue, ra: Queue, rb: Queue): (q: Queue)
    ensures q in [ea, sb, ra, rb, []]
  {
    if d == EAST && c == a then ea
    else if d == SOUTH && c == b then sb
    else if d == RAMP && c == a then ra
    else if d == RAMP && c == b then rb
    else []
  }

  lemma SameOutputs(r: RouterState, t: RouterState)
    requires r.Shaped() && t.Shaped() && r.inVc == t.inVc && r.config == t.config
    requires forall d: Dir, c: Color | Routable(c) :: r.outVc[d][c] == t.outVc[d][c]
    ensures r == t
  {
    forall d: Dir
      ensures r.outVc[d] == t.outVc[d]
    {
      assert forall c: Color | Routable(c) :: r.outVc[d][c] == t.outVc[d][c];
    }
    assert r.outVc == t.outVc;
  }

  lemma SendEast<F(!new)>(job: Job<F>, s: nat, base: RouterState, ea: Queue, sb: Queue, ra: Queue, rb: Queue, w: Wavelet)
    requires job.plan.WellFormed() && base.Valid() && |ea| < 4
    ensures var r := Sending(job, s, base, ea, sb, ra, rb);
      r.TxAccepts(job.plan.AColor(s), {EAST}) &&
      r.TxSpec(job.plan.AColor(s), {EAST}, w) == Sending(job, s, base, ea + [w], sb, ra, rb)
  {
    StepColorsDistinct(job.plan, s);
    hide SummaPlan.WellFormed, SummaPlan.AColor, SummaPlan.BColor;
    var r := Sending(job, s, base, ea, sb, ra, rb);
    SameOutputs(r.TxSpec(job.plan.AColor(s), {EAST}, w), Sending(job, s, base, ea + [w], sb, ra, rb));
  }

  lemma SendSouth<F(!new)>(job: Job<F>, s: nat, base: RouterState, ea: Queue, sb: Queue, ra: Queue, rb: Queue, w: Wavelet)
    requires job.plan.WellFormed() && base.Valid() && |sb| < 4
    ensures var r := Sending(job, s, base, ea, sb, ra, rb);
      r.TxAccepts(job.plan.BColor(s), {SOUTH}) &&
      r.TxSpec(job.plan.BColor(s), {SOUTH}, w) == Sending(job, s, base, ea, sb + [w], ra, rb)
  {
    StepColorsDistinct(job.plan, s);
    hide SummaPlan.WellFormed, SummaPlan.AColor, SummaPlan.BColor;
    var r := Sending(job, s, base, ea, sb, ra, rb);
    SameOutputs(r.TxSpec(job.plan.BColor(s), {SOUTH}, w), Sending(job, s, base, ea, sb + [w], ra, rb));
  }

  // A seed is accepted on the ramp exactly when fewer than four wait there.
  lemma SeedA<F(!new)>(job: Job<F>, s: nat, base: RouterState, ea: Queue, sb: Queue, ra: Queue, rb: Queue, w: Wavelet)
    requires job.plan.WellFormed() && base.Valid()
    ensures var r := Sending(job, s, base, ea, sb, ra, rb);
      (r.TxAccepts(job.plan.AColor(s), {RAMP}) <==> |ra| < 4) &&
      r.TxSpec(job.plan.AColor(s), {RAMP}, w) == Sending(job, s, base, ea, sb, if |ra| < 4 then ra + [w] else ra, rb)
  {
    StepColorsDistinct(job.plan, s);
    hide SummaPlan.WellFormed, SummaPlan.AColor, SummaPlan.BColor;
    var r := Sending(job, s, base, ea, sb, ra, rb);
    if |ra| < 4 {
      SameOutputs(r.TxSpec(job.plan.AColor(s), {RAMP}, w), Sending(job, s, base, ea, sb, ra + [w], rb));
    }
  }

  lemma SeedB<F(!new)>(job: Job<F>, s: nat, base: RouterState, ea: Queue, sb: Queue, ra: Queue, rb: Queue, w: Wavelet)
    requires job.plan.WellFormed() && base.Valid()
    ensures var r := Sending(job, s, base, ea, sb, ra, rb);
      (r.TxAccepts(job.plan.BColor(s), {RAMP}) <==> |rb| < 4) &&
      r.TxSpec(job.plan.BColor(s), {RAMP}, w) == Sending(job, s, base, ea, sb, ra, if |rb| < 4 then rb + [w] else rb)
  {
    StepColorsDistinct(job.plan, s);
    hide SummaPlan.WellFormed, SummaPlan.AColor, SummaPlan.BColor;
    var r := Sending(job, s, base, ea, sb, ra, rb);
    if |rb| < 4 {
      SameOutputs(r.TxSpec(job.plan.BColor(s), {RAMP}, w), Sending(job, s, base, ea, sb, ra, rb + [w]));
    }
  }

  ghost function Retxs(c: Color, d: Dir, q: Queue): (r: seq<Retx>)
    ensures |r| == |q|
  {
    seq(|q|, k requires 0 <= k < |q| => Retx(c, d, q[k]))
  }

  lemma {:induction false} FlushEast<F(!new)>(job: Job<F>, s: nat, base: RouterState, ea: Queue, sb: Queue, q: Queue, rest: seq<Retx>)
    requires job.plan.WellFormed() && base.Valid() && |ea| + |q| <= 4 && |sb| <= 4
    ensures var (t, k) := Flushed(Sending(job, s, base, ea + q, sb, [], []), rest);
      Flushed(Sending(job, s, base, ea, sb, [], []), Retxs(job.plan.AColor(s), EAST, q) + rest) == (t, k + |q|)
    decreases |q|
  {
    hide SummaPlan.WellFormed, SummaPlan.AColor, Sending, RouterState.TxAccepts, RouterState.TxSpec, RouterState.Shaped, RouterState.Valid;
    var a := job.plan.AColor(s);
    if q == [] {
      assert ea + q == ea && Retxs(a, EAST, q) + rest == rest;
    } else {
      var box := Retxs(a, EAST, q) + rest;
      assert box[0] == Retx(a, EAST, q[0]) && box[1..] == Retxs(a, EAST, q[1..]) + rest;
      assert ea + [q[0]] + q[1..] == ea + q;
      SendEast(job, s, base, ea, sb, [], [], q[0]);
      FlushEast(job, s, base, ea + [q[0]], sb, q[1..], rest);
    }
  }

  lemma {:induction false} FlushSouth<F(!new)>(job: Job<F>, s: nat, base: RouterState, ea: Queue, sb: Queue, q: Queue)
    requires job.plan.WellFormed() && base.Valid() && |sb| + |q| <= 4 && |ea| <= 4
    ensures Flushed(Sending(job, s, base, ea, sb, [], []), Retxs(job.plan.BColor(s), SOUTH, q)) ==
      (Sending(job, s, base, ea, sb + q, [], []), |q|)
    decreases |q|
  {
    hide SummaPlan.WellFormed, SummaPlan.BColor, Sending, RouterState.TxAccepts, RouterState.TxSpec, RouterState.Shaped, RouterState.Valid;
    var b := job.plan.BColor(s);
    if q == [] {
      assert sb + q == sb && Retxs(b, SOUTH, q) == [];
    } else {
      var box := Retxs(b, SOUTH, q);
      assert box[0] == Retx(b, SOUTH, q[0]) && box[1..] == Retxs(b, SOUTH, q[1..]);
      assert sb + [q[0]] + q[1..] == sb + q;
      SendSouth(job, s, base, ea, sb, [], [], q[0]);
      FlushSouth(job, s, base, ea, sb + [q[0]], q[1..]);
    }
  }

  // What PE i passes on east and south after cycle n.
  ghost function Eastward<F(!new)>(job: Job<F>, s: nat, n: int, i: nat): (q: Queue)
    requires job.Valid() && s < job.plan.steps && job.IsPe(i)
    ensures |q| <= 4
  {
    if job.X(i) < job.plan.gridP - 1 then job.LastA(s, n, i) else []
  }

  ghost function Southward<F(!new)>(job: Job<F>, s: nat, n: int, i: nat): (q: Queue)
    requires job.Valid() && s < job.plan.steps && job.IsPe(i)
    ensures |q| <= 4
  {
    if job.Y(i) > 0 then job.LastB(s, n, i) else []
  }

  // PE i's router once its outbox is flushed and ra, rb are seeded on its ramp.
  ghost function Seeded<F(!new)>(job: Job<F>, s: nat, n: int, i: nat, ra: Queue, rb: Queue): (r: RouterState)
    requires job.Valid() && s < job.plan.steps && job.IsPe(i)
    ensures r.Shaped()
    ensures |ra| <= 4 && |rb| <= 4 ==> r.Valid()
  {
    Sending(job, s, job.RouterAt(s, n, i), Eastward(job, s, n, i), Southward(job, s, n, i), ra, rb)
  }

  // The colors of a step, for a job whose validity stays folded.
  lemma JobColors<F(!new)>(job: Job<F>, s: nat)
    requires job.Valid() && s < job.plan.steps
    ensures var a, b, x, y := job.plan.AColor(s), job.plan.BColor(s), job.plan.xDone, job.plan.yDone;
      && job.plan.WellFormed() && job.plan.gridP > 0
      && Routable(a) && Routable(b) && Routable(x) && Routable(y)
      && a != b && a != x && a != y && b != x && b != y && x != y
  {
    StepColorsDistinct(job.plan, s);
  }

  lemma SeededIs<F(!new)>(job: Job<F>, s: nat, n: nat, i: nat)
    requires job.Valid() && s < job.plan.steps && job.IsPe(i)
    ensures Seeded(job, s, n, i, [], []) ==
      Sending(job, s, job.RouterAt(s, n, i), Eastward(job, s, n, i), Southward(job, s, n, i), [], [])
    ensures |job.Outbox(s, n, i)| == |Eastward(job, s, n, i)| + |Southward(job, s, n, i)|
  {
    OutboxSplits(job, s, n, i);
    hide Eastward, Southward, Job.Outbox, Sending;
  }

  lemma NothingSent<F(!new)>(job: Job<F>, s: nat, n: nat, i: nat)
    requires job.Valid() && s < job.plan.steps && job.IsPe(i)
    ensures Sending(job, s, job.RouterAt(s, n, i), [], [], [], []) == job.RouterAt(s, n, i)
  {
    SameOutputs(Sending(job, s, job.RouterAt(s, n, i), [], [], [], []), job.RouterAt(s, n, i));
  }

  lemma OutboxSplits<F(!new)>(job: Job<F>, s: nat, n: nat, i: nat)
    requires job.Valid() && s < job.plan.steps && job.IsPe(i)
    ensures job.Outbox(s, n, i) ==
      Retxs(job.plan.AColor(s), EAST, Eastward(job, s, n, i)) + Retxs(job.plan.BColor(s), SOUTH, Southward(job, s, n, i))
  {
    hide Job.LastA, Job.LastB;
    assert job.RetxA(s, i, job.LastA(s, n, i)) == Retxs(job.plan.AColor(s), EAST, Eastward(job, s, n, i));
    assert job.RetxB(s, i, job.LastB(s, n, i)) == Retxs(job.plan.BColor(s), SOUTH, Southward(job, s, n, i));
  }

  /** Between cycles every output channel has room for the whole outbox. */
  lemma FlushSucceeds<F(!new)>(job: Job<F>, s: nat, n: nat, i: nat)
    requires job.Valid() && s < job.plan.steps && job.IsPe(i)
    ensures Flushed(job.RouterAt(s, n, i), job.Outbox(s, n, i)) == (Seeded(job, s, n, i, [], []), |job.Outbox(s, n, i)|)
  {
    hide *;
    JobColors(job, s);
    var b := job.plan.BColor(s);
    var base, east, south := job.RouterAt(s, n, i), Eastward(job, s, n, i), Southward(job, s, n, i);
    OutboxSplits(job, s, n, i);
    NothingSent(job, s, n, i);
    SeededIs(job, s, n, i);
    assert [] + east == east && [] + south == south;
    FlushEast(job, s, base, [], [], east, Retxs(b, SOUTH, south));
    FlushSouth(job, s, base, east, [], south);
  }

  // ----- The hop -----

  ghost function RampA<F(!new)>(job: Job<F>, s: nat, n: int, i: nat): (q: Queue)
    requires job.Valid() && s < job.plan.steps && job.IsPe(i)
    ensures |q| <= 4
  {
    if job.X(i) == 0 then job.LastA(s, n + 1, i) else []
  }

  ghost function RampB<F(!new)>(job: Job<F>, s: nat, n: int, i: nat): (q: Queue)
    requires job.Valid() && s < job.plan.steps && job.IsPe(i)
    ensures |q| <= 4
  {
    if job.Y(i) == job.plan.gridP - 1 then job.LastB(s, n + 1, i) else []
  }

  ghost predicate Square<F(!new)>(job: Job<F>, f: Fabric) {
    f.Valid() && f.w == job.plan.gridP && f.h == job.plan.gridP && forall i | 0 <= i < |f.pes| :: job.IsPe(i)
  }

  // Every router is flushed and seeded, ready to hop.
  ghost predicate Loaded<F(!new)>(job: Job<F>, s: nat, n: nat, f: Fabric)
    requires job.Valid() && s < job.plan.steps
  {
    && Square(job, f)
    && forall i | 0 <= i < |f.pes| :: f.pes[i] == Seeded(job, s, n, i, RampA(job, s, n, i), RampB(job, s, n, i))
  }

  lemma LoadedOut<F(!new)>(job: Job<F>, s: nat, n: nat, f: Fabric, i: nat, d: Dir, c: Color)
    requires job.Valid() && s < job.plan.steps && Loaded(job, s, n, f) && i < |f.pes| && Routable(c)
    ensures f.Out(i, d, c) == Waiting(d, c, job.plan.AColor(s), job.plan.BColor(s),
      Eastward(job, s, n, i), Southward(job, s, n, i), RampA(job, s, n, i), RampB(job, s, n, i))
  {
    hide Waiting, Eastward, Southward, RampA, RampB, Job.RouterAt;
  }

  lemma LoadedIn<F(!new)>(job: Job<F>, s: nat, n: nat, f: Fabric, i: nat, c: Color)
    requires job.Valid() && s < job.plan.steps && Loaded(job, s, n, f) && i < |f.pes| && Routable(c)
    ensures f.pes[i].inVc == job.RouterAt(s, n, i).inVc && f.pes[i].config == Empty().config
    ensures c == job.plan.AColor(s) || c == job.plan.BColor(s) ==> f.In(i, c) == []
  {
    hide Waiting, Eastward, Southward, RampA, RampB;
    StepColorsDistinct(job.plan, s);
  }

  // The channel a data wavelet reaching PE t on the A (B) color has to come from.
  ghost predicate IsSourceA<F(!new)>(job: Job<F>, f: Fabric, t: nat, i: nat, d: Dir)
    requires Square(job, f) && t < |f.pes|
  {
    if job.X(t) == 0 then i == t && d == RAMP else i == t - 1 && d == EAST
  }

  ghost predicate IsSourceB<F(!new)>(job: Job<F>, f: Fabric, t: nat, i: nat, d: Dir)
    requires Square(job, f) && t < |f.pes|
  {
    if job.Y(t) == job.plan.gridP - 1 then i == t && d == RAMP else i == t + job.plan.gridP && d == SOUTH
  }

  lemma EastNeighbor<F(!new)>(job: Job<F>, f: Fabric, i: nat)
    requires Square(job, f) && i < |f.pes|
    ensures job.X(i) < job.plan.gridP - 1 ==>
      (f.Target(i, EAST) == Some(i + 1) && i + 1 < |f.pes| && job.X(i + 1) == job.X(i) + 1 && job.Y(i + 1) == job.Y(i))
    ensures job.X(i) > 0 ==>
      (i > 0 && f.Target(i - 1, EAST) == Some(i) && job.X(i - 1) == job.X(i) - 1 && job.Y(i - 1) == job.Y(i))
  {
    var p := job.plan.gridP;
    CoordsInBounds(p, p, i);
    if job.X(i) < p - 1 {
      IndexInverse(p, p, job.X(i) + 1, job.Y(i));
    }
    if job.X(i) > 0 {
      IndexInverse(p, p, job.X(i) - 1, job.Y(i));
    }
  }

  lemma SouthNeighbor<F(!new)>(job: Job<F>, f: Fabric, i: nat)
    requires Square(job, f) && i < |f.pes|
    ensures job.Y(i) > 0 ==>
      (i >= job.plan.gridP && f.Target(i, SOUTH) == Some(i - job.plan.gridP)
      && job.X(i - job.plan.gridP) == job.X(i) && job.Y(i - job.plan.gridP) == job.Y(i) - 1)
    ensures job.Y(i) < job.plan.gridP - 1 ==>
      (i + job.plan.gridP < |f.pes| && f.Target(i + job.plan.gridP, SOUTH) == Some(i)
      && job.X(i + job.plan.gridP) == job.X(i) && job.Y(i + job.plan.gridP) == job.Y(i) + 1)
  {
    var p := job.plan.gridP;
    CoordsInBounds(p, p, i);
    if job.Y(i) > 0 {
      IndexInverse(p, p, job.X(i), job.Y(i) - 1);
      RowUp(p, job.X(i), job.Y(i) - 1);
    }
    if job.Y(i) < p - 1 {
      IndexInverse(p, p, job.X(i), job.Y(i) + 1);
      RowUp(p, job.X(i), job.Y(i));
    }
  }

  lemma InGrid<F(!new)>(job: Job<F>, f: Fabric, t: nat)
    requires Square(job, f) && t < |f.pes|
    ensures f.Valid() && job.plan.gridP > 0 && job.X(t) < job.plan.gridP && job.Y(t) < job.plan.gridP
    ensures f.Target(t, RAMP) == Some(t)
  {
    CoordsInBounds(job.plan.gridP, job.plan.gridP, t);
  }

  // A nonempty output channel has a target, and is that target's only source on its color.
  lemma SourcesUnique<F(!new)>(job: Job<F>, s: nat, n: nat, f: Fabric, i: nat, d: Dir, c: Color)
    requires job.Valid() && s < job.plan.steps && Loaded(job, s, n, f) && i < |f.pes| && Routable(c) && f.Out(i, d, c) != []
    ensures c == job.plan.AColor(s) || c == job.plan.BColor(s)
    ensures f.Target(i, d).Some?
    ensures c == job.plan.AColor(s) ==> IsSourceA(job, f, f.Target(i, d).value, i, d)
    ensures c == job.plan.BColor(s) ==> IsSourceB(job, f, f.Target(i, d).value, i, d)
  {
    hide SummaPlan.AColor, SummaPlan.BColor, Job.LastA, Job.LastB, Job.Valid, Loaded, Square, SummaPlan.WellFormed, Job.X, Job.Y,
      Fabric.Target, Fabric.Out, Fabric.Valid, Seeded;
    JobColors(job, s);
    LoadedSquare(job, s, n, f);
    InGrid(job, f, i);
    LoadedOut(job, s, n, f, i, d, c);
    EastNeighbor(job, f, i);
    SouthNeighbor(job, f, i);
  }

  lemma LoadedSquare<F(!new)>(job: Job<F>, s: nat, n: nat, f: Fabric)
    requires job.Valid() && s < job.plan.steps && Loaded(job, s, n, f)
    ensures Square(job, f) && f.Valid() && job.plan.gridP > 0 && forall i | 0 <= i < |f.pes| :: job.IsPe(i)
  {
  }

  lemma LoadedUncontended<F(!new)>(job: Job<F>, s: nat, n: nat, f: Fabric)
    requires job.Valid() && s < job.plan.steps && Loaded(job, s, n, f)
    ensures NoRoutes(f) && Uncontended(f)
  {
    assert f.Valid();
    hide Loaded, Fabric.Target, Fabric.Out, Fabric.In, SummaPlan.AColor, SummaPlan.BColor;
    forall i | 0 <= i < |f.pes|
      ensures f.pes[i].config == Empty().config
    {
      LoadedIn(job, s, n, f, i, 0);
    }
    forall i, d: Dir, c: Color | 0 <= i < |f.pes| && Routable(c) && f.Out(i, d, c) != []
      ensures f.Target(i, d).Some? && f.In(f.Target(i, d).value, c) == []
    {
      SourcesUnique(job, s, n, f, i, d, c);
      LoadedIn(job, s, n, f, f.Target(i, d).value, c);
    }
    forall i, d: Dir, j, e: Dir, c: Color
      | 0 <= i < |f.pes| && 0 <= j < |f.pes| && Routable(c) && f.Out(i, d, c) != [] && f.Out(j, e, c) != []
      ensures f.Target(i, d) == f.Target(j, e) ==> i == j && d == e
    {
      SourcesUnique(job, s, n, f, i, d, c);
      SourcesUnique(job, s, n, f, j, e, c);
    }
  }

  lemma Unreached<F(!new)>(job: Job<F>, s: nat, n: nat, f: Fabric, g: Fabric, i: nat, c: Color)
    requires job.Valid() && s < job.plan.steps && Loaded(job, s, n, f) && i < |f.pes| && Routable(c)
    requires g.Valid() && g.SameShape(f) && Delivered(f, g)
    requires c == job.plan.AColor(s) ==> job.LastA(s, n + 1, i) == []
    requires c == job.plan.BColor(s) ==> job.LastB(s, n + 1, i) == []
    ensures g.In(i, c) == f.In(i, c)
  {
    assert f.Valid();
    hide Loaded, Fabric.Target, Fabric.Out, Fabric.In, SummaPlan.AColor, SummaPlan.BColor, Job.LastA, Job.LastB;
    forall j, d: Dir | 0 <= j < |f.pes| && f.Target(j, d) == Some(i)
      ensures f.Out(j, d, c) == []
    {
      if f.Out(j, d, c) != [] {
        SourcesUnique(job, s, n, f, j, d, c);
        if c == job.plan.AColor(s) {
          SourceCarriesA(job, s, n, f, i, j, d);
        } else {
          SourceCarriesB(job, s, n, f, i, j, d);
        }
      }
    }
  }

  // A PE receives in cycle n + 1 what the PE before it on the broadcast received in cycle n.
  lemma LastShifts<F(!new)>(job: Job<F>, s: nat, n: nat, i: nat, t: nat)
    requires job.Valid() && s < job.plan.steps && job.IsPe(i) && job.IsPe(t)
    ensures job.X(i) + 1 == job.X(t) && job.Y(i) == job.Y(t) ==> job.LastA(s, n, i) == job.LastA(s, n + 1, t)
    ensures job.Y(i) == job.Y(t) + 1 && job.X(i) == job.X(t) ==> job.LastB(s, n, i) == job.LastB(s, n + 1, t)
  {
    hide Job.X, Job.Y;
  }

  // What waits at a PE's source is what it receives next.
  lemma SourceCarriesA<F(!new)>(job: Job<F>, s: nat, n: nat, f: Fabric, t: nat, i: nat, d: Dir)
    requires job.Valid() && s < job.plan.steps && Loaded(job, s, n, f) && t < |f.pes| && i < |f.pes|
    requires Routable(job.plan.AColor(s)) && IsSourceA(job, f, t, i, d)
    ensures f.Target(i, d) == Some(t)
    ensures f.Out(i, d, job.plan.AColor(s)) == job.LastA(s, n + 1, t)
  {
    LoadedOut(job, s, n, f, i, d, job.plan.AColor(s));
    EastNeighbor(job, f, t);
    assert f.Target(t, RAMP) == Some(t);
    hide SummaPlan.AColor, SummaPlan.BColor, Loaded, Fabric.Target, Fabric.Out, Job.LastA, Job.LastB, Job.X, Job.Y;
    if d == EAST {
      LastShifts(job, s, n, i, t);
    }
  }

  lemma SourceCarriesB<F(!new)>(job: Job<F>, s: nat, n: nat, f: Fabric, t: nat, i: nat, d: Dir)
    requires job.Valid() && s < job.plan.steps && Loaded(job, s, n, f) && t < |f.pes| && i < |f.pes|
    requires Routable(job.plan.BColor(s)) && IsSourceB(job, f, t, i, d)
    ensures f.Target(i, d) == Some(t)
    ensures f.Out(i, d, job.plan.BColor(s)) == job.LastB(s, n + 1, t)
  {
    StepColorsDistinct(job.plan, s);
    LoadedOut(job, s, n, f, i, d, job.plan.BColor(s));
    SouthNeighbor(job, f, t);
    assert f.Target(t, RAMP) == Some(t);
    hide SummaPlan.AColor, SummaPlan.BColor, Loaded, Fabric.Target, Fabric.Out, Job.LastA, Job.LastB, Job.X, Job.Y;
    if d == SOUTH {
      LastShifts(job, s, n, i, t);
    }
  }

  lemma SourceA<F(!new)>(job: Job<F>, f: Fabric, t: nat) returns (i: nat, d: Dir)
    requires Square(job, f) && t < |f.pes|
    ensures i < |f.pes| && IsSourceA(job, f, t, i, d)
  {
    hide Square, Job.X, Job.Y, Fabric.Target;
    InGrid(job, f, t);
    EastNeighbor(job, f, t);
    if job.X(t) == 0 { i, d := t, RAMP; } else { i, d := t - 1, EAST; }
  }

  lemma SourceB<F(!new)>(job: Job<F>, f: Fabric, t: nat) returns (i: nat, d: Dir)
    requires Square(job, f) && t < |f.pes|
    ensures i < |f.pes| && IsSourceB(job, f, t, i, d)
  {
    hide Square, Job.X, Job.Y, Fabric.Target;
    InGrid(job, f, t);
    SouthNeighbor(job, f, t);
    if job.Y(t) == job.plan.gridP - 1 { i, d := t, RAMP; } else { i, d := t + job.plan.gridP, SOUTH; }
  }

  lemma Arrives<F(!new)>(job: Job<F>, s: nat, n: nat, f: Fabric, g: Fabric, i: nat)
    requires job.Valid() && s < job.plan.steps && Loaded(job, s, n, f) && i < |f.pes|
    requires g.Valid() && g.SameShape(f) && Delivered(f, g)
    ensures Routable(job.plan.AColor(s)) && Routable(job.plan.BColor(s))
    ensures g.In(i, job.plan.AColor(s)) == job.LastA(s, n + 1, i)
    ensures g.In(i, job.plan.BColor(s)) == job.LastB(s, n + 1, i)
    ensures forall c: Color | Routable(c) && c != job.plan.AColor(s) && c != job.plan.BColor(s) :: g.In(i, c) == f.In(i, c)
  {
    var a, b := job.plan.AColor(s), job.plan.BColor(s);
    StepColorsDistinct(job.plan, s);
    assert f.Valid();
    var ia, da := SourceA(job, f, i);
    SourceCarriesA(job, s, n, f, i, ia, da);
    var ib, db := SourceB(job, f, i);
    SourceCarriesB(job, s, n, f, i, ib, db);
    hide Loaded, Fabric.Target, Fabric.Out, Fabric.In, SummaPlan.AColor, SummaPlan.BColor, Job.LastA, Job.LastB;
    if job.LastA(s, n + 1, i) == [] {
      Unreached(job, s, n, f, g, i, a);
      LoadedIn(job, s, n, f, i, a);
    }
    if job.LastB(s, n + 1, i) == [] {
      Unreached(job, s, n, f, g, i, b);
      LoadedIn(job, s, n, f, i, b);
    }
    forall c: Color | Routable(c) && c != a && c != b
      ensures g.In(i, c) == f.In(i, c)
    {
      Unreached(job, s, n, f, g, i, c);
    }
  }

  /** One fabric cycle delivers to every PE exactly what the closed form says it receives next, and drops nothing. */
  lemma LoadedStep<F(!new)>(job: Job<F>, s: nat, n: nat, f: Fabric)
    requires job.Valid() && s < job.plan.steps && Loaded(job, s, n, f)
    ensures var g := f.Step();
      && g.dropped == f.dropped && g.cycle == f.cycle + 1
      && forall i | 0 <= i < |f.pes| :: g.pes[i] ==
           job.Inputs(s, job.LastA(s, n + 1, i), job.LastB(s, n + 1, i), job.TokenX(n, i), job.TokenY(n, i))
  {
    LoadedUncontended(job, s, n, f);
    UncontendedStep(f);
    var g := f.Step();
    forall i | 0 <= i < |f.pes|
      ensures g.pes[i] ==
        job.Inputs(s, job.LastA(s, n + 1, i), job.LastB(s, n + 1, i), job.TokenX(n, i), job.TokenY(n, i))
    {
      Arrives(job, s, n, f, g, i);
      ArrivedInputs(job, s, n, f, g, i);
    }
  }

  lemma DeliveredOutputs(f: Fabric, g: Fabric, i: nat)
    requires f.Valid() && g.Valid() && g.SameShape(f) && Delivered(f, g) && i < |f.pes|
    ensures g.pes[i].config == Empty().config && forall d: Dir, c: Color | Routable(c) :: g.Out(i, d, c) == []
    ensures g.pes[i].Shaped() && f.pes[i].Shaped()
  {
  }

  lemma ArrivedInputs<F(!new)>(job: Job<F>, s: nat, n: nat, f: Fabric, g: Fabric, i: nat)
    requires job.Valid() && s < job.plan.steps && Loaded(job, s, n, f) && i < |f.pes|
    requires g.Valid() && g.SameShape(f) && Delivered(f, g)
    requires Routable(job.plan.AColor(s)) && Routable(job.plan.BColor(s))
    requires g.In(i, job.plan.AColor(s)) == job.LastA(s, n + 1, i)
    requires g.In(i, job.plan.BColor(s)) == job.LastB(s, n + 1, i)
    requires forall c: Color | Routable(c) && c != job.plan.AColor(s) && c != job.plan.BColor(s) :: g.In(i, c) == f.In(i, c)
    ensures g.pes[i] == job.Inputs(s, job.LastA(s, n + 1, i), job.LastB(s, n + 1, i), job.TokenX(n, i), job.TokenY(n, i))
  {
    hide SummaPlan.AColor, SummaPlan.BColor, SummaPlan.WellFormed, Job.Valid, Job.LastA, Job.LastB, Loaded, Delivered, Square, Fabric.Valid,
      Fabric.Target, Job.TokenX, Job.TokenY, Job.X, Job.Y;
    JobColors(job, s);
    LoadedSquare(job, s, n, f);
    var r := job.Inputs(s, job.LastA(s, n + 1, i), job.LastB(s, n + 1, i), job.TokenX(n, i), job.TokenY(n, i));
    LoadedIn(job, s, n, f, i, 0);
    DeliveredOutputs(f, g, i);
    forall c: Color | Routable(c)
      ensures g.pes[i].inVc[c] == r.inVc[c]
    {
      assert g.In(i, c) == g.pes[i].inVc[c];
      assert f.In(i, c) == f.pes[i].inVc[c];
    }
    assert g.pes[i].inVc == r.inVc;
    forall d: Dir, c: Color | Routable(c)
      ensures g.pes[i].outVc[d][c] == r.outVc[d][c]
    {
      assert g.Out(i, d, c) == [];
    }
    SameOutputs(g.pes[i], r);
  }
}
