/** How one PE moves through the closed form: draining its inputs, receiving its tokens, firing the accumulate. */
module SummaSteps {
  import opened Wavelets
  import opened Mesh
  import opened Routers
  import opened Schedulers
  import opened SummaPlans
  import opened SummaModels

  // ----- Draining -----

  lemma {:induction false} DrainAsEffect<F(!new)>(job: Job<F>, s: nat, i: nat, st: PeState<F>, q: Queue)
    requires job.IsPe(i)
    ensures job.DrainAs(i, st, job.plan.AColor(s), q) ==
      st.(aBuf := StoreAll(job.ar, st.aBuf, q), aCount := st.aCount + |q|, outbox := st.outbox + job.RetxA(s, i, q))
    decreases |q|
  {
    var c := job.plan.AColor(s);
    if q == [] {
      assert st.outbox + job.RetxA(s, i, q) == st.outbox;
    } else {
      DrainAsEffect(job, s, i, job.DrainA(i, st, c, q[0]), q[1..]);
      var here := if job.X(i) < job.plan.gridP - 1 then [Retx(c, EAST, q[0])] else [];
      assert here + job.RetxA(s, i, q[1..]) == job.RetxA(s, i, q);
      assert (st.outbox + here) + job.RetxA(s, i, q[1..]) == st.outbox + job.RetxA(s, i, q);
    }
  }

  lemma {:induction false} DrainBsEffect<F(!new)>(job: Job<F>, s: nat, i: nat, st: PeState<F>, q: Queue)
    requires job.IsPe(i)
    ensures job.DrainBs(i, st, job.plan.BColor(s), q) ==
      st.(bBuf := StoreAll(job.ar, st.bBuf, q), bCount := st.bCount + |q|, outbox := st.outbox + job.RetxB(s, i, q))
    decreases |q|
  {
    var c := job.plan.BColor(s);
    if q == [] {
      assert st.outbox + job.RetxB(s, i, q) == st.outbox;
    } else {
      DrainBsEffect(job, s, i, job.DrainB(i, st, c, q[0]), q[1..]);
      var here := if job.Y(i) > 0 then [Retx(c, SOUTH, q[0])] else [];
      assert here + job.RetxB(s, i, q[1..]) == job.RetxB(s, i, q);
      assert (st.outbox + here) + job.RetxB(s, i, q[1..]) == st.outbox + job.RetxB(s, i, q);
    }
  }

  lemma ColorsDistinct(p: SummaPlan)
    requires p.WellFormed()
    ensures Routable(p.aColor0) && Routable(p.aColor1) && Routable(p.bColor0) && Routable(p.bColor1)
    ensures Routable(p.xDone) && Routable(p.yDone)
    ensures p.aColor0 != p.aColor1 && p.aColor0 != p.bColor0 && p.aColor0 != p.bColor1 && p.aColor0 != p.xDone && p.aColor0 != p.yDone
    ensures p.aColor1 != p.bColor0 && p.aColor1 != p.bColor1 && p.aColor1 != p.xDone && p.aColor1 != p.yDone
    ensures p.bColor0 != p.bColor1 && p.bColor0 != p.xDone && p.bColor0 != p.yDone
    ensures p.bColor1 != p.xDone && p.bColor1 != p.yDone && p.xDone != p.yDone
  {
    var cs := p.Colors();
    assert cs[0] == p.aColor0 && cs[1] == p.aColor1 && cs[2] == p.bColor0 && cs[3] == p.bColor1 && cs[4] == p.xDone && cs[5] == p.yDone;
  }

  lemma StepColorsDistinct(p: SummaPlan, s: nat)
    requires p.WellFormed()
    ensures var a, b, a', b', x, y := p.AColor(s), p.BColor(s), p.AColor(s + 1), p.BColor(s + 1), p.xDone, p.yDone;
      && Routable(a) && Routable(b) && Routable(a') && Routable(b') && Routable(x) && Routable(y)
      && a != b && a != x && a != y && b != x && b != y && x != y
      && a' != a && a' != b && a' != x && a' != y && b' != a && b' != b && b' != x && b' != y
  {
    ColorsDistinct(p);
  }

  lemma PopEachOne(r: RouterState, c: Color)
    requires r.Shaped() && Arrivals(r, c) > 0
    ensures PopEach(r, [c]) == (r.PopInSpec(c), [r.inVc[c][0]])
  {
    assert [c][1..] == [];
    assert PopEach(r.PopInSpec(c), [c][1..]) == (r.PopInSpec(c), []);
    assert [r.inVc[c][0]] + [] == [r.inVc[c][0]];
  }

  lemma PopEachTwo(r: RouterState, c: Color, d: Color)
    requires r.Shaped() && c != d && Arrivals(r, c) > 0 && Arrivals(r, d) > 0
    ensures PopEach(r, [c, d]) == (r.PopInSpec(c).PopInSpec(d), [r.inVc[c][0], r.inVc[d][0]])
  {
    assert [c, d][1..] == [d];
    PopEachOne(r.PopInSpec(c), d);
    assert [r.inVc[c][0]] + [r.inVc[d][0]] == [r.inVc[c][0], r.inVc[d][0]];
  }

  lemma InputsHold<F(!new)>(job: Job<F>, s: nat, qa: Queue, qb: Queue, tx: Queue, ty: Queue)
    requires job.plan.WellFormed()
    ensures var r := job.Inputs(s, qa, qb, tx, ty); var p := job.plan;
      && Arrivals(r, p.AColor(s)) == |qa| && Arrivals(r, p.BColor(s)) == |qb|
      && Arrivals(r, p.AColor(s + 1)) == 0 && Arrivals(r, p.BColor(s + 1)) == 0
      && Arrivals(r, p.xDone) == |tx| && Arrivals(r, p.yDone) == |ty|
  {
    StepColorsDistinct(job.plan, s);
    hide SummaPlan.AColor, SummaPlan.BColor, SummaPlan.WellFormed;
  }

  lemma PopA<F(!new)>(job: Job<F>, s: nat, qa: Queue, qb: Queue, tx: Queue, ty: Queue)
    requires job.plan.WellFormed() && qa != []
    ensures var r, a := job.Inputs(s, qa, qb, tx, ty), job.plan.AColor(s);
      Arrivals(r, a) > 0 && r.inVc[a] == qa && r.PopInSpec(a) == job.Inputs(s, qa[1..], qb, tx, ty)
  {
    StepColorsDistinct(job.plan, s);
    hide SummaPlan.AColor, SummaPlan.BColor, SummaPlan.WellFormed;
    assert job.Inputs(s, qa, qb, tx, ty).PopInSpec(job.plan.AColor(s)).inVc == job.Inputs(s, qa[1..], qb, tx, ty).inVc;
  }

  lemma PopB<F(!new)>(job: Job<F>, s: nat, qa: Queue, qb: Queue, tx: Queue, ty: Queue)
    requires job.plan.WellFormed() && qb != []
    ensures var r, b := job.Inputs(s, qa, qb, tx, ty), job.plan.BColor(s);
      Arrivals(r, b) > 0 && r.inVc[b] == qb && r.PopInSpec(b) == job.Inputs(s, qa, qb[1..], tx, ty)
  {
    StepColorsDistinct(job.plan, s);
    hide SummaPlan.AColor, SummaPlan.BColor, SummaPlan.WellFormed;
    assert job.Inputs(s, qa, qb, tx, ty).PopInSpec(job.plan.BColor(s)).inVc == job.Inputs(s, qa, qb[1..], tx, ty).inVc;
  }

  lemma PopTokens<F(!new)>(job: Job<F>, s: nat, x: Wavelet, y: Wavelet)
    requires job.plan.WellFormed()
    ensures var p := job.plan;
      PopEach(job.Inputs(s, [], [], [x], [y]), [p.xDone, p.yDone]) == (job.Inputs(s, [], [], [], []), [x, y])
  {
    var p := job.plan;
    StepColorsDistinct(p, s);
    hide SummaPlan.AColor, SummaPlan.BColor, SummaPlan.WellFormed;
    var r := job.Inputs(s, [], [], [x], [y]);
    assert r.inVc[p.xDone] == [x] && r.inVc[p.yDone] == [y];
    PopEachTwo(r, p.xDone, p.yDone);
    assert [x][1..] == [] && [y][1..] == [];
    assert r.PopInSpec(p.xDone).PopInSpec(p.yDone).inVc == job.Inputs(s, [], [], [], []).inVc;
  }

  lemma SingleInput<F(!new)>(job: Job<F>, t: Task, id: nat, c: Color, r: RouterState)
    requires r.Shaped() && job.TaskIs(t, id, [c]) && t.activated
    ensures Runnable(t, r) <==> Arrivals(r, c) > 0
  {
    assert c in t.inputs;
  }

  // Which tasks the picker would run on given input queues.
  lemma RunnableTasks<F(!new)>(job: Job<F>, s: nat, ts: seq<Task>, qa: Queue, qb: Queue, tx: Queue, ty: Queue)
    requires job.plan.WellFormed() && job.TasksOk(ts)
    ensures var r := job.Inputs(s, qa, qb, tx, ty);
      && (forall j | 0 <= j < 2 :: Runnable(ts[j], r) <==> j == s % 2 && qa != [])
      && (forall j | 2 <= j < 4 :: Runnable(ts[j], r) <==> j == 2 + s % 2 && qb != [])
      && (Runnable(ts[4], r) <==> ts[4].activated && tx != [] && ty != [])
  {
    var r, p := job.Inputs(s, qa, qb, tx, ty), job.plan;
    InputsHold(job, s, qa, qb, tx, ty);
    SingleInput(job, ts[0], 0, p.aColor0, r);
    SingleInput(job, ts[1], 1, p.aColor1, r);
    SingleInput(job, ts[2], 2, p.bColor0, r);
    SingleInput(job, ts[3], 3, p.bColor1, r);
    assert p.xDone in ts[4].inputs && p.yDone in ts[4].inputs;
    assert Runnable(ts[4], r) <==> ts[4].activated && tx != [] && ty != [];
    hide Runnable, Job.Inputs, SummaPlan.WellFormed, Arrivals;
  }

  lemma DrainPick<F(!new)>(job: Job<F>, s: nat, ts: seq<Task>, qa: Queue, qb: Queue, tx: Queue, ty: Queue)
    requires job.plan.WellFormed() && job.TasksOk(ts) && (tx == [] || ty == [])
    ensures |ts| == 5
    ensures var r := job.Inputs(s, qa, qb, tx, ty);
      if qa == [] && qb == [] then Quiet(ts, r) else IsPick(ts, r, if qa != [] then s % 2 else 2 + s % 2)
  {
    RunnableTasks(job, s, ts, qa, qb, tx, ty);
    hide Runnable;
  }

  // The state after storing queues qa and qb and queueing them for retransmission.
  ghost function Absorb<F(!new)>(job: Job<F>, s: nat, i: nat, st: PeState<F>, qa: Queue, qb: Queue): PeState<F>
    requires job.IsPe(i)
  {
    st.(aBuf := StoreAll(job.ar, st.aBuf, qa), aCount := st.aCount + |qa|,
        bBuf := StoreAll(job.ar, st.bBuf, qb), bCount := st.bCount + |qb|,
        outbox := st.outbox + job.RetxA(s, i, qa) + job.RetxB(s, i, qb))
  }

  // Only the drain tasks' bookkeeping has changed.
  ghost predicate SameCompute<F(!new)>(job: Job<F>, ts: seq<Task>, us: seq<Task>) {
    job.TasksOk(ts) && job.TasksOk(us) && us[COMPUTE] == ts[COMPUTE]
  }

  ghost predicate DrainedTo<F(!new)>(job: Job<F>, s: nat, i: nat, tile: Tile<PeState<F>>,
      qa: Queue, qb: Queue, tx: Queue, ty: Queue, t': Tile<PeState<F>>)
    requires job.IsPe(i)
  {
    && t'.router == job.Inputs(s, [], [], tx, ty)
    && t'.state == job.DrainBs(i, job.DrainAs(i, tile.state, job.plan.AColor(s), qa), job.plan.BColor(s), qb)
    && SameCompute(job, tile.tasks, t'.tasks)
  }

  // One drain fires: the A channel's head if there is one, else the B channel's.
  ghost predicate Fires<F(!new)>(job: Job<F>, s: nat, i: nat, tile: Tile<PeState<F>>,
      qa: Queue, qb: Queue, tx: Queue, ty: Queue, t': Tile<PeState<F>>)
    requires job.IsPe(i) && (qa != [] || qb != [])
  {
    && SameCompute(job, tile.tasks, t'.tasks)
    && (if qa != [] then
          t'.router == job.Inputs(s, qa[1..], qb, tx, ty) && t'.state == job.DrainA(i, tile.state, job.plan.AColor(s), qa[0])
        else
          t'.router == job.Inputs(s, qa, qb[1..], tx, ty) && t'.state == job.DrainB(i, tile.state, job.plan.BColor(s), qb[0]))
  }

  lemma FireDrain<F(!new)>(job: Job<F>, s: nat, i: nat, tile: Tile<PeState<F>>,
      qa: Queue, qb: Queue, tx: Queue, ty: Queue, k: nat)
    requires job.plan.WellFormed() && job.IsPe(i) && job.TasksOk(tile.tasks)
    requires tile.router == job.Inputs(s, qa, qb, tx, ty) && (qa != [] || qb != [])
    requires k == if qa != [] then s % 2 else 2 + s % 2
    ensures Fires(job, s, i, tile, qa, qb, tx, ty, FireSpec(tile, job.HandlerOf(i), k))
  {
    if qa != [] {
      PopA(job, s, qa, qb, tx, ty);
    } else {
      PopB(job, s, qa, qb, tx, ty);
    }
    PopEachOne(tile.router, if qa != [] then job.plan.AColor(s) else job.plan.BColor(s));
  }

  lemma DrainedNone<F(!new)>(job: Job<F>, s: nat, i: nat, tile: Tile<PeState<F>>, tx: Queue, ty: Queue)
    requires job.IsPe(i) && job.TasksOk(tile.tasks) && tile.router == job.Inputs(s, [], [], tx, ty)
    ensures DrainedTo(job, s, i, tile, [], [], tx, ty, tile)
  {
  }

  lemma DrainedCons<F(!new)>(job: Job<F>, s: nat, i: nat, tile: Tile<PeState<F>>,
      qa: Queue, qb: Queue, tx: Queue, ty: Queue, next: Tile<PeState<F>>, t': Tile<PeState<F>>)
    requires job.IsPe(i) && (qa != [] || qb != []) && Fires(job, s, i, tile, qa, qb, tx, ty, next)
    requires qa != [] ==> DrainedTo(job, s, i, next, qa[1..], qb, tx, ty, t')
    requires qa == [] ==> DrainedTo(job, s, i, next, qa, qb[1..], tx, ty, t')
    ensures DrainedTo(job, s, i, tile, qa, qb, tx, ty, t')
  {
  }

  lemma FiresFacts<F(!new)>(job: Job<F>, s: nat, i: nat, tile: Tile<PeState<F>>,
      qa: Queue, qb: Queue, tx: Queue, ty: Queue, t': Tile<PeState<F>>)
    requires job.IsPe(i) && (qa != [] || qb != []) && Fires(job, s, i, tile, qa, qb, tx, ty, t')
    ensures job.TasksOk(t'.tasks)
    ensures t'.router == if qa != [] then job.Inputs(s, qa[1..], qb, tx, ty) else job.Inputs(s, qa, qb[1..], tx, ty)
  {
  }

  // n fires take the tile, its data channels holding qa and qb, to a quiet tile with both drained.
  ghost predicate DrainRun<F(!new)>(job: Job<F>, s: nat, i: nat, tile: Tile<PeState<F>>,
      qa: Queue, qb: Queue, tx: Queue, ty: Queue, n: nat, t': Tile<PeState<F>>)
    requires job.IsPe(i)
  {
    && tile.router.Shaped() && t'.router.Shaped()
    && DrainedTo(job, s, i, tile, qa, qb, tx, ty, t')
    && Reaches(tile, job.HandlerOf(i), n, t') && Quiet(t'.tasks, t'.router)
  }

  lemma DrainRunNone<F(!new)>(job: Job<F>, s: nat, i: nat, tile: Tile<PeState<F>>, tx: Queue, ty: Queue)
    requires job.plan.WellFormed() && job.IsPe(i) && job.TasksOk(tile.tasks)
    requires tile.router == job.Inputs(s, [], [], tx, ty) && (tx == [] || ty == [])
    ensures DrainRun(job, s, i, tile, [], [], tx, ty, 0, tile)
  {
    DrainPick(job, s, tile.tasks, [], [], tx, ty);
    DrainedNone(job, s, i, tile, tx, ty);
    ReachesNone(tile, job.HandlerOf(i));
    hide Quiet, Reaches, DrainedTo, Job.Inputs, Job.TasksOk, SummaPlan.WellFormed;
  }

  lemma DrainRunCons<F(!new)>(job: Job<F>, s: nat, i: nat, tile: Tile<PeState<F>>,
      qa: Queue, qb: Queue, tx: Queue, ty: Queue, k: nat, m: nat, t': Tile<PeState<F>>)
    requires job.IsPe(i) && (qa != [] || qb != []) && tile.router.Shaped() && IsPick(tile.tasks, tile.router, k)
    requires Fires(job, s, i, tile, qa, qb, tx, ty, FireSpec(tile, job.HandlerOf(i), k))
    requires qa != [] ==> DrainRun(job, s, i, FireSpec(tile, job.HandlerOf(i), k), qa[1..], qb, tx, ty, m, t')
    requires qa == [] ==> DrainRun(job, s, i, FireSpec(tile, job.HandlerOf(i), k), qa, qb[1..], tx, ty, m, t')
    ensures DrainRun(job, s, i, tile, qa, qb, tx, ty, m + 1, t')
  {
    var next := FireSpec(tile, job.HandlerOf(i), k);
    hide Fires, FireSpec, DrainedTo, IsPick, Quiet, Reaches, Job.HandlerOf, RouterState.Shaped;
    DrainedCons(job, s, i, tile, qa, qb, tx, ty, next, t');
    ReachesCons(tile, job.HandlerOf(i), k, m, t');
  }

  lemma {:induction false} DrainRuns<F(!new)>(job: Job<F>, s: nat, i: nat, tile: Tile<PeState<F>>,
      qa: Queue, qb: Queue, tx: Queue, ty: Queue)
      returns (n: nat, t': Tile<PeState<F>>)
    requires job.plan.WellFormed() && job.IsPe(i) && job.TasksOk(tile.tasks)
    requires tile.router == job.Inputs(s, qa, qb, tx, ty) && (tx == [] || ty == [])
    ensures DrainRun(job, s, i, tile, qa, qb, tx, ty, n, t')
    decreases |qa| + |qb|
  {
    hide DrainRun, IsPick, Quiet, FireSpec, Job.TasksOk, Job.Inputs, Job.HandlerOf, SummaPlan.WellFormed, RouterState.Shaped, Fires;
    if qa == [] && qb == [] {
      n, t' := 0, tile;
      DrainRunNone(job, s, i, tile, tx, ty);
    } else {
      DrainPick(job, s, tile.tasks, qa, qb, tx, ty);
      var k: nat := if qa != [] then s % 2 else 2 + s % 2;
      var next := FireSpec(tile, job.HandlerOf(i), k);
      FireDrain(job, s, i, tile, qa, qb, tx, ty, k);
      FiresFacts(job, s, i, tile, qa, qb, tx, ty, next);
      var m;
      if qa != [] {
        m, t' := DrainRuns(job, s, i, next, qa[1..], qb, tx, ty);
      } else {
        m, t' := DrainRuns(job, s, i, next, qa, qb[1..], tx, ty);
      }
      n := m + 1;
      DrainRunCons(job, s, i, tile, qa, qb, tx, ty, k, m, t');
    }
  }

  /** Draining empties both data channels into the buffers and leaves the scheduler quiet. */
  lemma Drained<F(!new)>(job: Job<F>, s: nat, i: nat, tile: Tile<PeState<F>>, qa: Queue, qb: Queue, tx: Queue, ty: Queue,
      n: nat, t': Tile<PeState<F>>)
    requires job.plan.WellFormed() && job.IsPe(i) && job.TasksOk(tile.tasks)
    requires tile.router == job.Inputs(s, qa, qb, tx, ty) && (tx == [] || ty == [])
    requires t'.router.Shaped() && Reaches(tile, job.HandlerOf(i), n, t') && Quiet(t'.tasks, t'.router)
    ensures t'.router == job.Inputs(s, [], [], tx, ty)
    ensures t'.state == Absorb(job, s, i, tile.state, qa, qb)
    ensures SameCompute(job, tile.tasks, t'.tasks)
  {
    hide Reaches, Quiet, Absorb, SameCompute, Job.DrainAs, Job.DrainBs, Job.Inputs, Job.TasksOk, Job.HandlerOf,
      SummaPlan.WellFormed, RouterState.Shaped, RouterState.Valid;
    var m, d := DrainRuns(job, s, i, tile, qa, qb, tx, ty);
    QuietIsUnique(tile, job.HandlerOf(i), n, t', m, d);
    DrainBothEffect(job, s, i, tile.state, qa, qb);
  }

  lemma DrainBothEffect<F(!new)>(job: Job<F>, s: nat, i: nat, st: PeState<F>, qa: Queue, qb: Queue)
    requires job.IsPe(i)
    ensures job.DrainBs(i, job.DrainAs(i, st, job.plan.AColor(s), qa), job.plan.BColor(s), qb) ==
      Absorb(job, s, i, st, qa, qb)
  {
    hide StoreAll, Job.RetxA, Job.RetxB;
    DrainAsEffect(job, s, i, st, qa);
    DrainBsEffect(job, s, i, job.DrainAs(i, st, job.plan.AColor(s), qa), qb);
  }

  // ----- The rendezvous -----

  lemma FireCompute<F(!new)>(job: Job<F>, s: nat, i: nat, tile: Tile<PeState<F>>, tx: Queue, ty: Queue)
    requires job.plan.WellFormed() && job.IsPe(i) && job.TasksOk(tile.tasks) && job.Shaped(tile.state)
    requires |tx| == 1 && |ty| == 1
    requires tile.router == job.Inputs(s, [], [], tx, ty)
    ensures var t' := FireSpec(tile, job.HandlerOf(i), COMPUTE);
      && t'.router == job.Inputs(s, [], [], [], []) && t'.state == job.Compute(tile.state) && job.TasksOk(t'.tasks)
  {
    assert tx == [tx[0]] && ty == [ty[0]];
    PopTokens(job, s, tx[0], ty[0]);
  }

  // The accumulate fires once if both tokens are present and the task is armed, and not at all otherwise.
  lemma Rendezvous<F(!new)>(job: Job<F>, s: nat, i: nat, tile: Tile<PeState<F>>, tx: Queue, ty: Queue, n: nat, t': Tile<PeState<F>>)
    requires job.plan.WellFormed() && job.IsPe(i) && job.TasksOk(tile.tasks) && job.Shaped(tile.state)
    requires |tx| <= 1 && |ty| <= 1 && (tx != [] ==> tile.tasks[COMPUTE].activated)
    requires tile.router == job.Inputs(s, [], [], tx, ty)
    requires t'.router.Shaped() && Reaches(tile, job.HandlerOf(i), n, t') && Quiet(t'.tasks, t'.router)
    ensures if tx != [] && ty != [] then
        n == 1 && t'.router == job.Inputs(s, [], [], [], []) && t'.state == job.Compute(tile.state)
        && job.TasksOk(t'.tasks)
      else
        n == 0 && t' == tile
  {
    var h := job.HandlerOf(i);
    RunnableTasks(job, s, tile.tasks, [], [], tx, ty);
    if tx != [] && ty != [] {
      assert IsPick(tile.tasks, tile.router, COMPUTE);
      var next := FireSpec(tile, h, COMPUTE);
      FireCompute(job, s, i, tile, tx, ty);
      RunnableTasks(job, s, next.tasks, [], [], [], []);
      hide FireSpec, Runnable;
      assert Quiet(next.tasks, next.router);
      ReachesNone(next, h);
      assert Reaches(tile, h, 1, next);
      hide Reaches, IsPick, Quiet;
      QuietIsUnique(tile, h, n, t', 1, next);
    } else {
      assert Quiet(tile.tasks, tile.router);
      QuietStops(tile, h, n, t');
    }
  }

  // ----- Arithmetic of the closed form -----

  lemma ReceivedFacts<F(!new)>(job: Job<F>, i: nat, n: int)
    requires job.Valid() && job.IsPe(i)
    ensures job.Ra(i, n) <= job.Ra(i, n + 1) <= job.Ra(i, n) + 4
    ensures job.Rb(i, n) <= job.Rb(i, n + 1) <= job.Rb(i, n) + 4
    ensures job.Fired(i, n) ==> job.Fired(i, n + 1)
    ensures n <= 0 ==> job.Ra(i, n) == 0 && job.Rb(i, n) == 0
    ensures job.S() > 0
    ensures n >= job.Cycles() ==> job.Fired(i, n)
    ensures n >= job.Cycles() && job.X(i) < job.plan.gridP - 1 ==> job.Ra(i, n - 1) == job.S()
    ensures n >= job.Cycles() && job.Y(i) > 0 ==> job.Rb(i, n - 1) == job.S()
  {
  }

  // The far corner of the broadcast is the last PE to complete its A panel.
  lemma CornerIsLast<F(!new)>(job: Job<F>, i: nat, n: nat)
    requires job.Valid() && job.IsPe(i) && job.X(i) == job.plan.gridP - 1
    ensures n < job.Cycles() ==> !job.Fired(i, n)
  {
  }

  lemma WavesConcat<F(!new)>(job: Job<F>, s: nat, z: nat, lo: nat, hi: nat)
    requires job.Valid() && s < job.plan.steps && z < job.plan.gridP && lo <= hi <= job.S()
    ensures job.AWaves(s, z, 0, lo) + job.AWaves(s, z, lo, hi) == job.AWaves(s, z, 0, hi)
    ensures job.BWaves(s, z, 0, lo) + job.BWaves(s, z, lo, hi) == job.BWaves(s, z, 0, hi)
  {
  }

  lemma BufGrows<F(!new)>(job: Job<F>, s: nat, z: nat, lo: nat, hi: nat)
    requires job.Valid() && s < job.plan.steps && z < job.plan.gridP && lo <= hi <= job.S()
    ensures StoreAll(job.ar, job.BufA(s, z, lo), job.AWaves(s, z, lo, hi)) == job.BufA(s, z, hi)
    ensures StoreAll(job.ar, job.BufB(s, z, lo), job.BWaves(s, z, lo, hi)) == job.BufB(s, z, hi)
  {
    WavesConcat(job, s, z, lo, hi);
    StoreAllConcat(job.ar, Zeros(job.ar, job.S()), job.AWaves(s, z, 0, lo), job.AWaves(s, z, lo, hi));
    StoreAllConcat(job.ar, Zeros(job.ar, job.S()), job.BWaves(s, z, 0, lo), job.BWaves(s, z, lo, hi));
  }

  lemma StoreNone<F(!new)>(ar: Arith<F>, buf: seq<F>)
    ensures StoreAll(ar, buf, []) == buf
  {
  }

  // PE i's state after draining what arrives in cycle n + 1, before its tokens are delivered.
  ghost function AfterDrain<F(!new)>(job: Job<F>, s: nat, n: nat, i: nat): PeState<F>
    requires job.Valid() && s < job.plan.steps && job.IsPe(i)
  {
    if job.Fired(i, n) then job.Finished(s, n + 1, i)
    else job.Collecting(s, n + 1, i).(aToken := job.Ra(i, n) == job.S(), bToken := job.Rb(i, n) == job.S())
  }

  lemma DrainAdvances<F(!new)>(job: Job<F>, s: nat, n: nat, i: nat, st: PeState<F>)
    requires job.Valid() && s < job.plan.steps && job.IsPe(i)
    requires st == job.PeAt(s, n, i).(outbox := [])
    ensures Absorb(job, s, i, st, job.LastA(s, n + 1, i), job.LastB(s, n + 1, i)) == AfterDrain(job, s, n, i)
  {
    var qa, qb := job.LastA(s, n + 1, i), job.LastB(s, n + 1, i);
    assert [] + job.RetxA(s, i, qa) + job.RetxB(s, i, qb) == job.Outbox(s, n + 1, i);
    ReceivedFacts(job, i, n);
    if job.Fired(i, n) {
      NothingLeft(job, s, n, i);
      StoreNone(job.ar, st.aBuf);
      StoreNone(job.ar, st.bBuf);
    } else {
      CollectMore(job, s, n, i);
    }
  }

  lemma NothingLeft<F(!new)>(job: Job<F>, s: nat, n: nat, i: nat)
    requires job.Valid() && s < job.plan.steps && job.IsPe(i) && job.Fired(i, n)
    ensures job.LastA(s, n + 1, i) == [] && job.LastB(s, n + 1, i) == []
  {
    ReceivedFacts(job, i, n);
  }

  lemma CollectMore<F(!new)>(job: Job<F>, s: nat, n: nat, i: nat)
    requires job.Valid() && s < job.plan.steps && job.IsPe(i)
    ensures StoreAll(job.ar, job.BufA(s, job.Y(i), job.Ra(i, n)), job.LastA(s, n + 1, i)) == job.BufA(s, job.Y(i), job.Ra(i, n + 1))
    ensures StoreAll(job.ar, job.BufB(s, job.X(i), job.Rb(i, n)), job.LastB(s, n + 1, i)) == job.BufB(s, job.X(i), job.Rb(i, n + 1))
    ensures job.Ra(i, n) + |job.LastA(s, n + 1, i)| == job.Ra(i, n + 1)
    ensures job.Rb(i, n) + |job.LastB(s, n + 1, i)| == job.Rb(i, n + 1)
  {
    ReceivedFacts(job, i, n);
    BufGrows(job, s, job.Y(i), job.Ra(i, n), job.Ra(i, n + 1));
    BufGrows(job, s, job.X(i), job.Rb(i, n), job.Rb(i, n + 1));
  }

  // ----- The seam between steps -----

  lemma NextStep<F(!new)>(job: Job<F>, s: nat, i: nat)
    requires job.Valid() && s + 1 < job.plan.steps && job.IsPe(i)
    ensures job.PeAt(s, job.Cycles(), i) == job.PeAt(s + 1, 0, i)
    ensures job.RouterAt(s, job.Cycles(), i) == job.RouterAt(s + 1, 0, i)
  {
    ReceivedFacts(job, i, job.Cycles());
    ReceivedFacts(job, i, 0);
    ReceivedFacts(job, i, -1);
    assert job.Outbox(s, job.Cycles(), i) == [] == job.Outbox(s + 1, 0, i);
    assert job.BufA(s + 1, job.Y(i), 0) == Zeros(job.ar, job.S());
    assert job.BufB(s + 1, job.X(i), 0) == Zeros(job.ar, job.S());
    assert job.Inputs(s, [], [], [], []).inVc == job.Inputs(s + 1, [], [], [], []).inVc;
  }

  lemma FirstStep<F(!new)>(job: Job<F>, i: nat)
    requires job.Valid() && job.IsPe(i)
    ensures job.PeAt(0, 0, i) ==
      PeState(Zeros(job.ar, job.S()), Zeros(job.ar, job.S()), Zeros(job.ar, job.plan.tileM * job.plan.tileM), [], 0, 0, 0, false, false)
    ensures job.RouterAt(0, 0, i) == Empty()
  {
    ReceivedFacts(job, i, 0);
    ReceivedFacts(job, i, -1);
    assert job.Outbox(0, 0, i) == [];
    assert job.Inputs(0, [], [], [], []).inVc == Empty().inVc;
  }
}
