/** The stations of one SUMMA round at one PE: carried, arrived, drained, told, and ready again. */
module SummaRounds {
  import opened Wavelets
  import opened Mesh
  import opened Routers
  import opened Schedulers
  import opened SummaPlans
  import opened SummaModels
  import opened SummaSteps
  import opened SummaFabrics

  // The outbox is flushed, and ra, rb are seeded on the ramp.
  ghost predicate Carried<F(!new)>(job: Job<F>, s: nat, n: nat, i: nat, tile: Tile<PeState<F>>, ra: Queue, rb: Queue)
    requires job.Valid() && s < job.plan.steps && job.IsPe(i)
  {
    && tile.router == Seeded(job, s, n, i, ra, rb)
    && tile.state == job.PeAt(s, n, i).(outbox := [])
    && job.Armed(tile.tasks, tile.state)
  }

  // The fabric has delivered this cycle's wavelets.
  ghost predicate Arrived<F(!new)>(job: Job<F>, s: nat, n: nat, i: nat, tile: Tile<PeState<F>>)
    requires job.Valid() && s < job.plan.steps && job.IsPe(i)
  {
    && tile.router == job.Inputs(s, job.LastA(s, n + 1, i), job.LastB(s, n + 1, i), job.TokenX(n, i), job.TokenY(n, i))
    && tile.state == job.PeAt(s, n, i).(outbox := [])
    && job.Armed(tile.tasks, tile.state)
  }

  // The drain tasks have consumed them.
  ghost predicate Absorbed<F(!new)>(job: Job<F>, s: nat, n: nat, i: nat, tile: Tile<PeState<F>>)
    requires job.Valid() && s < job.plan.steps && job.IsPe(i)
  {
    && tile.router == job.RouterAt(s, n, i)
    && tile.state == AfterDrain(job, s, n, i)
    && job.Armed(tile.tasks, tile.state)
  }

  ghost function NewX<F(!new)>(job: Job<F>, n: nat, i: nat): (q: Queue)
    requires job.plan.gridP > 0
    ensures |q| <= 1
  {
    if job.Ra(i, n + 1) == job.S() && !job.Fired(i, n) then [TOKEN] else []
  }

  ghost function NewY<F(!new)>(job: Job<F>, n: nat, i: nat): (q: Queue)
    requires job.plan.gridP > 0
    ensures |q| <= 1
  {
    if job.Rb(i, n + 1) == job.S() && !job.Fired(i, n) then [TOKEN] else []
  }

  ghost function ToldState<F(!new)>(job: Job<F>, s: nat, n: nat, i: nat): PeState<F>
    requires job.Valid() && s < job.plan.steps && job.IsPe(i)
  {
    if job.Fired(i, n) then job.Finished(s, n + 1, i) else job.Collecting(s, n + 1, i)
  }

  // A token has been delivered for each panel that is now complete.
  ghost predicate Told<F(!new)>(job: Job<F>, s: nat, n: nat, i: nat, tile: Tile<PeState<F>>)
    requires job.Valid() && s < job.plan.steps && job.IsPe(i)
  {
    && tile.router == job.Inputs(s, [], [], NewX(job, n, i), NewY(job, n, i))
    && tile.state == ToldState(job, s, n, i)
    && job.Armed(tile.tasks, tile.state)
  }

  lemma TasksBound<F(!new)>(job: Job<F>, ts: seq<Task>)
    requires job.TasksOk(ts)
    ensures Bound(ts)
  {
  }

  lemma NotBothTokens<F(!new)>(job: Job<F>, n: nat, i: nat)
    requires job.Valid() && job.IsPe(i)
    ensures job.TokenX(n, i) == [] || job.TokenY(n, i) == []
  {
    hide Job.Ra, Job.Rb;
  }

  lemma ArrivedFacts<F(!new)>(job: Job<F>, s: nat, n: nat, i: nat, tile: Tile<PeState<F>>)
    requires job.Valid() && s < job.plan.steps && job.IsPe(i) && Arrived(job, s, n, i, tile)
    ensures job.TasksOk(tile.tasks) && tile.router.Valid()
    ensures tile.router == job.Inputs(s, job.LastA(s, n + 1, i), job.LastB(s, n + 1, i), job.TokenX(n, i), job.TokenY(n, i))
  {
    hide Job.TasksOk, Job.PeAt, Job.LastA, Job.LastB, Job.TokenX, Job.TokenY;
  }

  /** Draining to quiescence empties both data channels into the buffers. */
  lemma DrainRound<F(!new)>(job: Job<F>, s: nat, n: nat, i: nat, tile: Tile<PeState<F>>, k: nat, t': Tile<PeState<F>>)
    requires job.Valid() && s < job.plan.steps && job.IsPe(i) && Arrived(job, s, n, i, tile)
    requires tile.router.Shaped() && t'.router.Shaped()
    requires Reaches(tile, job.HandlerOf(i), k, t') && Quiet(t'.tasks, t'.router)
    ensures Absorbed(job, s, n, i, t')
  {
    NotBothTokens(job, n, i);
    DrainAdvances(job, s, n, i, tile.state);
    ArrivedFacts(job, s, n, i, tile);
    assert job.plan.WellFormed();
    hide Job.TasksOk, Absorb, AfterDrain, Job.PeAt, Job.LastA, Job.LastB, Job.TokenX, Job.TokenY, Job.Inputs, Reaches, Quiet, Job.HandlerOf,
      RouterState.Shaped, RouterState.Valid, SummaPlan.WellFormed;
    Drained(job, s, i, tile, job.LastA(s, n + 1, i), job.LastB(s, n + 1, i), job.TokenX(n, i), job.TokenY(n, i), k, t');
    DrainKeepsTokens(job, s, n, i);
  }

  lemma DrainKeepsTokens<F(!new)>(job: Job<F>, s: nat, n: nat, i: nat)
    requires job.Valid() && s < job.plan.steps && job.IsPe(i)
    ensures AfterDrain(job, s, n, i).aToken == job.PeAt(s, n, i).aToken
  {
    hide Job.BufA, Job.BufB, Job.CTile, Job.Outbox;
  }

  lemma ToldShaped<F(!new)>(job: Job<F>, s: nat, n: nat, i: nat)
    requires job.Valid() && s < job.plan.steps && job.IsPe(i)
    ensures job.Shaped(ToldState(job, s, n, i))
    ensures !job.Fired(i, n) && job.Fired(i, n + 1) ==> job.Compute(job.Collecting(s, n + 1, i)) == job.Finished(s, n + 1, i)
  {
    assert job.plan.tileK * job.plan.tileM == job.plan.tileM * job.plan.tileK;
    hide Job.BufA, Job.BufB, Job.Outbox, Accumulated;
  }

  /** The accumulate fires in exactly the cycle in which the second panel completes, and at no other time. */
  lemma FireRound<F(!new)>(job: Job<F>, s: nat, n: nat, i: nat, tile: Tile<PeState<F>>, k: nat, t': Tile<PeState<F>>)
    requires job.Valid() && s < job.plan.steps && job.IsPe(i) && Told(job, s, n, i, tile)
    requires tile.router.Shaped() && t'.router.Shaped()
    requires Reaches(tile, job.HandlerOf(i), k, t') && Quiet(t'.tasks, t'.router)
    ensures job.Ready(s, n + 1, i, t')
    ensures k == if job.Fired(i, n + 1) && !job.Fired(i, n) then 1 else 0
  {
    var tx, ty := NewX(job, n, i), NewY(job, n, i);
    ToldShaped(job, s, n, i);
    ReceivedFacts(job, i, n);
    assert tx != [] && ty != [] <==> job.Fired(i, n + 1) && !job.Fired(i, n);
    assert job.Fired(i, n + 1) ==> job.TokenX(n + 1, i) == [] && job.TokenY(n + 1, i) == [];
    assert !job.Fired(i, n + 1) ==> job.TokenX(n + 1, i) == tx && job.TokenY(n + 1, i) == ty;
    assert job.Fired(i, n) ==> tx == [] && ty == [];
    assert tx != [] ==> tile.state.aToken;
    assert job.TasksOk(tile.tasks) && (tx != [] ==> tile.tasks[COMPUTE].activated);
    assert job.plan.WellFormed();
    hide Job.TasksOk, Job.Inputs, Reaches, Quiet, Job.HandlerOf, RouterState.Shaped, RouterState.Valid, SummaPlan.WellFormed,
      NewX, NewY, Job.TokenX, Job.TokenY, Job.Fired, Job.Finished, Job.Collecting, Job.Compute, Job.Shaped, Job.Ra, Job.Rb;
    Rendezvous(job, s, i, tile, tx, ty, k, t');
    FinishedDisarmed(job, s, n + 1, i);
  }

  lemma FinishedDisarmed<F(!new)>(job: Job<F>, s: nat, n: nat, i: nat)
    requires job.Valid() && s < job.plan.steps && job.IsPe(i)
    ensures !job.Finished(s, n, i).aToken
  {
  }

  // A rendezvous token joins its channel.
  lemma TokenDelivered<F(!new)>(job: Job<F>, s: nat, tx: Queue, ty: Queue)
    requires job.plan.WellFormed() && |tx| < 4 && |ty| < 4
    ensures var r := job.Inputs(s, [], [], tx, ty);
      && r.RxSpec(job.plan.xDone, TOKEN) == job.Inputs(s, [], [], tx + [TOKEN], ty)
      && r.RxSpec(job.plan.yDone, TOKEN) == job.Inputs(s, [], [], tx, ty + [TOKEN])
  {
    StepColorsDistinct(job.plan, s);
    hide SummaPlan.WellFormed, SummaPlan.AColor, SummaPlan.BColor;
    var r := job.Inputs(s, [], [], tx, ty);
    assert r.RxSpec(job.plan.xDone, TOKEN).inVc == job.Inputs(s, [], [], tx + [TOKEN], ty).inVc;
    assert r.RxSpec(job.plan.yDone, TOKEN).inVc == job.Inputs(s, [], [], tx, ty + [TOKEN]).inVc;
  }

  // Which tokens this round delivers.
  lemma TokensDue<F(!new)>(job: Job<F>, s: nat, n: nat, i: nat)
    requires job.Valid() && s < job.plan.steps && job.IsPe(i)
    ensures var st := AfterDrain(job, s, n, i); var x := !st.aToken && st.aCount >= job.S(); var y := !st.bToken && st.bCount >= job.S();
      && NewX(job, n, i) == (if x then job.TokenX(n, i) + [TOKEN] else job.TokenX(n, i))
      && NewY(job, n, i) == (if y then job.TokenY(n, i) + [TOKEN] else job.TokenY(n, i))
      && ToldState(job, s, n, i) == st.(aToken := st.aToken || x, bToken := st.bToken || y)
      && (x ==> job.TokenX(n, i) == []) && (y ==> job.TokenY(n, i) == [])
  {
    ReceivedFacts(job, i, n);
    hide Job.BufA, Job.BufB, Job.CTile, Job.Outbox, Job.X, Job.Y;
  }

  lemma ToldFacts<F(!new)>(job: Job<F>, s: nat, n: nat, i: nat, tile: Tile<PeState<F>>)
    requires job.Valid() && s < job.plan.steps && job.IsPe(i) && Told(job, s, n, i, tile)
    ensures job.TasksOk(tile.tasks) && tile.router.Valid()
  {
    hide Job.TasksOk, ToldState, NewX, NewY;
  }

  lemma AbsorbedFacts<F(!new)>(job: Job<F>, s: nat, n: nat, i: nat, tile: Tile<PeState<F>>)
    requires job.Valid() && s < job.plan.steps && job.IsPe(i) && Absorbed(job, s, n, i, tile)
    ensures job.plan.WellFormed() && tile.router.Valid()
    ensures tile.router == job.Inputs(s, [], [], job.TokenX(n, i), job.TokenY(n, i))
    ensures tile.state == AfterDrain(job, s, n, i)
    ensures job.Armed(tile.tasks, tile.state)
  {
    hide Job.Armed, AfterDrain, Job.TokenX, Job.TokenY;
  }

  // ----- All PEs at once -----

  ghost predicate Sized<F(!new)>(job: Job<F>, tiles: seq<Tile<PeState<F>>>) {
    |tiles| == job.plan.gridP * job.plan.gridP && forall i | 0 <= i < |tiles| :: job.IsPe(i)
  }

  ghost predicate AllReady<F(!new)>(job: Job<F>, s: nat, n: nat, tiles: seq<Tile<PeState<F>>>)
    requires job.Valid() && s < job.plan.steps
  {
    Sized(job, tiles) && forall i | 0 <= i < |tiles| :: job.Ready(s, n, i, tiles[i])
  }

  ghost predicate AllArrived<F(!new)>(job: Job<F>, s: nat, n: nat, tiles: seq<Tile<PeState<F>>>)
    requires job.Valid() && s < job.plan.steps
  {
    Sized(job, tiles) && forall i | 0 <= i < |tiles| :: Arrived(job, s, n, i, tiles[i])
  }

  ghost predicate AllAbsorbed<F(!new)>(job: Job<F>, s: nat, n: nat, tiles: seq<Tile<PeState<F>>>)
    requires job.Valid() && s < job.plan.steps
  {
    Sized(job, tiles) && forall i | 0 <= i < |tiles| :: Absorbed(job, s, n, i, tiles[i])
  }

  ghost predicate AllTold<F(!new)>(job: Job<F>, s: nat, n: nat, tiles: seq<Tile<PeState<F>>>)
    requires job.Valid() && s < job.plan.steps
  {
    Sized(job, tiles) && forall i | 0 <= i < |tiles| :: Told(job, s, n, i, tiles[i])
  }
}
