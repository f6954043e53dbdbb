/** Executing a SUMMA plan on the fabric: flush, seed, step, drain, rendezvous, until every step has quiesced. */
module SummaRuns {
  import opened Wavelets
  import opened Sums
  import opened Mesh
  import opened Routers
  import opened Grids
  import opened Schedulers
  import opened SummaPlans
  import opened SummaModels
  import opened SummaSteps
  import opened SummaFabrics
  import opened SummaRounds
  import opened SummaSeeding
  import opened SummaResults
  import opened SummaGathering

  const CYCLE_CAP: nat := 20000000

  ghost predicate Linked<F(!new)>(grid: Grid, scheds: seq<Scheduler<PeState<F>>>) {
    && |scheds| == |grid.pes|
    && (forall i | 0 <= i < |scheds| :: scheds[i].router == grid.pes[i])
    && (forall i, j | 0 <= i < j < |scheds| :: scheds[i] != scheds[j])
  }

  // A scheduler per PE, each on its own router.
  ghost predicate Connected<F(!new)>(job: Job<F>, grid: Grid, scheds: seq<Scheduler<PeState<F>>>)
    reads grid, grid.pes
  {
    && job.Valid()
    && grid.Valid() && grid.w == job.plan.gridP && grid.h == job.plan.gridP
    && Linked(grid, scheds)
    && (forall i | 0 <= i < |scheds| :: job.IsPe(i) && scheds[i].handler == job.HandlerOf(i))
  }

  // What every scheduler sees.
  ghost function Views<F(!new)>(scheds: seq<Scheduler<PeState<F>>>): (tiles: seq<Tile<PeState<F>>>)
    reads scheds, set i | 0 <= i < |scheds| :: scheds[i].router
    ensures |tiles| == |scheds| && forall i | 0 <= i < |scheds| :: tiles[i] == scheds[i].View()
  {
    seq(|scheds|, i requires 0 <= i < |scheds| reads scheds, set j | 0 <= j < |scheds| :: scheds[j].router => scheds[i].View())
  }

  // ----- Flush -----

  // The first k entries have gone out and left router r behind.
  ghost predicate FlushedSoFar(r0: RouterState, box: seq<Retx>, k: nat, r: RouterState)
    requires r0.Shaped() && k <= |box|
  {
    r.Shaped() && Flushed(r0, box) == (Flushed(r, box[k..]).0, Flushed(r, box[k..]).1 + k)
  }

  lemma FlushStarts(r: RouterState, box: seq<Retx>)
    requires r.Shaped()
    ensures FlushedSoFar(r, box, 0, r)
  {
    assert box[0..] == box;
  }

  lemma FlushContinues(r0: RouterState, box: seq<Retx>, k: nat, r: RouterState)
    requires r0.Shaped() && r.Shaped() && k < |box| && FlushedSoFar(r0, box, k, r)
    ensures var m := box[k];
      if r.TxAccepts(m.color, {m.dir}) then FlushedSoFar(r0, box, k + 1, r.TxSpec(m.color, {m.dir}, m.w))
      else Flushed(r0, box) == (r, k) && r.TxSpec(m.color, {m.dir}, m.w) == r
  {
    var m := box[k];
    if r.TxAccepts(m.color, {m.dir}) {
      FlushedNext(r, box, k);
      hide RouterState.TxAccepts, RouterState.TxSpec, RouterState.Shaped;
    } else {
      FlushedStops(r, box, k);
    }
  }

  lemma FlushedNext(r: RouterState, box: seq<Retx>, k: nat)
    requires r.Shaped() && k < |box| && r.TxAccepts(box[k].color, {box[k].dir})
    ensures var next := Flushed(r.TxSpec(box[k].color, {box[k].dir}, box[k].w), box[k + 1..]);
      Flushed(r, box[k..]) == (next.0, next.1 + 1)
  {
    assert box[k..][0] == box[k] && box[k..][1..] == box[k + 1..];
    hide RouterState.TxAccepts, RouterState.TxSpec, RouterState.Shaped;
  }

  lemma FlushedStops(r: RouterState, box: seq<Retx>, k: nat)
    requires r.Shaped() && k < |box| && !r.TxAccepts(box[k].color, {box[k].dir})
    ensures Flushed(r, box[k..]) == (r, 0) && r.TxSpec(box[k].color, {box[k].dir}, box[k].w) == r
  {
    assert box[k..][0] == box[k];
    hide RouterState.TxAccepts, RouterState.Shaped;
  }

  lemma FlushEnds(r0: RouterState, box: seq<Retx>, k: nat, r: RouterState)
    requires r0.Shaped() && k <= |box|
    requires Flushed(r0, box) == (r, k) || (k == |box| && FlushedSoFar(r0, box, k, r))
    ensures Flushed(r0, box) == (r, k)
  {
  }

  lemma RouterShaped(grid: Grid, x: nat, y: nat)
    requires grid.Valid() && grid.InBounds(x, y)
    ensures grid.At(x, y).State().Shaped()
  {
  }

  // Inject PE (x, y)'s outbox until a channel is full; what is left waits for the next cycle.
  method FlushOutbox<F(!new)>(grid: Grid, sched: Scheduler<PeState<F>>, x: nat, y: nat) returns (pending: bool)
    requires grid.Valid() && grid.InBounds(x, y) && sched.router == grid.At(x, y)
    modifies sched`state, grid.At(x, y)
    ensures grid.Valid()
    ensures var (r, k) := old(Flushed(sched.router.State(), sched.state.outbox));
      && sched.View() == Tile(r, old(sched.tasks), old(sched.state).(outbox := old(sched.state).outbox[k..]))
      && pending == (k < |old(sched.state).outbox|)
  {
    hide RouterState.TxSpec, RouterState.TxAccepts, RouterState.Shaped, RouterState.Valid, Grid.Valid, Flushed, FlushedSoFar, Router.State;
    RouterShaped(grid, x, y);
    ghost var r, box := sched.router.State(), sched.state.outbox;
    var k := 0;
    FlushStarts(r, box);
    while k < |sched.state.outbox|
      invariant 0 <= k <= |box| && sched.state == old(sched.state)
      invariant grid.Valid() && sched.router.State().Shaped()
      invariant FlushedSoFar(r, box, k, sched.router.State())
    {
      var m := sched.state.outbox[k];
      FlushContinues(r, box, k, sched.router.State());
      var ok := grid.Inject(x, y, m.color, {m.dir}, m.w);
      RouterShaped(grid, x, y);
      if !ok {
        break;
      }
      k := k + 1;
    }
    FlushEnds(r, box, k, sched.router.State());
    if k > 0 {
      sched.state := sched.state.(outbox := sched.state.outbox[k..]);
    }
    pending := sched.state.outbox != [];
  }

  method FlushAll<F(!new)>(job: Job<F>, grid: Grid, scheds: seq<Scheduler<PeState<F>>>, ghost s: nat, ghost n: nat)
      returns (pending: bool)
    requires Connected(job, grid, scheds) && s < job.plan.steps
    requires AllReady(job, s, n, Views(scheds))
    modifies scheds, grid.pes
    ensures Connected(job, grid, scheds) && !pending
    ensures AllCarriedTo(job, s, n, Views(scheds), Cursor(job, n))
  {
    hide Job.Ready, Carried, Job.Valid, Job.HandlerOf, Flushed, Fabric.Valid, RouterState.Valid, RouterState.Shaped, AllCarriedTo;
    pending := false;
    var p := job.plan.gridP;
    for i := 0 to |scheds|
      invariant Connected(job, grid, scheds) && !pending
      invariant forall j | 0 <= j < i :: Carried(job, s, n, j, scheds[j].View(), [], [])
      invariant forall j | i <= j < |scheds| :: job.Ready(s, n, j, scheds[j].View())
    {
      CoordsInBounds(p, p, i);
      ReadyFlushes(job, s, n, i, scheds[i].View());
      var left := FlushOutbox(grid, scheds[i], i % p, i / p);
      pending := pending || left;
    }
    AllFlushed(job, s, n, Views(scheds));
  }

  lemma ReadyFlushes<F(!new)>(job: Job<F>, s: nat, n: nat, i: nat, tile: Tile<PeState<F>>)
    requires job.Valid() && s < job.plan.steps && job.IsPe(i) && job.Ready(s, n, i, tile)
    ensures tile.router.Shaped()
    ensures var (r, k) := Flushed(tile.router, tile.state.outbox);
      k == |tile.state.outbox| && Carried(job, s, n, i, Tile(r, tile.tasks, tile.state.(outbox := tile.state.outbox[k..])), [], [])
  {
    FlushSucceeds(job, s, n, i);
    assert job.PeAt(s, n, i).outbox == job.Outbox(s, n, i);
    hide Flushed, Job.PeAt, Job.Outbox, Job.RouterAt;
    assert tile.state.outbox[|tile.state.outbox|..] == [];
  }

  // ----- Seed -----

  // Offer a seed to its PE's ramp.
  method Offer<F(!new)>(grid: Grid, scheds: seq<Scheduler<PeState<F>>>, seed: Seed, ghost i0: nat) returns (ok: bool)
    requires grid.Valid() && Linked(grid, scheds) && grid.InBounds(seed.x, seed.y)
    requires i0 == Index(grid.w, seed.x, seed.y) && i0 < |scheds|
    modifies grid.At(seed.x, seed.y)
    ensures grid.Valid()
    ensures ok == old(Views(scheds))[i0].router.TxAccepts(seed.c, {RAMP})
    ensures Views(scheds) == old(Views(scheds))[i0 := Took(old(Views(scheds))[i0], seed.c, seed.w)]
  {
    hide Fabric.Valid, RouterState.TxAccepts, RouterState.TxSpec;
    ok := grid.Inject(seed.x, seed.y, seed.c, {RAMP}, seed.w);
  }

  // Inject seeds from the cursor on until a ramp is full.
  method InjectSeeds<F(!new)>(job: Job<F>, grid: Grid, scheds: seq<Scheduler<PeState<F>>>, pending: seq<Seed>, cursor0: nat,
      a0: nat, b0: nat, ghost s: nat, ghost n: nat) returns (cursor: nat, a: nat, b: nat)
    requires Connected(job, grid, scheds) && s < job.plan.steps
    requires AreSeeds(job, s, pending) && |pending| == SeedCount(job)
    requires AllCarriedTo(job, s, n, Views(scheds), cursor0)
    modifies grid.pes
    ensures Connected(job, grid, scheds)
    ensures AllCarriedTo(job, s, n, Views(scheds), cursor) && cursor == Cursor(job, n + 1)
    ensures a == a0 + SeedsA(job.plan.gridP, cursor) - SeedsA(job.plan.gridP, cursor0)
    ensures a + b == a0 + b0 + cursor - cursor0
  {
    hide AreSeeds, AllCarriedTo, SeedCount, SeedsA, SeedAt, Job.Valid, Job.IsPe, Job.HandlerOf, SummaPlan.WellFormed, RouterState.Valid,
      RouterState.Shaped, Fabric.Valid, CarriedTo, InRound, Cursor, Took, Job.S, RouterState.TxAccepts;
    var p := job.plan.gridP;
    cursor, a, b := cursor0, a0, b0;
    RoundBounded(job, s, n, Views(scheds), cursor);
    while cursor < |pending|
      invariant Connected(job, grid, scheds)
      invariant cursor <= |pending| && AllCarriedTo(job, s, n, Views(scheds), cursor)
      invariant a == a0 + SeedsA(p, cursor) - SeedsA(p, cursor0)
      invariant a + b == a0 + b0 + cursor - cursor0
    {
      ghost var tiles := Views(scheds);
      ghost var i0 := SeedOffered(job, s, n, tiles, pending, cursor);
      var ok := Offer(grid, scheds, pending[cursor], i0);
      if !ok {
        assert Views(scheds) == tiles;
        break;
      }
      SeedsAStep(p, cursor);
      SeedFacts(job, s, pending, cursor);
      if pending[cursor].isA {
        a := a + 1;
      } else {
        b := b + 1;
      }
      cursor := cursor + 1;
    }
    RoundOver(job, s, n, Views(scheds), cursor);
  }

  // ----- Hop -----

  lemma CarriedLoaded<F(!new)>(job: Job<F>, s: nat, n: nat, f: Fabric, tiles: seq<Tile<PeState<F>>>)
    requires job.Valid() && s < job.plan.steps && f.Valid() && f.w == f.h == job.plan.gridP && |f.pes| == |tiles|
    requires AllCarriedTo(job, s, n, tiles, Cursor(job, n + 1))
    requires forall i | 0 <= i < |tiles| :: f.pes[i] == tiles[i].router
    ensures Loaded(job, s, n, f)
  {
    assert Sized(job, tiles);
    hide AllCarriedTo, Cursor, Job.Valid, Fabric.Valid, RampA, RampB, Job.PeAt, Job.Armed, Seeded;
    forall i | 0 <= i < |tiles|
      ensures tiles[i].router == Seeded(job, s, n, i, RampA(job, s, n, i), RampB(job, s, n, i))
    {
      AllSeeded(job, s, n, tiles, i);
    }
  }

  lemma NowArrived<F(!new)>(job: Job<F>, s: nat, n: nat, tiles: seq<Tile<PeState<F>>>, after: seq<Tile<PeState<F>>>)
    requires job.Valid() && s < job.plan.steps && |after| == |tiles|
    requires AllCarriedTo(job, s, n, tiles, Cursor(job, n + 1))
    requires forall i | 0 <= i < |tiles| :: job.IsPe(i) && after[i].tasks == tiles[i].tasks && after[i].state == tiles[i].state
    requires forall i | 0 <= i < |tiles| :: after[i].router ==
               job.Inputs(s, job.LastA(s, n + 1, i), job.LastB(s, n + 1, i), job.TokenX(n, i), job.TokenY(n, i))
    ensures AllArrived(job, s, n, after)
  {
    assert Sized(job, tiles);
    hide AllCarriedTo, Cursor, Job.Valid, RampA, RampB, Job.PeAt, Job.Armed, Seeded, Job.Inputs;
    forall i | 0 <= i < |tiles|
      ensures Arrived(job, s, n, i, after[i])
    {
      AllSeeded(job, s, n, tiles, i);
    }
  }

  method Hop<F(!new)>(job: Job<F>, grid: Grid, scheds: seq<Scheduler<PeState<F>>>, ghost s: nat, ghost n: nat)
    requires Connected(job, grid, scheds) && s < job.plan.steps
    requires AllCarriedTo(job, s, n, Views(scheds), Cursor(job, n + 1))
    modifies grid, grid.pes
    ensures Connected(job, grid, scheds)
    ensures AllArrived(job, s, n, Views(scheds))
    ensures grid.dropped == old(grid.dropped) && grid.cycle == old(grid.cycle) + 1
  {
    hide *;
    Wiring(job, grid, scheds);
    ghost var f, tiles := grid.State(), Views(scheds);
    CarriedLoaded(job, s, n, f, tiles);
    LoadedStep(job, s, n, f);
    grid.Step();
    assert grid.State() == f.Step();
    InstalledConnected(job, grid, scheds);
    Wiring(job, grid, scheds);
    NowArrived(job, s, n, tiles, Views(scheds));
  }

  // What connection means for the two views of the machine.
  lemma Wiring<F(!new)>(job: Job<F>, grid: Grid, scheds: seq<Scheduler<PeState<F>>>)
    requires Connected(job, grid, scheds)
    ensures job.Valid() && grid.Valid() && grid.w == grid.h == job.plan.gridP && |scheds| == |grid.pes|
    ensures grid.State().Valid() && grid.State().w == grid.State().h == job.plan.gridP && |grid.State().pes| == |scheds|
    ensures grid.State().dropped == grid.dropped && grid.State().cycle == grid.cycle
    ensures forall i | 0 <= i < |scheds| :: job.IsPe(i) && scheds[i].router == grid.pes[i] && scheds[i].handler == job.HandlerOf(i)
    ensures forall i, j | 0 <= i < j < |scheds| :: scheds[i] != scheds[j]
    ensures forall i | 0 <= i < |scheds| :: grid.State().pes[i] == Views(scheds)[i].router
    ensures forall i | 0 <= i < |scheds| :: Views(scheds)[i].tasks == scheds[i].tasks && Views(scheds)[i].state == scheds[i].state
  {
    hide Job.Valid, Job.IsPe, Job.HandlerOf, Router.State, RouterState.Valid;
  }

  // ----- Drain and fire -----

  // Receive what has arrived and queue the retransmits.
  method Drain<F(!new)>(job: Job<F>, sched: Scheduler<PeState<F>>, i: nat, ghost s: nat, ghost n: nat)
    requires job.Valid() && s < job.plan.steps && job.IsPe(i)
    requires sched.Valid() && sched.handler == job.HandlerOf(i) && Arrived(job, s, n, i, sched.View())
    modifies sched, sched.router
    ensures sched.Valid() && Absorbed(job, s, n, i, sched.View())
  {
    hide Arrived, Absorbed, Job.Valid, Job.HandlerOf, Job.IsPe, SummaPlan.WellFormed, RouterState.Valid, RouterState.Shaped, Quiet, Bound,
      Reaches, Job.TasksOk;
    ghost var tile := sched.View();
    ArrivedFacts(job, s, n, i, tile);
    TasksBound(job, tile.tasks);
    ValidShaped(tile.router);
    var k := sched.RunToQuiescence();
    ValidShaped(sched.router.State());
    DrainRound(job, s, n, i, tile, k, sched.View());
  }

  // Fire the accumulate if both tokens are there.
  method Fire<F(!new)>(job: Job<F>, sched: Scheduler<PeState<F>>, i: nat, ghost s: nat, ghost n: nat)
    requires job.Valid() && s < job.plan.steps && job.IsPe(i)
    requires sched.Valid() && sched.handler == job.HandlerOf(i) && Told(job, s, n, i, sched.View())
    modifies sched, sched.router
    ensures sched.Valid() && job.Ready(s, n + 1, i, sched.View())
  {
    hide Told, Job.Ready, Job.Valid, Job.HandlerOf, Job.IsPe, SummaPlan.WellFormed, RouterState.Valid, RouterState.Shaped, Quiet, Bound,
      Reaches, Job.TasksOk;
    ghost var tile := sched.View();
    ToldFacts(job, s, n, i, tile);
    TasksBound(job, tile.tasks);
    ValidShaped(tile.router);
    var k := sched.RunToQuiescence();
    ValidShaped(sched.router.State());
    FireRound(job, s, n, i, tile, k, sched.View());
  }

  method DrainAll<F(!new)>(job: Job<F>, grid: Grid, scheds: seq<Scheduler<PeState<F>>>, ghost s: nat, ghost n: nat)
    requires Connected(job, grid, scheds) && s < job.plan.steps
    requires AllArrived(job, s, n, Views(scheds))
    modifies scheds, grid.pes
    ensures Connected(job, grid, scheds)
    ensures AllAbsorbed(job, s, n, Views(scheds))
  {
    hide Arrived, Absorbed, Job.Valid, Job.HandlerOf, Job.IsPe, SummaPlan.WellFormed, RouterState.Valid, RouterState.Shaped, Fabric.Valid;
    for i := 0 to |scheds|
      invariant Connected(job, grid, scheds)
      invariant forall j | 0 <= j < i :: Absorbed(job, s, n, j, scheds[j].View())
      invariant forall j | i <= j < |scheds| :: Arrived(job, s, n, j, scheds[j].View())
    {
      Drain(job, scheds[i], i, s, n);
    }
  }

  lemma ValidShaped(r: RouterState)
    requires r.Valid()
    ensures r.Shaped()
  {
  }

  method FireAll<F(!new)>(job: Job<F>, grid: Grid, scheds: seq<Scheduler<PeState<F>>>, ghost s: nat, ghost n: nat)
    requires Connected(job, grid, scheds) && s < job.plan.steps
    requires AllTold(job, s, n, Views(scheds))
    modifies scheds, grid.pes
    ensures Connected(job, grid, scheds)
    ensures AllReady(job, s, n + 1, Views(scheds))
  {
    hide Told, Job.Ready, Job.Valid, Job.HandlerOf, Job.IsPe, SummaPlan.WellFormed, RouterState.Valid, RouterState.Shaped, Fabric.Valid;
    for i := 0 to |scheds|
      invariant Connected(job, grid, scheds)
      invariant forall j | 0 <= j < i :: job.Ready(s, n + 1, j, scheds[j].View())
      invariant forall j | i <= j < |scheds| :: Told(job, s, n, j, scheds[j].View())
    {
      Fire(job, scheds[i], i, s, n);
    }
  }

  // ----- Tokens -----

  // x_done: activate the accumulate and put a token on its channel.
  method DeliverX<F(!new)>(job: Job<F>, sched: Scheduler<PeState<F>>, ghost s: nat, ghost tx: Queue, ghost ty: Queue)
    requires job.plan.WellFormed() && |tx| < 4 && |ty| < 4 && sched.Valid() && job.TasksOk(sched.tasks)
    requires sched.router.State() == job.Inputs(s, [], [], tx, ty)
    modifies sched, sched.router
    ensures sched.Valid() && sched.router.State() == job.Inputs(s, [], [], tx + [TOKEN], ty)
    ensures job.TasksOk(sched.tasks) && sched.tasks[COMPUTE].activated
    ensures sched.state == old(sched.state).(aToken := true)
  {
    hide Job.Inputs, SummaPlan.WellFormed, RouterState.Valid, RouterState.Shaped, RouterState.RxSpec;
    TokenDelivered(job, s, tx, ty);
    ComputeAt(job, sched.tasks);
    sched.Activate(COMPUTE);
    var _ := sched.router.Rx(RAMP, job.plan.xDone, TOKEN);
    sched.state := sched.state.(aToken := true);
  }

  // y_done: unblock the accumulate and put a token on its channel.
  method DeliverY<F(!new)>(job: Job<F>, sched: Scheduler<PeState<F>>, ghost s: nat, ghost tx: Queue, ghost ty: Queue)
    requires job.plan.WellFormed() && |tx| < 4 && |ty| < 4 && sched.Valid() && job.TasksOk(sched.tasks)
    requires sched.router.State() == job.Inputs(s, [], [], tx, ty)
    modifies sched, sched.router
    ensures sched.Valid() && sched.router.State() == job.Inputs(s, [], [], tx, ty + [TOKEN])
    ensures sched.tasks == old(sched.tasks)
    ensures sched.state == old(sched.state).(bToken := true)
  {
    hide Job.Inputs, SummaPlan.WellFormed, RouterState.Valid, RouterState.Shaped, RouterState.RxSpec;
    TokenDelivered(job, s, tx, ty);
    ComputeAt(job, sched.tasks);
    sched.Unblock(COMPUTE);
    var _ := sched.router.Rx(RAMP, job.plan.yDone, TOKEN);
    sched.state := sched.state.(bToken := true);
  }

  // Deliver the token of each panel that has just become complete, and gate the accumulate with it.
  method Tell<F(!new)>(job: Job<F>, sched: Scheduler<PeState<F>>, i: nat, ghost s: nat, ghost n: nat)
    requires job.Valid() && s < job.plan.steps && job.IsPe(i)
    requires sched.Valid() && Absorbed(job, s, n, i, sched.View())
    modifies sched, sched.router
    ensures sched.Valid() && Told(job, s, n, i, sched.View())
  {
    ghost var tx, ty := job.TokenX(n, i), job.TokenY(n, i);
    hide Absorbed, Job.Inputs, AfterDrain, ToldState, NewX, NewY, Job.TokenX, Job.TokenY, Job.RouterAt, Job.Valid, Job.IsPe,
      SummaPlan.WellFormed, RouterState.Valid, RouterState.Shaped, Job.TasksOk;
    TokensDue(job, s, n, i);
    AbsorbedFacts(job, s, n, i, sched.View());
    if !sched.state.aToken && sched.state.aCount >= job.S() {
      DeliverX(job, sched, s, tx, ty);
      tx := tx + [TOKEN];
    }
    if !sched.state.bToken && sched.state.bCount >= job.S() {
      DeliverY(job, sched, s, tx, ty);
      ty := ty + [TOKEN];
    }
  }

  method TellAll<F(!new)>(job: Job<F>, grid: Grid, scheds: seq<Scheduler<PeState<F>>>, ghost s: nat, ghost n: nat)
    requires Connected(job, grid, scheds) && s < job.plan.steps
    requires AllAbsorbed(job, s, n, Views(scheds))
    modifies scheds, grid.pes
    ensures Connected(job, grid, scheds)
    ensures AllTold(job, s, n, Views(scheds))
  {
    hide Told, Absorbed, Job.Valid, Job.HandlerOf, Job.IsPe, SummaPlan.WellFormed, RouterState.Valid, RouterState.Shaped, Fabric.Valid;
    for i := 0 to |scheds|
      invariant Connected(job, grid, scheds)
      invariant forall j | 0 <= j < i :: Told(job, s, n, j, scheds[j].View())
      invariant forall j | i <= j < |scheds| :: Absorbed(job, s, n, j, scheds[j].View())
    {
      Tell(job, scheds[i], i, s, n);
    }
  }

  lemma ComputeAt<F(!new)>(job: Job<F>, ts: seq<Task>)
    requires job.TasksOk(ts)
    ensures Registered(ts, COMPUTE) && Position(ts, COMPUTE) == COMPUTE
    ensures job.TasksOk(ts[COMPUTE := ts[COMPUTE].(activated := true)])
    ensures ts[COMPUTE := ts[COMPUTE].(blocked := false)] == ts
  {
    assert ts[COMPUTE].id == COMPUTE;
    var k := Position(ts, COMPUTE);
    assert ts[0].id == 0 && ts[1].id == 1 && ts[2].id == 2 && ts[3].id == 3;
  }

  // ----- One step -----

  ghost predicate StepsDone<F>(tiles: seq<Tile<PeState<F>>>, s: nat) {
    forall i | 0 <= i < |tiles| :: tiles[i].state.stepsDone >= s + 1
  }

  ghost predicate FabricEmpty<F>(tiles: seq<Tile<PeState<F>>>) {
    forall i | 0 <= i < |tiles| :: tiles[i].router.Buffered() == 0
  }

  // The step is over once every seed is out, every outbox was flushed, every PE accumulated, and nothing is buffered.
  method Quiesced<F(!new)>(job: Job<F>, grid: Grid, scheds: seq<Scheduler<PeState<F>>>, cursor: nat, total: nat, outboxPending: bool, s: nat)
      returns (done: bool)
    requires Connected(job, grid, scheds)
    ensures done == (cursor == total && !outboxPending && StepsDone(Views(scheds), s) && FabricEmpty(Views(scheds)))
  {
    hide Job.Valid, Job.HandlerOf, Job.IsPe, RouterState.Buffered, Fabric.Valid, RouterState.Valid;
    ghost var tiles := Views(scheds);
    var allDone := true;
    for i := 0 to |scheds|
      invariant allDone == forall j | 0 <= j < i :: tiles[j].state.stepsDone >= s + 1
    {
      if scheds[i].state.stepsDone < s + 1 {
        allDone := false;
      }
    }
    if cursor != total || outboxPending || !allDone {
      return false;
    }
    var fabricEmpty := true;
    for i := 0 to |grid.pes|
      invariant fabricEmpty == forall j | 0 <= j < i :: tiles[j].router.Buffered() == 0
    {
      var buffered := grid.pes[i].Buffered();
      if buffered > 0 {
        fabricEmpty := false;
      }
    }
    return fabricEmpty;
  }

  lemma IdleIsEmpty<F(!new)>(job: Job<F>, s: nat)
    ensures job.Inputs(s, [], [], [], []).Buffered() == 0
  {
    var r := job.Inputs(s, [], [], [], []);
    SumOfZeros(Lens(r.inVc));
    forall d: Dir
      ensures Held(r.outVc[d]) == 0
    {
      SumOfZeros(Lens(r.outVc[d]));
    }
    SumOfZeros(HeldPerDir(r.outVc));
  }

  lemma FiredPe<F(!new)>(job: Job<F>, s: nat, i: nat, tile: Tile<PeState<F>>)
    requires job.Valid() && s < job.plan.steps && job.IsPe(i) && job.Ready(s, job.Cycles(), i, tile)
    ensures tile.state == job.Finished(s, job.Cycles(), i) && tile.state.stepsDone == s + 1
    ensures tile.router.Buffered() == 0
  {
    ReceivedFacts(job, i, job.Cycles());
    IdleIsEmpty(job, s);
    hide RouterState.Buffered, Job.CTile, Job.Outbox;
  }

  /** The exit test succeeds after exactly Cycles() cycles of a step: the far corner accumulates last. */
  lemma ExitTest<F(!new)>(job: Job<F>, s: nat, n: nat, tiles: seq<Tile<PeState<F>>>)
    requires job.Valid() && s < job.plan.steps && n <= job.Cycles() && AllReady(job, s, n, tiles)
    ensures Cursor(job, n) == SeedCount(job) && StepsDone(tiles, s) && FabricEmpty(tiles) <==> n == job.Cycles()
  {
    if n == job.Cycles() {
      assert SeedsBy(job, n) == job.S();
      assert job.S() * (2 * job.plan.gridP) == 2 * job.plan.gridP * job.S();
      hide Job.Ready, RouterState.Buffered, Job.Valid, Job.Cycles;
      forall i | 0 <= i < |tiles|
        ensures tiles[i].state.stepsDone == s + 1 && tiles[i].router.Buffered() == 0
      {
        FiredPe(job, s, i, tiles[i]);
      }
    } else {
      var p := job.plan.gridP;
      IndexInverse(p, p, p - 1, 0);
      var i := Index(p, p - 1, 0);
      CornerIsLast(job, i, n);
      assert tiles[i].state.stepsDone == s by {
        hide Job.Fired, Job.BufA, Job.BufB, Job.CTile, Job.Outbox, Job.Valid;
        assert job.Ready(s, n, i, tiles[i]);
      }
    }
  }

  // One iteration: flush, seed, hop, drain, deliver tokens, fire.
  method RunCycle<F(!new)>(job: Job<F>, grid: Grid, scheds: seq<Scheduler<PeState<F>>>, pending: seq<Seed>, cursor0: nat, a0: nat, b0: nat,
      ghost s: nat, ghost n: nat) returns (outboxPending: bool, cursor: nat, a: nat, b: nat)
    requires Connected(job, grid, scheds) && s < job.plan.steps
    requires AllReady(job, s, n, Views(scheds))
    requires AreSeeds(job, s, pending) && |pending| == SeedCount(job) && cursor0 == Cursor(job, n)
    modifies grid, grid.pes, scheds
    ensures Connected(job, grid, scheds) && !outboxPending
    ensures AllReady(job, s, n + 1, Views(scheds))
    ensures cursor == Cursor(job, n + 1)
    ensures a == a0 + SeedsA(job.plan.gridP, cursor) - SeedsA(job.plan.gridP, cursor0)
    ensures a + b == a0 + b0 + cursor - cursor0
    ensures grid.cycle == old(grid.cycle) + 1 && grid.dropped == old(grid.dropped)
  {
    hide AllReady, AllCarriedTo, AllArrived, AllAbsorbed, AllTold, AreSeeds, Cursor, SeedCount, SeedsA, Job.Valid, Job.HandlerOf, Job.IsPe,
      SummaPlan.WellFormed, Fabric.Valid, RouterState.Valid;
    outboxPending := FlushAll(job, grid, scheds, s, n);
    cursor, a, b := InjectSeeds(job, grid, scheds, pending, cursor0, a0, b0, s, n);
    Hop(job, grid, scheds, s, n);
    DrainAll(job, grid, scheds, s, n);
    TellAll(job, grid, scheds, s, n);
    FireAll(job, grid, scheds, s, n);
  }

  // Run step s to quiescence, one fabric cycle at a time.
  method RunStep<F(!new)>(job: Job<F>, grid: Grid, scheds: seq<Scheduler<PeState<F>>>, s: nat, a0: nat, b0: nat) returns (a: nat, b: nat)
    requires Connected(job, grid, scheds) && s < job.plan.steps
    requires AllReady(job, s, 0, Views(scheds))
    requires grid.cycle + job.Cycles() <= CYCLE_CAP
    modifies grid, grid.pes, scheds
    ensures Connected(job, grid, scheds)
    ensures AllReady(job, s, job.Cycles(), Views(scheds))
    ensures grid.cycle == old(grid.cycle) + job.Cycles() && grid.dropped == old(grid.dropped)
    ensures a == a0 + job.S() * job.plan.gridP && b == b0 + job.S() * job.plan.gridP
  {
    hide AllReady, AreSeeds, Cursor, SeedCount, SeedsA, Job.Valid, Job.Cycles, Job.HandlerOf, Job.IsPe, StepsDone, FabricEmpty,
      SummaPlan.WellFormed, Job.S, Fabric.Valid, RouterState.Valid;
    StepOpens(job);
    var pending := BuildSeeds(job, s);
    var cursor: nat := 0;
    ghost var n: nat := 0;
    a, b := a0, b0;
    while true
      invariant Connected(job, grid, scheds)
      invariant n < job.Cycles() && AllReady(job, s, n, Views(scheds))
      invariant cursor == Cursor(job, n)
      invariant a == a0 + SeedsA(job.plan.gridP, cursor) && a + b == a0 + b0 + cursor
      invariant grid.cycle == old(grid.cycle) + n && grid.dropped == old(grid.dropped)
      decreases job.Cycles() - n
    {
      var outboxPending;
      outboxPending, cursor, a, b := RunCycle(job, grid, scheds, pending, cursor, a, b, s, n);
      n := n + 1;
      ghost var tiles := Views(scheds);
      ExitTest(job, s, n, tiles);
      var done := Quiesced(job, grid, scheds, cursor, |pending|, outboxPending, s);
      assert Views(scheds) == tiles;
      assert done == (n == job.Cycles());
      if done {
        break;
      }
      assert grid.cycle < CYCLE_CAP;
    }
    StepCloses(job);
  }

  lemma StepOpens<F(!new)>(job: Job<F>)
    requires job.Valid()
    ensures job.Cycles() > 0 && Cursor(job, 0) == 0 && SeedsA(job.plan.gridP, 0) == 0
  {
    SeedsAWhole(job.plan.gridP, 0);
    assert job.S() > 0;
  }

  lemma StepCloses<F(!new)>(job: Job<F>)
    requires job.Valid()
    ensures var all := Cursor(job, job.Cycles());
      SeedsA(job.plan.gridP, all) == job.S() * job.plan.gridP && all == job.S() * job.plan.gridP + job.S() * job.plan.gridP
  {
    assert SeedsBy(job, job.Cycles()) == job.S();
    SeedsAWhole(job.plan.gridP, job.S());
  }

  lemma NextStepReady<F(!new)>(job: Job<F>, s: nat, tiles: seq<Tile<PeState<F>>>)
    requires job.Valid() && s + 1 < job.plan.steps && AllReady(job, s, job.Cycles(), tiles)
    ensures AllReady(job, s + 1, 0, tiles)
  {
    hide Job.PeAt, Job.RouterAt, Job.Valid, Job.Cycles, Job.TasksOk;
    forall i | 0 <= i < |tiles|
      ensures job.Ready(s + 1, 0, i, tiles[i])
    {
      NextStep(job, s, i);
    }
  }

  // ----- Setting up -----

  lemma PositionOfId(tasks: seq<Task>, id: nat)
    requires id < |tasks| && forall k | 0 <= k < |tasks| :: tasks[k].id == k
    ensures Registered(tasks, id) && Position(tasks, id) == id
  {
    assert tasks[id].id == id;
    var k := Position(tasks, id);
    assert tasks[k].id == k;
  }

  // Register a data task on the given colors under the next id.
  method Register<S(!new)>(sched: Scheduler<S>, inputs: seq<Color>, live: bool)
    requires forall k | 0 <= k < |sched.tasks| :: sched.tasks[k].id == k
    modifies sched`tasks
    ensures sched.tasks == old(sched.tasks) + [Task(|old(sched.tasks)|, Data, inputs, live, false, 0, [])]
  {
    var id := sched.AddTask(Task(|sched.tasks|, Data, inputs, false, false, 0, []));
    if live {
      PositionOfId(sched.tasks, id);
      sched.Activate(id);
    }
  }

  // PE i's scheduler: two A drains, two B drains, and the accumulate, which starts deactivated.
  method NewScheduler<F(!new)>(job: Job<F>, router: Router, i: nat) returns (sched: Scheduler<PeState<F>>)
    requires job.plan.gridP > 0
    ensures fresh(sched) && sched.router == router && sched.handler == job.HandlerOf(i)
    ensures sched.state == PeState(Zeros(job.ar, job.S()), Zeros(job.ar, job.S()), Zeros(job.ar, job.plan.tileM * job.plan.tileM),
      [], 0, 0, 0, false, false)
    ensures job.TasksOk(sched.tasks)
  {
    var p := job.plan;
    sched := new Scheduler(router, job.HandlerOf(i), PeState(Zeros(job.ar, job.S()), Zeros(job.ar, job.S()),
      Zeros(job.ar, p.tileM * p.tileM), [], 0, 0, 0, false, false));
    Register(sched, [p.aColor0], true);
    Register(sched, [p.aColor1], true);
    Register(sched, [p.bColor0], true);
    Register(sched, [p.bColor1], true);
    Register(sched, [p.xDone, p.yDone], false);
  }

  lemma StartReady<F(!new)>(job: Job<F>, i: nat, tile: Tile<PeState<F>>)
    requires job.Valid() && job.IsPe(i) && tile.router == Empty() && job.TasksOk(tile.tasks)
    requires tile.state == PeState(Zeros(job.ar, job.S()), Zeros(job.ar, job.S()), Zeros(job.ar, job.plan.tileM * job.plan.tileM),
      [], 0, 0, 0, false, false)
    ensures job.Ready(0, 0, i, tile)
  {
    FirstStep(job, i);
    hide Job.PeAt, Job.RouterAt, Job.TasksOk;
  }

  lemma InGrid<F(!new)>(job: Job<F>, i: nat)
    requires job.plan.gridP > 0 && i < job.plan.gridP * job.plan.gridP
    ensures job.IsPe(i)
  {
    CoordsInBounds(job.plan.gridP, job.plan.gridP, i);
  }

  // A scheduler installed on PE i of an idle grid.
  ghost predicate Installed<F(!new)>(job: Job<F>, grid: Grid, sched: Scheduler<PeState<F>>, i: nat)
    requires job.Valid()
    reads sched, sched.router
  {
    && i < |grid.pes| && job.IsPe(i) && sched.router == grid.pes[i] && sched.handler == job.HandlerOf(i)
    && job.Ready(0, 0, i, sched.View())
  }

  method Install<F(!new)>(job: Job<F>, grid: Grid, i: nat) returns (sched: Scheduler<PeState<F>>)
    requires job.Valid() && i < |grid.pes| && |grid.pes| == job.plan.gridP * job.plan.gridP && grid.pes[i].State() == Empty()
    ensures fresh(sched) && Installed(job, grid, sched, i)
  {
    var p := job.plan.gridP;
    assert p > 0;
    hide Job.Valid, Job.HandlerOf, Job.Ready, Empty, Job.TasksOk, Zeros, SummaPlan.WellFormed, Job.IsPe, Job.S;
    InGrid(job, i);
    sched := NewScheduler(job, grid.pes[i], i);
    StartReady(job, i, sched.View());
  }

  // A scheduler for every PE of an empty grid.
  method InstallAll<F(!new)>(job: Job<F>, grid: Grid) returns (scheds: seq<Scheduler<PeState<F>>>)
    requires job.Valid() && grid.Valid() && |grid.pes| == job.plan.gridP * job.plan.gridP
    requires forall i | 0 <= i < |grid.pes| :: grid.pes[i].State() == Empty()
    ensures fresh(scheds) && |scheds| == |grid.pes|
    ensures forall i | 0 <= i < |scheds| :: Installed(job, grid, scheds[i], i)
    ensures forall i, j | 0 <= i < j < |scheds| :: scheds[i] != scheds[j]
  {
    hide Job.Valid, Installed, Empty, Grid.Valid, Router.State, RouterState.Valid;
    scheds := [];
    while |scheds| < |grid.pes|
      invariant |scheds| <= |grid.pes| && fresh(scheds)
      invariant forall i | 0 <= i < |scheds| :: Installed(job, grid, scheds[i], i)
      invariant forall i, j | 0 <= i < j < |scheds| :: scheds[i] != scheds[j]
      decreases |grid.pes| - |scheds|
    {
      var sched := Install(job, grid, |scheds|);
      scheds := scheds + [sched];
    }
  }

  method Setup<F(!new)>(job: Job<F>) returns (grid: Grid, scheds: seq<Scheduler<PeState<F>>>)
    requires job.Valid()
    ensures fresh(grid) && fresh(grid.pes) && fresh(scheds)
    ensures Connected(job, grid, scheds) && grid.cycle == 0 && grid.dropped == 0
    ensures AllReady(job, 0, 0, Views(scheds))
  {
    hide *;
    GridPositive(job);
    var p := job.plan.gridP;
    grid := new Grid(p, p);
    NewGrid(grid, p);
    scheds := InstallAll(job, grid);
    AllInstalled(job, grid, scheds);
    InstalledConnected(job, grid, scheds);
  }

  lemma GridPositive<F(!new)>(job: Job<F>)
    requires job.Valid()
    ensures job.plan.gridP > 0
  {
  }

  lemma NewGrid(grid: Grid, p: nat)
    requires grid.Valid() && grid.State() == Fabric(p, p, seq(p * p, _ => Empty()), 0, 0)
    ensures grid.w == p && grid.h == p && grid.cycle == 0 && grid.dropped == 0 && |grid.pes| == p * p
    ensures forall i | 0 <= i < |grid.pes| :: grid.pes[i].State() == Empty()
  {
    hide Empty, Router.State;
    ghost var f := grid.State();
    assert forall i | 0 <= i < |grid.pes| :: grid.pes[i].State() == f.pes[i];
  }

  lemma InstalledConnected<F(!new)>(job: Job<F>, grid: Grid, scheds: seq<Scheduler<PeState<F>>>)
    requires job.Valid() && grid.Valid() && grid.w == job.plan.gridP && grid.h == job.plan.gridP && |scheds| == |grid.pes|
    requires forall i | 0 <= i < |scheds| :: job.IsPe(i) && scheds[i].router == grid.pes[i] && scheds[i].handler == job.HandlerOf(i)
    requires forall i, j | 0 <= i < j < |scheds| :: scheds[i] != scheds[j]
    ensures Connected(job, grid, scheds)
  {
    hide Job.Valid, Job.IsPe, Job.HandlerOf, Grid.Valid;
  }

  lemma AllInstalled<F(!new)>(job: Job<F>, grid: Grid, scheds: seq<Scheduler<PeState<F>>>)
    requires job.Valid() && |scheds| == |grid.pes| == job.plan.gridP * job.plan.gridP
    requires forall i | 0 <= i < |scheds| :: Installed(job, grid, scheds[i], i)
    ensures AllReady(job, 0, 0, Views(scheds))
    ensures forall i | 0 <= i < |scheds| :: job.IsPe(i) && scheds[i].router == grid.pes[i] && scheds[i].handler == job.HandlerOf(i)
  {
    assert 0 < job.plan.steps;
    hide Job.Ready, Job.Valid, Job.HandlerOf, Job.IsPe;
    forall i | 0 <= i < |scheds|
      ensures job.IsPe(i) && job.Ready(0, 0, i, Views(scheds)[i])
    {
      assert Installed(job, grid, scheds[i], i);
    }
  }

  // ----- The whole run -----

  ghost function CTiles<F>(tiles: seq<Tile<PeState<F>>>): (cs: seq<seq<F>>)
    ensures |cs| == |tiles|
    ensures forall i | 0 <= i < |tiles| :: cs[i] == tiles[i].state.cTile
  {
    seq(|tiles|, i requires 0 <= i < |tiles| => tiles[i].state.cTile)
  }

  // Copy every PE's tile to its place in the m x n result.
  method Gather<F(!new)>(p: SummaPlan, zero: F, scheds: seq<Scheduler<PeState<F>>>) returns (c: array<F>)
    requires p.WellFormed() && |scheds| == p.gridP * p.gridP
    requires forall k | 0 <= k < |scheds| :: |scheds[k].state.cTile| == p.tileM * p.tileM
    ensures fresh(c)
    ensures p.n == p.gridP * p.tileM && p.tileM > 0 && p.n > 0 && Gathered(p.gridP, p.tileM, p.n, CTiles(Views(scheds)), c[..], p.gridP * p.gridP, 0)
  {
    var P, T, n := p.gridP, p.tileM, p.n;
    assert p.m == n && T > 0 && n > 0 && n == P * T;
    c := new F[p.m * n](_ => zero);
    ghost var tiles := CTiles(Views(scheds));
    NothingYet(P, T, n, tiles, c[..]);
    hide Gathered, SummaPlan.WellFormed, InPlace, TileOf, CellOf;
    for y := 0 to P
      invariant Gathered(P, T, n, tiles, c[..], Index(P, 0, y), 0)
    {
      for x := 0 to P
        invariant Gathered(P, T, n, tiles, c[..], Index(P, x, y), 0)
      {
        IndexInverse(P, P, x, y);
        GatherTile(P, T, n, c, tiles, scheds[Index(P, x, y)].state.cTile, y, x);
      }
      RowEnds(P, y);
    }
  }

  method GatherTile<F>(P: nat, T: nat, n: nat, c: array<F>, ghost tiles: seq<seq<F>>, tile: seq<F>, y: nat, x: nat)
    requires T > 0 && n > 0 && n == P * T && y < P && x < P
    requires Gathered(P, T, n, tiles, c[..], Index(P, x, y), 0)
    requires Index(P, x, y) < |tiles| && tile == tiles[Index(P, x, y)]
    modifies c
    ensures Gathered(P, T, n, tiles, c[..], Index(P, x + 1, y), 0)
  {
    hide Gathered;
    ghost var pe := Index(P, x, y);
    for i := 0 to T
      invariant Gathered(P, T, n, tiles, c[..], pe, Index(T, 0, i))
    {
      for j := 0 to T
        invariant Gathered(P, T, n, tiles, c[..], pe, Index(T, j, i))
      {
        GatherNext(P, T, n, tiles, c[..], y, x, i, j);
        var grow, gcol := Index(T, i, y), Index(T, j, x);
        ghost var before := c[..];
        c[Index(n, gcol, grow)] := tile[Index(T, j, i)];
        assert c[..] == before[Index(n, gcol, grow) := tile[Index(T, j, i)]];
      }
      RowEnds(T, i);
    }
    TileFull(P, T, n, tiles, c[..], pe);
  }

  // Panels accumulated so far, over all PEs.
  method CountComputes<F(!new)>(scheds: seq<Scheduler<PeState<F>>>, ghost each: nat) returns (total: nat)
    requires forall i | 0 <= i < |scheds| :: scheds[i].state.stepsDone == each
    ensures total == |scheds| * each
  {
    total := 0;
    for i := 0 to |scheds|
      invariant total == i * each
    {
      total := total + scheds[i].state.stepsDone;
    }
  }

  datatype SummaResult<F> = SummaResult(
    c: seq<F>, cycles: nat, panelComputes: nat, aWavelets: nat, bWavelets: nat, droppedOffGrid: nat)

  lemma AllFinished<F(!new)>(job: Job<F>, tiles: seq<Tile<PeState<F>>>)
    requires job.Valid() && AllReady(job, job.plan.steps - 1, job.Cycles(), tiles)
    ensures |tiles| == job.plan.gridP * job.plan.gridP
    ensures forall i | 0 <= i < |tiles| :: job.IsPe(i) && tiles[i].state.stepsDone == job.plan.steps
    ensures forall i | 0 <= i < |tiles| :: tiles[i].state.cTile == job.CTile(job.plan.steps, i)
  {
    var s: nat := job.plan.steps - 1;
    hide Job.Ready, RouterState.Buffered, Job.Valid, Job.Cycles, Job.CTile;
    forall i | 0 <= i < |tiles|
      ensures tiles[i].state.stepsDone == job.plan.steps
      ensures tiles[i].state.cTile == job.CTile(job.plan.steps, i)
    {
      FiredPe(job, s, i, tiles[i]);
    }
  }

  // The product as the reference computes it: every cell a left-to-right fold of one FMA lane over k = 0 .. K - 1.
  ghost predicate IsProduct<F(!new)>(job: Job<F>, c: seq<F>)
    requires job.Valid()
  {
    && |c| == job.plan.m * job.plan.n
    && forall r, q | 0 <= r < job.plan.m && 0 <= q < job.plan.n ::
         Elem(c, job.plan.m, job.plan.n, r, q) ==
         job.ar.fromHalf(DotHalf(job.ar, job.a, job.b, job.plan.m, job.plan.k, job.plan.n, r, q, job.plan.k))
  }

  lemma GatheredProduct<F(!new)>(job: Job<F>, tiles: seq<seq<F>>, c: seq<F>)
    requires job.Valid() && job.ar.Lawful() && job.S() <= 0x1_0000
    requires |tiles| == job.plan.gridP * job.plan.gridP
    requires forall i | 0 <= i < |tiles| :: job.IsPe(i) && tiles[i] == job.CTile(job.plan.steps, i)
    requires job.plan.n == job.plan.gridP * job.plan.tileM && job.plan.n > 0
    requires Gathered(job.plan.gridP, job.plan.tileM, job.plan.n, tiles, c, job.plan.gridP * job.plan.gridP, 0)
    ensures IsProduct(job, c)
  {
    var p := job.plan;
    assert p.m == p.n && |c| == p.m * p.n;
    hide Gathered, Job.CTile;
    forall r, q | 0 <= r < p.m && 0 <= q < p.n
      ensures Elem(c, p.m, p.n, r, q) == job.ar.fromHalf(DotHalf(job.ar, job.a, job.b, p.m, p.k, p.n, r, q, p.k))
    {
      GatheredCell(job, tiles, c, r, q);
    }
  }

  lemma GatheredCell<F(!new)>(job: Job<F>, tiles: seq<seq<F>>, c: seq<F>, r: nat, q: nat)
    requires job.Valid() && job.ar.Lawful() && job.S() <= 0x1_0000
    requires |tiles| == job.plan.gridP * job.plan.gridP
    requires forall i | 0 <= i < |tiles| :: job.IsPe(i) && tiles[i] == job.CTile(job.plan.steps, i)
    requires job.plan.n == job.plan.gridP * job.plan.tileM && job.plan.n > 0
    requires Gathered(job.plan.gridP, job.plan.tileM, job.plan.n, tiles, c, job.plan.gridP * job.plan.gridP, 0)
    requires r < job.plan.m && q < job.plan.n && |c| == job.plan.m * job.plan.n
    ensures Elem(c, job.plan.m, job.plan.n, r, q) ==
      job.ar.fromHalf(DotHalf(job.ar, job.a, job.b, job.plan.m, job.plan.k, job.plan.n, r, q, job.plan.k))
  {
    var P, T, n := job.plan.gridP, job.plan.tileM, job.plan.n;
    IndexInverse(n, n, q, r);
    var pos := Index(n, q, r);
    CoordsOf(P, T, n, pos);
    var i, y, x := TileOf(P, T, n, pos), CellY(T, n, pos), CellX(T, n, pos);
    assert InPlace(P, T, n, tiles, c, P * P, 0, pos);
    QuotRemOf(P, P, TileX(T, n, pos), TileY(T, n, pos));
    assert Row(job, i, y) == r && Col(job, i, x) == q;
    assert IsCell(job, i, y, x);
    TileHolds(job, job.plan.steps, i, y, x);
  }

  // All steps, one after the other, on an empty grid.
  method RunSteps<F(!new)>(job: Job<F>, grid: Grid, scheds: seq<Scheduler<PeState<F>>>) returns (a: nat, b: nat)
    requires Connected(job, grid, scheds) && AllReady(job, 0, 0, Views(scheds))
    requires job.plan.gridP > 0 && job.plan.steps > 0 && Elapsed(job, job.plan.steps) <= CYCLE_CAP
    requires job.Valid() && grid.cycle == 0 && grid.dropped == 0
    modifies grid, grid.pes, scheds
    ensures Connected(job, grid, scheds)
    ensures AllReady(job, job.plan.steps - 1, job.Cycles(), Views(scheds))
    ensures grid.cycle == Elapsed(job, job.plan.steps) && grid.dropped == 0
    ensures a == b == Injected(job, job.plan.steps)
  {
    hide *;
    var steps := job.plan.steps;
    NoTotals(job);
    a, b := 0, 0;
    for s := 0 to steps
      invariant Connected(job, grid, scheds)
      invariant s < steps ==> AllReady(job, s, 0, Views(scheds))
      invariant s == steps ==> AllReady(job, s - 1, job.Cycles(), Views(scheds))
      invariant grid.cycle == Elapsed(job, s) && grid.dropped == 0
      invariant a == b == Injected(job, s)
    {
      StepTotals(job, s);
      a, b := RunStep(job, grid, scheds, s, a, b);
      if s + 1 < steps {
        NextStepReady(job, s, Views(scheds));
      }
    }
  }

  // Collect the result once every panel has been accumulated.
  method Collect<F(!new)>(job: Job<F>, scheds: seq<Scheduler<PeState<F>>>) returns (c: array<F>, computes: nat)
    requires job.Valid() && AllReady(job, job.plan.steps - 1, job.Cycles(), Views(scheds))
    ensures computes == job.plan.gridP * job.plan.gridP * job.plan.steps
    ensures job.ar.Lawful() && job.S() <= 0x1_0000 ==> IsProduct(job, c[..])
  {
    var p := job.plan;
    assert p.WellFormed();
    hide Job.Valid, Job.HandlerOf, Job.Cycles, AllReady, IsProduct, SummaPlan.WellFormed, Job.IsPe, Gathered, Job.CTile, Arith.Lawful;
    ghost var tiles := Views(scheds);
    AllFinished(job, tiles);
    c := Gather(p, job.ar.zero, scheds);
    assert Views(scheds) == tiles;
    if job.ar.Lawful() && job.S() <= 0x1_0000 {
      GatheredProduct(job, CTiles(tiles), c[..]);
    }
    computes := CountComputes(scheds, p.steps);
  }

  /** Run the plan: it terminates, under the closed-form cycle count, with every panel accumulated once and no wavelet lost. */
  method RunSumma<F(!new)>(job: Job<F>) returns (r: SummaResult<F>)
    requires job.Valid()
    requires Elapsed(job, job.plan.steps) <= CYCLE_CAP
    ensures r.cycles == Elapsed(job, job.plan.steps)
    ensures r.panelComputes == job.plan.gridP * job.plan.gridP * job.plan.steps
    ensures r.aWavelets == r.bWavelets == Injected(job, job.plan.steps)
    ensures r.droppedOffGrid == 0
    ensures job.ar.Lawful() && job.S() <= 0x1_0000 ==> IsProduct(job, r.c)
  {
    assert job.plan.gridP > 0 && job.plan.steps > 0;
    hide Connected, Job.Valid, Job.Cycles, Job.S, AllReady, Elapsed, Injected, IsProduct, Arith.Lawful;
    var grid, scheds := Setup(job);
    var a, b := RunSteps(job, grid, scheds);
    var c, computes := Collect(job, scheds);
    r := SummaResult(c[..], grid.cycle, computes, a, b, grid.dropped);
  }

  // Seeds of each operand injected by s steps.
  function Injected<F(!new)>(job: Job<F>, s: nat): nat {
    job.plan.gridP * job.S() * s
  }

  function Elapsed<F(!new)>(job: Job<F>, s: nat): nat
    requires job.plan.gridP > 0
  {
    s * job.Cycles()
  }

  lemma NoTotals<F(!new)>(job: Job<F>)
    requires job.plan.gridP > 0
    ensures Elapsed(job, 0) == Injected(job, 0) == 0
  {
  }

  lemma StepTotals<F(!new)>(job: Job<F>, s: nat)
    requires job.Valid() && s < job.plan.steps && Elapsed(job, job.plan.steps) <= CYCLE_CAP
    ensures Injected(job, s + 1) == Injected(job, s) + job.S() * job.plan.gridP
    ensures Elapsed(job, s) + job.Cycles() == Elapsed(job, s + 1) <= CYCLE_CAP
  {
    MulMonotone(s + 1, job.plan.steps, job.Cycles());
  }

  /** Two plans for the same operands, whatever their grids and slab widths, compute the same matrix. */
  lemma PlanIndependent<F(!new)>(j1: Job<F>, j2: Job<F>, c1: seq<F>, c2: seq<F>)
    requires j1.Valid() && j2.Valid() && j1.ar == j2.ar && j1.a == j2.a && j1.b == j2.b
    requires j1.plan.m == j2.plan.m && j1.plan.k == j2.plan.k && j1.plan.n == j2.plan.n
    requires IsProduct(j1, c1) && IsProduct(j2, c2)
    ensures c1 == c2
  {
    var m, n := j1.plan.m, j1.plan.n;
    hide DotHalf;
    forall q | 0 <= q < m * n
      ensures c1[q] == c2[q]
    {
      CoordsInBounds(n, m, q);
      assert Elem(c1, m, n, q / n, q % n) == Elem(c2, m, n, q / n, q % n);
    }
  }

  // Slack over the critical path of n steps of q + p - 1 cycles each.
  lemma Slack(n: nat, q: nat, p: nat)
    requires n > 0 && q > 0 && p > 0
    ensures n * (q + p - 1) == (p - 1 + n) + n * (q - 1) + (n - 1) * (p - 1)
    ensures n * (q - 1) >= 0 && (n - 1) * (p - 1) >= 0
    ensures n * (q - 1) == 0 <==> q == 1
    ensures (n - 1) * (p - 1) == 0 <==> n == 1 || p == 1
  {
  }

  /** A run is never shorter than the critical path, a fill of P - 1 hops and one cycle per step, and only this short when each panel
      goes out in one cycle and either the grid or the schedule is trivial. */
  lemma CriticalPath<F(!new)>(job: Job<F>)
    requires job.Valid()
    ensures var bound := job.plan.gridP - 1 + job.plan.steps;
      && Elapsed(job, job.plan.steps) >= bound
      && (Elapsed(job, job.plan.steps) == bound <==> job.S() <= 4 && (job.plan.steps == 1 || job.plan.gridP == 1))
  {
    var q := (job.S() + 3) / 4;
    assert job.S() > 0;
    Slack(job.plan.steps, q, job.plan.gridP);
    hide Job.Valid;
  }
}
