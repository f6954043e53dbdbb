/** The source injections of a step: what they are, in which order, and how many the ramps take each cycle. */
module SummaSeeding {
  import opened Wavelets
  import opened Mesh
  import opened Routers
  import opened Grids
  import opened Schedulers
  import opened SummaPlans
  import opened SummaModels
  import opened SummaSteps
  import opened SummaFabrics
  import opened SummaRounds

  datatype Seed = Seed(x: nat, y: nat, c: Color, w: Wavelet, isA: bool)

  // Round t seeds element t of every row's A panel, then of every column's B panel.
  function SeedOf<F(!new)>(job: Job<F>, s: nat, t: nat, r: nat): Seed
    requires job.Valid() && s < job.plan.steps && t < job.S() && r < 2 * job.plan.gridP
  {
    var p := job.plan.gridP;
    if r < p then Seed(0, r, job.plan.AColor(s), job.AWave(s, r, t), true)
    else Seed(r - p, p - 1, job.plan.BColor(s), job.BWave(s, r - p, t), false)
  }

  function SeedCount<F(!new)>(job: Job<F>): nat {
    2 * job.plan.gridP * job.S()
  }

  ghost function SeedAt<F(!new)>(job: Job<F>, s: nat, q: nat): Seed
    requires job.Valid() && s < job.plan.steps && q < 2 * job.plan.gridP * job.S()
  {
    CoordsInBounds(2 * job.plan.gridP, job.S(), q);
    SeedOf(job, s, q / (2 * job.plan.gridP), q % (2 * job.plan.gridP))
  }

  lemma SeedIs<F(!new)>(job: Job<F>, s: nat, t: nat, r: nat)
    requires job.Valid() && s < job.plan.steps && t < job.S() && r < 2 * job.plan.gridP
    ensures var q := t * (2 * job.plan.gridP) + r;
      q < 2 * job.plan.gridP * job.S() && SeedAt(job, s, q) == SeedOf(job, s, t, r)
  {
    hide SeedOf;
    IndexInverse(2 * job.plan.gridP, job.S(), r, t);
  }

  // The first entries of the step's seed list.
  ghost predicate AreSeeds<F(!new)>(job: Job<F>, s: nat, pending: seq<Seed>)
    requires job.Valid() && s < job.plan.steps
  {
    && |pending| <= 2 * job.plan.gridP * job.S()
    && forall q | 0 <= q < |pending| :: pending[q] == SeedAt(job, s, q)
  }

  lemma SeedsGrow<F(!new)>(job: Job<F>, s: nat, pending: seq<Seed>, t: nat, r: nat)
    requires job.Valid() && s < job.plan.steps && t < job.S() && r < 2 * job.plan.gridP
    requires AreSeeds(job, s, pending) && |pending| == t * (2 * job.plan.gridP) + r
    ensures AreSeeds(job, s, pending + [SeedOf(job, s, t, r)])
  {
    SeedIs(job, s, t, r);
    hide SeedAt, SeedOf, Job.Valid;
  }

  method BuildSeeds<F(!new)>(job: Job<F>, s: nat) returns (pending: seq<Seed>)
    requires job.Valid() && s < job.plan.steps
    ensures AreSeeds(job, s, pending) && |pending| == SeedCount(job)
  {
    var p := job.plan.gridP;
    assert p > 0;
    pending := [];
    assert AreSeeds(job, s, pending);
    hide AreSeeds, SeedAt, Job.Valid, Job.AWave, Job.BWave, SummaPlan.AColor, SummaPlan.BColor;
    for t := 0 to job.S()
      invariant AreSeeds(job, s, pending) && |pending| == t * (2 * p)
    {
      for y := 0 to p
        invariant AreSeeds(job, s, pending) && |pending| == t * (2 * p) + y
      {
        SeedsGrow(job, s, pending, t, y);
        pending := pending + [Seed(0, y, job.plan.AColor(s), job.AWave(s, y, t), true)];
      }
      for x := 0 to p
        invariant AreSeeds(job, s, pending) && |pending| == t * (2 * p) + p + x
      {
        SeedsGrow(job, s, pending, t, p + x);
        pending := pending + [Seed(x, p - 1, job.plan.BColor(s), job.BWave(s, x, t), false)];
      }
    }
  }

  lemma SeedFacts<F(!new)>(job: Job<F>, s: nat, pending: seq<Seed>, q: nat)
    requires job.Valid() && s < job.plan.steps && AreSeeds(job, s, pending) && q < |pending|
    ensures q < 2 * job.plan.gridP * job.S() && pending[q] == SeedAt(job, s, q)
    ensures pending[q].x < job.plan.gridP && pending[q].y < job.plan.gridP
    ensures pending[q].isA <==> q % (2 * job.plan.gridP) < job.plan.gridP
  {
    CoordsInBounds(2 * job.plan.gridP, job.S(), q);
    assert 0 < job.plan.gridP;
    hide Job.Valid, Job.AWave, Job.BWave, SummaPlan.AColor, SummaPlan.BColor;
  }

  // ----- How far the injection has come -----

  // Of the first q seeds, those at offset o of a round of d.
  ghost function Upto(d: nat, o: nat, q: nat): nat
    requires d > 0
  {
    q / d + if o < q % d then 1 else 0
  }

  lemma UptoStep(d: nat, o: nat, q: nat)
    requires o < d
    ensures Upto(d, o, q + 1) == Upto(d, o, q) + if q % d == o then 1 else 0
  {
    var t, r := q / d, q % d;
    assert q == t * d + r;
    if r + 1 < d {
      DivModUnique(d, q + 1, t, r + 1);
    } else {
      assert (t + 1) * d == t * d + d;
      DivModUnique(d, q + 1, t + 1, 0);
    }
  }

  lemma UptoWhole(d: nat, o: nat, t: nat)
    requires o < d
    ensures Upto(d, o, t * d) == t
  {
    DivModUnique(d, t * d, t, 0);
  }

  lemma UptoBetween(d: nat, o: nat, lo: nat, hi: nat, q: nat)
    requires o < d && lo * d <= q <= hi * d
    ensures lo <= Upto(d, o, q) <= hi
    ensures q < hi * d ==> lo <= q / d < hi
    ensures q == hi * d ==> q / d == hi && q % d == 0
  {
    if q / d < lo {
      MulMonotone(q / d + 1, lo, d);
    }
    if hi < q / d {
      MulMonotone(hi + 1, q / d, d);
    }
    if q / d == hi {
      assert q == hi * d + q % d;
    }
    if q == hi * d {
      DivModUnique(d, q, hi, 0);
    }
  }

  // Panel elements seeded by the start of cycle n of a step, and by its end.
  function SeedsBy<F(!new)>(job: Job<F>, n: int): (r: nat)
    ensures r <= job.S()
  {
    job.Clamp(4 * n)
  }

  // Where the cursor stands at the start of cycle n.
  function Cursor<F(!new)>(job: Job<F>, n: int): nat {
    SeedsBy(job, n) * (2 * job.plan.gridP)
  }

  ghost predicate InRound<F(!new)>(job: Job<F>, n: nat, q: nat)
  {
    Cursor(job, n) <= q <= Cursor(job, n + 1)
  }

  // A seeds among the first q.
  ghost function SeedsA(p: nat, q: nat): nat
    requires p > 0
  {
    q / (2 * p) * p + if q % (2 * p) < p then q % (2 * p) else p
  }

  lemma SeedsAStep(p: nat, q: nat)
    requires p > 0
    ensures SeedsA(p, q + 1) == SeedsA(p, q) + if q % (2 * p) < p then 1 else 0
  {
    var d := 2 * p;
    var t, r := q / d, q % d;
    assert q == t * d + r;
    if r + 1 < d {
      DivModUnique(d, q + 1, t, r + 1);
    } else {
      assert (t + 1) * d == t * d + d;
      DivModUnique(d, q + 1, t + 1, 0);
      assert (t + 1) * p == t * p + p;
    }
  }

  lemma SeedsAWhole(p: nat, t: nat)
    requires p > 0
    ensures SeedsA(p, t * (2 * p)) == t * p && t * (2 * p) - t * p == t * p
  {
    DivModUnique(2 * p, t * (2 * p), t, 0);
  }

  // What waits on PE i's ramp when the cursor has reached q.
  ghost function WaitingA<F(!new)>(job: Job<F>, s: nat, n: nat, i: nat, q: nat): (w: Queue)
    requires job.Valid() && s < job.plan.steps && job.IsPe(i) && InRound(job, n, q)
    ensures |w| <= 4
  {
    UptoBetween(2 * job.plan.gridP, job.Y(i), SeedsBy(job, n), SeedsBy(job, n + 1), q);
    if job.X(i) == 0 then job.AWaves(s, job.Y(i), SeedsBy(job, n), Upto(2 * job.plan.gridP, job.Y(i), q)) else []
  }

  ghost function WaitingB<F(!new)>(job: Job<F>, s: nat, n: nat, i: nat, q: nat): (w: Queue)
    requires job.Valid() && s < job.plan.steps && job.IsPe(i) && InRound(job, n, q)
    ensures |w| <= 4
  {
    var p := job.plan.gridP;
    UptoBetween(2 * p, p + job.X(i), SeedsBy(job, n), SeedsBy(job, n + 1), q);
    if job.Y(i) == p - 1 then job.BWaves(s, job.X(i), SeedsBy(job, n), Upto(2 * p, p + job.X(i), q)) else []
  }

  lemma CursorInRound<F(!new)>(job: Job<F>, n: nat)
    ensures InRound(job, n, Cursor(job, n)) && InRound(job, n, Cursor(job, n + 1))
  {
    MulMonotone(SeedsBy(job, n), SeedsBy(job, n + 1), 2 * job.plan.gridP);
  }

  lemma RoundStarts<F(!new)>(job: Job<F>, s: nat, n: nat, i: nat)
    requires job.Valid() && s < job.plan.steps && job.IsPe(i)
    ensures InRound(job, n, Cursor(job, n))
    ensures WaitingA(job, s, n, i, Cursor(job, n)) == []
    ensures WaitingB(job, s, n, i, Cursor(job, n)) == []
  {
    var p := job.plan.gridP;
    MulMonotone(SeedsBy(job, n), SeedsBy(job, n + 1), 2 * p);
    UptoWhole(2 * p, job.Y(i), SeedsBy(job, n));
    UptoWhole(2 * p, p + job.X(i), SeedsBy(job, n));
    hide InRound, SeedsBy, Upto, Job.X, Job.Y;
  }

  lemma RoundEnds<F(!new)>(job: Job<F>, s: nat, n: nat, i: nat)
    requires job.Valid() && s < job.plan.steps && job.IsPe(i)
    ensures InRound(job, n, Cursor(job, n + 1))
    ensures WaitingA(job, s, n, i, Cursor(job, n + 1)) == RampA(job, s, n, i)
    ensures WaitingB(job, s, n, i, Cursor(job, n + 1)) == RampB(job, s, n, i)
  {
    var p := job.plan.gridP;
    MulMonotone(SeedsBy(job, n), SeedsBy(job, n + 1), 2 * p);
    UptoWhole(2 * p, job.Y(i), SeedsBy(job, n + 1));
    UptoWhole(2 * p, p + job.X(i), SeedsBy(job, n + 1));
    hide InRound, Upto, Job.X, Job.Y;
  }

  // ----- One injection -----

  // PE i's ramp is the one the seed at offset r of its round goes to.
  ghost predicate HitsA<F(!new)>(job: Job<F>, i: nat, r: nat)
    requires job.plan.gridP > 0
  {
    job.X(i) == 0 && r == job.Y(i)
  }

  ghost predicate HitsB<F(!new)>(job: Job<F>, i: nat, r: nat)
    requires job.plan.gridP > 0
  {
    job.Y(i) == job.plan.gridP - 1 && r == job.plan.gridP + job.X(i)
  }

  lemma CursorMoves<F(!new)>(job: Job<F>, n: nat, q: nat, o: nat)
    requires job.Valid() && InRound(job, n, q) && q < 2 * job.plan.gridP * job.S() && o < 2 * job.plan.gridP
    ensures var d, lo, t := 2 * job.plan.gridP, SeedsBy(job, n), q / (2 * job.plan.gridP);
      && 0 <= t < job.S() && lo <= t <= lo + 4
      && (InRound(job, n, q + 1) <==> t < lo + 4)
      && Upto(d, o, q + 1) == (if q % d == o then t + 1 else Upto(d, o, q))
      && (q % d == o ==> Upto(d, o, q) == t)
  {
    var p := job.plan.gridP;
    CoordsInBounds(2 * p, job.S(), q);
    UptoStep(2 * p, o, q);
    UptoBetween(2 * p, o, SeedsBy(job, n), SeedsBy(job, n + 1), q);
    var hi := SeedsBy(job, n + 1);
    if q == hi * (2 * p) {
      assert hi < job.S();
    }
    hide Job.Valid, Upto;
  }

  lemma WaitStepA<F(!new)>(job: Job<F>, s: nat, n: nat, i: nat, q: nat)
    requires job.Valid() && s < job.plan.steps && job.IsPe(i) && InRound(job, n, q) && q < 2 * job.plan.gridP * job.S()
    ensures 0 <= q / (2 * job.plan.gridP) < job.S()
    ensures HitsA(job, i, q % (2 * job.plan.gridP)) ==> (|WaitingA(job, s, n, i, q)| < 4 <==> InRound(job, n, q + 1))
    ensures InRound(job, n, q + 1) ==>
      WaitingA(job, s, n, i, q + 1) == WaitingA(job, s, n, i, q) +
        if HitsA(job, i, q % (2 * job.plan.gridP)) then [job.AWave(s, job.Y(i), q / (2 * job.plan.gridP))] else []
  {
    CursorMoves(job, n, q, job.Y(i));
    hide Upto, InRound, SeedsBy, Job.Valid, Job.AWave;
  }

  lemma WaitStepB<F(!new)>(job: Job<F>, s: nat, n: nat, i: nat, q: nat)
    requires job.Valid() && s < job.plan.steps && job.IsPe(i) && InRound(job, n, q) && q < 2 * job.plan.gridP * job.S()
    ensures 0 <= q / (2 * job.plan.gridP) < job.S()
    ensures HitsB(job, i, q % (2 * job.plan.gridP)) ==> (|WaitingB(job, s, n, i, q)| < 4 <==> InRound(job, n, q + 1))
    ensures InRound(job, n, q + 1) ==>
      WaitingB(job, s, n, i, q + 1) == WaitingB(job, s, n, i, q) +
        if HitsB(job, i, q % (2 * job.plan.gridP)) then [job.BWave(s, job.X(i), q / (2 * job.plan.gridP))] else []
  {
    CursorMoves(job, n, q, job.plan.gridP + job.X(i));
    hide Upto, InRound, SeedsBy, Job.Valid, Job.BWave;
  }

  ghost predicate CarriedTo<F(!new)>(job: Job<F>, s: nat, n: nat, i: nat, tile: Tile<PeState<F>>, q: nat)
    requires job.Valid() && s < job.plan.steps && job.IsPe(i) && InRound(job, n, q)
  {
    Carried(job, s, n, i, tile, WaitingA(job, s, n, i, q), WaitingB(job, s, n, i, q))
  }

  lemma SeedHits<F(!new)>(job: Job<F>, s: nat, i: nat, q: nat)
    requires job.Valid() && s < job.plan.steps && job.IsPe(i) && q < 2 * job.plan.gridP * job.S()
    ensures var seed, d := SeedAt(job, s, q), 2 * job.plan.gridP;
      && 0 <= q / d < job.S() && 0 <= q % d
      && (seed.x == job.X(i) && seed.y == job.Y(i) <==> HitsA(job, i, q % d) || HitsB(job, i, q % d))
      && !(HitsA(job, i, q % d) && HitsB(job, i, q % d))
      && (HitsA(job, i, q % d) ==> seed.c == job.plan.AColor(s) && seed.w == job.AWave(s, job.Y(i), q / d))
      && (HitsB(job, i, q % d) ==> seed.c == job.plan.BColor(s) && seed.w == job.BWave(s, job.X(i), q / d))
  {
    CoordsInBounds(2 * job.plan.gridP, job.S(), q);
    assert 0 < job.plan.gridP;
    hide Job.Valid, Job.AWave, Job.BWave, Job.X, Job.Y, SummaPlan.AColor, SummaPlan.BColor;
  }

  // PE i's router with the seed accepted.
  ghost function Took<F(!new)>(tile: Tile<PeState<F>>, c: Color, w: Wavelet): Tile<PeState<F>>
    requires tile.router.Shaped()
  {
    tile.(router := tile.router.TxSpec(c, {RAMP}, w))
  }

  lemma CarriedFacts<F(!new)>(job: Job<F>, s: nat, n: nat, i: nat, tile: Tile<PeState<F>>, q: nat)
    requires job.Valid() && s < job.plan.steps && job.IsPe(i) && InRound(job, n, q) && CarriedTo(job, s, n, i, tile, q)
    ensures tile.router.Valid()
  {
  }

  lemma SeedTaken<F(!new)>(job: Job<F>, s: nat, n: nat, i: nat, tile: Tile<PeState<F>>, ra: Queue, rb: Queue, w: Wavelet)
    requires job.Valid() && s < job.plan.steps && job.IsPe(i) && Carried(job, s, n, i, tile, ra, rb)
    ensures tile.router.Shaped()
    ensures tile.router.TxAccepts(job.plan.AColor(s), {RAMP}) <==> |ra| < 4
    ensures |ra| < 4 ==> Carried(job, s, n, i, Took(tile, job.plan.AColor(s), w), ra + [w], rb)
    ensures tile.router.TxAccepts(job.plan.BColor(s), {RAMP}) <==> |rb| < 4
    ensures |rb| < 4 ==> Carried(job, s, n, i, Took(tile, job.plan.BColor(s), w), ra, rb + [w])
  {
    var east, south, base := Eastward(job, s, n, i), Southward(job, s, n, i), job.RouterAt(s, n, i);
    SeedA(job, s, base, east, south, ra, rb, w);
    SeedB(job, s, base, east, south, ra, rb, w);
    hide SummaPlan.WellFormed, Eastward, Southward, Job.RouterAt, Sending, Job.PeAt, Job.Armed, RouterState.Valid,
      RouterState.TxSpec, RouterState.TxAccepts, SummaPlan.AColor, SummaPlan.BColor;
  }

  // A seed is taken exactly while the cycle's share lasts, and then waits on its PE's ramp; other PEs are untouched.
  lemma SeedLands<F(!new)>(job: Job<F>, s: nat, n: nat, i: nat, tile: Tile<PeState<F>>, q: nat)
    requires job.Valid() && s < job.plan.steps && job.IsPe(i) && InRound(job, n, q) && q < 2 * job.plan.gridP * job.S()
    requires CarriedTo(job, s, n, i, tile, q)
    ensures tile.router.Shaped()
    ensures var seed := SeedAt(job, s, q);
      if seed.x == job.X(i) && seed.y == job.Y(i) then
        && (tile.router.TxAccepts(seed.c, {RAMP}) <==> InRound(job, n, q + 1))
        && (InRound(job, n, q + 1) ==> CarriedTo(job, s, n, i, Took(tile, seed.c, seed.w), q + 1))
      else
        InRound(job, n, q + 1) ==> CarriedTo(job, s, n, i, tile, q + 1)
  {
    WaitStepA(job, s, n, i, q);
    WaitStepB(job, s, n, i, q);
    SeedHits(job, s, i, q);
    var ra, rb, w := WaitingA(job, s, n, i, q), WaitingB(job, s, n, i, q), SeedAt(job, s, q).w;
    assert ra + [] == ra && rb + [] == rb;
    SeedTaken(job, s, n, i, tile, ra, rb, w);
    hide SeedAt, Job.Valid, WaitingA, WaitingB, InRound, Carried, Took, RouterState.Shaped, RouterState.TxAccepts, Job.AWave, Job.BWave,
      Job.X, Job.Y, SummaPlan.AColor, SummaPlan.BColor, HitsA, HitsB;
  }

  ghost predicate AllCarriedTo<F(!new)>(job: Job<F>, s: nat, n: nat, tiles: seq<Tile<PeState<F>>>, q: nat)
    requires job.Valid() && s < job.plan.steps
  {
    && Sized(job, tiles) && InRound(job, n, q)
    && forall i | 0 <= i < |tiles| :: CarriedTo(job, s, n, i, tiles[i], q)
  }

  lemma RoundBounded<F(!new)>(job: Job<F>, s: nat, n: nat, tiles: seq<Tile<PeState<F>>>, q: nat)
    requires job.Valid() && s < job.plan.steps && AllCarriedTo(job, s, n, tiles, q)
    ensures q <= SeedCount(job)
  {
    MulMonotone(SeedsBy(job, n + 1), job.S(), 2 * job.plan.gridP);
  }

  lemma RoundOver<F(!new)>(job: Job<F>, s: nat, n: nat, tiles: seq<Tile<PeState<F>>>, q: nat)
    requires job.Valid() && s < job.plan.steps && AllCarriedTo(job, s, n, tiles, q)
    requires q == SeedCount(job) || !InRound(job, n, q + 1)
    ensures q == Cursor(job, n + 1)
  {
    hide CarriedTo;
    MulMonotone(SeedsBy(job, n + 1), job.S(), 2 * job.plan.gridP);
  }

  lemma SeedTarget<F(!new)>(job: Job<F>, s: nat, tiles: seq<Tile<PeState<F>>>, pending: seq<Seed>, q: nat) returns (i0: nat)
    requires job.Valid() && s < job.plan.steps && Sized(job, tiles) && AreSeeds(job, s, pending) && q < |pending|
    ensures q < 2 * job.plan.gridP * job.S() && pending[q] == SeedAt(job, s, q)
    ensures pending[q].x < job.plan.gridP && pending[q].y < job.plan.gridP
    ensures i0 == Index(job.plan.gridP, pending[q].x, pending[q].y) && i0 < |tiles|
    ensures forall i | 0 <= i < |tiles| :: i == i0 <==> job.X(i) == pending[q].x && job.Y(i) == pending[q].y
  {
    var p, seed := job.plan.gridP, pending[q];
    SeedFacts(job, s, pending, q);
    hide SeedAt, AreSeeds, Job.Valid, Job.S;
    IndexInverse(p, p, seed.x, seed.y);
    i0 := Index(p, seed.x, seed.y);
    forall i | 0 <= i < |tiles|
      ensures i == i0 <==> job.X(i) == seed.x && job.Y(i) == seed.y
    {
      CoordsInBounds(p, p, i);
    }
  }

  // The seed under the cursor, and the PE it is offered to.
  lemma SeedOffered<F(!new)>(job: Job<F>, s: nat, n: nat, tiles: seq<Tile<PeState<F>>>, pending: seq<Seed>, q: nat) returns (i0: nat)
    requires job.Valid() && s < job.plan.steps && AllCarriedTo(job, s, n, tiles, q) && AreSeeds(job, s, pending) && q < |pending|
    ensures pending[q].x < job.plan.gridP && pending[q].y < job.plan.gridP
    ensures i0 == Index(job.plan.gridP, pending[q].x, pending[q].y) && i0 < |tiles| && tiles[i0].router.Shaped()
    ensures InRound(job, n, q + 1) <==> tiles[i0].router.TxAccepts(pending[q].c, {RAMP})
    ensures Took(tiles[i0], pending[q].c, pending[q].w) == tiles[i0] || InRound(job, n, q + 1)
    ensures InRound(job, n, q + 1) ==> AllCarriedTo(job, s, n, tiles[i0 := Took(tiles[i0], pending[q].c, pending[q].w)], q + 1)
  {
    hide CarriedTo, InRound, AreSeeds, SeedAt, Job.Valid, Job.IsPe, RouterState.Shaped, RouterState.TxAccepts, Job.X, Job.Y, Job.S, Cursor,
      RouterState.PushOut, RouterState.HasRoom;
    var seed := pending[q];
    i0 := SeedTarget(job, s, tiles, pending, q);
    SeedLands(job, s, n, i0, tiles[i0], q);
    assert !tiles[i0].router.TxAccepts(seed.c, {RAMP}) ==> Took(tiles[i0], seed.c, seed.w) == tiles[i0];
    hide RouterState.TxSpec, Took;
    forall i | 0 <= i < |tiles| && i != i0 && InRound(job, n, q + 1)
      ensures CarriedTo(job, s, n, i, tiles[i], q + 1)
    {
      SeedLands(job, s, n, i, tiles[i], q);
    }
  }

  lemma AllFlushed<F(!new)>(job: Job<F>, s: nat, n: nat, tiles: seq<Tile<PeState<F>>>)
    requires job.Valid() && s < job.plan.steps && Sized(job, tiles)
    requires forall i | 0 <= i < |tiles| :: Carried(job, s, n, i, tiles[i], [], [])
    ensures AllCarriedTo(job, s, n, tiles, Cursor(job, n))
  {
    hide WaitingA, WaitingB, Carried, InRound, Job.Valid, Cursor;
    CursorInRound(job, n);
    forall i | 0 <= i < |tiles|
      ensures CarriedTo(job, s, n, i, tiles[i], Cursor(job, n))
    {
      RoundStarts(job, s, n, i);
    }
  }

  lemma AllSeeded<F(!new)>(job: Job<F>, s: nat, n: nat, tiles: seq<Tile<PeState<F>>>, i: nat)
    requires job.Valid() && s < job.plan.steps && i < |tiles|
    requires AllCarriedTo(job, s, n, tiles, Cursor(job, n + 1))
    ensures job.IsPe(i) && Carried(job, s, n, i, tiles[i], RampA(job, s, n, i), RampB(job, s, n, i))
  {
    hide WaitingA, WaitingB, RampA, RampB, Carried, InRound, Job.Valid, Cursor;
    RoundEnds(job, s, n, i);
  }
}
