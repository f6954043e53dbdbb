/** The one-block-per-row kernels: block-wide reductions through shared partials, each result broadcast to all eight warps. */
module RowKernels {
  import opened Mesh
  import opened Halves
  import opened BarrierBlocks
  import opened Reductions

  const WARPS: nat := 8
  const LANES: nat := 32
  const STEPS: nat := 5

  /** A row kernel: in stage s thread tid contributes part(s, tid, results so far); the stage's result is finish(s, total). */
  datatype RowKernel<!F(!new)> = RowKernel(
    stages: nat, monoid: nat -> Monoid<F>, part: (nat, nat, seq<F>) -> F, finish: (nat, F) -> F)
  {
    function LaneParts(s: nat, w: nat, regs: seq<F>): (r: seq<F>)
      ensures |r| == 1 * Pow2(5)
    {
      assert Pow2(5) == LANES;
      seq(LANES, lane requires 0 <= lane < LANES => part(s, w * LANES + lane, regs))
    }

    // A warp's butterfly, as lane 0 sees it.
    function WarpValue(s: nat, w: nat, regs: seq<F>): F {
      Butterfly(monoid(s), LaneParts(s, w, regs), 5, 1)[0]
    }

    // The idle lanes of warp 0 hold the identity.
    function Padded(s: nat, partials: seq<F>): (r: seq<F>)
      requires |partials| == WARPS
      ensures |r| == 1 * Pow2(5)
    {
      assert Pow2(5) == LANES;
      partials + seq(LANES - WARPS, _ => monoid(s).unit)
    }

    // Warp 0's second butterfly, over the eight partials.
    function Combine(s: nat, partials: seq<F>): F
      requires |partials| == WARPS
    {
      finish(s, Butterfly(monoid(s), Padded(s, partials), 5, 1)[0])
    }

    // ----- The instruction stream of a warp -----

    // Per stage: write the partial, barrier, warp 0 combines, barrier, everyone reads the result.
    predicate Sync(pc: nat) {
      pc < STEPS * stages && (pc % STEPS == 1 || pc % STEPS == 3)
    }

    function Cells(): nat {
      WARPS + stages
    }

    function Loads(pc: nat, w: nat): set<nat> {
      if pc < STEPS * stages && pc % STEPS == 2 && w == 0 then {0, 1, 2, 3, 4, 5, 6, 7}
      else if pc < STEPS * stages && pc % STEPS == 4 then {WARPS + pc / STEPS}
      else {}
    }

    function Stores(pc: nat, w: nat): set<nat> {
      if pc < STEPS * stages && pc % STEPS == 0 && w < WARPS then {w}
      else if pc < STEPS * stages && pc % STEPS == 2 && w == 0 then {WARPS + pc / STEPS}
      else {}
    }

    function Act(pc: nat, w: nat, regs: seq<F>, m: seq<F>): (seq<F>, seq<F>) {
      if |m| != Cells() || pc >= STEPS * stages then (regs, m)
      else
        var s, o := pc / STEPS, pc % STEPS;
        if o == 0 && w < WARPS then (regs, m[w := WarpValue(s, w, regs)])
        else if o == 2 && w == 0 then (regs, m[WARPS + s := Combine(s, m[..WARPS])])
        else if o == 4 then (regs + [m[WARPS + s]], m)
        else (regs, m)
    }

    function Program(): Kernel<seq<F>, F> {
      Kernel(WARPS, Cells(), STEPS * stages,
             (pc: nat) => Sync(pc), (pc: nat, w: nat) => Loads(pc, w), (pc: nat, w: nat) => Stores(pc, w),
             (pc: nat, w: nat, regs: seq<F>, m: seq<F>) => Act(pc, w, regs, m))
    }

    // The stages' results in order.
    function Results(n: nat): (r: seq<F>)
      ensures |r| == n
      decreases n, 0
    {
      if n == 0 then [] else Results(n - 1) + [Combine(n - 1, Partials(n - 1))]
    }

    function Partials(s: nat): (r: seq<F>)
      ensures |r| == WARPS
      decreases s, 1
    {
      var regs := Results(s);
      seq(WARPS, w requires 0 <= w < WARPS => WarpValue(s, w, regs))
    }
  }

  lemma ActLoadsOnly<F(!new)>(g: RowKernel<F>, pc: nat, w: nat, l: seq<F>, m: seq<F>, n: seq<F>)
    requires |m| == |n| == g.Cells()
    ensures LoadsOnly(g.Program(), pc, w, l, m, n)
  {
    if Agree(m, n, g.Loads(pc, w)) && pc < STEPS * g.stages {
      if pc % STEPS == 2 && w == 0 {
        assert forall a: nat | a < WARPS :: a in g.Loads(pc, w);
        assert m[..WARPS] == n[..WARPS];
      } else if pc % STEPS == 4 {
        assert WARPS + pc / STEPS in g.Loads(pc, w);
      }
    }
  }

  lemma ActKeepsFootprint<F(!new)>(g: RowKernel<F>)
    ensures Footprint(g.Program())
  {
    var k := g.Program();
    hide RowKernel.WarpValue, RowKernel.Combine;
    forall pc, u, l, m: seq<F> | |m| == k.cells
      ensures StoresOnly(k, pc, u, l, m)
    {
    }
    forall pc, u, l, m: seq<F>, n: seq<F> | |m| == |n| == k.cells
      ensures LoadsOnly(k, pc, u, l, m, n)
    {
      ActLoadsOnly(g, pc, u, l, m, n);
    }
  }

  // Where each phase ends: the partials' barrier, the combine's barrier, or the last read.
  ghost function EndOf<F(!new)>(g: RowKernel<F>, pc: nat): nat {
    var s, o := pc / STEPS, pc % STEPS;
    if o <= 1 then STEPS * s + 1
    else if o <= 3 then STEPS * s + 3
    else if s + 1 < g.stages then STEPS * (s + 1) + 1
    else STEPS * g.stages
  }

  lemma PhaseEnds<F(!new)>(g: RowKernel<F>, pc: nat)
    requires pc < STEPS * g.stages
    ensures PhaseEnd(g.Program(), pc) == EndOf(g, pc)
  {
    hide RowKernel.Program, RowKernel.Sync, EndOf, PhaseEnd;
    ProgramSync(g);
    EndSpan(g, pc);
    PhaseEndsAt(g.Program(), pc, EndOf(g, pc));
  }

  lemma ProgramSync<F(!new)>(g: RowKernel<F>)
    ensures g.Program().length == STEPS * g.stages && forall pc: nat :: g.Program().sync(pc) == g.Sync(pc)
  {
  }

  // Between an instruction and the barrier that ends its phase there is no other barrier.
  lemma EndSpan<F(!new)>(g: RowKernel<F>, pc: nat)
    requires pc < STEPS * g.stages
    ensures pc <= EndOf(g, pc) <= STEPS * g.stages && (EndOf(g, pc) == STEPS * g.stages || g.Sync(EndOf(g, pc)))
    ensures forall q: nat | pc <= q < EndOf(g, pc) :: !g.Sync(q)
  {
  }

  /** The partials are reused by every stage without a race: the barriers separate each stage's writes from the last one's reads. */
  lemma NoRaces<F(!new)>(g: RowKernel<F>)
    ensures RaceFree(g.Program())
  {
    var k := g.Program();
    forall p: nat, q: nat, u: nat, v: nat
      | p < k.length && q < k.length && u < k.units && v < k.units && u != v && PhaseEnd(k, p) == PhaseEnd(k, q)
      ensures Apart(k, p, u, q, v)
    {
      PhaseEnds(g, p);
      PhaseEnds(g, q);
    }
  }

  // ----- What the phases compute -----

  ghost predicate Sized<F(!new)>(g: RowKernel<F>, mem: seq<F>, local: seq<seq<F>>) {
    |mem| == g.Cells() && |local| == WARPS
  }

  ghost predicate AllHold<F(!new)>(g: RowKernel<F>, local: seq<seq<F>>, n: nat) {
    |local| == WARPS && forall w | 0 <= w < WARPS :: local[w] == g.Results(n)
  }

  // A write phase: read the previous stage's result if there is one, then write this stage's partial.
  ghost function WriteFrom(s: nat): nat {
    if s == 0 then 0 else STEPS * s - 1
  }

  lemma SoloWrite<F(!new)>(g: RowKernel<F>, s: nat, w: nat, regs: seq<F>, m: seq<F>)
    requires s < g.stages && w < WARPS && |m| == g.Cells() && Footprint(g.Program())
    requires s > 0 ==> regs == g.Results(s - 1) && m[WARPS + s - 1] == g.Combine(s - 1, g.Partials(s - 1))
    requires s == 0 ==> regs == []
    ensures Solo(g.Program(), w, WriteFrom(s), STEPS * s + 1 - WriteFrom(s), regs, m) ==
      (g.Results(s), m[w := g.Partials(s)[w]])
  {
    hide RowKernel.Act, Footprint, RowKernel.Partials, RowKernel.Combine, RowKernel.WarpValue, RowKernel.Sync, RowKernel.Loads,
      RowKernel.Stores;
    var k := g.Program();
    ActWrites(g, s, w, m);
    if s == 0 {
      SoloOne(k, w, 0, regs, m);
    } else {
      ActReads(g, s - 1, w, regs, m);
      SoloTwo(k, w, STEPS * s - 1, regs, m);
    }
  }

  lemma ActWrites<F(!new)>(g: RowKernel<F>, s: nat, w: nat, m: seq<F>)
    requires s < g.stages && w < WARPS && |m| == g.Cells()
    ensures g.Program().act(STEPS * s, w, g.Results(s), m) == (g.Results(s), m[w := g.Partials(s)[w]])
  {
    var pc := STEPS * s;
    assert pc / STEPS == s && pc % STEPS == 0;
    hide RowKernel.WarpValue, RowKernel.Combine;
  }

  lemma ActReads<F(!new)>(g: RowKernel<F>, s: nat, w: nat, regs: seq<F>, m: seq<F>)
    requires s < g.stages && |m| == g.Cells()
    requires regs == g.Results(s) && m[WARPS + s] == g.Combine(s, g.Partials(s))
    ensures g.Program().act(STEPS * s + 4, w, regs, m) == (g.Results(s + 1), m)
  {
    var pc := STEPS * s + 4;
    assert pc / STEPS == s && pc % STEPS == 4;
    hide RowKernel.WarpValue, RowKernel.Combine, RowKernel.Partials;
  }

  lemma PartialWriter<F(!new)>(g: RowKernel<F>, s: nat, a: nat, w: nat)
    requires s < g.stages && a < WARPS && w < WARPS
    ensures Writes(g.Program(), w, WriteFrom(s), STEPS * s + 1, a) <==> w == a
  {
    var k, pc := g.Program(), STEPS * s;
    assert k.stores(pc, w) == {w};
    assert s > 0 ==> (pc - 1) % STEPS == 4 && k.stores(pc - 1, w) == {};
  }

  lemma PartialCell<F(!new)>(g: RowKernel<F>, s: nat, mem: seq<F>, local: seq<seq<F>>, a: nat)
    requires s < g.stages && a < WARPS && Sized(g, mem, local) && Footprint(g.Program())
    ensures CellAfter(g.Program(), WriteFrom(s), STEPS * s + 1, mem, local, a) ==
      Solo(g.Program(), a, WriteFrom(s), STEPS * s + 1 - WriteFrom(s), local[a], mem).1[a]
  {
    var k, lo, hi := g.Program(), WriteFrom(s), STEPS * s + 1;
    hide Footprint, Writes;
    forall w: nat | w < k.units
      ensures Writes(k, w, lo, hi, a) <==> w == a
    {
      PartialWriter(g, s, a, w);
    }
    assert Writes(k, a, lo, hi, a);
    assert Written(k, lo, hi, a);
  }

  // The partials of stage s are in place, and every warp knows the results before it.
  ghost predicate PartialsReady<F(!new)>(g: RowKernel<F>, s: nat, mem: seq<F>, local: seq<seq<F>>) {
    Sized(g, mem, local) && AllHold(g, local, s) && mem[..WARPS] == g.Partials(s)
  }

  ghost predicate ResultReady<F(!new)>(g: RowKernel<F>, s: nat, mem: seq<F>, local: seq<seq<F>>)
    requires s < g.stages
  {
    Sized(g, mem, local) && AllHold(g, local, s) && mem[WARPS + s] == g.Combine(s, g.Partials(s))
  }

  lemma WritePhase<F(!new)>(g: RowKernel<F>, s: nat, mem: seq<F>, local: seq<seq<F>>)
    requires s < g.stages && Sized(g, mem, local) && Footprint(g.Program())
    requires if s == 0 then AllHold(g, local, 0) else ResultReady(g, s - 1, mem, local)
    ensures PartialsReady(g, s, PhaseMem(g.Program(), WriteFrom(s), STEPS * s + 1, mem, local),
                                PhaseLocal(g.Program(), WriteFrom(s), STEPS * s + 1, mem, local))
  {
    var k, lo, hi := g.Program(), WriteFrom(s), STEPS * s + 1;
    var mem', local' := PhaseMem(k, lo, hi, mem, local), PhaseLocal(k, lo, hi, mem, local);
    hide Footprint, RowKernel.Combine, CellAfter;
    forall w | 0 <= w < WARPS
      ensures local'[w] == g.Results(s) && mem'[w] == g.Partials(s)[w]
    {
      SoloWrite(g, s, w, local[w], mem);
      PartialCell(g, s, mem, local, w);
    }
  }

  lemma SoloCombine<F(!new)>(g: RowKernel<F>, s: nat, w: nat, regs: seq<F>, m: seq<F>)
    requires s < g.stages && w < WARPS && |m| == g.Cells() && Footprint(g.Program())
    ensures Solo(g.Program(), w, STEPS * s + 2, 1, regs, m) ==
      (regs, if w == 0 then m[WARPS + s := g.Combine(s, m[..WARPS])] else m)
  {
    var k, pc := g.Program(), STEPS * s + 2;
    assert pc / STEPS == s && pc % STEPS == 2;
    SoloOne(k, w, pc, regs, m);
  }

  lemma CombinePhase<F(!new)>(g: RowKernel<F>, s: nat, mem: seq<F>, local: seq<seq<F>>)
    requires s < g.stages && Footprint(g.Program()) && PartialsReady(g, s, mem, local)
    ensures ResultReady(g, s, PhaseMem(g.Program(), STEPS * s + 2, STEPS * s + 3, mem, local),
                              PhaseLocal(g.Program(), STEPS * s + 2, STEPS * s + 3, mem, local))
  {
    var k, lo, hi, a := g.Program(), STEPS * s + 2, STEPS * s + 3, WARPS + s;
    hide Footprint, RowKernel.Combine, RowKernel.WarpValue;
    forall w | 0 <= w < WARPS
      ensures PhaseLocal(k, lo, hi, mem, local)[w] == local[w]
    {
      SoloCombine(g, s, w, local[w], mem);
    }
    assert lo % STEPS == 2 && lo / STEPS == s;
    forall w: nat | w < k.units
      ensures Writes(k, w, lo, hi, a) <==> w == 0
    {
      assert k.stores(lo, w) == if w == 0 then {a} else {};
      if w == 0 {
        assert a in k.stores(lo, w);
      }
    }
    var zero: nat := 0;
    assert Writes(k, zero, lo, hi, a);
    assert Written(k, lo, hi, a);
    SoloCombine(g, s, 0, local[0], mem);
  }

  lemma LastRead<F(!new)>(g: RowKernel<F>, s: nat, mem: seq<F>, local: seq<seq<F>>)
    requires s + 1 == g.stages && Footprint(g.Program()) && ResultReady(g, s, mem, local)
    ensures AllHold(g, PhaseLocal(g.Program(), WriteFrom(s + 1), g.Program().length, mem, local), g.stages)
  {
    var k, pc := g.Program(), STEPS * s + 4;
    assert pc / STEPS == s && pc % STEPS == 4;
    hide Footprint, RowKernel.Combine;
    var after := PhaseLocal(k, pc, pc + 1, mem, local);
    forall w | 0 <= w < WARPS
      ensures after[w] == g.Results(s + 1)
    {
      ActReads(g, s, w, local[w], mem);
      SoloOne(k, w, pc, local[w], mem);
    }
  }

  lemma WriteEnds<F(!new)>(g: RowKernel<F>, s: nat)
    requires s < g.stages
    ensures PhaseEnd(g.Program(), WriteFrom(s)) == STEPS * s + 1
  {
    hide PhaseEnd;
    PhaseEnds(g, WriteFrom(s));
  }

  lemma CombineEnds<F(!new)>(g: RowKernel<F>, s: nat)
    requires s < g.stages
    ensures PhaseEnd(g.Program(), STEPS * s + 2) == STEPS * s + 3
  {
    hide PhaseEnd;
    PhaseEnds(g, STEPS * s + 2);
  }

  lemma LastEnds<F(!new)>(g: RowKernel<F>, s: nat)
    requires s + 1 == g.stages
    ensures PhaseEnd(g.Program(), WriteFrom(s + 1)) == g.Program().length
  {
    hide PhaseEnd;
    PhaseEnds(g, STEPS * s + 4);
  }

  // Stage s, from its write phase to its result.
  lemma StageReaches<F(!new)>(g: RowKernel<F>, s: nat, mem: seq<F>, local: seq<seq<F>>) returns (m: seq<F>, l: seq<seq<F>>)
    requires s < g.stages && Footprint(g.Program()) && Sized(g, mem, local)
    requires if s == 0 then AllHold(g, local, 0) else ResultReady(g, s - 1, mem, local)
    ensures Sized(g, m, l) && ResultReady(g, s, m, l)
    ensures Outcome(g.Program(), WriteFrom(s), mem, local) == Outcome(g.Program(), WriteFrom(s + 1), m, l)
  {
    hide Footprint, ResultReady, PartialsReady, AllHold, RowKernel.Combine;
    var k, lo, e := g.Program(), WriteFrom(s), STEPS * s + 1;
    WriteEnds(g, s);
    CombineEnds(g, s);
    WritePhase(g, s, mem, local);
    var m1, l1 := PhaseMem(k, lo, e, mem, local), PhaseLocal(k, lo, e, mem, local);
    CombinePhase(g, s, m1, l1);
    OutcomeUnfolds(k, lo, e, mem, local);
    OutcomeUnfolds(k, e + 1, e + 2, m1, l1);
    m, l := PhaseMem(k, e + 1, e + 2, m1, l1), PhaseLocal(k, e + 1, e + 2, m1, l1);
  }

  lemma LastOutcome<F(!new)>(g: RowKernel<F>, s: nat, m: seq<F>, l: seq<seq<F>>)
    requires s + 1 == g.stages && Footprint(g.Program()) && Sized(g, m, l) && ResultReady(g, s, m, l)
    ensures AllHold(g, Outcome(g.Program(), WriteFrom(s + 1), m, l).1, g.stages)
  {
    hide Footprint, ResultReady, AllHold, RowKernel.Combine;
    LastEnds(g, s);
    LastRead(g, s, m, l);
    OutcomeLast(g.Program(), WriteFrom(s + 1), m, l);
  }

  // From the write phase of stage s on, every warp ends up with all the results.
  lemma {:induction false} OutcomeFrom<F(!new)>(g: RowKernel<F>, s: nat, mem: seq<F>, local: seq<seq<F>>)
    requires s < g.stages && Footprint(g.Program()) && Sized(g, mem, local)
    requires if s == 0 then AllHold(g, local, 0) else ResultReady(g, s - 1, mem, local)
    ensures AllHold(g, Outcome(g.Program(), WriteFrom(s), mem, local).1, g.stages)
    decreases g.stages - s
  {
    hide *;
    var m, l := StageReaches(g, s, mem, local);
    if s + 1 == g.stages {
      LastOutcome(g, s, m, l);
    } else {
      OutcomeFrom(g, s + 1, m, l);
    }
  }

  // ----- Every schedule -----

  ghost function NoRegisters<F>(): (l: seq<seq<F>>)
    ensures |l| == WARPS
  {
    seq(WARPS, _ => [])
  }

  // Some interleaving of the row's block, from whatever shared memory held, ends in b.
  ghost predicate BlockRuns<F(!new)>(g: RowKernel<F>, b: Block<seq<F>, F>) {
    var k := g.Program();
    Footprint(k) && Shaped(k, b) && Finished(k, b) &&
    exists mem: seq<F>, cs :: |mem| == k.cells && Follows(k, Start(k, mem, NoRegisters()), cs, b)
  }

  /** However the warps interleave between barriers, each ends with the same results. */
  lemma EveryInterleaving<F(!new)>(g: RowKernel<F>, b: Block<seq<F>, F>, w: nat)
    requires g.stages > 0 && BlockRuns(g, b) && w < WARPS
    ensures b.local[w] == g.Results(g.stages)
  {
    var k := g.Program();
    NoRaces(g);
    assert AllHold(g, NoRegisters(), 0);
    hide RaceFree, Footprint, Follows, Start, NoRegisters, RowKernel.Results;
    var mem: seq<F>, cs :| |mem| == k.cells && Follows(k, Start(k, mem, NoRegisters()), cs, b);
    Deterministic(k, mem, NoRegisters(), cs, b);
    OutcomeFrom(g, 0, mem, NoRegisters());
  }

  /** No warp waits at a barrier for ever. */
  lemma NeverStuck<F(!new)>(g: RowKernel<F>, mem: seq<F>, cs: seq<Choice>, b: Block<seq<F>, F>)
    requires |mem| == g.Cells() && Footprint(g.Program())
    requires Follows(g.Program(), Start(g.Program(), mem, NoRegisters()), cs, b) && Shaped(g.Program(), b)
    ensures Finished(g.Program(), b) || exists c :: Enabled(g.Program(), b, c)
  {
    NoRaces(g);
    NoDeadlock(g.Program(), mem, NoRegisters(), cs, b);
  }

  /** Every row has a run that finishes. */
  lemma SomeBlockRun<F(!new)>(g: RowKernel<F>, filler: F) returns (b: Block<seq<F>, F>)
    ensures BlockRuns(g, b)
  {
    var k := g.Program();
    ActKeepsFootprint(g);
    NoRaces(g);
    hide RaceFree, Footprint, Follows, Start, NoRegisters;
    var mem := seq(k.cells, _ => filler);
    var cs;
    cs, b := Completes(k, mem, NoRegisters());
  }

  // What all 256 threads contribute to stage s.
  ghost function Parts<F(!new)>(g: RowKernel<F>, s: nat, regs: seq<F>): (r: seq<F>)
    ensures |r| == WARPS * LANES
  {
    seq(WARPS * LANES, tid requires 0 <= tid < WARPS * LANES => g.part(s, tid, regs))
  }

  // Every thread's part comes out of a loop, whose start is neutral to it.
  ghost predicate PartsKept<F(!new)>(g: RowKernel<F>, s: nat, regs: seq<F>) {
    forall tid | 0 <= tid < WARPS * LANES :: g.monoid(s).Keeps(g.part(s, tid, regs))
  }

  lemma WholeGroup<F>(v: seq<F>, w: nat)
    requires |v| == 1 * w
    ensures Group(v, w, 1, 0) == v
  {
  }

  lemma PartsOfWarp<F(!new)>(g: RowKernel<F>, s: nat, w: nat, regs: seq<F>)
    requires w < WARPS
    ensures Group(Parts(g, s, regs), LANES, WARPS, w) == g.LaneParts(s, w, regs)
  {
    assert Pow2(5) == LANES;
  }

  lemma WarpTotals<F(!new)>(g: RowKernel<F>, s: nat, w: nat, regs: seq<F>)
    requires w < WARPS && g.monoid(s).Lawful() && PartsKept(g, s, regs)
    ensures g.WarpValue(s, w, regs) == g.monoid(s).Total(Group(Parts(g, s, regs), LANES, WARPS, w))
  {
    var lanes := g.LaneParts(s, w, regs);
    assert Pow2(5) == LANES;
    PartsOfWarp(g, s, w, regs);
    forall j | 0 <= j < LANES
      ensures g.monoid(s).Keeps(lanes[j])
    {
      assert lanes[j] == g.part(s, w * LANES + j, regs);
    }
    ButterflyTotals(g.monoid(s), lanes, 5, 1, 0);
    WholeGroup(lanes, LANES);
  }

  lemma CombineTotal<F(!new)>(g: RowKernel<F>, s: nat, partials: seq<F>)
    requires g.monoid(s).Lawful() && |partials| == WARPS && forall w | 0 <= w < WARPS :: g.monoid(s).Keeps(partials[w])
    ensures g.Combine(s, partials) == g.finish(s, g.monoid(s).Total(partials))
  {
    var lanes := g.Padded(s, partials);
    assert Pow2(5) == LANES;
    PaddedTotal(g, s, partials);
    Laws(g.monoid(s));
    ButterflyTotals(g.monoid(s), lanes, 5, 1, 0);
    WholeGroup(lanes, LANES);
  }

  lemma PaddedTotal<F(!new)>(g: RowKernel<F>, s: nat, partials: seq<F>)
    requires g.monoid(s).Lawful() && |partials| == WARPS
    ensures g.monoid(s).Total(g.Padded(s, partials)) == g.monoid(s).Total(partials)
  {
    var pad := seq(LANES - WARPS, _ => g.monoid(s).unit);
    assert g.Padded(s, partials) == partials + pad;
    TotalPadded(g.monoid(s), partials, pad);
  }

  lemma PartialsTotal<F(!new)>(g: RowKernel<F>, s: nat)
    requires g.monoid(s).Lawful() && PartsKept(g, s, g.Results(s))
    ensures g.monoid(s).Total(g.Partials(s)) == g.monoid(s).Total(Parts(g, s, g.Results(s)))
    ensures forall w | 0 <= w < WARPS :: g.monoid(s).Keeps(g.Partials(s)[w])
  {
    var M, parts, partials := g.monoid(s), Parts(g, s, g.Results(s)), g.Partials(s);
    hide RowKernel.WarpValue, Monoid.Lawful, Monoid.Keeps, Group, RowKernel.Combine, PartsKept;
    forall w | 0 <= w < WARPS
      ensures partials[w] == M.Total(Group(parts, LANES, WARPS, w)) && M.Keeps(partials[w])
    {
      WarpTotals(g, s, w, g.Results(s));
      TotalKeeps(M, Group(parts, LANES, WARPS, w));
    }
    assert partials == GroupTotals(M, parts, LANES, WARPS);
    TotalOfGroups(M, parts, LANES, WARPS);
  }

  /** A stage's result is finish of the total over all 256 threads: eight warps, the idle lanes of the last butterfly neutral. */
  lemma StageTotal<F(!new)>(g: RowKernel<F>, s: nat)
    requires s < g.stages && g.monoid(s).Lawful() && PartsKept(g, s, g.Results(s))
    ensures g.Combine(s, g.Partials(s)) == g.finish(s, g.monoid(s).Total(Parts(g, s, g.Results(s))))
  {
    hide *;
    PartialsTotal(g, s);
    CombineTotal(g, s, g.Partials(s));
  }
}
