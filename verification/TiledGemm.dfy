/** The emitted tiled GEMM block: 256 threads staging 16 x 16 slices in shared memory between barriers. */
module TiledGemms {
  import opened Wavelets
  import opened Mesh
  import opened BarrierBlocks

  // bf16 storage H and fp32 registers F; rounding and arithmetic are uninterpreted.
  datatype Numbers<!H(!new), !F(!new)> = Numbers(zero: F, up: H -> F, down: F -> H, add: (F, F) -> F, mul: (F, F) -> F)
  {
    function ZeroH(): H {
      down(zero)
    }

    function Mac(acc: F, x: H, y: H): F {
      add(acc, mul(up(x), up(y)))
    }
  }

  const TILE: nat := 16
  const THREADS: nat := 256
  const STEPS: nat := 20

  datatype Thread<H, F> = Thread(acc: F, out: Option<H>)

  /** One kernel launch: the operands as staged, and what the store does to a finished accumulator. */
  datatype Gemm<!H(!new), !F(!new)> = Gemm(
    num: Numbers<H, F>, M: nat, N: nat, K: nat,
    a: (nat, nat) -> H, b: (nat, nat) -> H, store: (nat, nat, F) -> H)
  {
    function Tiles(): nat {
      (K + 15) / 16
    }

    // Out-of-range loads read as zero.
    function PadA(row: nat, k: nat): H {
      if row < M && k < K then a(row, k) else num.ZeroH()
    }

    function PadB(k: nat, col: nat): H {
      if k < K && col < N then b(k, col) else num.ZeroH()
    }

    // The reference loop's accumulator after n terms.
    function Dot(row: nat, col: nat, n: nat): F {
      if n == 0 then num.zero else num.Mac(Dot(row, col, n - 1), a(row, n - 1), b(n - 1, col))
    }

    function PaddedDot(row: nat, col: nat, n: nat): F {
      if n == 0 then num.zero else num.Mac(PaddedDot(row, col, n - 1), PadA(row, n - 1), PadB(n - 1, col))
    }

    // Either there is no padding, or adding a product of padding zeros leaves the finished accumulator alone.
    ghost predicate PadNeutral() {
      K % TILE == 0 || forall row: nat, col: nat | row < M && col < N :: Settled(row, col)
    }

    ghost predicate Settled(row: nat, col: nat) {
      num.Mac(Dot(row, col, K), num.ZeroH(), num.ZeroH()) == Dot(row, col, K)
    }

    function Row(gy: nat, u: nat): nat {
      gy * TILE + u / TILE
    }

    function Col(gx: nat, u: nat): nat {
      gx * TILE + u % TILE
    }

    // ----- The instruction stream of block (gx, gy) -----

    // Per tile: stage A, stage B, barrier, sixteen multiply-adds, barrier; after the last tile, the store.
    predicate Sync(pc: nat) {
      pc < STEPS * Tiles() && (pc % STEPS == 2 || pc % STEPS == 19)
    }

    predicate MacAt(pc: nat) {
      pc < STEPS * Tiles() && 3 <= pc % STEPS < 19
    }

    function Loads(pc: nat, u: nat): set<nat> {
      if MacAt(pc) then
        var kk := pc % STEPS - 3;
        {u / TILE * TILE + kk, THREADS + kk * TILE + u % TILE}
      else {}
    }

    function Stores(pc: nat, u: nat): set<nat> {
      if u >= THREADS then {}
      else if pc < STEPS * Tiles() && pc % STEPS == 0 then {u}
      else if pc < STEPS * Tiles() && pc % STEPS == 1 then {THREADS + u}
      else {}
    }

    function Act(gx: nat, gy: nat, pc: nat, u: nat, l: Thread<H, F>, m: seq<H>): (Thread<H, F>, seq<H>) {
      if |m| != 2 * THREADS || u >= THREADS then (l, m)
      else
        var t, o := pc / STEPS, pc % STEPS;
        if pc >= STEPS * Tiles() then
          (l.(out := if Row(gy, u) < M && Col(gx, u) < N then Some(store(Row(gy, u), Col(gx, u), l.acc)) else None), m)
        else if o == 0 then (l, m[u := PadA(Row(gy, u), t * TILE + u % TILE)])
        else if o == 1 then (l, m[THREADS + u := PadB(t * TILE + u / TILE, Col(gx, u))])
        else if MacAt(pc) then
          var kk := o - 3;
          (l.(acc := num.Mac(l.acc, m[u / TILE * TILE + kk], m[THREADS + kk * TILE + u % TILE])), m)
        else (l, m)
    }

    function Program(gx: nat, gy: nat): Kernel<Thread<H, F>, H> {
      Kernel(THREADS, 2 * THREADS, STEPS * Tiles() + 1,
             (pc: nat) => Sync(pc), (pc: nat, u: nat) => Loads(pc, u), (pc: nat, u: nat) => Stores(pc, u),
             (pc: nat, u: nat, l: Thread<H, F>, m: seq<H>) => Act(gx, gy, pc, u, l, m))
    }
  }

  lemma ActLoadsOnly<H(!new), F(!new)>(g: Gemm<H, F>, gx: nat, gy: nat, pc: nat, u: nat, l: Thread<H, F>, m: seq<H>, n: seq<H>)
    requires |m| == |n| == 2 * THREADS
    ensures LoadsOnly(g.Program(gx, gy), pc, u, l, m, n)
  {
    if Agree(m, n, g.Loads(pc, u)) && g.MacAt(pc) && u < THREADS {
      var kk := pc % STEPS - 3;
      assert u / TILE * TILE + kk in g.Loads(pc, u) && THREADS + kk * TILE + u % TILE in g.Loads(pc, u);
    }
  }

  lemma ActKeepsFootprint<H(!new), F(!new)>(g: Gemm<H, F>, gx: nat, gy: nat)
    ensures Footprint(g.Program(gx, gy))
  {
    var k := g.Program(gx, gy);
    forall pc, u, l, m: seq<H> | |m| == k.cells
      ensures StoresOnly(k, pc, u, l, m)
    {
    }
    forall pc, u, l, m: seq<H>, n: seq<H> | |m| == |n| == k.cells
      ensures LoadsOnly(k, pc, u, l, m, n)
    {
      ActLoadsOnly(g, gx, gy, pc, u, l, m, n);
    }
  }

  // Where each phase ends.
  lemma ProgramSync<H(!new), F(!new)>(g: Gemm<H, F>, gx: nat, gy: nat)
    ensures forall pc: nat :: g.Program(gx, gy).sync(pc) == g.Sync(pc)
  {
  }

  lemma PhaseEnds<H(!new), F(!new)>(g: Gemm<H, F>, gx: nat, gy: nat, pc: nat)
    requires pc < STEPS * g.Tiles() + 1
    ensures var t := pc / STEPS;
      PhaseEnd(g.Program(gx, gy), pc) ==
        if pc == STEPS * g.Tiles() then pc + 1 else if pc % STEPS <= 2 then STEPS * t + 2 else STEPS * t + 19
  {
    hide Gemm.Program, Gemm.Tiles;
    ProgramShape(g, gx, gy);
    ProgramSync(g, gx, gy);
    var k, t := g.Program(gx, gy), pc / STEPS;
    var e := if pc == STEPS * g.Tiles() then pc + 1 else if pc % STEPS <= 2 then STEPS * t + 2 else STEPS * t + 19;
    PhaseSpan(g, pc, e);
    hide Gemm.Sync;
    assert e == k.length || k.sync(e);
    assert forall q: nat | pc <= q < e :: !k.sync(q);
  }

  // Between a phase's instructions and the barrier e that ends it there is no other barrier.
  lemma PhaseSpan<H(!new), F(!new)>(g: Gemm<H, F>, pc: nat, e: nat)
    requires pc < STEPS * g.Tiles() + 1
    requires e == if pc == STEPS * g.Tiles() then pc + 1 else if pc % STEPS <= 2 then STEPS * (pc / STEPS) + 2 else STEPS * (pc / STEPS) + 19
    ensures pc <= e <= STEPS * g.Tiles() + 1 && (e == STEPS * g.Tiles() + 1 || g.Sync(e))
    ensures forall q: nat | pc <= q < e :: !g.Sync(q)
  {
    hide Gemm.Tiles;
    var t := pc / STEPS;
    if pc < STEPS * g.Tiles() {
      assert t < g.Tiles();
      forall q: nat | pc <= q < e
        ensures !g.Sync(q)
      {
        DivModUnique(STEPS, q, t, q - STEPS * t);
      }
      DivModUnique(STEPS, e, t, e - STEPS * t);
    }
  }

  /** No thread touches a shared cell another thread may still write. */
  lemma NoRaces<H(!new), F(!new)>(g: Gemm<H, F>, gx: nat, gy: nat)
    ensures RaceFree(g.Program(gx, gy))
  {
    var k := g.Program(gx, gy);
    forall p: nat, q: nat, u: nat, v: nat
      | p < k.length && q < k.length && u < k.units && v < k.units && u != v && PhaseEnd(k, p) == PhaseEnd(k, q)
      ensures Apart(k, p, u, q, v)
    {
      PhaseEnds(g, gx, gy, p);
      PhaseEnds(g, gx, gy, q);
    }
  }

  // ----- What the phases compute -----

  // Tile t of both operands, in place in shared memory.
  ghost predicate Staged<H(!new), F(!new)>(g: Gemm<H, F>, gx: nat, gy: nat, t: nat, mem: seq<H>) {
    && |mem| == 2 * THREADS
    && forall u | 0 <= u < THREADS :: StagedBy(g, gx, gy, t, mem, u)
  }

  ghost predicate StagedBy<H(!new), F(!new)>(g: Gemm<H, F>, gx: nat, gy: nat, t: nat, mem: seq<H>, u: nat)
    requires |mem| == 2 * THREADS && u < THREADS
  {
    && mem[u] == g.PadA(g.Row(gy, u), t * TILE + u % TILE)
    && mem[THREADS + u] == g.PadB(t * TILE + u / TILE, g.Col(gx, u))
  }

  ghost predicate Sized<H(!new), F(!new)>(g: Gemm<H, F>, mem: seq<H>, local: seq<Thread<H, F>>) {
    |mem| == 2 * THREADS && |local| == THREADS
  }

  // Every thread holds the padded dot product over the first n terms of its element.
  ghost predicate Accumulated<H(!new), F(!new)>(g: Gemm<H, F>, gx: nat, gy: nat, local: seq<Thread<H, F>>, n: nat) {
    && |local| == THREADS
    && forall u | 0 <= u < THREADS :: local[u].acc == g.PaddedDot(g.Row(gy, u), g.Col(gx, u), n)
  }

  lemma SoloStage<H(!new), F(!new)>(g: Gemm<H, F>, gx: nat, gy: nat, t: nat, u: nat, l: Thread<H, F>, m: seq<H>)
    requires t < g.Tiles() && u < THREADS && |m| == 2 * THREADS && Footprint(g.Program(gx, gy))
    ensures Solo(g.Program(gx, gy), u, STEPS * t, 2, l, m) ==
      (l, m[u := g.PadA(g.Row(gy, u), t * TILE + u % TILE)][THREADS + u := g.PadB(t * TILE + u / TILE, g.Col(gx, u))])
  {
    var k, pc := g.Program(gx, gy), STEPS * t;
    assert pc / STEPS == t && pc % STEPS == 0 && (pc + 1) / STEPS == t && (pc + 1) % STEPS == 1;
    assert Solo(k, u, pc, 0, l, m) == (l, m);
    assert Solo(k, u, pc, 1, l, m) == g.Act(gx, gy, pc, u, l, m);
  }

  // Cell a is staged by thread a % THREADS and by no other.
  lemma Stager<H(!new), F(!new)>(g: Gemm<H, F>, gx: nat, gy: nat, t: nat, a: nat, u: nat)
    requires t < g.Tiles() && a < 2 * THREADS && u < THREADS
    ensures Writes(g.Program(gx, gy), u, STEPS * t, STEPS * t + 2, a) <==> u == a % THREADS
  {
    var k, pc := g.Program(gx, gy), STEPS * t;
    assert pc % STEPS == 0 && (pc + 1) % STEPS == 1;
    assert k.stores(pc, u) == {u} && k.stores(pc + 1, u) == {THREADS + u};
    if u == a % THREADS {
      assert a in k.stores(if a < THREADS then pc else pc + 1, u);
    }
  }

  lemma StagedHalves(u: nat)
    requires u < THREADS
    ensures u % THREADS == u && (THREADS + u) % THREADS == u
  {
  }

  lemma PhaseCell<L(!new), V(!new)>(k: Kernel<L, V>, lo: nat, hi: nat, mem: seq<V>, local: seq<L>, a: nat)
    requires Footprint(k) && |mem| == k.cells && |local| == k.units && lo <= hi && a < k.cells
    ensures PhaseMem(k, lo, hi, mem, local)[a] == CellAfter(k, lo, hi, mem, local, a)
  {
    hide CellAfter, Footprint;
  }

  lemma PhaseThread<L(!new), V(!new)>(k: Kernel<L, V>, lo: nat, n: nat, mem: seq<V>, local: seq<L>, u: nat)
    requires Footprint(k) && |mem| == k.cells && |local| == k.units && u < k.units
    ensures PhaseLocal(k, lo, lo + n, mem, local)[u] == Solo(k, u, lo, n, local[u], mem).0
  {
    hide Solo, Footprint;
  }

  lemma StagePhaseAt<H(!new), F(!new)>(g: Gemm<H, F>, gx: nat, gy: nat, t: nat, mem: seq<H>, local: seq<Thread<H, F>>, u: nat)
    requires t < g.Tiles() && Sized(g, mem, local) && Footprint(g.Program(gx, gy)) && u < THREADS
    ensures PhaseLocal(g.Program(gx, gy), STEPS * t, STEPS * t + 2, mem, local)[u] == local[u]
    ensures StagedBy(g, gx, gy, t, PhaseMem(g.Program(gx, gy), STEPS * t, STEPS * t + 2, mem, local), u)
  {
    hide Footprint, CellAfter, PhaseMem, PhaseLocal, Solo, Gemm.Tiles, Gemm.Program, Gemm.PadA, Gemm.PadB, Gemm.Act, Gemm.Row, Gemm.Col;
    var k, pc := g.Program(gx, gy), STEPS * t;
    ProgramShape(g, gx, gy);
    StagedHalves(u);
    SoloStage(g, gx, gy, t, u, local[u], mem);
    PhaseThread(k, pc, 2, mem, local, u);
    StagedCell(g, gx, gy, t, mem, local, u);
    PhaseCell(k, pc, pc + 2, mem, local, u);
    StagedCell(g, gx, gy, t, mem, local, THREADS + u);
    PhaseCell(k, pc, pc + 2, mem, local, THREADS + u);
  }

  lemma StagePhase<H(!new), F(!new)>(g: Gemm<H, F>, gx: nat, gy: nat, t: nat, mem: seq<H>, local: seq<Thread<H, F>>)
    requires t < g.Tiles() && Sized(g, mem, local) && Footprint(g.Program(gx, gy))
    ensures PhaseLocal(g.Program(gx, gy), STEPS * t, STEPS * t + 2, mem, local) == local
    ensures Staged(g, gx, gy, t, PhaseMem(g.Program(gx, gy), STEPS * t, STEPS * t + 2, mem, local))
  {
    hide Footprint, PhaseMem, PhaseLocal, StagedBy;
    var after, local' := PhaseMem(g.Program(gx, gy), STEPS * t, STEPS * t + 2, mem, local),
      PhaseLocal(g.Program(gx, gy), STEPS * t, STEPS * t + 2, mem, local);
    forall u | 0 <= u < THREADS
      ensures local'[u] == local[u] && StagedBy(g, gx, gy, t, after, u)
    {
      StagePhaseAt(g, gx, gy, t, mem, local, u);
    }
  }

  lemma StagedCell<H(!new), F(!new)>(g: Gemm<H, F>, gx: nat, gy: nat, t: nat, mem: seq<H>, local: seq<Thread<H, F>>, a: nat)
    requires t < g.Tiles() && Sized(g, mem, local) && Footprint(g.Program(gx, gy)) && a < 2 * THREADS
    ensures CellAfter(g.Program(gx, gy), STEPS * t, STEPS * t + 2, mem, local, a) ==
      Solo(g.Program(gx, gy), a % THREADS, STEPS * t, 2, local[a % THREADS], mem).1[a]
  {
    var k, pc := g.Program(gx, gy), STEPS * t;
    var hi := pc + 2;
    hide Footprint, Writes;
    forall u: nat | u < k.units
      ensures Writes(k, u, pc, hi, a) <==> u == a % THREADS
    {
      Stager(g, gx, gy, t, a, u);
    }
    var w: nat := a % THREADS;
    assert Writes(k, w, pc, hi, a);
    assert Written(k, pc, hi, a);
  }

  // One multiply-add extends the padded dot product by its term.
  lemma MacStep<H(!new), F(!new)>(g: Gemm<H, F>, gx: nat, gy: nat, t: nat, u: nat, kk: nat, l: Thread<H, F>, m: seq<H>)
    requires t < g.Tiles() && u < THREADS && kk < TILE && Staged(g, gx, gy, t, m)
    requires l.acc == g.PaddedDot(g.Row(gy, u), g.Col(gx, u), t * TILE + kk)
    ensures g.Act(gx, gy, STEPS * t + 3 + kk, u, l, m) ==
      (l.(acc := g.PaddedDot(g.Row(gy, u), g.Col(gx, u), t * TILE + kk + 1)), m)
  {
    var pc := STEPS * t + 3 + kk;
    assert pc / STEPS == t && pc % STEPS == kk + 3;
    StagedOperands(g, gx, gy, t, u, kk, m);
    hide Gemm.Row, Gemm.Col, Gemm.PadA, Gemm.PadB, Numbers.Mac, Staged;
  }

  lemma {:induction false} SoloMacs<H(!new), F(!new)>(g: Gemm<H, F>, gx: nat, gy: nat, t: nat, u: nat, n: nat, l: Thread<H, F>, m: seq<H>)
    requires t < g.Tiles() && u < THREADS && n <= TILE && Staged(g, gx, gy, t, m) && Footprint(g.Program(gx, gy))
    requires l.acc == g.PaddedDot(g.Row(gy, u), g.Col(gx, u), t * TILE)
    ensures Solo(g.Program(gx, gy), u, STEPS * t + 3, n, l, m) ==
      (l.(acc := g.PaddedDot(g.Row(gy, u), g.Col(gx, u), t * TILE + n)), m)
    decreases n
  {
    hide Footprint, Gemm.Row, Gemm.Col, Gemm.Act, Staged;
    if n > 0 {
      SoloMacs(g, gx, gy, t, u, n - 1, l, m);
      MacStep(g, gx, gy, t, u, n - 1, l.(acc := g.PaddedDot(g.Row(gy, u), g.Col(gx, u), t * TILE + n - 1)), m);
    }
  }

  // The cells a multiply-add reads hold the operands of its term.
  lemma StagedOperands<H(!new), F(!new)>(g: Gemm<H, F>, gx: nat, gy: nat, t: nat, u: nat, kk: nat, m: seq<H>)
    requires u < THREADS && kk < TILE && Staged(g, gx, gy, t, m)
    ensures m[u / TILE * TILE + kk] == g.PadA(g.Row(gy, u), t * TILE + kk)
    ensures m[THREADS + kk * TILE + u % TILE] == g.PadB(t * TILE + kk, g.Col(gx, u))
  {
    var ua, ub := u / TILE * TILE + kk, kk * TILE + u % TILE;
    assert ua / TILE == u / TILE && ua % TILE == kk && ub / TILE == kk && ub % TILE == u % TILE;
    assert StagedBy(g, gx, gy, t, m, ua) && StagedBy(g, gx, gy, t, m, ub);
  }

  lemma MacPhase<H(!new), F(!new)>(g: Gemm<H, F>, gx: nat, gy: nat, t: nat, mem: seq<H>, local: seq<Thread<H, F>>)
    requires t < g.Tiles() && Sized(g, mem, local) && Footprint(g.Program(gx, gy))
    requires Staged(g, gx, gy, t, mem) && Accumulated(g, gx, gy, local, t * TILE)
    ensures Accumulated(g, gx, gy, PhaseLocal(g.Program(gx, gy), STEPS * t + 3, STEPS * t + 19, mem, local), (t + 1) * TILE)
  {
    hide Footprint, Staged, PhaseLocal, Solo, Gemm.Program, Gemm.Tiles, Gemm.Row, Gemm.Col, Gemm.PaddedDot;
    var k, pc := g.Program(gx, gy), STEPS * t + 3;
    ProgramShape(g, gx, gy);
    forall u | 0 <= u < THREADS
      ensures PhaseLocal(k, pc, pc + TILE, mem, local)[u].acc == g.PaddedDot(g.Row(gy, u), g.Col(gx, u), (t + 1) * TILE)
    {
      SoloMacs(g, gx, gy, t, u, TILE, local[u], mem);
      PhaseThread(k, pc, TILE, mem, local, u);
    }
  }

  // What thread u stores at the end, if its element is in range.
  function Result<H(!new), F(!new)>(g: Gemm<H, F>, gx: nat, gy: nat, u: nat): Option<H> {
    var row, col := g.Row(gy, u), g.Col(gx, u);
    if row < g.M && col < g.N then Some(g.store(row, col, g.PaddedDot(row, col, g.Tiles() * TILE))) else None
  }

  lemma StorePhase<H(!new), F(!new)>(g: Gemm<H, F>, gx: nat, gy: nat, mem: seq<H>, local: seq<Thread<H, F>>)
    requires Sized(g, mem, local) && Footprint(g.Program(gx, gy)) && Accumulated(g, gx, gy, local, g.Tiles() * TILE)
    ensures var pc := STEPS * g.Tiles();
      forall u | 0 <= u < THREADS :: PhaseLocal(g.Program(gx, gy), pc, pc + 1, mem, local)[u].out == Result(g, gx, gy, u)
  {
    var k, pc := g.Program(gx, gy), STEPS * g.Tiles();
    forall u | 0 <= u < THREADS
      ensures PhaseLocal(k, pc, pc + 1, mem, local)[u].out == Result(g, gx, gy, u)
    {
      assert Solo(k, u, pc, 0, local[u], mem) == (local[u], mem);
      assert Solo(k, u, pc, 1, local[u], mem) == g.Act(gx, gy, pc, u, local[u], mem);
    }
  }

  ghost predicate AllStored<H(!new), F(!new)>(g: Gemm<H, F>, gx: nat, gy: nat, local: seq<Thread<H, F>>) {
    |local| == THREADS && forall u | 0 <= u < THREADS :: local[u].out == Result(g, gx, gy, u)
  }

  lemma ProgramShape<H(!new), F(!new)>(g: Gemm<H, F>, gx: nat, gy: nat)
    ensures var k := g.Program(gx, gy); k.units == THREADS && k.cells == 2 * THREADS && k.length == STEPS * g.Tiles() + 1
  {
  }

  lemma TileStart(t: nat)
    ensures STEPS * t / STEPS == t && STEPS * t % STEPS == 0 && (STEPS * t + 3) / STEPS == t && (STEPS * t + 3) % STEPS == 3
  {
  }

  // Tile t's two phases: stage, then accumulate.
  lemma TilePhases<H(!new), F(!new)>(g: Gemm<H, F>, gx: nat, gy: nat, t: nat, mem: seq<H>, local: seq<Thread<H, F>>)
    returns (m2: seq<H>, l2: seq<Thread<H, F>>)
    requires t < g.Tiles() && Sized(g, mem, local) && Footprint(g.Program(gx, gy)) && Accumulated(g, gx, gy, local, t * TILE)
    ensures Sized(g, m2, l2) && Accumulated(g, gx, gy, l2, (t + 1) * TILE)
    ensures Outcome(g.Program(gx, gy), STEPS * t, mem, local) == Outcome(g.Program(gx, gy), STEPS * (t + 1), m2, l2)
  {
    hide Footprint, Gemm.Program, Gemm.Tiles, PhaseMem, PhaseLocal, Outcome, Staged, Accumulated;
    var k, pc := g.Program(gx, gy), STEPS * t;
    ProgramShape(g, gx, gy);
    TileStart(t);
    PhaseEnds(g, gx, gy, pc);
    PhaseEnds(g, gx, gy, pc + 3);
    StagePhase(g, gx, gy, t, mem, local);
    var m1 := PhaseMem(k, pc, pc + 2, mem, local);
    MacPhase(g, gx, gy, t, m1, local);
    m2, l2 := PhaseMem(k, pc + 3, pc + 19, m1, local), PhaseLocal(k, pc + 3, pc + 19, m1, local);
    OutcomeUnfolds(k, pc, pc + 2, mem, local);
    OutcomeUnfolds(k, pc + 3, pc + 19, m1, local);
  }

  lemma LastPhase<H(!new), F(!new)>(g: Gemm<H, F>, gx: nat, gy: nat, mem: seq<H>, local: seq<Thread<H, F>>)
    requires Sized(g, mem, local) && Footprint(g.Program(gx, gy)) && Accumulated(g, gx, gy, local, g.Tiles() * TILE)
    ensures AllStored(g, gx, gy, Outcome(g.Program(gx, gy), STEPS * g.Tiles(), mem, local).1)
  {
    hide Footprint, Gemm.Program, Gemm.Tiles, PhaseMem, PhaseLocal, Outcome, Accumulated, Result;
    ProgramShape(g, gx, gy);
    PhaseEnds(g, gx, gy, STEPS * g.Tiles());
    StorePhase(g, gx, gy, mem, local);
    OutcomeLast(g.Program(gx, gy), STEPS * g.Tiles(), mem, local);
  }

  // From the start of tile t the block goes on to store every thread's whole dot product.
  lemma {:induction false} OutcomeFrom<H(!new), F(!new)>(g: Gemm<H, F>, gx: nat, gy: nat, t: nat, mem: seq<H>, local: seq<Thread<H, F>>)
    requires t <= g.Tiles() && Sized(g, mem, local) && Footprint(g.Program(gx, gy)) && Accumulated(g, gx, gy, local, t * TILE)
    ensures AllStored(g, gx, gy, Outcome(g.Program(gx, gy), STEPS * t, mem, local).1)
    decreases g.Tiles() - t
  {
    hide Footprint, Gemm.Program, Gemm.Tiles, Outcome, Accumulated, AllStored;
    ProgramShape(g, gx, gy);
    if t == g.Tiles() {
      LastPhase(g, gx, gy, mem, local);
    } else {
      var m2, l2 := TilePhases(g, gx, gy, t, mem, local);
      OutcomeFrom(g, gx, gy, t + 1, m2, l2);
    }
  }

  // ----- The whole launch -----

  lemma {:induction false} PaddingDropsOut<H(!new), F(!new)>(g: Gemm<H, F>, row: nat, col: nat, n: nat)
    requires row < g.M && col < g.N && (n <= g.K || g.Settled(row, col))
    ensures g.PaddedDot(row, col, n) == g.Dot(row, col, if n <= g.K then n else g.K)
    decreases n
  {
    hide Numbers.Mac, Numbers.ZeroH;
    if n > 0 {
      PaddingDropsOut(g, row, col, n - 1);
    }
  }

  ghost function Fresh<H(!new), F(!new)>(g: Gemm<H, F>): (l: seq<Thread<H, F>>)
    ensures |l| == THREADS
  {
    seq(THREADS, _ => Thread(g.num.zero, None))
  }

  // Some interleaving of block (gx, gy), from whatever shared memory held, ends in b.
  ghost predicate BlockRuns<H(!new), F(!new)>(g: Gemm<H, F>, gx: nat, gy: nat, b: Block<Thread<H, F>, H>) {
    var k := g.Program(gx, gy);
    Footprint(k) && Shaped(k, b) && Finished(k, b) &&
    exists mem: seq<H>, cs :: |mem| == k.cells && Follows(k, Start(k, mem, Fresh(g)), cs, b)
  }

  /** However the 256 threads interleave between barriers, thread (ty, tx) ends with the reference loop's value for its element. */
  lemma EveryInterleaving<H(!new), F(!new)>(g: Gemm<H, F>, gx: nat, gy: nat, b: Block<Thread<H, F>, H>, u: nat)
    requires g.PadNeutral() && BlockRuns(g, gx, gy, b) && u < THREADS
    ensures b.local[u].out ==
      if g.Row(gy, u) < g.M && g.Col(gx, u) < g.N then
        Some(g.store(g.Row(gy, u), g.Col(gx, u), g.Dot(g.Row(gy, u), g.Col(gx, u), g.K)))
      else None
  {
    BlockOutcome(g, gx, gy, b, u);
    ResultIsReference(g, gx, gy, u);
    hide *;
  }

  lemma BlockOutcome<H(!new), F(!new)>(g: Gemm<H, F>, gx: nat, gy: nat, b: Block<Thread<H, F>, H>, u: nat)
    requires BlockRuns(g, gx, gy, b) && u < THREADS
    ensures b.local[u].out == Result(g, gx, gy, u)
  {
    var k := g.Program(gx, gy);
    NoRaces(g, gx, gy);
    FreshIsZero(g, gx, gy);
    hide RaceFree, Footprint, Follows, Start, Outcome, Fresh, Accumulated, Result;
    var mem: seq<H>, cs :| |mem| == k.cells && Follows(k, Start(k, mem, Fresh(g)), cs, b);
    Deterministic(k, mem, Fresh(g), cs, b);
    OutcomeFrom(g, gx, gy, 0, mem, Fresh(g));
  }

  lemma FreshIsZero<H(!new), F(!new)>(g: Gemm<H, F>, gx: nat, gy: nat)
    ensures Accumulated(g, gx, gy, Fresh(g), 0)
  {
  }

  lemma ResultIsReference<H(!new), F(!new)>(g: Gemm<H, F>, gx: nat, gy: nat, u: nat)
    requires g.PadNeutral()
    ensures Result(g, gx, gy, u) ==
      if g.Row(gy, u) < g.M && g.Col(gx, u) < g.N then
        Some(g.store(g.Row(gy, u), g.Col(gx, u), g.Dot(g.Row(gy, u), g.Col(gx, u), g.K)))
      else None
  {
    var row, col := g.Row(gy, u), g.Col(gx, u);
    if row < g.M && col < g.N {
      assert g.K % TILE != 0 ==> g.Settled(row, col);
      PaddingDropsOut(g, row, col, g.Tiles() * TILE);
    }
  }

  /** No thread waits at a barrier for ever: from every reachable state some thread can step, or all have finished. */
  lemma NeverStuck<H(!new), F(!new)>(g: Gemm<H, F>, gx: nat, gy: nat, mem: seq<H>, cs: seq<Choice>, b: Block<Thread<H, F>, H>)
    requires |mem| == 2 * THREADS && Footprint(g.Program(gx, gy))
    requires Follows(g.Program(gx, gy), Start(g.Program(gx, gy), mem, Fresh(g)), cs, b) && Shaped(g.Program(gx, gy), b)
    ensures Finished(g.Program(gx, gy), b) || exists c :: Enabled(g.Program(gx, gy), b, c)
  {
    NoRaces(g, gx, gy);
    NoDeadlock(g.Program(gx, gy), mem, Fresh(g), cs, b);
  }

  // Blocks along one side of the output.
  function Blocks(extent: nat): nat {
    (extent + TILE - 1) / TILE
  }

  // Thread u of block (gx, gy) is the one that computes element (row, col).
  ghost predicate Owns<H(!new), F(!new)>(g: Gemm<H, F>, row: nat, col: nat, gx: nat, gy: nat, u: nat) {
    gx < Blocks(g.N) && gy < Blocks(g.M) && u < THREADS && g.Row(gy, u) == row && g.Col(gx, u) == col
  }

  /** Every in-range output element is owned by exactly one thread of the grid. */
  lemma OneOwner<H(!new), F(!new)>(g: Gemm<H, F>, row: nat, col: nat) returns (gx: nat, gy: nat, u: nat)
    requires row < g.M && col < g.N
    ensures Owns(g, row, col, gx, gy, u)
    ensures forall hx: nat, hy: nat, v: nat :: Owns(g, row, col, hx, hy, v) ==> hx == gx && hy == gy && v == u
  {
    gx, gy, u := col / TILE, row / TILE, row % TILE * TILE + col % TILE;
  }

  // C holds what the threads of every block of the grid stored.
  ghost predicate Launched<H(!new), F(!new)>(g: Gemm<H, F>, c: seq<H>) {
    && |c| == g.M * g.N
    && forall gx, gy | 0 <= gx < Blocks(g.N) && 0 <= gy < Blocks(g.M) :: BlockStored(g, c, gx, gy)
  }

  ghost predicate BlockStored<H(!new), F(!new)>(g: Gemm<H, F>, c: seq<H>, gx: nat, gy: nat)
    requires |c| == g.M * g.N
  {
    exists b :: BlockRuns(g, gx, gy, b) && forall u | 0 <= u < THREADS :: ThreadStored(g, c, gx, gy, u, b.local[u].out)
  }

  ghost predicate ThreadStored<H(!new), F(!new)>(g: Gemm<H, F>, c: seq<H>, gx: nat, gy: nat, u: nat, out: Option<H>)
    requires |c| == g.M * g.N
  {
    var row, col := g.Row(gy, u), g.Col(gx, u);
    out.Some? && row < g.M && col < g.N ==> CellAt(c, g.M, g.N, row, col) == out.value
  }

  function CellAt<H>(c: seq<H>, rows: nat, cols: nat, row: nat, col: nat): H
    requires |c| == rows * cols && row < rows && col < cols
  {
    IndexInverse(cols, rows, col, row);
    c[Index(cols, col, row)]
  }

  /** The launch computes exactly what the sequential triple loop computes, for all M, N and K and every interleaving of every block. */
  lemma LaunchIsReference<H(!new), F(!new)>(g: Gemm<H, F>, c: seq<H>, row: nat, col: nat)
    requires g.PadNeutral() && Launched(g, c) && row < g.M && col < g.N
    ensures CellAt(c, g.M, g.N, row, col) == g.store(row, col, g.Dot(row, col, g.K))
  {
    var gx, gy, u := OneOwner(g, row, col);
    assert BlockStored(g, c, gx, gy);
    hide BlockRuns, Gemm.PadNeutral;
    var b :| BlockRuns(g, gx, gy, b) && forall u | 0 <= u < THREADS :: ThreadStored(g, c, gx, gy, u, b.local[u].out);
    EveryInterleaving(g, gx, gy, b, u);
    assert ThreadStored(g, c, gx, gy, u, b.local[u].out);
  }

  lemma SomeBlockRun<H(!new), F(!new)>(g: Gemm<H, F>, gx: nat, gy: nat) returns (b: Block<Thread<H, F>, H>)
    ensures BlockRuns(g, gx, gy, b)
  {
    var k := g.Program(gx, gy);
    ActKeepsFootprint(g, gx, gy);
    NoRaces(g, gx, gy);
    hide Footprint, RaceFree, Follows, Start;
    ProgramShape(g, gx, gy);
    var mem := seq(2 * THREADS, _ => g.num.ZeroH());
    var cs;
    cs, b := Completes(k, mem, Fresh(g));
  }

  // The matrix the threads' results make up.
  ghost function ResultMatrix<H(!new), F(!new)>(g: Gemm<H, F>): (c: seq<H>)
    ensures |c| == g.M * g.N
  {
    seq(g.M * g.N, q requires 0 <= q < g.M * g.N =>
      if g.N > 0 then g.store(Quot(q, g.N), Rem(q, g.N), g.PaddedDot(Quot(q, g.N), Rem(q, g.N), g.Tiles() * TILE)) else g.num.ZeroH())
  }

  /** Every launch has an outcome: some matrix holds what finished blocks stored. */
  lemma LaunchExists<H(!new), F(!new)>(g: Gemm<H, F>) returns (c: seq<H>)
    ensures Launched(g, c)
  {
    c := ResultMatrix(g);
    forall gx, gy | 0 <= gx < Blocks(g.N) && 0 <= gy < Blocks(g.M)
      ensures BlockStored(g, c, gx, gy)
    {
      hide Gemm.Tiles, Gemm.PaddedDot, BlockRuns;
      var b := SomeBlockRun(g, gx, gy);
      forall u | 0 <= u < THREADS
        ensures ThreadStored(g, c, gx, gy, u, b.local[u].out)
      {
        BlockOutcome(g, gx, gy, b, u);
        var row, col := g.Row(gy, u), g.Col(gx, u);
        if row < g.M && col < g.N {
          QuotRemOf(g.N, g.M, col, row);
        }
        hide Quot, Rem, Gemm.Row, Gemm.Col;
      }
    }
  }
}
